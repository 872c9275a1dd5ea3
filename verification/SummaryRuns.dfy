/**
 Commissions being recorded while either service aggregates days into the summary table, in any order and
 however often.
 */
module SummaryRuns {
  import opened Commission
  import opened Summaries
  import opened Rollup
  import opened SqlSummaries
  import Calendar

  datatype Event =
    | Recorded(r: Record)
    | Aggregated(day: int, sql: bool)

  datatype Books = Books(records: seq<Record>, table: map<Row, Summary>)

  function Apply(b: Books, e: Event): Books {
    match e
    case Recorded(r) => b.(records := b.records + [r])
    case Aggregated(day, sql) =>
      var rs := OnDay(b.records, day);
      b.(table := Upserted(b.table, day, if sql then SqlGroups(rs) else Grouped(rs)))
  }

  function After(events: seq<Event>): Books {
    if events == [] then Books([], map[]) else Apply(After(events[..|events| - 1]), events[|events| - 1])
  }

  predicate IsOnDay(r: Record, day: int) {
    DayStart(day) <= r.createdAt < DayStart(day + 1)
  }

  /** What the day's commissions recorded since its last aggregation pay. */
  function LatePay(events: seq<Event>, day: int, scope: Scope): int {
    if events == [] then 0
    else
      var earlier := LatePay(events[..|events| - 1], day, scope);
      match events[|events| - 1]
      case Recorded(r) => if IsOnDay(r, day) then earlier + Paid(r, scope) else earlier
      case Aggregated(d, _) => if d == day then 0 else earlier
  }

  predicate FairEvent(e: Event) {
    e.Recorded? ==> IsFairSplit(e.r)
  }

  ghost predicate AllFair(events: seq<Event>) {
    forall i :: 0 <= i < |events| ==> FairEvent(events[i])
  }

  ghost function DaySum(b: Books, day: int, scope: Scope): int {
    SumMap(RowsBetween(b.table, scope, day, day))
  }

  lemma OneMoreOnDay(records: seq<Record>, r: Record, day: int, scope: Scope)
    ensures OnDay(records + [r], day) == if IsOnDay(r, day) then OnDay(records, day) + [r] else OnDay(records, day)
    ensures PaidBy(OnDay(records + [r], day), scope)
         == PaidBy(OnDay(records, day), scope) + if IsOnDay(r, day) then Paid(r, scope) else 0
  {
    assert (records + [r])[..|records|] == records;
    PaidByOneMore(OnDay(records, day), r, scope);
  }

  lemma GroupsOnlyGrow(records: seq<Record>, r: Record, k: Key)
    ensures k in Grouped(records) ==> k in Grouped(records + [r])
  {
    assert (records + [r])[..|records|] == records;
  }

  lemma StillClean(table: map<Row, Summary>, records: seq<Record>, r: Record, day: int)
    requires DayClean(table, records, day)
    ensures DayClean(table, records + [r], day)
  {
    OneMoreOnDay(records, r, day, Everyone);
    forall row: Row | row in table && row.0 == day && row.1 !in Grouped(OnDay(records + [r], day))
      ensures table[row].commission == 0
    {
      GroupsOnlyGrow(OnDay(records, day), r, row.1);
    }
  }

  /** A day's rows pay what its records do, less what came too late for its last aggregation. */
  lemma {:induction false} OnlyLatePayIsMissing(events: seq<Event>, day: int, scope: Scope)
    requires AllFair(events)
    ensures FromCalculator(After(events).records) && DayClean(After(events).table, After(events).records, day)
    ensures DaySum(After(events), day, scope) + LatePay(events, day, scope)
         == PaidBy(OnDay(After(events).records, day), scope)
    decreases |events|
  {
    if events == [] {
      assert RowsBetween(map[], scope, day, day) == map[];
    } else {
      var init, last := events[..|events| - 1], events[|events| - 1];
      assert AllFair(init) && FairEvent(last);
      OnlyLatePayIsMissing(init, day, scope);
      match last
      case Recorded(r) =>
        OneMoreOnDay(After(init).records, r, day, scope);
        StillClean(After(init).table, After(init).records, r, day);
      case Aggregated(d, sql) => AggregationPays(After(init), d, sql, day, scope);
    }
  }

  lemma AggregationPays(b: Books, d: int, sql: bool, day: int, scope: Scope)
    requires FromCalculator(b.records) && DayClean(b.table, b.records, day)
    ensures var b' := Apply(b, Aggregated(d, sql));
            && DayClean(b'.table, b.records, day)
            && DaySum(b', day, scope)
               == if d == day then PaidBy(OnDay(b.records, day), scope) else DaySum(b, day, scope)
  {
    var rs := OnDay(b.records, d);
    var groups := if sql then SqlGroups(rs) else Grouped(rs);
    if d == day {
      WriterPays(b.table, b.records, day, groups, scope);
    } else {
      WriterKeepsOtherDays(b.table, b.records, d, groups, day, scope);
    }
  }

  /** Exactly when a day's rows pay what its records do: when those recorded since its last aggregation pay nothing. */
  lemma DayPaysIff(events: seq<Event>, day: int, scope: Scope)
    requires AllFair(events)
    ensures DayPays(After(events).table, After(events).records, day, scope) <==> LatePay(events, day, scope) == 0
  {
    OnlyLatePayIsMissing(events, day, scope);
  }

  lemma {:induction false} LatePayNotNegative(events: seq<Event>, day: int, scope: Scope)
    requires AllFair(events)
    ensures LatePay(events, day, scope) >= 0
    decreases |events|
  {
    if events != [] {
      assert AllFair(events[..|events| - 1]) && FairEvent(events[|events| - 1]);
      LatePayNotNegative(events[..|events| - 1], day, scope);
    }
  }

  ghost function MonthSum(b: Books, scope: Scope, lo: int, hi: int): int {
    SumMap(RowsBetween(b.table, scope, lo, hi))
  }

  ghost predicate AllInTime(events: seq<Event>, scope: Scope, lo: int, hi: int) {
    forall day :: lo <= day <= hi ==> LatePay(events, day, scope) == 0
  }

  /** Late commissions are all that a sum over days may miss. */
  lemma {:induction false} DaysPayIff(events: seq<Event>, scope: Scope, lo: int, hi: int)
    requires AllFair(events) && lo - 1 <= hi
    ensures var raw := PaidBetween(After(events).records, scope, DayStart(lo), DayStart(hi + 1));
            MonthSum(After(events), scope, lo, hi) <= raw
            && (MonthSum(After(events), scope, lo, hi) == raw <==> AllInTime(events, scope, lo, hi))
    decreases hi - lo
  {
    var b := After(events);
    if hi < lo {
      assert RowsBetween(b.table, scope, lo, hi) == map[];
      NothingBetween(b.records, scope, DayStart(lo));
    } else {
      DaysPayIff(events, scope, lo, hi - 1);
      LatePayNotNegative(events, hi, scope);
      OneMoreDay(events, scope, lo, hi);
      assert AllInTime(events, scope, lo, hi) <==>
             AllInTime(events, scope, lo, hi - 1) && LatePay(events, hi, scope) == 0;
    }
  }

  lemma OneMoreDay(events: seq<Event>, scope: Scope, lo: int, hi: int)
    requires AllFair(events) && lo <= hi
    ensures var b := After(events);
            && MonthSum(b, scope, lo, hi) == MonthSum(b, scope, lo, hi - 1) + DaySum(b, hi, scope)
            && PaidBetween(b.records, scope, DayStart(lo), DayStart(hi + 1))
               == PaidBetween(b.records, scope, DayStart(lo), DayStart(hi))
                  + DaySum(b, hi, scope) + LatePay(events, hi, scope)
  {
    var b := After(events);
    RowsSplit(b.table, scope, lo, hi);
    SumMapUnion(RowsBetween(b.table, scope, lo, hi - 1), RowsBetween(b.table, scope, hi, hi));
    PaidOnDay(b.records, scope, hi);
    WindowsTile(b.records, scope, DayStart(lo), DayStart(hi), DayStart(hi + 1));
    OnlyLatePayIsMissing(events, hi, scope);
  }

  /**
   Whichever of the two services aggregated each day, and however often: the monthly summary of an owner is
   the owner's share of all commissions created in the month if and only if, for each of its days, the
   commissions recorded since the day's last aggregation pay the owner nothing. It is never more.
   */
  lemma MonthPaysIff(events: seq<Event>, scope: Scope, month: int)
    requires AllFair(events)
    ensures var lo, hi := Calendar.MonthStart(month), Calendar.MonthStart(month + 1) - 1;
            var raw := PaidBetween(After(events).records, scope, DayStart(lo), DayStart(hi + 1));
            MonthSum(After(events), scope, lo, hi) <= raw
            && (MonthSum(After(events), scope, lo, hi) == raw <==> AllInTime(events, scope, lo, hi))
  {
    Calendar.MonthsTile(month);
    DaysPayIff(events, scope, Calendar.MonthStart(month), Calendar.MonthStart(month + 1) - 1);
  }
}
