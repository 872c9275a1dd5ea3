/**
 Aggregating the commissions of a day into the summary table, and summing a month of the table.
 Both equal sums over the raw commission records.
 */
module Rollup {
  import opened Commission
  import opened Summaries
  import Calendar

  // ------------------------------------------------------------------
  // Raw sums
  // ------------------------------------------------------------------

  predicate InScope(k: Key, scope: Scope) {
    scope.Everyone? || (k.ownerType == scope.ownerType && k.id == scope.id)
  }

  function SystemPaid(r: Record, scope: Scope): int {
    if scope.Everyone? || scope == Owner(System, 0) then r.system else 0
  }

  function AgentPaid(r: Record, scope: Scope): int {
    if r.agent.Some? && (scope.Everyone? || scope == Owner(Agent, r.agent.value)) then r.agentAmount else 0
  }

  function PartnerPaid(r: Record, scope: Scope): int {
    if r.partner.Some? && (scope.Everyone? || scope == Owner(Partner, r.partner.value)) then r.partnerAmount else 0
  }

  /** What a record pays to everyone, or to one owner. */
  function Paid(r: Record, scope: Scope): int {
    SystemPaid(r, scope) + AgentPaid(r, scope) + PartnerPaid(r, scope)
  }

  function PaidBy(records: seq<Record>, scope: Scope): int {
    if records == [] then 0 else PaidBy(records[..|records| - 1], scope) + Paid(records[|records| - 1], scope)
  }

  /** The same over the records created from `from` up to `until`, in seconds. */
  function PaidBetween(records: seq<Record>, scope: Scope, from: int, until: int): int {
    if records == [] then 0
    else
      var last := records[|records| - 1];
      PaidBetween(records[..|records| - 1], scope, from, until)
      + (if from <= last.createdAt < until then Paid(last, scope) else 0)
  }

  /** The records of one UTC day. */
  function OnDay(records: seq<Record>, day: int): seq<Record> {
    if records == [] then []
    else
      var init, last := OnDay(records[..|records| - 1], day), records[|records| - 1];
      if DayStart(day) <= last.createdAt < DayStart(day + 1) then init + [last] else init
  }

  lemma PaidByOneMore(records: seq<Record>, r: Record, scope: Scope)
    ensures PaidBy(records + [r], scope) == PaidBy(records, scope) + Paid(r, scope)
  {
    assert (records + [r])[..|records|] == records;
  }

  lemma {:induction false} PaidOnDay(records: seq<Record>, scope: Scope, day: int)
    ensures PaidBy(OnDay(records, day), scope) == PaidBetween(records, scope, DayStart(day), DayStart(day + 1))
    decreases |records|
  {
    if records != [] {
      var init, last := records[..|records| - 1], records[|records| - 1];
      PaidOnDay(init, scope, day);
      PaidByOneMore(OnDay(init, day), last, scope);
    }
  }

  lemma {:induction false} OnDayFromCalculator(records: seq<Record>, day: int)
    requires FromCalculator(records)
    ensures FromCalculator(OnDay(records, day))
    decreases |records|
  {
    if records != [] {
      OnDayFromCalculator(records[..|records| - 1], day);
    }
  }

  lemma {:induction false} WindowsTile(records: seq<Record>, scope: Scope, from: int, mid: int, until: int)
    requires from <= mid <= until
    ensures PaidBetween(records, scope, from, until)
         == PaidBetween(records, scope, from, mid) + PaidBetween(records, scope, mid, until)
    decreases |records|
  {
    if records != [] {
      WindowsTile(records[..|records| - 1], scope, from, mid, until);
    }
  }

  // ------------------------------------------------------------------
  // One day's groups
  // ------------------------------------------------------------------

  /** The commission column of a day's groups, as rows of the table. */
  ghost function GroupRows(day: int, groups: map<Key, Summary>, scope: Scope): map<Row, int> {
    map row: Row | row in (set k | k in groups && InScope(k, scope) :: (day, k)) :: groups[row.1].commission
  }

  lemma GroupRowsChanged(day: int, groups: map<Key, Summary>, scope: Scope, k: Key, s: Summary)
    ensures GroupRows(day, groups[k := s], scope)
         == if InScope(k, scope) then GroupRows(day, groups, scope)[(day, k) := s.commission]
            else GroupRows(day, groups, scope)
  {
    var rows, after := GroupRows(day, groups, scope), GroupRows(day, groups[k := s], scope);
    forall row: Row
      ensures row in after <==> row in rows || (row == (day, k) && InScope(k, scope))
      ensures row in after ==> after[row] == if row == (day, k) then s.commission else rows[row]
    {
      assert row == (row.0, row.1);
    }
  }

  lemma GroupRowsAdded(day: int, groups: map<Key, Summary>, scope: Scope, k: Key, fee: int, commission: int)
    ensures SumMap(GroupRows(day, AddToGroup(groups, k, fee, commission), scope))
         == SumMap(GroupRows(day, groups, scope)) + (if InScope(k, scope) then commission else 0)
  {
    var s := AddToGroup(groups, k, fee, commission)[k];
    GroupRowsChanged(day, groups, scope, k, s);
    SumMapSet(GroupRows(day, groups, scope), (day, k), s.commission);
  }

  lemma GroupRowsAddedSystem(day: int, groups: map<Key, Summary>, scope: Scope, r: Record)
    ensures SumMap(GroupRows(day, AddToGroup(groups, SystemKey(r), r.fee, r.system), scope))
         == SumMap(GroupRows(day, groups, scope)) + SystemPaid(r, scope)
  {
    GroupRowsAdded(day, groups, scope, SystemKey(r), r.fee, r.system);
  }

  lemma GroupRowsAddedAgent(day: int, groups: map<Key, Summary>, scope: Scope, r: Record)
    requires IsFairSplit(r)
    ensures SumMap(GroupRows(day, AddAgent(groups, r), scope))
         == SumMap(GroupRows(day, groups, scope)) + AgentPaid(r, scope)
  {
    if r.agent.Some? && r.agentAmount > 0 {
      GroupRowsAdded(day, groups, scope, AgentKey(r), r.fee, r.agentAmount);
    }
  }

  lemma GroupRowsAddedPartner(day: int, groups: map<Key, Summary>, scope: Scope, r: Record)
    requires IsFairSplit(r)
    ensures SumMap(GroupRows(day, AddPartner(groups, r), scope))
         == SumMap(GroupRows(day, groups, scope)) + PartnerPaid(r, scope)
  {
    if r.partner.Some? && r.partnerAmount > 0 {
      GroupRowsAdded(day, groups, scope, PartnerKey(r), r.fee, r.partnerAmount);
    }
  }

  lemma GroupRowsAddedRecord(day: int, groups: map<Key, Summary>, scope: Scope, r: Record)
    requires IsFairSplit(r)
    ensures SumMap(GroupRows(day, AddRecord(groups, r), scope))
         == SumMap(GroupRows(day, groups, scope)) + Paid(r, scope)
  {
    var g1 := AddToGroup(groups, SystemKey(r), r.fee, r.system);
    var g2 := AddAgent(g1, r);
    calc {
      SumMap(GroupRows(day, AddPartner(g2, r), scope));
      { GroupRowsAddedPartner(day, g2, scope, r); }
      SumMap(GroupRows(day, g2, scope)) + PartnerPaid(r, scope);
      { GroupRowsAddedAgent(day, g1, scope, r); }
      SumMap(GroupRows(day, g1, scope)) + AgentPaid(r, scope) + PartnerPaid(r, scope);
      { GroupRowsAddedSystem(day, groups, scope, r); }
      SumMap(GroupRows(day, groups, scope)) + SystemPaid(r, scope) + AgentPaid(r, scope) + PartnerPaid(r, scope);
    }
  }

  /** A day's groups pay each owner, and everyone together, what the day's records do. */
  lemma {:induction false} GroupedPays(records: seq<Record>, day: int, scope: Scope)
    requires FromCalculator(records)
    ensures SumMap(GroupRows(day, Grouped(records), scope)) == PaidBy(records, scope)
    decreases |records|
  {
    if records == [] {
      assert GroupRows(day, map[], scope) == map[];
    } else {
      var init, last := records[..|records| - 1], records[|records| - 1];
      assert FromCalculator(init) && IsFairSplit(last);
      GroupedPays(init, day, scope);
      GroupRowsAddedRecord(day, Grouped(init), scope, last);
    }
  }

  function TotalFees(records: seq<Record>): int {
    if records == [] then 0 else TotalFees(records[..|records| - 1]) + records[|records| - 1].fee
  }

  lemma {:induction false} FeesArePaidOut(records: seq<Record>)
    requires FromCalculator(records)
    ensures PaidBy(records, Everyone) == TotalFees(records)
    decreases |records|
  {
    if records != [] {
      assert FromCalculator(records[..|records| - 1]) && IsFairSplit(records[|records| - 1]);
      FeesArePaidOut(records[..|records| - 1]);
    }
  }

  /** Over all groups of a day the commissions add up to the day's fees. */
  lemma GroupsPayTheFees(records: seq<Record>, day: int)
    requires FromCalculator(records)
    ensures SumMap(GroupRows(day, Grouped(records), Everyone)) == TotalFees(records)
  {
    GroupedPays(records, day, Everyone);
    FeesArePaidOut(records);
  }

  // ------------------------------------------------------------------
  // The summary table
  // ------------------------------------------------------------------

  /** The table after a day's groups have replaced the rows with their keys. */
  function Upserted(table: map<Row, Summary>, day: int, groups: map<Key, Summary>): map<Row, Summary> {
    map row: Row | row in table.Keys + (set k | k in groups :: (day, k)) ::
      if row.0 == day && row.1 in groups then groups[row.1] else table[row]
  }

  /** Aggregating a day twice leaves the table as aggregating it once. */
  lemma UpsertTwice(table: map<Row, Summary>, day: int, groups: map<Key, Summary>)
    ensures Upserted(Upserted(table, day, groups), day, groups) == Upserted(table, day, groups)
  {}

  lemma UpsertNothing(table: map<Row, Summary>, day: int)
    ensures Upserted(table, day, map[]) == table
  {}

  ghost predicate DayHolds(table: map<Row, Summary>, day: int, groups: map<Key, Summary>) {
    forall k :: ((day, k) in table <==> k in groups) && ((day, k) in table ==> table[(day, k)] == groups[k])
  }

  /** The table holds exactly the groups of that day's records. */
  ghost predicate DayAggregated(table: map<Row, Summary>, records: seq<Record>, day: int) {
    DayHolds(table, day, Grouped(OnDay(records, day)))
  }

  /** Aggregating a day completes that day, unless stale rows of other keys are in the way. */
  lemma UpsertCompletesDay(table: map<Row, Summary>, records: seq<Record>, day: int)
    ensures DayAggregated(Upserted(table, day, Grouped(OnDay(records, day))), records, day) <==>
            forall k :: (day, k) in table ==> k in Grouped(OnDay(records, day))
  {
    var groups := Grouped(OnDay(records, day));
    var after := Upserted(table, day, groups);
    assert forall k :: (day, k) in after <==> (day, k) in table || k in groups;
  }

  /** It touches no other day. */
  lemma UpsertKeepsOtherDays(table: map<Row, Summary>, groups: map<Key, Summary>, day: int, other: int,
                             expected: map<Key, Summary>)
    requires other != day
    ensures DayHolds(Upserted(table, day, groups), other, expected) <==> DayHolds(table, other, expected)
  {
    var after := Upserted(table, day, groups);
    assert forall k :: (other, k) in after <==> (other, k) in table;
    assert forall k :: (other, k) in table ==> after[(other, k)] == table[(other, k)];
  }

  lemma UpsertOne(table: map<Row, Summary>, day: int, groups: map<Key, Summary>, k: Key, s: Summary)
    ensures Upserted(table, day, groups)[(day, k) := s] == Upserted(table, day, groups[k := s])
  {}

  /** The rows a monthly query sums: one owner's, or everyone's, with dates from `lo` to `hi`. */
  ghost function RowsBetween(table: map<Row, Summary>, scope: Scope, lo: int, hi: int): map<Row, int> {
    map row | row in table && lo <= row.0 <= hi && InScope(row.1, scope) :: table[row].commission
  }

  /** The rows of a day outside the groups about to be written. */
  ghost function StaleRows(table: map<Row, Summary>, day: int, groups: map<Key, Summary>, scope: Scope): map<Row, int> {
    map row | row in table && row.0 == day && row.1 !in groups && InScope(row.1, scope) :: table[row].commission
  }

  lemma UpsertedRowAt(table: map<Row, Summary>, day: int, groups: map<Key, Summary>, scope: Scope, row: Row)
    ensures var rows := RowsBetween(Upserted(table, day, groups), scope, day, day);
            var stale, mine := StaleRows(table, day, groups, scope), GroupRows(day, groups, scope);
            && (row in rows <==> row in stale || row in mine)
            && (row in rows ==> rows[row] == if row in mine then mine[row] else stale[row])
            && !(row in stale && row in mine)
  {
    GroupRowsAt(day, groups, scope, row);
    UpsertedAt(table, day, groups, row);
  }

  lemma UnionOf<K(!new)>(all: map<K, int>, m: map<K, int>, n: map<K, int>)
    requires forall k :: (k in all <==> k in m || k in n) && !(k in m && k in n)
    requires forall k :: k in all ==> all[k] == if k in n then n[k] else m[k]
    ensures all == m + n && m.Keys !! n.Keys
  {}

  lemma UpsertedRows(table: map<Row, Summary>, day: int, groups: map<Key, Summary>, scope: Scope)
    ensures RowsBetween(Upserted(table, day, groups), scope, day, day)
         == StaleRows(table, day, groups, scope) + GroupRows(day, groups, scope)
    ensures StaleRows(table, day, groups, scope).Keys !! GroupRows(day, groups, scope).Keys
  {
    var rows := RowsBetween(Upserted(table, day, groups), scope, day, day);
    var stale, mine := StaleRows(table, day, groups, scope), GroupRows(day, groups, scope);
    forall row: Row
      ensures row in rows <==> row in stale || row in mine
      ensures row in rows ==> rows[row] == if row in mine then mine[row] else stale[row]
      ensures !(row in stale && row in mine)
    {
      UpsertedRowAt(table, day, groups, scope, row);
    }
    UnionOf(rows, stale, mine);
  }

  lemma GroupRowsAt(day: int, groups: map<Key, Summary>, scope: Scope, row: Row)
    ensures row in GroupRows(day, groups, scope) <==> row.0 == day && row.1 in groups && InScope(row.1, scope)
    ensures row in GroupRows(day, groups, scope) ==> GroupRows(day, groups, scope)[row] == groups[row.1].commission
  {
    assert row == (row.0, row.1);
  }

  lemma UpsertedAt(table: map<Row, Summary>, day: int, groups: map<Key, Summary>, row: Row)
    ensures row in Upserted(table, day, groups) <==> row in table || (row.0 == day && row.1 in groups)
    ensures row in Upserted(table, day, groups) ==>
              Upserted(table, day, groups)[row] == if row.0 == day && row.1 in groups then groups[row.1] else table[row]
  {
    assert row == (row.0, row.1);
  }

  /** A day's rows pay an owner, or everyone, what the day's records do. */
  ghost predicate DayPays(table: map<Row, Summary>, records: seq<Record>, day: int, scope: Scope) {
    SumMap(RowsBetween(table, scope, day, day)) == PaidBy(OnDay(records, day), scope)
  }

  /** Writing groups that pay what the records do makes the day pay if and only if the rows left over pay nothing. */
  lemma UpsertPaysIff(table: map<Row, Summary>, records: seq<Record>, day: int, groups: map<Key, Summary>, scope: Scope)
    requires SumMap(GroupRows(day, groups, scope)) == PaidBy(OnDay(records, day), scope)
    ensures DayPays(Upserted(table, day, groups), records, day, scope) <==>
            SumMap(StaleRows(table, day, groups, scope)) == 0
  {
    UpsertedRows(table, day, groups, scope);
    SumMapUnion(StaleRows(table, day, groups, scope), GroupRows(day, groups, scope));
  }

  lemma RowsSplit(table: map<Row, Summary>, scope: Scope, lo: int, hi: int)
    requires lo <= hi
    ensures RowsBetween(table, scope, lo, hi)
         == RowsBetween(table, scope, lo, hi - 1) + RowsBetween(table, scope, hi, hi)
    ensures RowsBetween(table, scope, lo, hi - 1).Keys !! RowsBetween(table, scope, hi, hi).Keys
  {}

  /** When every day pays, summing the table over days `lo` to `hi` is summing the raw records of those days. */
  lemma {:induction false} TableSumIsRawSum(
      table: map<Row, Summary>, records: seq<Record>, scope: Scope, lo: int, hi: int)
    requires lo - 1 <= hi
    requires forall day :: lo <= day <= hi ==> DayPays(table, records, day, scope)
    ensures SumMap(RowsBetween(table, scope, lo, hi))
         == PaidBetween(records, scope, DayStart(lo), DayStart(hi + 1))
    decreases hi - lo
  {
    if hi < lo {
      assert RowsBetween(table, scope, lo, hi) == map[];
      NothingBetween(records, scope, DayStart(lo));
    } else {
      TableSumIsRawSum(table, records, scope, lo, hi - 1);
      assert DayPays(table, records, hi, scope);
      RowsSplit(table, scope, lo, hi);
      SumMapUnion(RowsBetween(table, scope, lo, hi - 1), RowsBetween(table, scope, hi, hi));
      PaidOnDay(records, scope, hi);
      WindowsTile(records, scope, DayStart(lo), DayStart(hi), DayStart(hi + 1));
    }
  }

  lemma {:induction false} NothingBetween(records: seq<Record>, scope: Scope, at: int)
    ensures PaidBetween(records, scope, at, at) == 0
    decreases |records|
  {
    if records != [] {
      NothingBetween(records[..|records| - 1], scope, at);
    }
  }

  /**
   The monthly summary of an owner, from the first day of the month to the day before the next month
   starts, equals the owner's share of all commissions created in the month, whoever wrote the rows:
   it is enough that each day's rows pay the owner what the day's records do.
   */
  lemma MonthlySummaryIsRawSum(table: map<Row, Summary>, records: seq<Record>, scope: Scope, month: int)
    requires forall day :: Calendar.MonthStart(month) <= day < Calendar.MonthStart(month + 1) ==>
                             DayPays(table, records, day, scope)
    ensures SumMap(RowsBetween(table, scope, Calendar.MonthStart(month), Calendar.MonthStart(month + 1) - 1))
         == PaidBetween(records, scope, DayStart(Calendar.MonthStart(month)),
                        DayStart(Calendar.MonthStart(month + 1)))
  {
    Calendar.MonthsTile(month);
    TableSumIsRawSum(table, records, scope, Calendar.MonthStart(month), Calendar.MonthStart(month + 1) - 1);
  }

  // ------------------------------------------------------------------
  // The aggregator
  // ------------------------------------------------------------------

  /** The running totals of one aggregation, updated in place. */
  class Groups {
    var rows: map<Key, Summary>

    constructor ()
      ensures rows == map[]
    {
      rows := map[];
    }

    method Add(key: Key, fee: int, commission: int)
      modifies this
      ensures rows == AddToGroup(old(rows), key, fee, commission)
    {
      if key !in rows {
        rows := rows[key := Summary(0, 0, 0, 0)];
      }
      var s := rows[key];
      s := s.(count := s.count + 1);
      s := s.(volume := s.volume + fee);
      s := s.(fee := s.fee + fee);
      s := s.(commission := s.commission + commission);
      rows := rows[key := s];
    }

    method AddCommission(c: Record)
      modifies this
      ensures rows == AddRecord(old(rows), c)
    {
      Add(SystemKey(c), c.fee, c.system);
      if c.agent.Some? && c.agentAmount > 0 {
        Add(AgentKey(c), c.fee, c.agentAmount);
      }
      if c.partner.Some? && c.partnerAmount > 0 {
        Add(PartnerKey(c), c.fee, c.partnerAmount);
      }
    }
  }

  class Aggregator {
    var records: seq<Record>
    var table: map<Row, Summary>

    method UpsertDailySummary(day: int, key: Key, s: Summary)
      modifies `table
      ensures table == old(table)[(day, key) := s]
    {
      table := table[(day, key) := s];
    }

    method GetCommissionsByDate(day: int) returns (found: seq<Record>)
      ensures found == OnDay(records, day) && forall i :: 0 <= i < |found| ==> found[i].createdAt / 86400 == day
    {
      found := [];
      for i := 0 to |records|
        invariant found == OnDay(records[..i], day)
        invariant forall j :: 0 <= j < |found| ==> found[j].createdAt / 86400 == day
      {
        assert records[..i + 1][..i] == records[..i];
        DayIs(records[i].createdAt, day);
        if DayStart(day) <= records[i].createdAt < DayStart(day + 1) {
          found := found + [records[i]];
        }
      }
      assert records[..|records|] == records;
    }

    method Group(commissions: seq<Record>) returns (groups: map<Key, Summary>)
      ensures groups == Grouped(commissions)
    {
      var running := new Groups();
      for i := 0 to |commissions|
        invariant running.rows == Grouped(commissions[..i])
      {
        assert commissions[..i + 1][..i] == commissions[..i];
        running.AddCommission(commissions[i]);
      }
      assert commissions[..|commissions|] == commissions;
      groups := running.rows;
    }

    /** Groups the day's records and writes each group over its row. */
    method AggregateDaily(day: int)
      modifies `table
      ensures table == Upserted(old(table), day, Grouped(OnDay(records, day)))
    {
      var commissions := GetCommissionsByDate(day);
      if |commissions| == 0 {
        UpsertNothing(table, day);
      } else {
        var groups := Group(commissions);
        UpsertAll(day, groups);
      }
    }

    /** Upserts the groups in any order. */
    method UpsertAll(day: int, groups: map<Key, Summary>)
      modifies `table
      ensures table == Upserted(old(table), day, groups)
    {
      var rest := groups.Keys;
      ghost var done: map<Key, Summary> := map[];
      UpsertNothing(table, day);
      while rest != {}
        invariant rest <= groups.Keys && done.Keys == groups.Keys - rest
        invariant forall k :: k in done ==> done[k] == groups[k]
        invariant table == Upserted(old(table), day, done)
        decreases rest
      {
        var k :| k in rest;
        UpsertOne(old(table), day, done, k, groups[k]);
        UpsertDailySummary(day, k, groups[k]);
        rest, done := rest - {k}, done[k := groups[k]];
      }
      assert done == groups;
    }
  }
}
