/**
 The scheduler's version of the daily summaries: one query with three GROUP BY branches joined by
 UNION ALL, and a loop that upserts its rows into the table the commission service also writes.
 */
module SqlSummaries {
  import opened Text
  import opened Commission
  import opened Summaries
  import opened Rollup

  // ------------------------------------------------------------------
  // The query
  // ------------------------------------------------------------------

  /** A row of the result: the GROUP BY columns with the owner, and the aggregates. */
  datatype SqlRow = SqlRow(key: Key, totals: Summary)

  /** The group of a record in the branch of an owner type; none when the WHERE clause drops it. */
  function GroupKey(b: OwnerType, r: Record): Option<Key> {
    match b
    case System => Some(SystemKey(r))
    case Agent => if r.agent.Some? then Some(AgentKey(r)) else None
    case Partner => if r.partner.Some? then Some(PartnerKey(r)) else None
  }

  /** The records of one group. */
  function InGroup(records: seq<Record>, b: OwnerType, k: Key): seq<Record> {
    if records == [] then []
    else
      var rest := InGroup(records[1..], b, k);
      if GroupKey(b, records[0]) == Some(k) then [records[0]] + rest else rest
  }

  /** COUNT(*), SUM(total_fee_amount) twice, and the sum of the branch's share. */
  function Aggregate(records: seq<Record>, b: OwnerType): Summary {
    Summary(|records|, SumFees(records), SumFees(records), SumOf(records, b))
  }

  /** The groups that occur, each once. */
  function Groups(records: seq<Record>, b: OwnerType): seq<Key> {
    if records == [] then []
    else
      var rest := Groups(records[1..], b);
      match GroupKey(b, records[0])
      case Some(k) => if k in rest then rest else [k] + rest
      case None => rest
  }

  function GroupBy(records: seq<Record>, b: OwnerType): (rows: seq<SqlRow>)
    ensures |rows| == |Groups(records, b)|
    ensures forall i :: 0 <= i < |rows| ==>
              var k := Groups(records, b)[i]; rows[i] == SqlRow(k, Aggregate(InGroup(records, b, k), b))
  {
    seq(|Groups(records, b)|, i requires 0 <= i < |Groups(records, b)| =>
      var k := Groups(records, b)[i]; SqlRow(k, Aggregate(InGroup(records, b, k), b)))
  }

  /** SELECT ... UNION ALL SELECT ... UNION ALL SELECT ... */
  function Query(records: seq<Record>): seq<SqlRow> {
    GroupBy(records, System) + GroupBy(records, Agent) + GroupBy(records, Partner)
  }

  lemma {:induction false} GroupsAre(records: seq<Record>, b: OwnerType, k: Key)
    ensures k in Groups(records, b) <==> InGroup(records, b, k) != []
    ensures k in Groups(records, b) ==> k.ownerType == b
    ensures forall i, j :: 0 <= i < j < |Groups(records, b)| ==> Groups(records, b)[i] != Groups(records, b)[j]
  {
    if records != [] {
      GroupsAre(records[1..], b, k);
    }
  }

  ghost predicate NoKeyTwice(rows: seq<SqlRow>) {
    forall i, j :: 0 <= i < j < |rows| ==> rows[i].key != rows[j].key
  }

  lemma BranchHasNoKeyTwice(records: seq<Record>, b: OwnerType)
    ensures NoKeyTwice(GroupBy(records, b))
    ensures forall i :: 0 <= i < |GroupBy(records, b)| ==> GroupBy(records, b)[i].key.ownerType == b
  {
    forall i | 0 <= i < |GroupBy(records, b)|
      ensures GroupBy(records, b)[i].key.ownerType == b
    {
      GroupsAre(records, b, Groups(records, b)[i]);
    }
    if Groups(records, b) != [] {
      GroupsAre(records, b, Groups(records, b)[0]);
    }
  }

  /** UNION ALL keeps duplicates, but there are none: no two rows of the result have the same key. */
  lemma QueryHasNoKeyTwice(records: seq<Record>)
    ensures NoKeyTwice(Query(records))
  {
    BranchHasNoKeyTwice(records, System);
    BranchHasNoKeyTwice(records, Agent);
    BranchHasNoKeyTwice(records, Partner);
  }

  // ------------------------------------------------------------------
  // The rows as groups
  // ------------------------------------------------------------------

  /** What writing the rows one after another leaves for each key. */
  function AsGroups(rows: seq<SqlRow>): map<Key, Summary> {
    if rows == [] then map[] else AsGroups(rows[..|rows| - 1])[rows[|rows| - 1].key := rows[|rows| - 1].totals]
  }

  lemma {:induction false} AsGroupsAt(rows: seq<SqlRow>, k: Key, s: Summary)
    requires NoKeyTwice(rows)
    ensures k in AsGroups(rows) && AsGroups(rows)[k] == s <==> SqlRow(k, s) in rows
    decreases |rows|
  {
    if rows != [] {
      var init, last := rows[..|rows| - 1], rows[|rows| - 1];
      AsGroupsAt(init, k, s);
      assert rows == init + [last];
      if k == last.key {
        assert forall i :: 0 <= i < |init| ==> init[i].key != k;
      }
    }
  }

  /** The order in which the database returns the rows does not matter. */
  lemma AsGroupsOrderIndependent(rows: seq<SqlRow>, records: seq<Record>)
    requires multiset(rows) == multiset(Query(records))
    ensures AsGroups(rows) == AsGroups(Query(records))
  {
    QueryHasNoKeyTwice(records);
    NoKeyTwicePermuted(Query(records), rows);
    forall k
      ensures k in AsGroups(rows) <==> k in AsGroups(Query(records))
      ensures k in AsGroups(rows) ==> AsGroups(rows)[k] == AsGroups(Query(records))[k]
    {
      if k in AsGroups(rows) {
        SameRow(rows, Query(records), k, AsGroups(rows)[k]);
      }
      if k in AsGroups(Query(records)) {
        SameRow(rows, Query(records), k, AsGroups(Query(records))[k]);
      }
    }
  }

  lemma SameRow(rows: seq<SqlRow>, other: seq<SqlRow>, k: Key, s: Summary)
    requires NoKeyTwice(rows) && NoKeyTwice(other) && multiset(rows) == multiset(other)
    ensures k in AsGroups(rows) && AsGroups(rows)[k] == s <==> k in AsGroups(other) && AsGroups(other)[k] == s
  {
    AsGroupsAt(rows, k, s);
    AsGroupsAt(other, k, s);
    assert SqlRow(k, s) in rows <==> SqlRow(k, s) in multiset(rows);
    assert SqlRow(k, s) in other <==> SqlRow(k, s) in multiset(other);
  }

  lemma NoKeyTwicePermuted(rows: seq<SqlRow>, other: seq<SqlRow>)
    requires NoKeyTwice(rows) && multiset(rows) == multiset(other)
    ensures NoKeyTwice(other)
  {
    forall i, j | 0 <= i < j < |other|
      ensures other[i].key != other[j].key
    {
      PairInPermutation(rows, other, i, j);
    }
  }

  lemma {:induction false} OnceEach(rows: seq<SqlRow>, row: SqlRow)
    requires NoKeyTwice(rows)
    ensures multiset(rows)[row] <= 1
    decreases |rows|
  {
    if rows != [] {
      OnceEach(rows[1..], row);
      assert rows == [rows[0]] + rows[1..];
      if row == rows[0] {
        assert row !in rows[1..];
        assert row !in multiset(rows[1..]);
      }
    }
  }

  lemma TwoOfThem(rows: seq<SqlRow>, i: nat, j: nat)
    requires i < j < |rows| && rows[i] == rows[j]
    ensures multiset(rows)[rows[i]] >= 2
  {
    assert rows == rows[..j] + ([rows[j]] + rows[j + 1..]);
    assert rows[i] == rows[..j][i];
    assert rows[i] in multiset(rows[..j]);
    assert multiset(rows) == multiset(rows[..j]) + (multiset{rows[j]} + multiset(rows[j + 1..]));
  }

  lemma PairInPermutation(rows: seq<SqlRow>, other: seq<SqlRow>, i: nat, j: nat)
    requires NoKeyTwice(rows) && multiset(rows) == multiset(other) && i < j < |other|
    ensures other[i].key != other[j].key
  {
    assert other[i] in multiset(rows) && other[j] in multiset(rows);
    var k :| 0 <= k < |rows| && rows[k] == other[i];
    var l :| 0 <= l < |rows| && rows[l] == other[j];
    OnceEach(rows, other[i]);
    if other[i] == other[j] {
      TwoOfThem(other, i, j);
    }
  }

  // ------------------------------------------------------------------
  // Against the loop
  // ------------------------------------------------------------------

  function SqlGroups(records: seq<Record>): map<Key, Summary> {
    AsGroups(Query(records))
  }

  lemma RowInBranch(records: seq<Record>, b: OwnerType, k: Key, s: Summary)
    ensures SqlRow(k, s) in GroupBy(records, b) <==>
            InGroup(records, b, k) != [] && s == Aggregate(InGroup(records, b, k), b)
  {
    GroupsAre(records, b, k);
    if k in Groups(records, b) {
      var i :| 0 <= i < |Groups(records, b)| && Groups(records, b)[i] == k;
      assert GroupBy(records, b)[i] == SqlRow(k, Aggregate(InGroup(records, b, k), b));
    }
  }

  /** The group of a key can only come from the branch of its owner type. */
  lemma OnlyItsBranch(records: seq<Record>, b: OwnerType, k: Key)
    ensures k.ownerType != b ==> InGroup(records, b, k) == []
  {
    GroupsAre(records, b, k);
  }

  /** The query's groups: those with a record, each with the count and the sums over its records. */
  lemma SqlGroupsAt(records: seq<Record>, k: Key)
    ensures k in SqlGroups(records) <==> InGroup(records, k.ownerType, k) != []
    ensures k in SqlGroups(records) ==>
              SqlGroups(records)[k] == Aggregate(InGroup(records, k.ownerType, k), k.ownerType)
  {
    QueryHasNoKeyTwice(records);
    var b := k.ownerType;
    var s := Aggregate(InGroup(records, b, k), b);
    RowInQuery(records, k, s);
    AsGroupsAt(Query(records), k, s);
    if k in SqlGroups(records) {
      RowInQuery(records, k, SqlGroups(records)[k]);
      AsGroupsAt(Query(records), k, SqlGroups(records)[k]);
    }
  }

  /** The record has a row of the query's group: its own type and currency, and the owner, whatever it earned. */
  predicate IsNamed(r: Record, k: Key) {
    && k.transactionType == r.transactionType && k.currency == r.currency
    && match k.ownerType
       case System => k.id == 0
       case Agent => r.agent == Some(k.id)
       case Partner => r.partner == Some(k.id)
  }

  function NamedIn(records: seq<Record>, k: Key): seq<Record> {
    if records == [] then []
    else if IsNamed(records[0], k) then [records[0]] + NamedIn(records[1..], k)
    else NamedIn(records[1..], k)
  }

  lemma {:induction false} InGroupIsNamed(records: seq<Record>, k: Key)
    ensures InGroup(records, k.ownerType, k) == NamedIn(records, k)
  {
    if records != [] {
      InGroupIsNamed(records[1..], k);
    }
  }

  /** The query has a row for each key some record names; it counts these records and sums their fees and shares. */
  lemma SqlGroupsAre(records: seq<Record>, k: Key)
    ensures var ms := NamedIn(records, k);
            && (k in SqlGroups(records) <==> ms != [])
            && (k in SqlGroups(records) ==>
                  SqlGroups(records)[k] == Summary(|ms|, SumFees(ms), SumFees(ms), SumOf(ms, k.ownerType)))
  {
    SqlGroupsAt(records, k);
    InGroupIsNamed(records, k);
  }

  lemma RowInQuery(records: seq<Record>, k: Key, s: Summary)
    ensures var g := InGroup(records, k.ownerType, k);
            SqlRow(k, s) in Query(records) <==> g != [] && s == Aggregate(g, k.ownerType)
  {
    RowInBranch(records, System, k, s);
    RowInBranch(records, Agent, k, s);
    RowInBranch(records, Partner, k, s);
    OnlyItsBranch(records, System, k);
    OnlyItsBranch(records, Agent, k);
    OnlyItsBranch(records, Partner, k);
  }

  lemma {:induction false} LoopAgainstGroup(records: seq<Record>, k: Key)
    requires FromCalculator(records)
    ensures var g := InGroup(records, k.ownerType, k);
            && Total(records, k, Commissions) == SumOf(g, k.ownerType)
            && 0 <= Total(records, k, Count) <= |g|
            && (Total(records, k, Count) == 0 ==> Total(records, k, Commissions) == 0)
  {
    if records != [] {
      assert IsFairSplit(records[0]);
      assert FromCalculator(records[1..]);
      LoopAgainstGroup(records[1..], k);
    }
  }

  /** The two groupings pay the same: equal commission on every key of the loop, zero on keys only SQL has. */
  lemma SqlTwinAgrees(records: seq<Record>, k: Key)
    requires FromCalculator(records)
    ensures k in Grouped(records) ==>
              k in SqlGroups(records) && SqlGroups(records)[k].commission == Grouped(records)[k].commission
    ensures k in SqlGroups(records) && k !in Grouped(records) ==> SqlGroups(records)[k].commission == 0
  {
    GroupedIsFilterAndSum(records, k, Commissions);
    LoopAgainstGroup(records, k);
    SqlGroupsAt(records, k);
  }

  /** Every agent and partner named in a record earned something. */
  ghost predicate NoZeroShares(records: seq<Record>) {
    forall i :: 0 <= i < |records| ==>
      && (records[i].agent.Some? ==> records[i].agentAmount > 0)
      && (records[i].partner.Some? ==> records[i].partnerAmount > 0)
  }

  lemma {:induction false} NoZeroSharesSame(records: seq<Record>, k: Key)
    requires NoZeroShares(records)
    ensures var g := InGroup(records, k.ownerType, k);
            && Total(records, k, Count) == |g| && Total(records, k, Fees) == SumFees(g)
            && Total(records, k, Volume) == SumFees(g) && Total(records, k, Commissions) == SumOf(g, k.ownerType)
  {
    if records != [] {
      NoZeroSharesSame(records[1..], k);
    }
  }

  /** A record with a zero share is counted by the query and not by the loop. */
  lemma {:induction false} ZeroShareCounted(records: seq<Record>, i: nat, b: OwnerType)
    requires FromCalculator(records) && i < |records| && !b.System?
    requires GroupKey(b, records[i]).Some? && ShareOf(records[i], b) == 0
    ensures Total(records, GroupKey(b, records[i]).value, Count) < |InGroup(records, b, GroupKey(b, records[i]).value)|
  {
    var k := GroupKey(b, records[i]).value;
    assert k.ownerType == b;
    assert FromCalculator(records[1..]);
    if i > 0 {
      ZeroShareCounted(records[1..], i - 1, b);
    } else {
      LoopAgainstGroup(records[1..], k);
    }
  }

  /** The two groupings are the same, counts and fees included, exactly when no record has a zero share. */
  lemma TwinsIdenticalIff(records: seq<Record>)
    requires FromCalculator(records)
    ensures SqlGroups(records) == Grouped(records) <==> NoZeroShares(records)
  {
    if NoZeroShares(records) {
      forall k
        ensures k in SqlGroups(records) <==> k in Grouped(records)
        ensures k in SqlGroups(records) ==> SqlGroups(records)[k] == Grouped(records)[k]
      {
        SameWithoutZeros(records, k);
      }
    } else {
      var i :| 0 <= i < |records| && !((records[i].agent.Some? ==> records[i].agentAmount > 0)
                                       && (records[i].partner.Some? ==> records[i].partnerAmount > 0));
      assert IsFairSplit(records[i]);
      var noAgentShare := records[i].agent.Some? && records[i].agentAmount == 0;
      TwinsDiffer(records, i, if noAgentShare then Agent else Partner);
    }
  }

  lemma TwinsDiffer(records: seq<Record>, i: nat, b: OwnerType)
    requires FromCalculator(records) && i < |records| && !b.System?
    requires GroupKey(b, records[i]).Some? && ShareOf(records[i], b) == 0
    ensures SqlGroups(records) != Grouped(records)
  {
    var k := GroupKey(b, records[i]).value;
    ZeroShareCounted(records, i, b);
    SqlGroupsAt(records, k);
    GroupedIsFilterAndSum(records, k, Count);
    assert k in SqlGroups(records) && k in Grouped(records) ==>
             SqlGroups(records)[k].count != Grouped(records)[k].count;
  }

  lemma SameWithoutZeros(records: seq<Record>, k: Key)
    requires NoZeroShares(records)
    ensures k in SqlGroups(records) <==> k in Grouped(records)
    ensures k in SqlGroups(records) ==> SqlGroups(records)[k] == Grouped(records)[k]
  {
    SqlGroupsAt(records, k);
    NoZeroSharesSame(records, k);
    GroupedIsFilterAndSum(records, k, Count);
    GroupedIsFilterAndSum(records, k, Volume);
    GroupedIsFilterAndSum(records, k, Fees);
    GroupedIsFilterAndSum(records, k, Commissions);
  }

  // ------------------------------------------------------------------
  // The table, whoever writes it
  // ------------------------------------------------------------------

  lemma {:induction false} SumMapZero<K(!new)>(m: map<K, int>)
    requires forall k :: k in m ==> m[k] == 0
    ensures SumMap(m) == 0
    decreases |m|
  {
    if m != map[] {
      var k :| k in m && SumMap(m) == m[k] + SumMap(m - {k});
      SumMapZero(m - {k});
    }
  }

  lemma SumMapExtended<K(!new)>(m: map<K, int>, n: map<K, int>)
    requires forall k :: k in m ==> k in n && n[k] == m[k]
    requires forall k :: k in n && k !in m ==> n[k] == 0
    ensures SumMap(n) == SumMap(m)
  {
    var rest := n - m.Keys;
    assert n == m + rest;
    SumMapUnion(m, rest);
    SumMapZero(rest);
  }

  /** The query's groups pay each owner, and everyone together, what the records do. */
  lemma SqlGroupsPay(records: seq<Record>, day: int, scope: Scope)
    requires FromCalculator(records)
    ensures SumMap(GroupRows(day, SqlGroups(records), scope)) == PaidBy(records, scope)
  {
    var loop, sql := GroupRows(day, Grouped(records), scope), GroupRows(day, SqlGroups(records), scope);
    forall row: Row
      ensures row in loop ==> row in sql && sql[row] == loop[row]
      ensures row in sql && row !in loop ==> sql[row] == 0
    {
      GroupRowsAt(day, Grouped(records), scope, row);
      GroupRowsAt(day, SqlGroups(records), scope, row);
      SqlTwinAgrees(records, row.1);
    }
    SumMapExtended(loop, sql);
    GroupedPays(records, day, scope);
  }

  /** What the day has besides the loop's rows pays nothing: no rows at all, or rows written from these records. */
  ghost predicate DayClean(table: map<Row, Summary>, records: seq<Record>, day: int) {
    forall row: Row :: row in table && row.0 == day && row.1 !in Grouped(OnDay(records, day)) ==>
      table[row].commission == 0
  }

  lemma WriterPays(table: map<Row, Summary>, records: seq<Record>, day: int, groups: map<Key, Summary>, scope: Scope)
    requires FromCalculator(records) && DayClean(table, records, day)
    requires groups == Grouped(OnDay(records, day)) || groups == SqlGroups(OnDay(records, day))
    ensures DayClean(Upserted(table, day, groups), records, day)
    ensures DayPays(Upserted(table, day, groups), records, day, scope)
  {
    var rs := OnDay(records, day);
    OnDayFromCalculator(records, day);
    forall row: Row | row in Upserted(table, day, groups) && row.0 == day && row.1 !in Grouped(rs)
      ensures Upserted(table, day, groups)[row].commission == 0
    {
      UpsertedAt(table, day, groups, row);
      SqlTwinAgrees(rs, row.1);
    }
    GroupedPays(rs, day, scope);
    SqlGroupsPay(rs, day, scope);
    UpsertPaysIff(table, records, day, groups, scope);
    forall row | row in StaleRows(table, day, groups, scope)
      ensures StaleRows(table, day, groups, scope)[row] == 0
    {
      SqlTwinAgrees(rs, row.1);
    }
    SumMapZero(StaleRows(table, day, groups, scope));
  }

  lemma WriterKeepsOtherDays(
      table: map<Row, Summary>, records: seq<Record>, day: int, groups: map<Key, Summary>, other: int, scope: Scope)
    requires other != day
    ensures DayClean(table, records, other) ==> DayClean(Upserted(table, day, groups), records, other)
    ensures RowsBetween(Upserted(table, day, groups), scope, other, other) == RowsBetween(table, scope, other, other)
  {
    var after := Upserted(table, day, groups);
    forall row: Row | row.0 == other
      ensures row in after <==> row in table
      ensures row in after ==> after[row] == table[row]
    {
      UpsertedAt(table, day, groups, row);
    }
    assert RowsBetween(after, scope, other, other) == RowsBetween(table, scope, other, other);
  }

  // ------------------------------------------------------------------
  // The job
  // ------------------------------------------------------------------

  class SummaryService {
    var records: seq<Record>
    var table: map<Row, Summary>

    /** Runs the query, whose `rows` may come in any order, and upserts them one by one. */
    method AggregateCommissions(day: int, rows: seq<SqlRow>) returns (upsertCount: nat)
      requires multiset(rows) == multiset(Query(OnDay(records, day)))
      modifies `table
      ensures table == Upserted(old(table), day, SqlGroups(OnDay(records, day)))
      ensures upsertCount == |rows|
    {
      upsertCount := 0;
      UpsertNothing(table, day);
      for i := 0 to |rows|
        invariant table == Upserted(old(table), day, AsGroups(rows[..i])) && upsertCount == i
      {
        assert rows[..i + 1][..i] == rows[..i];
        UpsertOne(old(table), day, AsGroups(rows[..i]), rows[i].key, rows[i].totals);
        table := table[(day, rows[i].key) := rows[i].totals];
        upsertCount := upsertCount + 1;
      }
      assert rows[..|rows|] == rows;
      AsGroupsOrderIndependent(rows, OnDay(records, day));
    }
  }
}
