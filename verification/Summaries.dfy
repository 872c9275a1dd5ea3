/**
 Daily commission summaries as the commission service groups them: the in-place map, and what it
 computes as a filter and a sum.
 */
module Summaries {
  import opened Text
  import opened Commission

  /** The second a UTC day begins. */
  function DayStart(day: int): int {
    86400 * day
  }

  lemma DayIs(second: int, day: int)
    ensures DayStart(day) <= second < DayStart(day + 1) <==> second / 86400 == day
  {}

  datatype OwnerType = System | Agent | Partner

  /** Every row, or the rows of one owner. The system is owner 0 of its own type. */
  datatype Scope = Everyone | Owner(ownerType: OwnerType, id: OwnerId)

  datatype Key = Key(ownerType: OwnerType, id: OwnerId, transactionType: TransactionType, currency: string)

  datatype Summary = Summary(count: nat, volume: int, fee: int, commission: int)

  /** The date, as a day number, and the group. */
  type Row = (int, Key)

  // ------------------------------------------------------------------
  // Sums over maps
  // ------------------------------------------------------------------

  ghost function SumMap<K(!new)>(m: map<K, int>): int {
    if m == map[] then 0
    else
      var k :| k in m;
      m[k] + SumMap(m - {k})
  }

  lemma {:induction false} SumMapTake<K(!new)>(m: map<K, int>, k: K)
    requires k in m
    ensures SumMap(m) == m[k] + SumMap(m - {k})
    decreases |m|
  {
    var j :| j in m && SumMap(m) == m[j] + SumMap(m - {j});
    if j != k {
      SumMapTake(m - {j}, k);
      SumMapTake(m - {k}, j);
      assert m - {j} - {k} == m - {k} - {j};
    }
  }

  lemma SumMapSet<K(!new)>(m: map<K, int>, k: K, v: int)
    ensures SumMap(m[k := v]) == SumMap(m) + v - (if k in m then m[k] else 0)
  {
    SumMapTake(m[k := v], k);
    assert m[k := v] - {k} == m - {k};
    if k in m {
      SumMapTake(m, k);
    } else {
      assert m - {k} == m;
    }
  }

  lemma UnionWithout<K(!new)>(m: map<K, int>, n: map<K, int>, k: K)
    requires m.Keys !! n.Keys && k in n
    ensures (m + n)[k] == n[k] && (m + n) - {k} == m + (n - {k})
  {}

  lemma {:induction false} SumMapUnion<K(!new)>(m: map<K, int>, n: map<K, int>)
    requires m.Keys !! n.Keys
    ensures SumMap(m + n) == SumMap(m) + SumMap(n)
    decreases |n|
  {
    if n == map[] {
      assert m + n == m;
    } else {
      var k :| k in n;
      SumMapUnion(m, n - {k});
      SumMapTake(n, k);
      SumMapTake(m + n, k);
      UnionWithout(m, n, k);
    }
  }

  // ------------------------------------------------------------------
  // Grouping in place
  // ------------------------------------------------------------------

  function AddToGroup(groups: map<Key, Summary>, k: Key, fee: int, commission: int): map<Key, Summary> {
    var s := if k in groups then groups[k] else Summary(0, 0, 0, 0);
    groups[k := Summary(s.count + 1, s.volume + fee, s.fee + fee, s.commission + commission)]
  }

  function SystemKey(r: Record): Key {
    Key(System, 0, r.transactionType, r.currency)
  }

  function AgentKey(r: Record): Key
    requires r.agent.Some?
  {
    Key(Agent, r.agent.value, r.transactionType, r.currency)
  }

  function PartnerKey(r: Record): Key
    requires r.partner.Some?
  {
    Key(Partner, r.partner.value, r.transactionType, r.currency)
  }

  function AddAgent(groups: map<Key, Summary>, r: Record): map<Key, Summary> {
    if r.agent.Some? && r.agentAmount > 0 then AddToGroup(groups, AgentKey(r), r.fee, r.agentAmount) else groups
  }

  function AddPartner(groups: map<Key, Summary>, r: Record): map<Key, Summary> {
    if r.partner.Some? && r.partnerAmount > 0 then AddToGroup(groups, PartnerKey(r), r.fee, r.partnerAmount) else groups
  }

  /** What one record adds: always a system row, an agent and a partner row when they earned something. */
  function AddRecord(groups: map<Key, Summary>, r: Record): map<Key, Summary> {
    AddPartner(AddAgent(AddToGroup(groups, SystemKey(r), r.fee, r.system), r), r)
  }

  function Grouped(records: seq<Record>): map<Key, Summary> {
    if records == [] then map[]
    else AddRecord(Grouped(records[..|records| - 1]), records[|records| - 1])
  }

  // ------------------------------------------------------------------
  // Filter and sum
  // ------------------------------------------------------------------

  /** The four columns of a summary. */
  datatype Column = Count | Volume | Fees | Commissions

  function Field(s: Summary, c: Column): int {
    match c
    case Count => s.count
    case Volume => s.volume
    case Fees => s.fee
    case Commissions => s.commission
  }

  /** What one row adds to a column. */
  function Weight(fee: int, commission: int, c: Column): int {
    match c
    case Count => 1
    case Volume => fee
    case Fees => fee
    case Commissions => commission
  }

  /** The record counts for the group: its own type and currency, and an owner who earned something in it. */
  predicate BelongsTo(r: Record, k: Key) {
    && k.transactionType == r.transactionType && k.currency == r.currency
    && match k.ownerType
       case System => k.id == 0
       case Agent => r.agent == Some(k.id) && r.agentAmount > 0
       case Partner => r.partner == Some(k.id) && r.partnerAmount > 0
  }

  /** What the record pays to owners of a type. */
  function ShareOf(r: Record, t: OwnerType): int {
    match t
    case System => r.system
    case Agent => r.agentAmount
    case Partner => r.partnerAmount
  }

  function Part(r: Record, k: Key, c: Column): int {
    if BelongsTo(r, k) then Weight(r.fee, ShareOf(r, k.ownerType), c) else 0
  }

  /** Filter and sum: a column of group `k`, over the records that belong to it. */
  function Total(records: seq<Record>, k: Key, c: Column): int {
    if records == [] then 0 else Part(records[0], k, c) + Total(records[1..], k, c)
  }

  lemma {:induction false} TotalAppend(xs: seq<Record>, ys: seq<Record>, k: Key, c: Column)
    ensures Total(xs + ys, k, c) == Total(xs, k, c) + Total(ys, k, c)
  {
    if xs == [] {
      assert xs + ys == ys;
    } else {
      TotalAppend(xs[1..], ys, k, c);
      assert (xs + ys)[1..] == xs[1..] + ys;
    }
  }

  lemma {:induction false} CountNonNegative(records: seq<Record>, k: Key)
    ensures Total(records, k, Count) >= 0
  {
    if records != [] {
      CountNonNegative(records[1..], k);
    }
  }

  function At(groups: map<Key, Summary>, k: Key, c: Column): int {
    if k in groups then Field(groups[k], c) else 0
  }

  lemma AddToGroupAt(groups: map<Key, Summary>, j: Key, fee: int, commission: int, k: Key, c: Column)
    ensures At(AddToGroup(groups, j, fee, commission), k, c)
         == At(groups, k, c) + (if k == j then Weight(fee, commission, c) else 0)
    ensures AddToGroup(groups, j, fee, commission).Keys == groups.Keys + {j}
  {}

  lemma AddSystemAt(groups: map<Key, Summary>, r: Record, k: Key, c: Column)
    ensures var after := AddToGroup(groups, SystemKey(r), r.fee, r.system);
            && At(after, k, c) == At(groups, k, c) + (if k.ownerType.System? then Part(r, k, c) else 0)
            && (k in after <==> k in groups || (k.ownerType.System? && BelongsTo(r, k)))
  {
    AddToGroupAt(groups, SystemKey(r), r.fee, r.system, k, c);
  }

  lemma AddAgentAt(groups: map<Key, Summary>, r: Record, k: Key, c: Column)
    ensures At(AddAgent(groups, r), k, c) == At(groups, k, c) + (if k.ownerType.Agent? then Part(r, k, c) else 0)
    ensures k in AddAgent(groups, r) <==> k in groups || (k.ownerType.Agent? && BelongsTo(r, k))
  {
    if r.agent.Some? {
      AddToGroupAt(groups, AgentKey(r), r.fee, r.agentAmount, k, c);
    }
  }

  lemma AddPartnerAt(groups: map<Key, Summary>, r: Record, k: Key, c: Column)
    ensures At(AddPartner(groups, r), k, c) == At(groups, k, c) + (if k.ownerType.Partner? then Part(r, k, c) else 0)
    ensures k in AddPartner(groups, r) <==> k in groups || (k.ownerType.Partner? && BelongsTo(r, k))
  {
    if r.partner.Some? {
      AddToGroupAt(groups, PartnerKey(r), r.fee, r.partnerAmount, k, c);
    }
  }

  lemma AddRecordAt(groups: map<Key, Summary>, r: Record, k: Key, c: Column)
    ensures At(AddRecord(groups, r), k, c) == At(groups, k, c) + Part(r, k, c)
    ensures k in AddRecord(groups, r) <==> k in groups || BelongsTo(r, k)
  {
    var g1 := AddToGroup(groups, SystemKey(r), r.fee, r.system);
    AddSystemAt(groups, r, k, c);
    AddAgentAt(g1, r, k, c);
    AddPartnerAt(AddAgent(g1, r), r, k, c);
  }

  /** The loop computes, for every group and column, the sum over its records, and has exactly the nonempty groups. */
  lemma {:induction false} GroupedIsFilterAndSum(records: seq<Record>, k: Key, c: Column)
    ensures At(Grouped(records), k, c) == Total(records, k, c)
    ensures k in Grouped(records) <==> Total(records, k, Count) > 0
    decreases |records|
  {
    if records != [] {
      var init, last := records[..|records| - 1], records[|records| - 1];
      GroupedIsFilterAndSum(init, k, c);
      CountNonNegative(init, k);
      AddRecordAt(Grouped(init), last, k, c);
      assert records == init + [last];
      TotalAppend(init, [last], k, c);
      TotalAppend(init, [last], k, Count);
    }
  }

  function Members(records: seq<Record>, k: Key): seq<Record> {
    if records == [] then []
    else if BelongsTo(records[0], k) then [records[0]] + Members(records[1..], k)
    else Members(records[1..], k)
  }

  function SumFees(records: seq<Record>): int {
    if records == [] then 0 else records[0].fee + SumFees(records[1..])
  }

  function SumOf(records: seq<Record>, t: OwnerType): int {
    if records == [] then 0 else ShareOf(records[0], t) + SumOf(records[1..], t)
  }

  lemma {:induction false} TotalsOfMembers(records: seq<Record>, k: Key)
    ensures var ms := Members(records, k);
            && Total(records, k, Count) == |ms| && Total(records, k, Commissions) == SumOf(ms, k.ownerType)
            && Total(records, k, Volume) == SumFees(ms) && Total(records, k, Fees) == SumFees(ms)
  {
    if records != [] {
      TotalsOfMembers(records[1..], k);
    }
  }

  /** A group exists for each key some record belongs to; its row counts these and sums their fees and shares. */
  lemma GroupedIs(records: seq<Record>, k: Key)
    ensures var ms := Members(records, k);
            && (k in Grouped(records) <==> ms != [])
            && (k in Grouped(records) ==>
                  Grouped(records)[k] == Summary(|ms|, SumFees(ms), SumFees(ms), SumOf(ms, k.ownerType)))
  {
    TotalsOfMembers(records, k);
    GroupedIsFilterAndSum(records, k, Count);
    GroupedIsFilterAndSum(records, k, Volume);
    GroupedIsFilterAndSum(records, k, Fees);
    GroupedIsFilterAndSum(records, k, Commissions);
  }

  /** The first record of one list, found in a permutation of it. */
  lemma FirstInPermutation(xs: seq<Record>, ys: seq<Record>) returns (i: nat)
    requires xs != [] && multiset(xs) == multiset(ys)
    ensures i < |ys| && ys[i] == xs[0]
    ensures |ys| == |xs| && multiset(xs[1..]) == multiset(ys[..i] + ys[i + 1..])
  {
    assert xs[0] in multiset(ys);
    i :| 0 <= i < |ys| && ys[i] == xs[0];
    assert xs == [xs[0]] + xs[1..];
    assert ys == ys[..i] + ([ys[i]] + ys[i + 1..]);
    calc {
      multiset(xs[1..]);
      multiset(xs) - multiset{xs[0]};
      multiset(ys) - multiset{ys[i]};
      { assert multiset(ys) == multiset(ys[..i]) + (multiset{ys[i]} + multiset(ys[i + 1..])); }
      multiset(ys[..i]) + multiset(ys[i + 1..]);
      multiset(ys[..i] + ys[i + 1..]);
    }
    assert |multiset(xs)| == |multiset(ys)|;
  }

  /** A record may stand anywhere. */
  lemma TotalMoved(before: seq<Record>, x: Record, after: seq<Record>, k: Key, c: Column)
    ensures Total(before + ([x] + after), k, c) == Total([x], k, c) + Total(before + after, k, c)
  {
    TotalAppend(before, [x] + after, k, c);
    TotalAppend([x], after, k, c);
    TotalAppend(before, after, k, c);
  }

  lemma {:induction false} TotalPermuted(xs: seq<Record>, ys: seq<Record>, k: Key, c: Column)
    requires multiset(xs) == multiset(ys)
    ensures Total(xs, k, c) == Total(ys, k, c)
    decreases |xs|
  {
    if xs == [] {
      assert |multiset(ys)| == |multiset(xs)| == 0;
      assert ys == [];
    } else {
      var i := FirstInPermutation(xs, ys);
      TotalPermuted(xs[1..], ys[..i] + ys[i + 1..], k, c);
      TotalMoved(ys[..i], xs[0], ys[i + 1..], k, c);
      assert ys == ys[..i] + ([xs[0]] + ys[i + 1..]);
      TotalMoved([], xs[0], xs[1..], k, c);
      assert xs == [] + ([xs[0]] + xs[1..]) && xs[1..] == [] + xs[1..];
    }
  }

  /** Grouping does not depend on the order of the records. */
  lemma GroupedOrderIndependent(xs: seq<Record>, ys: seq<Record>)
    requires multiset(xs) == multiset(ys)
    ensures Grouped(xs) == Grouped(ys)
  {
    forall k
      ensures k in Grouped(xs) <==> k in Grouped(ys)
      ensures k in Grouped(xs) ==> Grouped(xs)[k] == Grouped(ys)[k]
    {
      forall c
        ensures At(Grouped(xs), k, c) == At(Grouped(ys), k, c)
        ensures k in Grouped(xs) <==> k in Grouped(ys)
      {
        GroupedIsFilterAndSum(xs, k, c);
        GroupedIsFilterAndSum(ys, k, c);
        TotalPermuted(xs, ys, k, c);
        TotalPermuted(xs, ys, k, Count);
      }
      assert At(Grouped(xs), k, Count) == At(Grouped(ys), k, Count);
      assert At(Grouped(xs), k, Volume) == At(Grouped(ys), k, Volume);
      assert At(Grouped(xs), k, Fees) == At(Grouped(ys), k, Fees);
      assert At(Grouped(xs), k, Commissions) == At(Grouped(ys), k, Commissions);
    }
  }

  ghost predicate FromCalculator(records: seq<Record>) {
    forall i :: 0 <= i < |records| ==> IsFairSplit(records[i])
  }
}
