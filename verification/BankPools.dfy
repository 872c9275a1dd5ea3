/**
 The cached account pools under overlapping rebuilds. A rebuild reads the active accounts, deletes the
 cached set and adds the accounts one command at a time; other calls' commands may come in between.
 */
module BankPools {
  import opened BankProtocol

  // ------------------------------------------------------------------
  // Any overlap
  // ------------------------------------------------------------------

  /** `a` is an account of the merchant, and `priority` is its priority. */
  predicate IsMember(s: State, m: Merchant, a: AccountId, priority: int) {
    m in s.mapped && a in s.mapped[m] && a in s.accounts && priority == s.accounts[a].priority
  }

  predicate IsAdding(s: State, t: nat, m: Merchant) {
    CallAt(s, t).Adding? && s.calls[t].todo != [] && s.calls[t].todo[0] == m
  }

  predicate IsDeleting(s: State, t: nat, m: Merchant) {
    CallAt(s, t).Deleting? && s.calls[t].todo != [] && s.calls[t].todo[0] == m
  }

  /** Call `t` is between its DEL and its last ZADD, and has the row of `a` still to add. */
  predicate WillAdd(s: State, t: nat, m: Merchant, a: AccountId) {
    IsAdding(s, t, m) && a in s.accounts && Row(a, s.accounts[a].priority) in s.calls[t].rows
  }

  ghost predicate NoStoreUnderWay(s: State, m: Merchant) {
    forall t: nat :: !IsAdding(s, t, m)
  }

  /** The cached pool misses no active account. */
  ghost predicate Covers(s: State, m: Merchant) {
    forall a :: a in ActivePool(s, m) ==> a in Cached(s, m)
  }

  ghost predicate OnlyMembers(s: State, m: Merchant) {
    forall a :: a in Cached(s, m) ==> IsMember(s, m, a, Cached(s, m)[a])
  }

  ghost predicate RowsAreMembers(s: State, m: Merchant, rows: seq<Row>) {
    forall i :: 0 <= i < |rows| ==> IsMember(s, m, rows[i].id, rows[i].priority)
  }

  /** An active account is in the pool, or some call will add it. */
  ghost predicate CoveredSoon(s: State, m: Merchant, a: AccountId) {
    a in Cached(s, m) || exists t: nat :: WillAdd(s, t, m, a)
  }

  ghost predicate PoolsSound(s: State) {
    && (forall m :: OnlyMembers(s, m))
    && (forall m, a :: m in s.pools && a in ActivePool(s, m) ==> CoveredSoon(s, m, a))
    && (forall t: nat, m: Merchant :: IsDeleting(s, t, m) ==>
          RowsAreMembers(s, m, s.calls[t].rows)
          && forall a :: a in ActivePool(s, m) ==> Row(a, s.accounts[a].priority) in s.calls[t].rows)
    && (forall t: nat, m: Merchant :: IsAdding(s, t, m) ==> RowsAreMembers(s, m, s.calls[t].rows))
  }

  /** No step switches an account on, changes a priority or a mapping. */
  lemma AccountsShrink(s: State, a: Action)
    requires Enabled(s, a)
    ensures Apply(s, a).mapped == s.mapped && Apply(s, a).accounts.Keys == s.accounts.Keys
    ensures forall id :: id in s.accounts ==>
              Apply(s, a).accounts[id].priority == s.accounts[id].priority
              && (Apply(s, a).accounts[id].active ==> s.accounts[id].active)
    ensures forall id :: id in s.accounts && !(a.Disable? && s.calls[a.t].account == id) ==>
              Apply(s, a).accounts[id].active == s.accounts[id].active
  {}

  /** What the steps of one call leave of the others. */
  lemma OtherCallsKept(s: State, a: Action, t: nat)
    requires Enabled(s, a) && (a.Reset? || a.t != t)
    ensures CallAt(Apply(s, a), t) == CallAt(s, t)
  {}

  /** A rebuild that is not touched by the step, or about to start its own. */
  lemma RowsOrigin(s: State, a: Action, t: nat, m: Merchant)
    requires Enabled(s, a)
    ensures IsDeleting(Apply(s, a), t, m) ==>
              || (IsDeleting(s, t, m) && Apply(s, a).calls[t].rows == s.calls[t].rows)
              || (a.Fetch? && a.t == t && ListsActive(s, m, a.rows) && Apply(s, a).calls[t].rows == a.rows)
    ensures IsAdding(Apply(s, a), t, m) ==>
              || (IsAdding(s, t, m) && Apply(s, a).calls[t].rows == s.calls[t].rows)
              || (a == Del(t) && IsDeleting(s, t, m) && Apply(s, a).calls[t].rows == s.calls[t].rows)
              || (a == Add(t) && IsAdding(s, t, m) && Apply(s, a).calls[t].rows == s.calls[t].rows[1..])
  {
    if a.Reset? || a.t != t {
      OtherCallsKept(s, a, t);
    }
  }

  lemma RowsStayMembers(s: State, a: Action, t: nat, m: Merchant)
    requires Enabled(s, a) && PoolsSound(s) && (IsDeleting(Apply(s, a), t, m) || IsAdding(Apply(s, a), t, m))
    ensures RowsAreMembers(Apply(s, a), m, Apply(s, a).calls[t].rows)
  {
    AccountsShrink(s, a);
    RowsOrigin(s, a, t, m);
  }

  lemma RowsStayComplete(s: State, a: Action, t: nat, m: Merchant, id: AccountId)
    requires Enabled(s, a) && PoolsSound(s) && IsDeleting(Apply(s, a), t, m) && id in ActivePool(Apply(s, a), m)
    ensures Row(id, Apply(s, a).accounts[id].priority) in Apply(s, a).calls[t].rows
  {
    AccountsShrink(s, a);
    assert id in ActivePool(s, m);
    RowsOrigin(s, a, t, m);
  }

  /** The pool of a merchant changes only by that merchant's own DEL and ZADD. */
  lemma PoolStep(s: State, a: Action, m: Merchant)
    requires Enabled(s, a)
    ensures Cached(Apply(s, a), m) ==
            if a.Del? && s.calls[a.t].todo[0] == m then map[]
            else if a.Add? && s.calls[a.t].todo[0] == m then
              Cached(s, m)[s.calls[a.t].rows[0].id := s.calls[a.t].rows[0].priority]
            else Cached(s, m)
    ensures m in Apply(s, a).pools <==> m in s.pools || ((a.Del? || a.Add?) && s.calls[a.t].todo[0] == m)
  {}

  lemma MembersStay(s: State, a: Action, m: Merchant)
    requires Enabled(s, a) && PoolsSound(s)
    ensures OnlyMembers(Apply(s, a), m)
  {
    AccountsShrink(s, a);
    PoolStep(s, a, m);
    assert OnlyMembers(s, m);
    if a.Add? && s.calls[a.t].todo[0] == m {
      assert IsAdding(s, a.t, m);
      assert IsMember(s, m, s.calls[a.t].rows[0].id, s.calls[a.t].rows[0].priority);
    }
  }

  lemma CoverStays(s: State, a: Action, m: Merchant, id: AccountId)
    requires Enabled(s, a) && PoolsSound(s) && m in Apply(s, a).pools && id in ActivePool(Apply(s, a), m)
    requires m in s.pools || !a.Add?
    ensures CoveredSoon(Apply(s, a), m, id)
  {
    var s' := Apply(s, a);
    AccountsShrink(s, a);
    PoolStep(s, a, m);
    assert id in ActivePool(s, m);
    var row := Row(id, s.accounts[id].priority);
    if a.Del? && s.calls[a.t].todo[0] == m {
      assert IsDeleting(s, a.t, m);
      assert row in s.calls[a.t].rows;
      assert WillAdd(s', a.t, m, id);
    } else if id !in Cached(s, m) {
      var t: nat :| WillAdd(s, t, m, id);
      if a == Add(t) {
        var rows := s.calls[t].rows;
        if rows[0] != row {
          assert row in rows[1..];
          assert WillAdd(s', t, m, id);
        }
      } else {
        OtherWillAdd(s, a, t, m, id);
      }
    }
  }

  lemma OtherWillAdd(s: State, a: Action, t: nat, m: Merchant, id: AccountId)
    requires Enabled(s, a) && WillAdd(s, t, m, id) && a != Add(t)
    ensures WillAdd(Apply(s, a), t, m, id)
  {
    AccountsShrink(s, a);
    OtherCallsKept(s, a, t);
  }

  /** An addition comes after its own DEL, so its merchant has a cached pool. */
  ghost predicate AddingIsCached(s: State) {
    forall t: nat, m: Merchant :: IsAdding(s, t, m) ==> m in s.pools
  }

  lemma PoolsSoundStep(s: State, a: Action)
    requires Enabled(s, a) && PoolsSound(s) && AddingIsCached(s)
    ensures PoolsSound(Apply(s, a)) && AddingIsCached(Apply(s, a))
  {
    var s' := Apply(s, a);
    forall m
      ensures OnlyMembers(s', m)
    {
      MembersStay(s, a, m);
    }
    forall m, id | m in s'.pools && id in ActivePool(s', m)
      ensures CoveredSoon(s', m, id)
    {
      assert a.Add? ==> IsAdding(s, a.t, s.calls[a.t].todo[0]);
      PoolStep(s, a, m);
      CoverStays(s, a, m, id);
    }
    forall t: nat, m: Merchant | IsDeleting(s', t, m)
      ensures RowsAreMembers(s', m, s'.calls[t].rows)
      ensures forall id :: id in ActivePool(s', m) ==> Row(id, s'.accounts[id].priority) in s'.calls[t].rows
    {
      RowsStayMembers(s, a, t, m);
      forall id | id in ActivePool(s', m)
        ensures Row(id, s'.accounts[id].priority) in s'.calls[t].rows
      {
        RowsStayComplete(s, a, t, m, id);
      }
    }
    forall t: nat, m: Merchant | IsAdding(s', t, m)
      ensures RowsAreMembers(s', m, s'.calls[t].rows) && m in s'.pools
    {
      RowsStayMembers(s, a, t, m);
      RowsOrigin(s, a, t, m);
      PoolStep(s, a, m);
    }
  }

  lemma {:induction false} PoolsSoundRun(s: State, actions: seq<Action>, s': State)
    requires PoolsSound(s) && AddingIsCached(s) && Runs(s, actions, s')
    ensures PoolsSound(s') && AddingIsCached(s')
    decreases |actions|
  {
    if actions != [] {
      PoolsSoundStep(s, actions[0]);
      PoolsSoundRun(Apply(s, actions[0]), actions[1..], s');
    }
  }

  ghost predicate PoolsExact(s: State) {
    forall m :: m in s.pools ==> s.pools[m] == ActivePool(s, m)
  }

  ghost predicate NoRebuild(s: State) {
    forall t: nat :: !Rebuilding(CallAt(s, t))
  }

  lemma ExactIsSound(s: State)
    requires PoolsExact(s) && NoRebuild(s)
    ensures PoolsSound(s) && AddingIsCached(s)
  {
    forall t: nat, m: Merchant
      ensures !IsAdding(s, t, m) && !IsDeleting(s, t, m)
    {
      assert !Rebuilding(CallAt(s, t));
    }
  }

  /**
   However rebuilds overlap, a cached pool holds only the merchant's accounts, with their priorities;
   and it misses no active account unless some store of that merchant is between its DEL and its last
   ZADD.
   */
  lemma PoolsNeverMiss(start: State, actions: seq<Action>, s: State, m: Merchant)
    requires PoolsExact(start) && NoRebuild(start) && Runs(start, actions, s)
    ensures OnlyMembers(s, m)
    ensures m in s.pools && NoStoreUnderWay(s, m) ==> Covers(s, m)
  {
    ExactIsSound(start);
    PoolsSoundRun(start, actions, s);
    if m in s.pools && NoStoreUnderWay(s, m) {
      forall a | a in ActivePool(s, m)
        ensures a in Cached(s, m)
      {
        assert CoveredSoon(s, m, a);
        assert forall t: nat :: !WillAdd(s, t, m, a);
      }
    }
  }

  /** From any state a rebuild may get to where its merchant's pool is empty, whatever is active. */
  lemma GapAfterDel(s: State, t: nat, m: Merchant, rows: seq<Row>)
    requires t < |s.calls| && s.calls[t].Idle? && ListsActive(s, m, rows)
    ensures exists s' :: Runs(s, [Refresh(t, m), Fetch(t, rows), Del(t)], s')
                         && Cached(s', m) == map[] && ActivePool(s', m) == ActivePool(s, m)
  {
    var s1 := Apply(s, Refresh(t, m));
    assert ActivePool(s1, m) == ActivePool(s, m);
    var s2 := Apply(s1, Fetch(t, rows));
    var s3 := Apply(s2, Del(t));
    assert Runs(s3, [], s3);
    assert Runs(s2, [Del(t)], s3);
    assert Runs(s1, [Fetch(t, rows), Del(t)], s3);
    assert Runs(s, [Refresh(t, m), Fetch(t, rows), Del(t)], s3);
  }

  predicate Rebuilding(c: Call) {
    c.Disabling? || c.Listing? || c.Fetching? || c.Deleting? || c.Adding?
  }

  // ------------------------------------------------------------------
  // Serialised rebuilds
  // ------------------------------------------------------------------

  /** Rebuilds and switches are serialised. */
  ghost predicate OneAtATime(s: State) {
    forall t, u :: Rebuilding(CallAt(s, t)) && Rebuilding(CallAt(s, u)) ==> t == u
  }

  ghost predicate RunsSerialised(s: State, actions: seq<Action>, s': State)
    decreases |actions|
  {
    OneAtATime(s)
    && if actions == [] then s == s'
       else Enabled(s, actions[0]) && RunsSerialised(Apply(s, actions[0]), actions[1..], s')
  }

  /** Call `c` is going to rebuild the pool of `m`, or to finish doing so. */
  predicate WillRebuild(s: State, c: Call, m: Merchant) {
    match c
    case Listing(a) => m in s.mapped && a in s.mapped[m]
    case Fetching(todo) => m in todo
    case Deleting(todo, _) => m in todo
    case Adding(todo, _) => m in todo
    case _ => false
  }

  function IdsOf(rows: seq<Row>): (ids: set<AccountId>)
    ensures forall a :: a in ids <==> exists i :: 0 <= i < |rows| && rows[i].id == a
  {
    set i | 0 <= i < |rows| :: rows[i].id
  }

  ghost predicate SerialInv(s: State) {
    && (forall m :: m in s.pools && s.pools[m].Keys != ActivePool(s, m).Keys ==>
          exists t: nat :: WillRebuild(s, CallAt(s, t), m))
    && (forall t: nat, m: Merchant :: IsDeleting(s, t, m) ==> IdsOf(s.calls[t].rows) == ActivePool(s, m).Keys)
    && (forall t: nat, m: Merchant :: IsAdding(s, t, m) ==>
          Cached(s, m).Keys + IdsOf(s.calls[t].rows) == ActivePool(s, m).Keys)
  }

  /** Only switching an account off changes an active pool, and only those of its merchants. */
  lemma ActiveChangesOnDisable(s: State, a: Action, m: Merchant)
    requires Enabled(s, a)
    requires a.Disable? ==> m !in s.mapped || s.calls[a.t].account !in s.mapped[m]
    ensures ActivePool(Apply(s, a), m) == ActivePool(s, m)
  {}

  lemma FetchedIds(s: State, m: Merchant, rows: seq<Row>)
    requires ListsActive(s, m, rows)
    ensures IdsOf(rows) == ActivePool(s, m).Keys
  {
    forall a | a in ActivePool(s, m)
      ensures a in IdsOf(rows)
    {
      var i :| 0 <= i < |rows| && rows[i] == Row(a, ActivePool(s, m)[a]);
    }
  }

  lemma IdsOfRest(rows: seq<Row>)
    requires rows != []
    ensures IdsOf(rows) == {rows[0].id} + IdsOf(rows[1..])
  {
    forall a
      ensures a in IdsOf(rows) <==> a == rows[0].id || a in IdsOf(rows[1..])
    {
      if a in IdsOf(rows[1..]) {
        var i :| 0 <= i < |rows[1..]| && rows[1..][i].id == a;
        assert rows[i + 1].id == a;
      }
      if a in IdsOf(rows) && a != rows[0].id {
        var i :| 0 <= i < |rows| && rows[i].id == a;
        assert rows[1..][i - 1].id == a;
      }
    }
  }

  lemma SerialRows(s: State, a: Action, t: nat, m: Merchant)
    requires Enabled(s, a) && SerialInv(s) && OneAtATime(s)
    ensures IsDeleting(Apply(s, a), t, m) ==> IdsOf(Apply(s, a).calls[t].rows) == ActivePool(Apply(s, a), m).Keys
    ensures IsAdding(Apply(s, a), t, m) ==>
              Cached(Apply(s, a), m).Keys + IdsOf(Apply(s, a).calls[t].rows) == ActivePool(Apply(s, a), m).Keys
  {
    var s' := Apply(s, a);
    if IsDeleting(s', t, m) || IsAdding(s', t, m) {
      RowsOrigin(s, a, t, m);
      PoolStep(s, a, m);
      assert Rebuilding(CallAt(s, t));
      assert !a.Reset? && Rebuilding(CallAt(s, a.t)) ==> a.t == t;
      ActiveChangesOnDisable(s, a, m);
      if a.Fetch? && a.t == t {
        FetchedIds(s, m, a.rows);
      } else if a == Add(t) {
        IdsOfRest(s.calls[t].rows);
      }
    }
  }

  lemma SerialPool(s: State, a: Action, m: Merchant)
    requires Enabled(s, a) && SerialInv(s) && OneAtATime(s)
    requires m in Apply(s, a).pools && Apply(s, a).pools[m].Keys != ActivePool(Apply(s, a), m).Keys
    ensures exists t: nat :: WillRebuild(Apply(s, a), CallAt(Apply(s, a), t), m)
  {
    var s' := Apply(s, a);
    PoolStep(s, a, m);
    if a.Disable? && m in s.mapped && s.calls[a.t].account in s.mapped[m] {
      assert WillRebuild(s', CallAt(s', a.t), m);
    } else {
      ActiveChangesOnDisable(s, a, m);
      if (a.Del? || a.Add?) && s.calls[a.t].todo[0] == m {
        LastRowCompletes(s, a, m);
      } else {
        var t: nat :| WillRebuild(s, CallAt(s, t), m);
        assert WillRebuild(s', CallAt(s', t), m);
      }
    }
  }

  lemma LastRowCompletes(s: State, a: Action, m: Merchant)
    requires Enabled(s, a) && SerialInv(s) && (a.Del? || a.Add?) && s.calls[a.t].todo[0] == m
    requires Cached(Apply(s, a), m).Keys != ActivePool(s, m).Keys
    ensures WillRebuild(Apply(s, a), CallAt(Apply(s, a), a.t), m)
  {
    var rows := s.calls[a.t].rows;
    PoolStep(s, a, m);
    if a.Del? {
      assert IsDeleting(s, a.t, m);
    } else {
      assert IsAdding(s, a.t, m);
      IdsOfRest(rows);
    }
  }

  lemma {:induction false} SerialRun(s: State, actions: seq<Action>, s': State)
    requires SerialInv(s) && RunsSerialised(s, actions, s')
    ensures SerialInv(s')
    decreases |actions|
  {
    if actions != [] {
      var next := Apply(s, actions[0]);
      forall m | m in next.pools && next.pools[m].Keys != ActivePool(next, m).Keys
        ensures exists t: nat :: WillRebuild(next, CallAt(next, t), m)
      {
        SerialPool(s, actions[0], m);
      }
      forall t: nat, m: Merchant
        ensures IsDeleting(next, t, m) ==> IdsOf(next.calls[t].rows) == ActivePool(next, m).Keys
        ensures IsAdding(next, t, m) ==> Cached(next, m).Keys + IdsOf(next.calls[t].rows) == ActivePool(next, m).Keys
      {
        SerialRows(s, actions[0], t, m);
      }
      SerialRun(next, actions[1..], s');
    }
  }

  lemma {:induction false} SerialisedRuns(s: State, actions: seq<Action>, s': State)
    requires RunsSerialised(s, actions, s')
    ensures Runs(s, actions, s')
    decreases |actions|
  {
    if actions != [] {
      SerialisedRuns(Apply(s, actions[0]), actions[1..], s');
    }
  }

  /** Members with the right priorities and the right accounts are the active pool. */
  lemma MembersDetermine(s: State, m: Merchant)
    requires OnlyMembers(s, m) && Cached(s, m).Keys == ActivePool(s, m).Keys
    ensures Cached(s, m) == ActivePool(s, m)
  {
    forall a | a in Cached(s, m)
      ensures Cached(s, m)[a] == ActivePool(s, m)[a]
    {
      assert IsMember(s, m, a, Cached(s, m)[a]);
      assert a in ActivePool(s, m);
    }
  }

  /** With switches and rebuilds serialised, the cache is exact whenever none is in flight. */
  lemma SerialisedPoolsAreExact(start: State, actions: seq<Action>, s: State)
    requires PoolsExact(start) && NoRebuild(start) && RunsSerialised(start, actions, s)
    ensures NoRebuild(s) ==> PoolsExact(s)
  {
    forall t: nat, m: Merchant
      ensures !IsAdding(start, t, m) && !IsDeleting(start, t, m)
    {
      assert !Rebuilding(CallAt(start, t));
    }
    SerialRun(start, actions, s);
    SerialisedRuns(start, actions, s);
    if NoRebuild(s) {
      forall m | m in s.pools
        ensures s.pools[m] == ActivePool(s, m)
      {
        forall t: nat
          ensures !WillRebuild(s, CallAt(s, t), m)
        {
          assert !Rebuilding(CallAt(s, t));
        }
        PoolsNeverMiss(start, actions, s, m);
        MembersDetermine(s, m);
      }
    }
  }
}
