/**
 Which cached pools are out of date. Along a run it is noted when each call read the list it is going
 to store, which list each pool and each of its rows was last given, and when active accounts were
 switched off. Steps are numbered in the order they happen.
 */
module BankHistory {
  import opened BankProtocol
  import opened BankPools
  import Systems

  datatype History = History(
    step: nat,
    listRead: map<nat, nat>,
    lastStored: map<Merchant, nat>,
    rowRead: map<(Merchant, AccountId), nat>,
    switchedOff: map<AccountId, nat>,
    lastSwitchOff: map<Merchant, nat>)

  function SwitchOff(h: History, m: Merchant): nat {
    if m in h.lastSwitchOff then h.lastSwitchOff[m] else 0
  }

  function ListRead(h: History, t: nat): nat {
    if t in h.listRead then h.listRead[t] else 0
  }

  /** When the list was read that the cached row of `a` comes from. */
  function RowRead(h: History, m: Merchant, a: AccountId): nat {
    if (m, a) in h.rowRead then h.rowRead[(m, a)] else 1
  }

  function SwitchedOff(h: History, a: AccountId): nat {
    if a in h.switchedOff then h.switchedOff[a] else 0
  }

  /** The pools found at the start count as lists read at step 1. */
  function Begin(s: State): History {
    History(2, map[], map m | m in s.pools :: 1, map[], map[], map[])
  }

  function Noted(h: History, s: State, a: Action): History
    requires Enabled(s, a)
  {
    var next := h.(step := h.step + 1);
    match a
    case Fetch(t, _) => next.(listRead := h.listRead[t := h.step])
    case Del(t) => next.(lastStored := h.lastStored[s.calls[t].todo[0] := ListRead(h, t)])
    case Add(t) => next.(rowRead := h.rowRead[(s.calls[t].todo[0], s.calls[t].rows[0].id) := ListRead(h, t)])
    case Disable(t) =>
      var id := s.calls[t].account;
      if id in s.accounts && s.accounts[id].active then
        next.(switchedOff := h.switchedOff[id := h.step],
              lastSwitchOff := map m | m in s.mapped.Keys + h.lastSwitchOff.Keys ::
                                 if m in s.mapped && id in s.mapped[m] then h.step else SwitchOff(h, m))
      else next
    case _ => next
  }

  function After(h: History, s: State, actions: seq<Action>): History
    decreases |actions|
  {
    if actions == [] || !Enabled(s, actions[0]) then h
    else After(Noted(h, s, actions[0]), Apply(s, actions[0]), actions[1..])
  }

  // ------------------------------------------------------------------
  // List by list
  // ------------------------------------------------------------------

  /** No store of `m` starts while another is under way. */
  ghost predicate StoresApart(s: State, actions: seq<Action>, m: Merchant)
    decreases |actions|
  {
    actions != [] ==>
      && Enabled(s, actions[0])
      && (actions[0].Del? && s.calls[actions[0].t].todo[0] == m ==> NoStoreUnderWay(s, m))
      && StoresApart(Apply(s, actions[0]), actions[1..], m)
  }

  /** `ids`, a list of `m` read at step `at`, is the active accounts; or one was switched off since, and is in it. */
  ghost predicate Tells(s: State, h: History, m: Merchant, at: nat, ids: set<AccountId>) {
    && at < h.step && at != SwitchOff(h, m)
    && (SwitchOff(h, m) < at ==> ids == ActivePool(s, m).Keys)
    && (at < SwitchOff(h, m) ==> exists a :: a in ids && a !in ActivePool(s, m))
  }

  ghost predicate HistoryInv(s: State, h: History, m: Merchant) {
    && SwitchOff(h, m) < h.step
    && (forall t: nat :: IsDeleting(s, t, m) ==> Tells(s, h, m, ListRead(h, t), IdsOf(s.calls[t].rows)))
    && (m in s.pools ==> m in h.lastStored)
    && (m in s.pools && NoStoreUnderWay(s, m) ==> Tells(s, h, m, h.lastStored[m], Cached(s, m).Keys))
    && (forall t: nat :: IsAdding(s, t, m) ==>
          m in s.pools && Tells(s, h, m, h.lastStored[m], Cached(s, m).Keys + IdsOf(s.calls[t].rows)))
    && (forall t: nat, u: nat :: IsAdding(s, t, m) && IsAdding(s, u, m) ==> t == u)
  }

  lemma SwitchOffStep(s: State, h: History, a: Action, m: Merchant)
    requires Enabled(s, a)
    ensures var id := if a.Disable? then s.calls[a.t].account else 0;
            SwitchOff(Noted(h, s, a), m) ==
            if a.Disable? && id in s.accounts && s.accounts[id].active && m in s.mapped && id in s.mapped[m]
            then h.step else SwitchOff(h, m)
  {}

  lemma TellsStep(s: State, h: History, a: Action, m: Merchant, at: nat, ids: set<AccountId>)
    requires Enabled(s, a) && Tells(s, h, m, at, ids)
    ensures Tells(Apply(s, a), Noted(h, s, a), m, at, ids)
  {
    var s' := Apply(s, a);
    SwitchOffStep(s, h, a, m);
    AccountsShrink(s, a);
    if a.Disable? && m in s.mapped && s.calls[a.t].account in s.mapped[m] {
      var id := s.calls[a.t].account;
      assert id !in ActivePool(s', m);
      assert forall x :: x in ActivePool(s', m) ==> x in ActivePool(s, m);
      if id in s.accounts && !s.accounts[id].active {
        assert ActivePool(s', m).Keys == ActivePool(s, m).Keys;
      }
    } else {
      ActiveChangesOnDisable(s, a, m);
    }
  }

  lemma DeletingStep(s: State, h: History, a: Action, m: Merchant, t: nat)
    requires Enabled(s, a) && HistoryInv(s, h, m) && IsDeleting(Apply(s, a), t, m)
    ensures Tells(Apply(s, a), Noted(h, s, a), m, ListRead(Noted(h, s, a), t), IdsOf(Apply(s, a).calls[t].rows))
  {
    RowsOrigin(s, a, t, m);
    if a.Fetch? && a.t == t {
      FetchedIds(s, m, a.rows);
      ActiveChangesOnDisable(s, a, m);
      SwitchOffStep(s, h, a, m);
    } else {
      TellsStep(s, h, a, m, ListRead(h, t), IdsOf(s.calls[t].rows));
    }
  }

  /** A DEL or ZADD of `m`, when no other store of `m` is under way. */
  lemma StoreStep(s: State, h: History, a: Action, m: Merchant)
    requires Enabled(s, a) && HistoryInv(s, h, m) && (a.Del? || a.Add?) && s.calls[a.t].todo[0] == m
    requires a.Del? ==> NoStoreUnderWay(s, m)
    ensures var s', h' := Apply(s, a), Noted(h, s, a);
            && m in s'.pools && m in h'.lastStored
            && (NoStoreUnderWay(s', m) ==> Tells(s', h', m, h'.lastStored[m], Cached(s', m).Keys))
            && (forall t: nat :: IsAdding(s', t, m) ==>
                  t == a.t && Tells(s', h', m, h'.lastStored[m], Cached(s', m).Keys + IdsOf(s'.calls[t].rows)))
  {
    var s', h' := Apply(s, a), Noted(h, s, a);
    var rows := s.calls[a.t].rows;
    PoolStep(s, a, m);
    forall t: nat | IsAdding(s', t, m)
      ensures t == a.t
    {
      RowsOrigin(s, a, t, m);
      assert a.Add? ==> IsAdding(s, a.t, m);
    }
    if a.Del? {
      assert IsDeleting(s, a.t, m);
      TellsStep(s, h, a, m, ListRead(h, a.t), IdsOf(rows));
      assert Cached(s', m).Keys + IdsOf(rows) == IdsOf(rows);
      if rows == [] {
        assert IdsOf(rows) == Cached(s', m).Keys;
      } else {
        assert IsAdding(s', a.t, m);
      }
    } else {
      assert IsAdding(s, a.t, m);
      IdsOfRest(rows);
      TellsStep(s, h, a, m, h.lastStored[m], Cached(s, m).Keys + IdsOf(rows));
      assert Cached(s', m).Keys + IdsOf(rows[1..]) == Cached(s, m).Keys + IdsOf(rows);
      if |rows| == 1 {
        assert IdsOf(rows[1..]) == {};
      } else {
        assert IsAdding(s', a.t, m);
      }
    }
  }

  /** Any other step. */
  lemma NoStoreStep(s: State, h: History, a: Action, m: Merchant)
    requires Enabled(s, a) && HistoryInv(s, h, m) && !((a.Del? || a.Add?) && s.calls[a.t].todo[0] == m)
    ensures var s', h' := Apply(s, a), Noted(h, s, a);
            && (m in s'.pools ==> m in h'.lastStored)
            && (m in s'.pools && NoStoreUnderWay(s', m) ==> Tells(s', h', m, h'.lastStored[m], Cached(s', m).Keys))
            && (forall t: nat :: IsAdding(s', t, m) ==>
                  IsAdding(s, t, m) && m in s'.pools
                  && Tells(s', h', m, h'.lastStored[m], Cached(s', m).Keys + IdsOf(s'.calls[t].rows)))
  {
    var s' := Apply(s, a);
    PoolStep(s, a, m);
    forall t: nat
      ensures IsAdding(s', t, m) <==> IsAdding(s, t, m)
      ensures IsAdding(s, t, m) ==> s'.calls[t].rows == s.calls[t].rows
    {
      if a.Reset? || a.t != t {
        OtherCallsKept(s, a, t);
      }
    }
    forall t: nat | IsAdding(s', t, m)
      ensures Tells(s', Noted(h, s, a), m, h.lastStored[m], Cached(s', m).Keys + IdsOf(s'.calls[t].rows))
    {
      TellsStep(s, h, a, m, h.lastStored[m], Cached(s, m).Keys + IdsOf(s.calls[t].rows));
    }
    if m in s.pools && NoStoreUnderWay(s, m) {
      TellsStep(s, h, a, m, h.lastStored[m], Cached(s, m).Keys);
    }
  }

  lemma HistoryStep(s: State, h: History, a: Action, m: Merchant)
    requires Enabled(s, a) && HistoryInv(s, h, m)
    requires a.Del? && s.calls[a.t].todo[0] == m ==> NoStoreUnderWay(s, m)
    ensures HistoryInv(Apply(s, a), Noted(h, s, a), m)
  {
    SwitchOffStep(s, h, a, m);
    forall t: nat | IsDeleting(Apply(s, a), t, m)
      ensures Tells(Apply(s, a), Noted(h, s, a), m, ListRead(Noted(h, s, a), t), IdsOf(Apply(s, a).calls[t].rows))
    {
      DeletingStep(s, h, a, m, t);
    }
    if (a.Del? || a.Add?) && s.calls[a.t].todo[0] == m {
      StoreStep(s, h, a, m);
    } else {
      NoStoreStep(s, h, a, m);
    }
  }

  lemma {:induction false} HistoryRun(s: State, h: History, actions: seq<Action>, s': State, m: Merchant)
    requires HistoryInv(s, h, m) && Runs(s, actions, s') && StoresApart(s, actions, m)
    ensures HistoryInv(s', After(h, s, actions), m)
    decreases |actions|
  {
    if actions != [] {
      HistoryStep(s, h, actions[0], m);
      HistoryRun(Apply(s, actions[0]), Noted(h, s, actions[0]), actions[1..], s', m);
    }
  }

  /**
   Exactly when overlapping switches leave the cache out of date: with stores of `m` one after another
   and none under way, its pool is the active accounts if and only if the list last stored was read
   after the last switch-off of an active account of `m`.
   */
  lemma PoolExactIffListIsNewer(start: State, actions: seq<Action>, s: State, m: Merchant)
    requires PoolsExact(start) && NoRebuild(start) && Runs(start, actions, s) && StoresApart(start, actions, m)
    requires m in s.pools && NoStoreUnderWay(s, m)
    ensures var h := After(Begin(start), start, actions);
            m in h.lastStored && (s.pools[m] == ActivePool(s, m) <==> SwitchOff(h, m) < h.lastStored[m])
  {
    forall t: nat
      ensures !IsAdding(start, t, m) && !IsDeleting(start, t, m)
    {
      assert !Rebuilding(CallAt(start, t));
    }
    HistoryRun(start, Begin(start), actions, s, m);
    PoolsNeverMiss(start, actions, s, m);
    var h := After(Begin(start), start, actions);
    assert Tells(s, h, m, h.lastStored[m], Cached(s, m).Keys);
    if SwitchOff(h, m) < h.lastStored[m] {
      MembersDetermine(s, m);
    }
  }

  // ------------------------------------------------------------------
  // Row by row
  // ------------------------------------------------------------------

  /** An account of a list read at step `at` is still active exactly when it was not switched off since. */
  predicate RowTells(s: State, h: History, a: AccountId, at: nat) {
    at < h.step && a in s.accounts && (s.accounts[a].active <==> SwitchedOff(h, a) < at)
  }

  ghost predicate RowInv(s: State, h: History) {
    && (forall a :: SwitchedOff(h, a) < h.step)
    && (forall m, a :: a in Cached(s, m) ==> RowTells(s, h, a, RowRead(h, m, a)))
    && (forall t: nat, m: Merchant, a: AccountId :: (IsDeleting(s, t, m) || IsAdding(s, t, m))
                                                    && a in IdsOf(s.calls[t].rows) ==>
          RowTells(s, h, a, ListRead(h, t)))
  }

  lemma RowTellsStep(s: State, h: History, action: Action, a: AccountId, at: nat)
    requires Enabled(s, action) && RowTells(s, h, a, at)
    ensures RowTells(Apply(s, action), Noted(h, s, action), a, at)
  {
    AccountsShrink(s, action);
  }

  lemma HeldRowStep(s: State, h: History, action: Action, t: nat, m: Merchant, a: AccountId)
    requires Enabled(s, action) && RowInv(s, h)
    requires var s' := Apply(s, action);
             (IsDeleting(s', t, m) || IsAdding(s', t, m)) && a in IdsOf(s'.calls[t].rows)
    ensures RowTells(Apply(s, action), Noted(h, s, action), a, ListRead(Noted(h, s, action), t))
  {
    RowsOrigin(s, action, t, m);
    if action.Fetch? && action.t == t {
      FetchedIds(s, m, action.rows);
    } else {
      if action == Add(t) {
        IdsOfRest(s.calls[t].rows);
      }
      RowTellsStep(s, h, action, a, ListRead(h, t));
    }
  }

  lemma CachedRowStep(s: State, h: History, action: Action, m: Merchant, a: AccountId)
    requires Enabled(s, action) && RowInv(s, h) && a in Cached(Apply(s, action), m)
    ensures RowTells(Apply(s, action), Noted(h, s, action), a, RowRead(Noted(h, s, action), m, a))
  {
    PoolStep(s, action, m);
    if action.Add? && s.calls[action.t].todo[0] == m && s.calls[action.t].rows[0].id == a {
      assert IsAdding(s, action.t, m) && a in IdsOf(s.calls[action.t].rows);
      RowTellsStep(s, h, action, a, ListRead(h, action.t));
    } else {
      RowTellsStep(s, h, action, a, RowRead(h, m, a));
    }
  }

  lemma {:induction false} RowRun(s: State, h: History, actions: seq<Action>, s': State)
    requires RowInv(s, h) && Runs(s, actions, s')
    ensures RowInv(s', After(h, s, actions))
    decreases |actions|
  {
    if actions != [] {
      var action, next, h' := actions[0], Apply(s, actions[0]), Noted(h, s, actions[0]);
      forall a
        ensures SwitchedOff(h', a) < h'.step
      {
        assert SwitchedOff(h, a) < h.step;
      }
      forall m, a | a in Cached(next, m)
        ensures RowTells(next, h', a, RowRead(h', m, a))
      {
        CachedRowStep(s, h, action, m, a);
      }
      forall t: nat, m: Merchant, a: AccountId |
        (IsDeleting(next, t, m) || IsAdding(next, t, m)) && a in IdsOf(next.calls[t].rows)
        ensures RowTells(next, h', a, ListRead(h', t))
      {
        HeldRowStep(s, h, action, t, m, a);
      }
      RowRun(next, h', actions[1..], s');
    }
  }

  /**
   However rebuilds and their single commands overlap: once no store of `m` is under way, its pool is the
   active accounts if and only if no account in it was switched off after the list its row comes from
   was read.
   */
  lemma PoolExactIffRowsAreNewer(start: State, actions: seq<Action>, s: State, m: Merchant)
    requires PoolsExact(start) && NoRebuild(start) && Runs(start, actions, s)
    requires m in s.pools && NoStoreUnderWay(s, m)
    ensures var h := After(Begin(start), start, actions);
            s.pools[m] == ActivePool(s, m) <==>
            forall a :: a in s.pools[m] ==> SwitchedOff(h, a) < RowRead(h, m, a)
  {
    forall t: nat, k: Merchant
      ensures !IsAdding(start, t, k) && !IsDeleting(start, t, k)
    {
      assert !Rebuilding(CallAt(start, t));
    }
    RowRun(start, Begin(start), actions, s);
    PoolsNeverMiss(start, actions, s, m);
    forall a | a in s.pools[m]
      ensures a in s.accounts && (a in ActivePool(s, m) <==> s.accounts[a].active)
    {
      assert IsMember(s, m, a, Cached(s, m)[a]);
    }
    if forall a :: a in s.pools[m] ==> a in ActivePool(s, m) {
      MembersDetermine(s, m);
    }
  }

  // ------------------------------------------------------------------
  // An example
  // ------------------------------------------------------------------

  lemma Extend(start: State, actions: seq<Action>, s: State, a: Action) returns (actions': seq<Action>, s': State)
    requires Runs(start, actions, s) && Enabled(s, a)
    ensures Runs(start, actions', s') && s' == Apply(s, a)
  {
    actions', s' := actions + [a], Apply(s, a);
    Systems.Then(Next, start, actions, s, a, s');
  }

  /** Two overlapping switches can leave an account in the cache that is off: the slower one stores an old list. */
  lemma SlowRebuildStoresStaleList() returns (start: State, actions: seq<Action>, s: State)
    ensures Started(start) && PoolsExact(start) && Runs(start, actions, s) && AllIdle(s)
    ensures 1 in s.pools && 2 in s.pools[1] && 2 !in ActivePool(s, 1)
  {
    var on := Account(true, 0, 10, 1);
    start := State(map[1 := on, 2 := on], map[1 := {1, 2}], map[], [Idle, Idle]);
    actions, s := [], start;
    actions, s := SwitchUpToFetch(start, actions, s, 0, 1, [Row(2, 1)]);
    actions, s := SwitchUpToFetch(start, actions, s, 1, 2, []);
    actions, s := Extend(start, actions, s, Del(1));
    actions, s := StoreOne(start, actions, s, 0, Row(2, 1));
  }

  lemma StoreOne(start: State, actions: seq<Action>, s: State, t: nat, row: Row)
    returns (actions': seq<Action>, s': State)
    requires Runs(start, actions, s) && CallAt(s, t) == Deleting([1], [row])
    ensures Runs(start, actions', s')
    ensures s' == s.(pools := s.pools[1 := map[row.id := row.priority]], calls := s.calls[t := Idle])
  {
    actions', s' := Extend(start, actions, s, Del(t));
    assert s'.calls[t] == Adding([1], [row]);
    actions', s' := Extend(start, actions', s', Add(t));
  }

  lemma SwitchUpToFetch(start: State, actions: seq<Action>, s: State, t: nat, a: AccountId, rows: seq<Row>)
    returns (actions': seq<Action>, s': State)
    requires Runs(start, actions, s) && t < |s.calls| && s.calls[t].Idle?
    requires a in s.accounts && s.mapped.Keys == {1} && a in s.mapped[1]
    requires ListsActive(s.(accounts := s.accounts[a := s.accounts[a].(active := false)]), 1, rows)
    ensures Runs(start, actions', s')
    ensures s' == s.(accounts := s.accounts[a := s.accounts[a].(active := false)],
                     calls := s.calls[t := Deleting([1], rows)])
  {
    actions', s' := Extend(start, actions, s, Switch(t, a));
    actions', s' := Extend(start, actions', s', Disable(t));
    actions', s' := Extend(start, actions', s', List(t, [1]));
    assert ActivePool(s', 1) == ActivePool(s.(accounts := s'.accounts), 1);
    actions', s' := Extend(start, actions', s', Fetch(t, rows));
  }
}
