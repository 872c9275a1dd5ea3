/**
 Creates and matches of one bank account that overlap, command by command, on its set of pending orders.
 A create looks for a free amount and adds its order some time later; a match finds an order and removes
 it some time later, without asking whether the removal still found it there.
 */
module Matching {
  import opened Text
  import opened DepositOrders
  import Systems

  /** `seen` are the orders that were pending when the create last looked, and `free` says what it found. */
  datatype Call =
    | Resting
    | Adding(id: OrderId, amount: int, seen: set<OrderId>, free: bool)
    | Removing(id: OrderId)

  /** `matched` holds an order once for each SMS it was matched to. */
  datatype System = System(
    pending: map<OrderId, int>,
    used: set<OrderId>,
    matched: multiset<OrderId>,
    calls: seq<Call>)

  datatype Action =
    | Search(t: nat, id: OrderId, amount: int)
    | FallBack(t: nat, id: OrderId, base: int)
    | Add(t: nat)
    | Find(t: nat, id: OrderId, amount: int)
    | Remove(t: nat)
    | Settle(id: OrderId)

  function CallAt(s: System, t: nat): Call {
    if t < |s.calls| then s.calls[t] else Resting
  }

  predicate IsTaken(s: System, amount: int) {
    exists j :: j in s.pending && s.pending[j] == amount
  }

  /** Order ids are new UUIDs. */
  predicate CanHappen(s: System, a: Action) {
    match a
    case Search(t, id, amount) => t < |s.calls| && s.calls[t].Resting? && id !in s.used && !IsTaken(s, amount)
    case FallBack(t, id, _) => t < |s.calls| && s.calls[t].Resting? && id !in s.used
    case Add(t) => CallAt(s, t).Adding?
    case Find(t, id, amount) => t < |s.calls| && s.calls[t].Resting? && id in s.pending && s.pending[id] == amount
    case Remove(t) => CallAt(s, t).Removing?
    case Settle(_) => true
  }

  function After(s: System, a: Action): System
    requires CanHappen(s, a)
  {
    match a
    case Search(t, id, amount) =>
      s.(used := s.used + {id}, calls := s.calls[t := Adding(id, amount, s.pending.Keys, true)])
    case FallBack(t, id, base) =>
      s.(used := s.used + {id}, calls := s.calls[t := Adding(id, base, s.pending.Keys, false)])
    case Add(t) => s.(pending := s.pending[s.calls[t].id := s.calls[t].amount], calls := s.calls[t := Resting])
    case Find(t, id, _) => s.(calls := s.calls[t := Removing(id)])
    case Remove(t) =>
      var id := s.calls[t].id;
      s.(pending := s.pending - {id}, matched := s.matched + multiset{id}, calls := s.calls[t := Resting])
    case Settle(id) => s.(pending := s.pending - {id})
  }

  function Next(s: System, a: Action): Option<System> {
    if CanHappen(s, a) then Some(After(s, a)) else None
  }

  ghost predicate Leads(s: System, actions: seq<Action>, s': System) {
    Systems.Run(Next, s, actions, s')
  }

  // ------------------------------------------------------------------
  // What every step keeps
  // ------------------------------------------------------------------

  /** An order still to be added is known, and was not pending when any create looked. */
  predicate AddIsNew(s: System, call: Call) {
    call.Adding? ==> call.id in s.used && call.id !in s.pending && call.seen <= s.used
  }

  predicate AddsDiffer(call: Call, other: Call) {
    call.Adding? && other.Adding? ==> call.id != other.id && call.id !in other.seen
  }

  /** A create that found its amount free knows no pending order of that amount. */
  predicate LookTells(s: System, call: Call) {
    call.Adding? && call.free ==> forall j :: j in s.pending && j in call.seen ==> s.pending[j] != call.amount
  }

  ghost predicate Inv(s: System) {
    && s.pending.Keys <= s.used
    && (forall t: nat :: AddIsNew(s, CallAt(s, t)) && LookTells(s, CallAt(s, t)))
    && (forall t: nat, u: nat :: t != u ==> AddsDiffer(CallAt(s, t), CallAt(s, u)))
  }

  /** With no call under way all this holds. */
  lemma QuietInv(s: System)
    requires s.pending.Keys <= s.used && forall t: nat :: CallAt(s, t).Resting?
    ensures Inv(s)
  {}

  lemma CallStep(s: System, a: Action, t: nat)
    requires CanHappen(s, a)
    ensures CallAt(After(s, a), t).Adding? ==>
              || CallAt(After(s, a), t) == CallAt(s, t)
              || (a.Search? && a.t == t && CallAt(After(s, a), t) == Adding(a.id, a.amount, s.pending.Keys, true))
              || (a.FallBack? && a.t == t && CallAt(After(s, a), t) == Adding(a.id, a.base, s.pending.Keys, false))
    ensures a.Add? && a.t == t ==> CallAt(After(s, a), t).Resting?
  {}

  lemma NewStays(s: System, a: Action, t: nat)
    requires CanHappen(s, a) && Inv(s)
    ensures AddIsNew(After(s, a), CallAt(After(s, a), t)) && LookTells(After(s, a), CallAt(After(s, a), t))
  {
    CallStep(s, a, t);
    assert AddIsNew(s, CallAt(s, t)) && LookTells(s, CallAt(s, t));
    if a.Add? && a.t != t {
      assert AddsDiffer(CallAt(s, a.t), CallAt(s, t));
    }
  }

  lemma InvStep(s: System, a: Action)
    requires CanHappen(s, a) && Inv(s)
    ensures Inv(After(s, a))
  {
    var s' := After(s, a);
    assert a.Add? ==> AddIsNew(s, CallAt(s, a.t));
    forall t: nat
      ensures AddIsNew(s', CallAt(s', t)) && LookTells(s', CallAt(s', t))
    {
      NewStays(s, a, t);
    }
    forall t: nat, u: nat | t != u
      ensures AddsDiffer(CallAt(s', t), CallAt(s', u))
    {
      CallStep(s, a, t);
      CallStep(s, a, u);
      assert AddsDiffer(CallAt(s, t), CallAt(s, u)) && AddIsNew(s, CallAt(s, t)) && AddIsNew(s, CallAt(s, u));
    }
  }

  // ------------------------------------------------------------------
  // Distinct amounts
  // ------------------------------------------------------------------

  ghost predicate Distinct(s: System) {
    forall i, j :: i in s.pending && j in s.pending && i != j ==> s.pending[i] != s.pending[j]
  }

  /** A pending order has the amount of the create, and came after its look, or the create fell back on it. */
  ghost predicate HasRival(s: System, call: Call)
    requires call.Adding?
  {
    exists j :: j in s.pending && s.pending[j] == call.amount && (j !in call.seen || !call.free)
  }

  /** No create adds its order when another of its amount was added since it looked and is still pending. */
  ghost predicate NoRivals(s: System, actions: seq<Action>)
    decreases |actions|
  {
    actions != [] ==>
      && CanHappen(s, actions[0])
      && (actions[0].Add? ==> !HasRival(s, s.calls[actions[0].t]))
      && NoRivals(After(s, actions[0]), actions[1..])
  }

  ghost predicate DistinctThroughout(s: System, actions: seq<Action>)
    decreases |actions|
  {
    && Distinct(s)
    && (actions != [] ==> CanHappen(s, actions[0]) && DistinctThroughout(After(s, actions[0]), actions[1..]))
  }

  lemma AddKeepsDistinctIff(s: System, t: nat)
    requires CanHappen(s, Add(t)) && Inv(s) && Distinct(s)
    ensures Distinct(After(s, Add(t))) <==> !HasRival(s, s.calls[t])
  {
    var s', call := After(s, Add(t)), s.calls[t];
    assert AddIsNew(s, CallAt(s, t)) && LookTells(s, CallAt(s, t));
    if HasRival(s, call) {
      var j :| j in s.pending && s.pending[j] == call.amount;
      assert j in s'.pending && call.id in s'.pending && s'.pending[j] == s'.pending[call.id];
    }
  }

  lemma OthersKeepDistinct(s: System, a: Action)
    requires CanHappen(s, a) && Distinct(s) && !a.Add?
    ensures Distinct(After(s, a))
  {}

  /**
   However creates, matches and settlements overlap, the amounts of an account's pending orders stay
   distinct if and only if no create adds its order when another of its amount was added since it looked
   and is still pending, or was there when it fell back onto the base amount.
   */
  lemma {:induction false} DistinctIffNoRivals(s: System, actions: seq<Action>, s': System)
    requires Inv(s) && Distinct(s) && Leads(s, actions, s')
    ensures DistinctThroughout(s, actions) <==> NoRivals(s, actions)
    decreases |actions|
  {
    if actions != [] {
      var a, next := actions[0], After(s, actions[0]);
      InvStep(s, a);
      if a.Add? {
        AddKeepsDistinctIff(s, a.t);
      } else {
        OthersKeepDistinct(s, a);
      }
      if Distinct(next) {
        DistinctIffNoRivals(next, actions[1..], s');
      }
    }
  }

  // ------------------------------------------------------------------
  // Each order matched once
  // ------------------------------------------------------------------

  predicate IsRemoving(s: System, t: nat, id: OrderId) {
    CallAt(s, t) == Removing(id)
  }

  ghost predicate AboutToRemove(s: System, id: OrderId) {
    exists t: nat :: IsRemoving(s, t, id)
  }

  /** No match finds the order while another that found it has still to remove it. */
  ghost predicate FindsApart(s: System, actions: seq<Action>, id: OrderId)
    decreases |actions|
  {
    actions != [] ==>
      && CanHappen(s, actions[0])
      && (actions[0].Find? && actions[0].id == id ==> !AboutToRemove(s, id))
      && FindsApart(After(s, actions[0]), actions[1..], id)
  }

  /** One match at most has the order; once matched it is not pending and will not be again. */
  ghost predicate OneByOne(s: System, id: OrderId) {
    && s.matched[id] <= 1
    && (forall t: nat, u: nat :: IsRemoving(s, t, id) && IsRemoving(s, u, id) ==> t == u)
    && (s.matched[id] == 1 ==> IsGone(s, id) && !AboutToRemove(s, id))
    && (AboutToRemove(s, id) ==> id in s.used && forall t: nat :: !IsAdding(s, t, id))
  }

  predicate IsAdding(s: System, t: nat, id: OrderId) {
    CallAt(s, t).Adding? && CallAt(s, t).id == id
  }

  ghost predicate IsGone(s: System, id: OrderId) {
    id in s.used && id !in s.pending && forall t: nat :: !IsAdding(s, t, id)
  }

  lemma OneByOneStep(s: System, a: Action, id: OrderId)
    requires CanHappen(s, a) && Inv(s) && OneByOne(s, id)
    requires a.Find? && a.id == id ==> !AboutToRemove(s, id)
    ensures OneByOne(After(s, a), id)
  {
    var s' := After(s, a);
    forall t: nat
      ensures IsRemoving(s', t, id) ==> IsRemoving(s, t, id) || (a.Find? && a.id == id && a.t == t)
      ensures IsAdding(s', t, id) ==> IsAdding(s, t, id) || ((a.Search? || a.FallBack?) && a.id == id)
      ensures a.Remove? && a.t == t ==> !IsRemoving(s', t, id)
    {}
    assert a.Add? ==> (IsAdding(s, a.t, id) <==> s.calls[a.t].id == id);
    assert a.Remove? && IsRemoving(s, a.t, id) ==> AboutToRemove(s, id);
    if AboutToRemove(s', id) {
      var t: nat :| IsRemoving(s', t, id);
      assert IsRemoving(s, t, id) ==> AboutToRemove(s, id);
      assert a.Remove? && IsRemoving(s, a.t, id) ==> !IsRemoving(s, t, id);
    }
    if a.Find? && a.id == id {
      forall t: nat
        ensures !IsAdding(s, t, id)
      {
        assert AddIsNew(s, CallAt(s, t));
      }
    }
  }

  lemma {:induction false} OneByOneRun(s: System, actions: seq<Action>, s': System, id: OrderId)
    requires Inv(s) && OneByOne(s, id) && Leads(s, actions, s') && FindsApart(s, actions, id)
    ensures OneByOne(s', id)
    decreases |actions|
  {
    if actions != [] {
      InvStep(s, actions[0]);
      OneByOneStep(s, actions[0], id);
      OneByOneRun(After(s, actions[0]), actions[1..], s', id);
    }
  }

  /** Two matches have taken the order or are doing so. */
  ghost predicate Twice(s: System, id: OrderId) {
    || s.matched[id] >= 2
    || (s.matched[id] == 1 && AboutToRemove(s, id))
    || exists t: nat, u: nat :: t != u && IsRemoving(s, t, id) && IsRemoving(s, u, id)
  }

  lemma TwiceStep(s: System, a: Action, id: OrderId)
    requires CanHappen(s, a) && Twice(s, id)
    ensures Twice(After(s, a), id)
  {
    var s' := After(s, a);
    forall t: nat
      ensures IsRemoving(s, t, id) && !(a.Remove? && a.t == t) ==> IsRemoving(s', t, id)
    {}
    if s.matched[id] == 1 && AboutToRemove(s, id) {
      var t: nat :| IsRemoving(s, t, id);
    } else if s.matched[id] < 2 {
      var t: nat, u: nat :| t != u && IsRemoving(s, t, id) && IsRemoving(s, u, id);
    }
  }

  lemma {:induction false} TwiceRun(s: System, actions: seq<Action>, s': System, id: OrderId)
    requires Leads(s, actions, s') && (Twice(s, id) || !FindsApart(s, actions, id))
    ensures Twice(s', id)
    decreases |actions|
  {
    if actions != [] {
      var a := actions[0];
      if Twice(s, id) {
        TwiceStep(s, a, id);
      } else if a.Find? && a.id == id && AboutToRemove(s, id) {
        var u: nat :| IsRemoving(s, u, id);
        assert IsRemoving(After(s, a), u, id) && IsRemoving(After(s, a), a.t, id);
      }
      TwiceRun(After(s, a), actions[1..], s', id);
    }
  }

  /**
   However they overlap, once no match of the order is under way it was matched at most once if and only if
   no match found it while another that found it had still to remove it.
   */
  lemma MatchedOnceIffFindsApart(start: System, actions: seq<Action>, s: System, id: OrderId)
    requires Inv(start) && Leads(start, actions, s) && start.matched[id] == 0
    requires !AboutToRemove(start, id) && !AboutToRemove(s, id)
    ensures s.matched[id] <= 1 <==> FindsApart(start, actions, id)
  {
    if FindsApart(start, actions, id) {
      OneByOneRun(start, actions, s, id);
    } else {
      TwiceRun(start, actions, s, id);
    }
  }

  // ------------------------------------------------------------------
  // Overlaps that go wrong
  // ------------------------------------------------------------------

  lemma Extend(start: System, actions: seq<Action>, s: System, a: Action) returns (actions': seq<Action>, s': System)
    requires Leads(start, actions, s) && CanHappen(s, a)
    ensures Leads(start, actions', s') && s' == After(s, a)
  {
    actions', s' := actions + [a], After(s, a);
    Systems.Then(Next, start, actions, s, a, s');
  }

  lemma BothSearch(start: System, t: nat, u: nat, i: OrderId, j: OrderId, amount: int)
    returns (actions: seq<Action>, s: System)
    requires t < |start.calls| && u < |start.calls| && t != u && start.calls[t].Resting? && start.calls[u].Resting?
    requires i != j && i !in start.used && j !in start.used
    requires forall k :: k in start.pending ==> start.pending[k] != amount
    ensures Leads(start, actions, s) && s.pending == start.pending && s.matched == start.matched
    ensures s.used == start.used + {i, j} && |s.calls| == |start.calls|
    ensures forall v :: 0 <= v < |s.calls| ==>
              s.calls[v] == if v == t then Adding(i, amount, start.pending.Keys, true)
                            else if v == u then Adding(j, amount, start.pending.Keys, true) else start.calls[v]
  {
    assert Leads(start, [], start);
    actions, s := Extend(start, [], start, Search(t, i, amount));
    actions, s := Extend(start, actions, s, Search(u, j, amount));
  }

  /** From any state, two creates that look before either adds its order store one free amount twice. */
  lemma OverlapRepeatsAmount(start: System, t: nat, u: nat, i: OrderId, j: OrderId, amount: int)
    returns (actions: seq<Action>, s: System)
    requires t < |start.calls| && u < |start.calls| && t != u && start.calls[t].Resting? && start.calls[u].Resting?
    requires i != j && i !in start.used && j !in start.used
    requires forall k :: k in start.pending ==> start.pending[k] != amount
    ensures Leads(start, actions, s)
    ensures s == System(start.pending[i := amount][j := amount], start.used + {i, j}, start.matched, start.calls)
  {
    actions, s := BothSearch(start, t, u, i, j, amount);
    actions, s := Extend(start, actions, s, Add(t));
    actions, s := Extend(start, actions, s, Add(u));
  }

  /** From any state, a create that falls back stores the base amount, be it taken or not. */
  lemma FallingBackMayRepeat(start: System, t: nat, id: OrderId, base: int)
    returns (actions: seq<Action>, s: System)
    requires t < |start.calls| && start.calls[t].Resting? && id !in start.used
    ensures Leads(start, actions, s)
    ensures s == System(start.pending[id := base], start.used + {id}, start.matched, start.calls)
  {
    assert Leads(start, [], start);
    actions, s := Extend(start, [], start, FallBack(t, id, base));
    actions, s := Extend(start, actions, s, Add(t));
  }

  /** With distinct amounts all matches of one amount find the same order, and it has that amount. */
  lemma FindTellsOrder(s: System, t: nat, u: nat, i: OrderId, j: OrderId, amount: int)
    requires Distinct(s) && CanHappen(s, Find(t, i, amount)) && CanHappen(s, Find(u, j, amount))
    ensures i == j && s.pending[i] == amount
  {}

  /** From any state, two matches that find a pending order before either removes it are both given the order. */
  lemma OverlapMatchesTwice(start: System, t: nat, u: nat, id: OrderId)
    returns (actions: seq<Action>, s: System)
    requires t < |start.calls| && u < |start.calls| && t != u && start.calls[t].Resting? && start.calls[u].Resting?
    requires id in start.pending
    ensures Leads(start, actions, s)
    ensures s == System(start.pending - {id}, start.used, start.matched + multiset{id, id}, start.calls)
  {
    assert Leads(start, [], start);
    actions, s := Extend(start, [], start, Find(t, id, start.pending[id]));
    actions, s := Extend(start, actions, s, Find(u, id, start.pending[id]));
    actions, s := Extend(start, actions, s, Remove(t));
    actions, s := Extend(start, actions, s, Remove(u));
  }

  /** An order settled while a create has looked and not yet added leaves its amount free for that create. */
  lemma SettlingMakesRoom(start: System, t: nat, id: OrderId, other: OrderId, base: int)
    returns (actions: seq<Action>, s: System)
    requires t < |start.calls| && start.calls[t].Resting? && other !in start.used
    requires id in start.pending && start.pending[id] == base && Distinct(start)
    ensures Leads(start, actions, s) && s.pending == (start.pending - {id})[other := base] && Distinct(s)
  {
    assert Leads(start, [], start);
    actions, s := Extend(start, [], start, FallBack(t, other, base));
    actions, s := Extend(start, actions, s, Settle(id));
    actions, s := Extend(start, actions, s, Add(t));
  }
}
