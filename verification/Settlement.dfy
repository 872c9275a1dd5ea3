/**
 Completions and expiries of deposit orders that overlap. Each reads the order, goes on only if it is
 pending, writes the new status, and then credits the merchant (a completion) and gives back the load
 of the bank account. The write does not look at the status again.
 */
module Settlement {
  import opened Text
  import opened DepositOrders
  import Systems

  datatype Call =
    | Resting
    | Updating(id: OrderId, to: Status)
    | Crediting(id: OrderId)
    | Releasing(id: OrderId)

  /** `credited` and `released` hold an order once for each credit asked for and each load given back. */
  datatype System = System(
    status: map<OrderId, Status>,
    credited: multiset<OrderId>,
    released: multiset<OrderId>,
    calls: seq<Call>)

  datatype Action =
    | Load(t: nat, id: OrderId, to: Status)
    | Update(t: nat)
    | Credit(t: nat)
    | Release(t: nat)

  function CallAt(s: System, t: nat): Call {
    if t < |s.calls| then s.calls[t] else Resting
  }

  predicate IsOpen(s: System, id: OrderId) {
    id in s.status && s.status[id] == Pending
  }

  predicate CanHappen(s: System, a: Action) {
    match a
    case Load(t, id, to) => t < |s.calls| && s.calls[t].Resting? && to != Pending
    case Update(t) => CallAt(s, t).Updating?
    case Credit(t) => CallAt(s, t).Crediting?
    case Release(t) => CallAt(s, t).Releasing?
  }

  function After(s: System, a: Action): System
    requires CanHappen(s, a)
  {
    match a
    case Load(t, id, to) => if IsOpen(s, id) then s.(calls := s.calls[t := Updating(id, to)]) else s
    case Update(t) =>
      var Updating(id, to) := s.calls[t];
      s.(status := s.status[id := to],
         calls := s.calls[t := if to == Completed then Crediting(id) else Releasing(id)])
    case Credit(t) =>
      var id := s.calls[t].id;
      s.(credited := s.credited + multiset{id}, calls := s.calls[t := Releasing(id)])
    case Release(t) =>
      s.(released := s.released + multiset{s.calls[t].id}, calls := s.calls[t := Resting])
  }

  function Next(s: System, a: Action): Option<System> {
    if CanHappen(s, a) then Some(After(s, a)) else None
  }

  ghost predicate Leads(s: System, actions: seq<Action>, s': System) {
    Systems.Run(Next, s, actions, s')
  }

  // ------------------------------------------------------------------
  // When settling an order goes right
  // ------------------------------------------------------------------

  /** Call `t` is settling the order. */
  predicate IsOn(s: System, t: nat, id: OrderId) {
    var call := CallAt(s, t);
    !call.Resting? && call.id == id
  }

  ghost predicate NoneOn(s: System, id: OrderId) {
    forall t: nat :: !IsOn(s, t, id)
  }

  ghost predicate AboutToUpdate(s: System, id: OrderId) {
    exists t: nat :: IsOn(s, t, id) && CallAt(s, t).Updating?
  }

  /** The order is untouched, or was settled by one call: one load given back, one credit if completed. */
  predicate SettledRight(s: System, id: OrderId) {
    && id in s.status
    && s.released[id] == (if s.status[id] == Pending then 0 else 1)
    && s.credited[id] == (if s.status[id] == Completed then 1 else 0)
  }

  /** No call finds the order pending while another, having found it pending too, has still to write. */
  ghost predicate ReadsApart(s: System, actions: seq<Action>, id: OrderId)
    decreases |actions|
  {
    actions != [] ==>
      && CanHappen(s, actions[0])
      && (actions[0].Load? && actions[0].id == id && IsOpen(s, id) ==> !AboutToUpdate(s, id))
      && ReadsApart(After(s, actions[0]), actions[1..], id)
  }

  /** One call at most is on the order, and all it has still to do has not been done. */
  ghost predicate OneByOne(s: System, id: OrderId) {
    && id in s.status
    && (forall t: nat, u: nat :: IsOn(s, t, id) && IsOn(s, u, id) ==> t == u)
    && (forall t: nat :: IsOn(s, t, id) ==>
          && s.released[id] == 0
          && (CallAt(s, t).Updating? <==> s.status[id] == Pending)
          && (CallAt(s, t).Updating? ==> CallAt(s, t).to != Pending)
          && (CallAt(s, t).Crediting? ==> s.status[id] == Completed)
          && s.credited[id] == (if s.status[id] == Completed && !CallAt(s, t).Crediting? then 1 else 0))
    && (NoneOn(s, id) ==> SettledRight(s, id))
  }

  lemma OneByOneStep(s: System, a: Action, id: OrderId)
    requires CanHappen(s, a) && OneByOne(s, id)
    requires a.Load? && a.id == id && IsOpen(s, id) ==> !AboutToUpdate(s, id)
    ensures OneByOne(After(s, a), id)
  {
    var s' := After(s, a);
    forall t: nat
      ensures t != a.t ==> (IsOn(s', t, id) <==> IsOn(s, t, id)) && CallAt(s', t) == CallAt(s, t)
    {}
    if a.Load? && a.id == id && IsOpen(s, id) {
      assert NoneOn(s, id);
      assert IsOn(s', a.t, id);
    } else if IsOn(s, a.t, id) {
      if !a.Release? {
        assert IsOn(s', a.t, id);
      }
    } else {
      assert !IsOn(s', a.t, id);
    }
  }

  lemma {:induction false} OneByOneRun(s: System, actions: seq<Action>, s': System, id: OrderId)
    requires OneByOne(s, id) && Leads(s, actions, s') && ReadsApart(s, actions, id)
    ensures OneByOne(s', id)
    decreases |actions|
  {
    if actions != [] {
      OneByOneStep(s, actions[0], id);
      OneByOneRun(After(s, actions[0]), actions[1..], s', id);
    }
  }

  /** Two calls have settled the order or are doing so. */
  ghost predicate Twice(s: System, id: OrderId) {
    || s.released[id] >= 2
    || (s.released[id] == 1 && exists t: nat :: IsOn(s, t, id))
    || exists t: nat, u: nat :: t != u && IsOn(s, t, id) && IsOn(s, u, id)
  }

  lemma TwiceStep(s: System, a: Action, id: OrderId)
    requires CanHappen(s, a) && Twice(s, id)
    ensures Twice(After(s, a), id)
  {
    var s' := After(s, a);
    forall t: nat
      ensures IsOn(s, t, id) && !(a.Release? && a.t == t) ==> IsOn(s', t, id)
    {}
    if s.released[id] == 1 {
      var t: nat :| IsOn(s, t, id);
    } else if s.released[id] == 0 {
      var t: nat, u: nat :| t != u && IsOn(s, t, id) && IsOn(s, u, id);
    }
  }

  lemma {:induction false} TwiceRun(s: System, actions: seq<Action>, s': System, id: OrderId)
    requires Leads(s, actions, s') && (Twice(s, id) || !ReadsApart(s, actions, id))
    ensures Twice(s', id)
    decreases |actions|
  {
    if actions != [] {
      var a := actions[0];
      if Twice(s, id) {
        TwiceStep(s, a, id);
      } else if a.Load? && a.id == id && IsOpen(s, id) && AboutToUpdate(s, id) {
        var u: nat :| IsOn(s, u, id) && CallAt(s, u).Updating?;
        assert IsOn(After(s, a), u, id) && IsOn(After(s, a), a.t, id);
      }
      TwiceRun(After(s, a), actions[1..], s', id);
    }
  }

  /**
   However completions and expiries overlap, once none is on the order any more it was settled right, by
   one call at most, if and only if no call found it pending while another had still to write.
   */
  lemma SettledRightIffReadsApart(start: System, actions: seq<Action>, s: System, id: OrderId)
    requires Leads(start, actions, s) && NoneOn(start, id) && NoneOn(s, id)
    requires IsOpen(start, id) && start.credited[id] == 0 && start.released[id] == 0
    ensures SettledRight(s, id) <==> ReadsApart(start, actions, id)
  {
    if ReadsApart(start, actions, id) {
      OneByOneRun(start, actions, s, id);
    } else {
      TwiceRun(start, actions, s, id);
    }
  }

  lemma Extend(start: System, actions: seq<Action>, s: System, a: Action) returns (actions': seq<Action>, s': System)
    requires Leads(start, actions, s) && CanHappen(s, a)
    ensures Leads(start, actions', s') && s' == After(s, a)
  {
    actions', s' := actions + [a], After(s, a);
    Systems.Then(Next, start, actions, s, a, s');
  }

  /** A call that found the order pending completes it, credits the merchant and ends. */
  lemma FinishCompletion(start: System, actions: seq<Action>, s: System, t: nat, id: OrderId)
    returns (actions': seq<Action>, s': System)
    requires Leads(start, actions, s) && CallAt(s, t) == Updating(id, Completed)
    ensures Leads(start, actions', s')
    ensures s' == System(s.status[id := Completed], s.credited + multiset{id}, s.released + multiset{id},
                         s.calls[t := Resting])
  {
    actions', s' := Extend(start, actions, s, Update(t));
    actions', s' := Extend(start, actions', s', Credit(t));
    actions', s' := Extend(start, actions', s', Release(t));
  }

  lemma BothLoad(start: System, id: OrderId, t: nat, u: nat) returns (actions: seq<Action>, s: System)
    requires IsOpen(start, id) && t < |start.calls| && u < |start.calls| && t != u
    requires start.calls[t].Resting? && start.calls[u].Resting?
    ensures Leads(start, actions, s)
    ensures s == start.(calls := start.calls[t := Updating(id, Completed)][u := Updating(id, Completed)])
  {
    assert Leads(start, [], start);
    actions, s := Extend(start, [], start, Load(t, id, Completed));
    actions, s := Extend(start, actions, s, Load(u, id, Completed));
  }

  /** Two completions that both read first credit the merchant twice, from any state. */
  lemma OverlapCreditsTwice(start: System, id: OrderId, t: nat, u: nat) returns (actions: seq<Action>, s: System)
    requires IsOpen(start, id) && t < |start.calls| && u < |start.calls| && t != u
    requires start.calls[t].Resting? && start.calls[u].Resting?
    ensures Leads(start, actions, s) && s.calls == start.calls
    ensures s.status == start.status[id := Completed] && s.credited == start.credited + multiset{id, id}
  {
    actions, s := BothLoad(start, id, t, u);
    actions, s := FinishCompletion(start, actions, s, t, id);
    actions, s := FinishCompletion(start, actions, s, u, id);
  }
}
