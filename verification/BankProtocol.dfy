/**
 Daily limits of bank accounts: calls that add a deposit to an account's counter, read the counter
 back and switch the account off when it has reached its limit, interleaved command by command with
 each other, with the midnight reset and with rebuilds of the cached account pools.
 */
module BankProtocol {
  import opened Text
  import Systems

  type AccountId = nat
  type Merchant = nat

  datatype Account = Account(active: bool, received: int, limit: int, priority: int)

  /** A member of a merchant's sorted set, with its score. */
  datatype Row = Row(id: AccountId, priority: int)

  /** What a call does next. A rebuild sends DEL and then one ZADD for each row, not as a transaction. */
  datatype Call =
    | Idle
    | Rereading(account: AccountId)
    | Disabling(account: AccountId)
    | Listing(account: AccountId)
    | Fetching(todo: seq<Merchant>)
    | Deleting(todo: seq<Merchant>, rows: seq<Row>)
    | Adding(todo: seq<Merchant>, rows: seq<Row>)

  datatype State = State(
    accounts: map<AccountId, Account>,
    mapped: map<Merchant, set<AccountId>>,
    pools: map<Merchant, map<AccountId, int>>,
    calls: seq<Call>)

  datatype Action =
    | Receive(t: nat, account: AccountId, amount: int)
    | Reread(t: nat)
    | Switch(t: nat, account: AccountId)
    | Disable(t: nat)
    | List(t: nat, merchants: seq<Merchant>)
    | Refresh(t: nat, merchant: Merchant)
    | Fetch(t: nat, rows: seq<Row>)
    | Del(t: nat)
    | Add(t: nat)
    | Reset

  // ------------------------------------------------------------------
  // The steps
  // ------------------------------------------------------------------

  /** The active accounts mapped to a merchant, with their priorities. */
  function ActivePool(s: State, m: Merchant): (pool: map<AccountId, int>) {
    if m in s.mapped then
      map a | a in s.mapped[m] && a in s.accounts && s.accounts[a].active :: s.accounts[a].priority
    else map[]
  }

  predicate ListsMerchantsOf(s: State, a: AccountId, merchants: seq<Merchant>) {
    && (forall m :: m in s.mapped && a in s.mapped[m] ==> m in merchants)
    && (forall i :: 0 <= i < |merchants| ==> merchants[i] in s.mapped && a in s.mapped[merchants[i]])
  }

  /** An answer of the query for a merchant's active accounts. */
  predicate ListsActive(s: State, m: Merchant, rows: seq<Row>) {
    && (forall a :: a in ActivePool(s, m) ==> Row(a, ActivePool(s, m)[a]) in rows)
    && (forall i :: 0 <= i < |rows| ==>
          rows[i].id in ActivePool(s, m) && ActivePool(s, m)[rows[i].id] == rows[i].priority)
  }

  function CallAt(s: State, t: nat): Call {
    if t < |s.calls| then s.calls[t] else Idle
  }

  predicate Enabled(s: State, a: Action) {
    match a
    case Receive(t, _, _) => t < |s.calls| && s.calls[t].Idle?
    case Reread(t) => CallAt(s, t).Rereading?
    case Switch(t, _) => t < |s.calls| && s.calls[t].Idle?
    case Disable(t) => CallAt(s, t).Disabling?
    case List(t, merchants) => CallAt(s, t).Listing? && ListsMerchantsOf(s, s.calls[t].account, merchants)
    case Refresh(t, _) => t < |s.calls| && s.calls[t].Idle?
    case Fetch(t, rows) =>
      CallAt(s, t).Fetching? && s.calls[t].todo != [] && ListsActive(s, s.calls[t].todo[0], rows)
    case Del(t) => CallAt(s, t).Deleting? && s.calls[t].todo != []
    case Add(t) => CallAt(s, t).Adding? && s.calls[t].todo != [] && s.calls[t].rows != []
    case Reset => true
  }

  /** Go on with the merchants still to be rebuilt. */
  function Rebuild(todo: seq<Merchant>): Call {
    if todo == [] then Idle else Fetching(todo)
  }

  /** Go on with the rows still to be added. */
  function Fill(todo: seq<Merchant>, rows: seq<Row>): Call
    requires todo != []
  {
    if rows == [] then Rebuild(todo[1..]) else Adding(todo, rows)
  }

  function Cached(s: State, m: Merchant): map<AccountId, int> {
    if m in s.pools then s.pools[m] else map[]
  }

  function Apply(s: State, a: Action): State
    requires Enabled(s, a)
  {
    match a
    case Receive(t, id, amount) =>
      var s1 := s.(calls := s.calls[t := Rereading(id)]);
      if id in s.accounts then
        s1.(accounts := s.accounts[id := s.accounts[id].(received := s.accounts[id].received + amount)])
      else s1
    case Reread(t) =>
      var id := s.calls[t].account;
      s.(calls := s.calls[t := if id in s.accounts && s.accounts[id].received >= s.accounts[id].limit
                               then Disabling(id) else Idle])
    case Switch(t, id) => s.(calls := s.calls[t := Disabling(id)])
    case Disable(t) =>
      var id := s.calls[t].account;
      if id in s.accounts then
        s.(accounts := s.accounts[id := s.accounts[id].(active := false)], calls := s.calls[t := Listing(id)])
      else s.(calls := s.calls[t := Idle])
    case List(t, merchants) => s.(calls := s.calls[t := Rebuild(merchants)])
    case Refresh(t, m) => s.(calls := s.calls[t := Fetching([m])])
    case Fetch(t, rows) => s.(calls := s.calls[t := Deleting(s.calls[t].todo, rows)])
    case Del(t) =>
      var Deleting(todo, rows) := s.calls[t];
      s.(pools := s.pools[todo[0] := map[]], calls := s.calls[t := Fill(todo, rows)])
    case Add(t) =>
      var Adding(todo, rows) := s.calls[t];
      s.(pools := s.pools[todo[0] := Cached(s, todo[0])[rows[0].id := rows[0].priority]],
         calls := s.calls[t := Fill(todo, rows[1..])])
    case Reset => s.(accounts := map a | a in s.accounts :: s.accounts[a].(received := 0))
  }

  function Next(s: State, a: Action): Option<State> {
    if Enabled(s, a) then Some(Apply(s, a)) else None
  }

  ghost predicate Runs(s: State, actions: seq<Action>, s': State) {
    Systems.Run(Next, s, actions, s')
  }

  // ------------------------------------------------------------------
  // The limit
  // ------------------------------------------------------------------

  ghost predicate PositiveLimits(s: State) {
    forall a :: a in s.accounts ==> 0 < s.accounts[a].limit
  }

  predicate OverLimit(s: State, a: AccountId) {
    a in s.accounts && s.accounts[a].active && s.accounts[a].limit <= s.accounts[a].received
  }

  /** Call `t` has still to read account `a` back, or to switch it off. */
  predicate WillCheck(s: State, t: nat, a: AccountId) {
    CallAt(s, t) == Rereading(a) || CallAt(s, t) == Disabling(a)
  }

  /** Every active account at its limit has a call in flight that will see to it. */
  ghost predicate LimitInv(s: State) {
    forall a :: OverLimit(s, a) ==> exists t :: WillCheck(s, t, a)
  }

  lemma LimitStep(s: State, a: Action)
    requires Enabled(s, a) && LimitInv(s) && PositiveLimits(s)
    ensures LimitInv(Apply(s, a)) && PositiveLimits(Apply(s, a))
  {
    var s' := Apply(s, a);
    forall id | OverLimit(s', id)
      ensures exists t :: WillCheck(s', t, id)
    {
      if a.Receive? && a.account == id {
        assert WillCheck(s', a.t, id);
      } else {
        assert OverLimit(s, id);
        var t :| WillCheck(s, t, id);
        assert WillCheck(s', t, id);
      }
    }
  }

  lemma {:induction false} LimitRun(s: State, actions: seq<Action>, s': State)
    requires LimitInv(s) && PositiveLimits(s) && Runs(s, actions, s')
    ensures LimitInv(s') && PositiveLimits(s')
    decreases |actions|
  {
    if actions != [] {
      LimitStep(s, actions[0]);
      LimitRun(Apply(s, actions[0]), actions[1..], s');
    }
  }

  ghost predicate AllIdle(s: State) {
    forall t :: 0 <= t < |s.calls| ==> s.calls[t].Idle?
  }

  ghost predicate NoneOverLimit(s: State) {
    forall a :: !OverLimit(s, a)
  }

  /** Start of service: no call in flight, no active account at its limit. */
  ghost predicate Started(s: State) {
    AllIdle(s) && NoneOverLimit(s) && PositiveLimits(s)
  }

  /** Whatever calls overlapped before, once none is in flight no active account is at its limit. */
  lemma QuietMeansUnderLimit(start: State, actions: seq<Action>, s: State)
    requires Started(start) && Runs(start, actions, s)
    ensures LimitInv(s)
    ensures AllIdle(s) ==> NoneOverLimit(s)
  {
    LimitRun(start, actions, s);
    if AllIdle(s) {
      forall a
        ensures !OverLimit(s, a)
      {
        assert forall t :: !WillCheck(s, t, a);
      }
    }
  }

  // ------------------------------------------------------------------
  // What is switched off, and why
  // ------------------------------------------------------------------

  /** The counter of account `a` after these actions: the deposits since the last reset. */
  function Deposited(counter: int, actions: seq<Action>, a: AccountId): int
    decreases |actions|
  {
    if actions == [] then counter
    else match actions[0]
      case Receive(_, id, amount) => Deposited(if id == a then counter + amount else counter, actions[1..], a)
      case Reset => Deposited(0, actions[1..], a)
      case _ => Deposited(counter, actions[1..], a)
  }

  lemma {:induction false} CounterIsDeposits(s: State, actions: seq<Action>, s': State, a: AccountId)
    requires Runs(s, actions, s') && a in s.accounts
    ensures a in s'.accounts && s'.accounts[a].limit == s.accounts[a].limit
    ensures s'.accounts[a].received == Deposited(s.accounts[a].received, actions, a)
    ensures s'.accounts[a].active ==> s.accounts[a].active
    decreases |actions|
  {
    if actions != [] {
      CounterIsDeposits(Apply(s, actions[0]), actions[1..], s', a);
    }
  }

  predicate IsSwitchOf(action: Action, a: AccountId) {
    action.Switch? && action.account == a
  }

  /** Somebody switches account `a` off by hand. */
  predicate SwitchedByHand(actions: seq<Action>, a: AccountId) {
    actions != [] && (IsSwitchOf(actions[0], a) || SwitchedByHand(actions[1..], a))
  }

  ghost predicate NoNegativeDeposits(actions: seq<Action>, a: AccountId) {
    forall i :: 0 <= i < |actions| && actions[i].Receive? && actions[i].account == a ==> 0 <= actions[i].amount
  }

  predicate AtLimit(s: State, a: AccountId) {
    a in s.accounts && s.accounts[a].limit <= s.accounts[a].received
  }

  /** Some re-read of account `a` in the run finds it at its limit. */
  ghost predicate Caught(s: State, actions: seq<Action>, a: AccountId)
    decreases |actions|
  {
    && actions != [] && Enabled(s, actions[0])
    && ((actions[0].Reread? && s.calls[actions[0].t].account == a && AtLimit(s, a))
        || Caught(Apply(s, actions[0]), actions[1..], a))
  }

  ghost predicate AboutToDisable(s: State, a: AccountId) {
    exists t :: CallAt(s, t) == Disabling(a)
  }

  /** The step decides that account `a` is to be switched off. */
  predicate Decides(s: State, action: Action, a: AccountId)
    requires Enabled(s, action)
  {
    IsSwitchOf(action, a) || (action.Reread? && s.calls[action.t].account == a && AtLimit(s, a))
  }

  lemma DisablingStep(s: State, action: Action, a: AccountId)
    requires Enabled(s, action) && !action.Disable?
    ensures AboutToDisable(Apply(s, action), a) <==> AboutToDisable(s, a) || Decides(s, action, a)
  {
    var s' := Apply(s, action);
    forall t
      ensures CallAt(s, t) == Disabling(a) ==> CallAt(s', t) == Disabling(a)
      ensures CallAt(s', t) == Disabling(a) ==> CallAt(s, t) == Disabling(a) || Decides(s, action, a)
    {}
    if Decides(s, action, a) {
      assert CallAt(s', action.t) == Disabling(a);
    }
  }

  lemma {:induction false} ActiveUnlessDecided(s: State, actions: seq<Action>, s': State, a: AccountId)
    requires Runs(s, actions, s') && a in s.accounts && !AboutToDisable(s', a)
    ensures a in s'.accounts
    ensures s'.accounts[a].active <==>
            && s.accounts[a].active && !AboutToDisable(s, a)
            && !Caught(s, actions, a) && !SwitchedByHand(actions, a)
    decreases |actions|
  {
    if actions != [] {
      var next := Apply(s, actions[0]);
      ActiveUnlessDecided(next, actions[1..], s', a);
      if !actions[0].Disable? {
        DisablingStep(s, actions[0], a);
      } else if s.calls[actions[0].t].account == a {
        assert CallAt(s, actions[0].t) == Disabling(a);
      } else {
        OtherDisable(s, actions[0].t, a);
      }
    }
  }

  lemma OtherDisable(s: State, t: nat, a: AccountId)
    requires Enabled(s, Disable(t)) && s.calls[t].account != a
    ensures AboutToDisable(Apply(s, Disable(t)), a) <==> AboutToDisable(s, a)
    ensures a in s.accounts ==> Apply(s, Disable(t)).accounts[a] == s.accounts[a]
  {
    assert forall u :: CallAt(Apply(s, Disable(t)), u) == Disabling(a) <==> CallAt(s, u) == Disabling(a);
  }

  /**
   After any run, once no call is in flight, an account is active if and only if it was at the start,
   nobody switched it off by hand and no re-read found it at its limit.
   */
  lemma ActiveIffNeverCaught(start: State, actions: seq<Action>, s: State, a: AccountId)
    requires AllIdle(start) && Runs(start, actions, s) && AllIdle(s) && a in start.accounts
    ensures a in s.accounts
    ensures s.accounts[a].active <==>
            start.accounts[a].active && !SwitchedByHand(actions, a) && !Caught(start, actions, a)
  {
    assert forall t :: CallAt(start, t).Idle? && CallAt(s, t).Idle?;
    ActiveUnlessDecided(start, actions, s, a);
  }

  /** In some period between resets the deposits to `a` bring its counter to `limit`. */
  predicate ReachesLimit(counter: int, limit: int, actions: seq<Action>, a: AccountId)
    decreases |actions|
  {
    actions != [] &&
    match actions[0]
    case Receive(_, id, amount) =>
      if id == a then limit <= counter + amount || ReachesLimit(counter + amount, limit, actions[1..], a)
      else ReachesLimit(counter, limit, actions[1..], a)
    case Reset => ReachesLimit(0, limit, actions[1..], a)
    case _ => ReachesLimit(counter, limit, actions[1..], a)
  }

  ghost predicate AboutToReread(s: State, a: AccountId) {
    exists t :: CallAt(s, t) == Rereading(a)
  }

  /** No reset comes between a deposit to `a` and its re-read. */
  ghost predicate ResetsBetweenCalls(s: State, actions: seq<Action>, a: AccountId)
    decreases |actions|
  {
    actions != [] ==>
      && Enabled(s, actions[0])
      && (actions[0].Reset? ==> !AboutToReread(s, a))
      && ResetsBetweenCalls(Apply(s, actions[0]), actions[1..], a)
  }

  lemma RereadingStep(s: State, action: Action, a: AccountId)
    requires Enabled(s, action) && a in s.accounts && 0 < s.accounts[a].limit
    requires action.Receive? && action.account == a ==> 0 <= action.amount
    requires action.Reset? ==> !AboutToReread(s, a)
    requires !(action.Reread? && s.calls[action.t].account == a && AtLimit(s, a))
    ensures action.Receive? && action.account == a ==> AboutToReread(Apply(s, action), a)
    ensures AboutToReread(s, a) && AtLimit(s, a) ==> AboutToReread(Apply(s, action), a) && AtLimit(Apply(s, action), a)
    ensures !(action.Receive? && action.account == a) ==>
              (AboutToReread(Apply(s, action), a) && AtLimit(Apply(s, action), a) ==>
                 AboutToReread(s, a) && AtLimit(s, a))
  {
    var s' := Apply(s, action);
    if action.Receive? && action.account == a {
      assert CallAt(s', action.t) == Rereading(a);
    }
    if AboutToReread(s, a) && AtLimit(s, a) {
      var t :| CallAt(s, t) == Rereading(a);
      assert CallAt(s', t) == Rereading(a);
    }
    if !(action.Receive? && action.account == a) && AboutToReread(s', a) {
      var t :| CallAt(s', t) == Rereading(a);
      assert CallAt(s, t) == Rereading(a);
    }
  }

  lemma {:induction false} CaughtIffReaches(s: State, actions: seq<Action>, s': State, a: AccountId)
    requires Runs(s, actions, s') && NoNegativeDeposits(actions, a) && ResetsBetweenCalls(s, actions, a)
    requires a in s.accounts && 0 < s.accounts[a].limit && !AboutToReread(s', a)
    ensures Caught(s, actions, a) <==>
            || ReachesLimit(s.accounts[a].received, s.accounts[a].limit, actions, a)
            || (AboutToReread(s, a) && AtLimit(s, a))
    decreases |actions|
  {
    if actions != [] {
      var action, next := actions[0], Apply(s, actions[0]);
      if action.Reread? && s.calls[action.t].account == a && AtLimit(s, a) {
        assert CallAt(s, action.t) == Rereading(a);
      } else {
        CounterIsDeposits(s, [action], next, a);
        CaughtIffReaches(next, actions[1..], s', a);
        RereadingStep(s, action, a);
      }
    }
  }

  /**
   With no reset between a deposit to `a` and its re-read, once no call is in flight, `a` is active if
   and only if it was, nobody switched it off by hand, and in no period between resets its deposits
   reached its limit.
   */
  lemma SwitchedOffIffLimitReached(start: State, actions: seq<Action>, s: State, a: AccountId)
    requires AllIdle(start) && PositiveLimits(start) && Runs(start, actions, s) && AllIdle(s) && a in start.accounts
    requires NoNegativeDeposits(actions, a) && ResetsBetweenCalls(start, actions, a)
    ensures a in s.accounts
    ensures s.accounts[a].active <==>
            start.accounts[a].active && !SwitchedByHand(actions, a)
            && !ReachesLimit(start.accounts[a].received, start.accounts[a].limit, actions, a)
  {
    assert forall t :: CallAt(start, t).Idle? && CallAt(s, t).Idle?;
    ActiveIffNeverCaught(start, actions, s, a);
    CaughtIffReaches(start, actions, s, a);
  }

  /** Without resets, reaching the limit is a matter of the total. */
  lemma {:induction false} ReachesIffTotal(counter: int, limit: int, actions: seq<Action>, a: AccountId)
    requires NoNegativeDeposits(actions, a) && counter < limit
    requires forall i :: 0 <= i < |actions| ==> !actions[i].Reset?
    ensures ReachesLimit(counter, limit, actions, a) <==> limit <= Deposited(counter, actions, a)
    decreases |actions|
  {
    if actions != [] {
      var rest := actions[1..];
      if actions[0].Receive? && actions[0].account == a && limit <= counter + actions[0].amount {
        DepositedGrows(counter + actions[0].amount, rest, a);
      } else {
        ReachesIffTotal(if actions[0].Receive? && actions[0].account == a then counter + actions[0].amount else counter,
                        limit, rest, a);
      }
    }
  }

  lemma {:induction false} DepositedGrows(counter: int, actions: seq<Action>, a: AccountId)
    requires NoNegativeDeposits(actions, a) && forall i :: 0 <= i < |actions| ==> !actions[i].Reset?
    ensures counter <= Deposited(counter, actions, a)
    decreases |actions|
  {
    if actions != [] {
      DepositedGrows(if actions[0].Receive? && actions[0].account == a then counter + actions[0].amount else counter,
                     actions[1..], a);
    }
  }

  /** A reset between the read and the switch leaves any account off with nothing received. */
  lemma ResetBeforeSwitch(s: State, t: nat, a: AccountId, amount: int)
    requires t < |s.calls| && s.calls[t].Idle? && a in s.accounts
    requires s.accounts[a].limit <= s.accounts[a].received + amount
    ensures var actions := [Receive(t, a, amount), Reread(t), Reset, Disable(t)];
            exists s' :: Runs(s, actions, s') && a in s'.accounts
                         && s'.accounts[a] == s.accounts[a].(active := false, received := 0)
  {
    var s1 := Apply(s, Receive(t, a, amount));
    var s2 := Apply(s1, Reread(t));
    var s3 := Apply(s2, Reset);
    var s4 := Apply(s3, Disable(t));
    assert Runs(s4, [], s4);
    assert Runs(s3, [Disable(t)], s4);
    assert Runs(s2, [Reset, Disable(t)], s4);
    assert Runs(s1, [Reread(t), Reset, Disable(t)], s4);
    assert Runs(s, [Receive(t, a, amount), Reread(t), Reset, Disable(t)], s4);
  }

  /** A reset between the deposit and the read leaves any account as it was, although the deposit reached the limit. */
  lemma ResetBeforeReread(s: State, t: nat, a: AccountId, amount: int)
    requires t < |s.calls| && s.calls[t].Idle? && a in s.accounts && 0 < s.accounts[a].limit
    requires s.accounts[a].limit <= s.accounts[a].received + amount
    ensures var actions := [Receive(t, a, amount), Reset, Reread(t)];
            && ReachesLimit(s.accounts[a].received, s.accounts[a].limit, actions, a)
            && exists s' :: Runs(s, actions, s') && s'.calls == s.calls && a in s'.accounts
                            && s'.accounts[a] == s.accounts[a].(received := 0)
  {
    var s1 := Apply(s, Receive(t, a, amount));
    var s2 := Apply(s1, Reset);
    var s3 := Apply(s2, Reread(t));
    assert Runs(s3, [], s3);
    assert Runs(s2, [Reread(t)], s3);
    assert Runs(s1, [Reset, Reread(t)], s3);
    assert Runs(s, [Receive(t, a, amount), Reset, Reread(t)], s3);
  }
}
