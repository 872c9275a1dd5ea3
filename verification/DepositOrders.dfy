/**
 Deposit orders: a table, and three Redis structures kept beside it — the pending orders of each
 bank account scored by amount, the orders by expiry time, and each merchant's pool of accounts
 scored by load. A service call is one event.
 */
module DepositOrders {
  import opened Text
  import Systems

  type OrderId = nat
  type Account = nat
  type Merchant = nat

  datatype Status = Pending | Completed | Expired

  /** Amounts in satang, times in seconds. */
  datatype Order = Order(
    merchant: Merchant,
    account: Account,
    requested: int,
    adjusted: int,
    status: Status,
    createdAt: int,
    expiresAt: int,
    actual: int,
    fee: int,
    net: int)

  datatype State = State(
    orders: map<OrderId, Order>,
    pending: map<(Account, OrderId), int>,
    expiry: map<OrderId, int>,
    pool: map<(Merchant, Account), int>,
    matched: set<OrderId>,
    orphans: multiset<(Merchant, Account)>)

  datatype Event =
    | Create(id: OrderId, order: Order)
    | FailCreate(merchant: Merchant, account: Account)
    | MatchUnique(account: Account, amount: int, id: OrderId)
    | MatchOldest(account: Account, amount: int, id: OrderId)
    | Complete(id: OrderId, actual: int, fee: int)
    | Expire(id: OrderId)

  // ------------------------------------------------------------------
  // The events
  // ------------------------------------------------------------------

  /** Some pending order of the account has this amount as its score. */
  predicate InUse(s: State, a: Account, amount: int) {
    exists p :: p in s.pending && p.0 == a && s.pending[p] == amount
  }

  /** The account has the lowest load in the merchant's pool. */
  predicate IsLeastLoaded(s: State, m: Merchant, a: Account) {
    (m, a) in s.pool && forall k :: k in s.pool && k.0 == m ==> s.pool[(m, a)] <= s.pool[k]
  }

  predicate IsPending(s: State, id: OrderId) {
    id in s.orders && s.orders[id].status == Pending
  }

  predicate IsPendingFor(s: State, id: OrderId, a: Account, amount: int) {
    IsPending(s, id) && s.orders[id].account == a && s.orders[id].adjusted == amount
  }

  /** What the search for a free amount may return: one of the 99 next satang if free, or the base amount. */
  predicate IsAdjusted(s: State, a: Account, base: int, amount: int) {
    amount == base || (base < amount <= base + 99 && !InUse(s, a, amount))
  }

  predicate Enabled(s: State, e: Event) {
    match e
    case Create(id, o) =>
      && id !in s.orders && o.status == Pending && IsLeastLoaded(s, o.merchant, o.account)
      && IsAdjusted(s, o.account, o.requested, o.adjusted)
    case FailCreate(m, a) => IsLeastLoaded(s, m, a)
    case MatchUnique(a, amount, id) => (a, id) in s.pending && s.pending[(a, id)] == amount
    case MatchOldest(a, amount, id) =>
      && IsPendingFor(s, id, a, amount)
      && forall j :: j in s.orders && IsPendingFor(s, j, a, amount) ==> s.orders[id].createdAt <= s.orders[j].createdAt
    case Complete(id, _, _) => IsPending(s, id)
    case Expire(id) => IsPending(s, id)
  }

  /** ZINCRBY, which starts from zero when the member is missing. */
  function Bumped(pool: map<(Merchant, Account), int>, k: (Merchant, Account), n: int): map<(Merchant, Account), int> {
    pool[k := (if k in pool then pool[k] else 0) + n]
  }

  /** What completing and expiring share: the order leaves every Redis structure. */
  function Released(s: State, id: OrderId): State
    requires id in s.orders
  {
    var o := s.orders[id];
    s.(pending := s.pending - {(o.account, id)}, expiry := s.expiry - {id},
       pool := Bumped(s.pool, (o.merchant, o.account), -1))
  }

  function Apply(s: State, e: Event): State
    requires Enabled(s, e)
  {
    match e
    case Create(id, o) =>
      s.(orders := s.orders[id := o],
         pending := s.pending[(o.account, id) := o.adjusted],
         expiry := s.expiry[id := o.expiresAt],
         pool := Bumped(s.pool, (o.merchant, o.account), 1))
    case FailCreate(m, a) =>
      s.(pool := Bumped(s.pool, (m, a), 1), orphans := s.orphans + multiset{(m, a)})
    case MatchUnique(a, _, id) =>
      s.(pending := s.pending - {(a, id)}, matched := s.matched + {id})
    case MatchOldest(a, _, id) =>
      s.(pending := s.pending - {(a, id)}, matched := s.matched + {id})
    case Complete(id, actual, fee) =>
      var s1 := Released(s, id);
      s1.(orders := s.orders[id := s.orders[id].(status := Completed,
                                                 actual := actual, fee := fee, net := actual - fee)])
    case Expire(id) =>
      var s1 := Released(s, id);
      s1.(orders := s.orders[id := s.orders[id].(status := Expired)])
  }

  function Next(s: State, e: Event): Option<State> {
    if Enabled(s, e) then Some(Apply(s, e)) else None
  }

  ghost predicate Runs(s: State, events: seq<Event>, s': State) {
    Systems.Run(Next, s, events, s')
  }

  ghost predicate Initial(s: State, base: map<(Merchant, Account), int>) {
    s == State(map[], map[], map[], base, {}, multiset{})
  }

  // ------------------------------------------------------------------
  // Table and indexes agree
  // ------------------------------------------------------------------

  ghost function PendingOf(s: State, k: (Merchant, Account)): set<OrderId> {
    set id | id in s.orders && IsPending(s, id) && (s.orders[id].merchant, s.orders[id].account) == k
  }

  /** The Redis entries of one order are those its row calls for. */
  ghost predicate OrderInv(s: State, id: OrderId) {
    && (id in s.expiry <==> IsPending(s, id))
    && (id in s.expiry ==> s.expiry[id] == s.orders[id].expiresAt)
    && (forall a :: (a, id) in s.pending <==> IsPending(s, id) && s.orders[id].account == a && id !in s.matched)
    && (forall a :: (a, id) in s.pending ==> s.pending[(a, id)] == s.orders[id].adjusted)
    && (id in s.matched ==> id in s.orders)
  }

  /** An account's load is where it started, plus its pending orders, plus one for each create that failed late. */
  ghost predicate PoolInv(base: map<(Merchant, Account), int>, s: State) {
    && s.pool.Keys == base.Keys
    && (forall k :: k in base ==> s.pool[k] == base[k] + |PendingOf(s, k)| + s.orphans[k])
    && (forall id :: IsPending(s, id) ==> (s.orders[id].merchant, s.orders[id].account) in base)
  }

  ghost predicate Inv(base: map<(Merchant, Account), int>, s: State) {
    (forall id :: OrderInv(s, id)) && PoolInv(base, s)
  }

  lemma OrderInvStep(s: State, e: Event, id: OrderId)
    requires Enabled(s, e) && OrderInv(s, id) && (e.Create? || e.FailCreate? || OrderInv(s, e.id))
    ensures OrderInv(Apply(s, e), id)
  {
    match e
    case Create(_, _) =>
    case FailCreate(_, _) =>
    case MatchUnique(_, _, _) =>
    case MatchOldest(_, _, _) =>
    case Complete(_, _, _) =>
    case Expire(_) =>
  }

  /** How an event changes the pending orders of one merchant and account, and its load. */
  lemma PendingOfStep(s: State, e: Event, k: (Merchant, Account))
    requires Enabled(s, e)
    ensures e.Create? ==> e.id !in PendingOf(s, k)
    ensures PendingOf(Apply(s, e), k) ==
            match e
            case Create(id, o) => if k == (o.merchant, o.account) then PendingOf(s, k) + {id} else PendingOf(s, k)
            case Complete(id, _, _) => PendingOf(s, k) - {id}
            case Expire(id) => PendingOf(s, k) - {id}
            case _ => PendingOf(s, k)
  {
    var s' := Apply(s, e);
    match e
    case Create(id, o) =>
      assert forall j :: j != id ==> IsPending(s', j) == IsPending(s, j);
    case Complete(id, _, _) =>
      assert forall j :: j != id ==> IsPending(s', j) == IsPending(s, j);
    case Expire(id) =>
      assert forall j :: j != id ==> IsPending(s', j) == IsPending(s, j);
    case _ =>
  }

  function LoadChange(s: State, e: Event, k: (Merchant, Account)): int
    requires Enabled(s, e)
  {
    match e
    case Create(_, o) => if k == (o.merchant, o.account) then 1 else 0
    case FailCreate(m, a) => if k == (m, a) then 1 else 0
    case Complete(id, _, _) => if k == (s.orders[id].merchant, s.orders[id].account) then -1 else 0
    case Expire(id) => if k == (s.orders[id].merchant, s.orders[id].account) then -1 else 0
    case _ => 0
  }

  lemma PoolStep(s: State, e: Event, k: (Merchant, Account))
    requires Enabled(s, e) && k in s.pool
    ensures k in Apply(s, e).pool && Apply(s, e).pool[k] == s.pool[k] + LoadChange(s, e, k)
    ensures Apply(s, e).orphans[k] == s.orphans[k] + (if e == FailCreate(k.0, k.1) then 1 else 0)
  {}

  lemma PoolInvAt(s: State, e: Event, base: map<(Merchant, Account), int>, k: (Merchant, Account))
    requires Enabled(s, e) && PoolInv(base, s) && k in base
    ensures k in Apply(s, e).pool
    ensures Apply(s, e).pool[k] == base[k] + |PendingOf(Apply(s, e), k)| + Apply(s, e).orphans[k]
  {
    PendingOfStep(s, e, k);
    PoolStep(s, e, k);
    if e.Complete? || e.Expire? {
      assert k == (s.orders[e.id].merchant, s.orders[e.id].account) <==> e.id in PendingOf(s, k);
    }
  }

  lemma PoolInvStep(s: State, e: Event, base: map<(Merchant, Account), int>)
    requires Enabled(s, e) && PoolInv(base, s)
    ensures PoolInv(base, Apply(s, e))
  {
    var s' := Apply(s, e);
    forall k | k in base
      ensures k in s'.pool && s'.pool[k] == base[k] + |PendingOf(s', k)| + s'.orphans[k]
    {
      PoolInvAt(s, e, base, k);
    }
    PoolKeysStep(s, e, base);
  }

  lemma PoolKeysStep(s: State, e: Event, base: map<(Merchant, Account), int>)
    requires Enabled(s, e) && s.pool.Keys == base.Keys
    requires forall id :: IsPending(s, id) ==> (s.orders[id].merchant, s.orders[id].account) in base
    ensures Apply(s, e).pool.Keys == base.Keys
    ensures forall id :: IsPending(Apply(s, e), id) ==>
                           (Apply(s, e).orders[id].merchant, Apply(s, e).orders[id].account) in base
  {
    match e
    case Create(_, _) =>
    case FailCreate(_, _) =>
    case MatchUnique(_, _, _) =>
    case MatchOldest(_, _, _) =>
    case Complete(_, _, _) =>
    case Expire(_) =>
  }

  lemma InvStep(s: State, e: Event, base: map<(Merchant, Account), int>)
    requires Enabled(s, e) && Inv(base, s)
    ensures Inv(base, Apply(s, e))
  {
    forall id
      ensures OrderInv(Apply(s, e), id)
    {
      OrderInvStep(s, e, id);
    }
    PoolInvStep(s, e, base);
  }

  lemma {:induction false} InvRun(s: State, events: seq<Event>, s': State, base: map<(Merchant, Account), int>)
    requires Inv(base, s) && Runs(s, events, s')
    ensures Inv(base, s')
    decreases |events|
  {
    if events != [] {
      InvStep(s, events[0], base);
      InvRun(Apply(s, events[0]), events[1..], s', base);
    }
  }

  /** In every reachable state the table and the three Redis structures agree. */
  lemma IndexesAgree(start: State, events: seq<Event>, s: State, base: map<(Merchant, Account), int>)
    requires Initial(start, base) && Runs(start, events, s)
    ensures Inv(base, s)
  {
    assert forall k :: PendingOf(start, k) == {};
    InvRun(start, events, s, base);
  }

  // ------------------------------------------------------------------
  // Unique amounts
  // ------------------------------------------------------------------

  /** No two pending orders of one account have the same score. */
  ghost predicate Distinct(s: State) {
    forall p, q :: p in s.pending && q in s.pending && p.0 == q.0 && s.pending[p] == s.pending[q] ==> p == q
  }

  /** A create keeps amounts distinct exactly when the amount it settled on is free; only the fallback may not be. */
  lemma CreateKeepsDistinctIff(s: State, e: Event)
    requires Enabled(s, e) && e.Create? && Distinct(s) && OrderInv(s, e.id)
    ensures Distinct(Apply(s, e)) <==> !InUse(s, e.order.account, e.order.adjusted)
    ensures !Distinct(Apply(s, e)) ==> e.order.adjusted == e.order.requested
  {
    var s', mine := Apply(s, e), (e.order.account, e.id);
    assert mine !in s.pending && s'.pending[mine] == e.order.adjusted;
    assert forall p :: p in s.pending ==> p in s'.pending && s'.pending[p] == s.pending[p];
  }

  /** With all 99 amounts taken the search has only the base amount left, and if that is taken too, amounts collide. */
  lemma FullRangeFallsBack(s: State, e: Event)
    requires Enabled(s, e) && e.Create? && Distinct(s) && OrderInv(s, e.id)
    requires forall n :: e.order.requested < n <= e.order.requested + 99 ==> InUse(s, e.order.account, n)
    ensures e.order.adjusted == e.order.requested
    ensures Distinct(Apply(s, e)) <==> !InUse(s, e.order.account, e.order.requested)
  {
    CreateKeepsDistinctIff(s, e);
  }

  lemma OthersKeepDistinct(s: State, e: Event)
    requires Enabled(s, e) && !e.Create? && Distinct(s)
    ensures Distinct(Apply(s, e))
  {
    assert forall p :: p in Apply(s, e).pending ==> p in s.pending && Apply(s, e).pending[p] == s.pending[p];
  }

  /** The search never fell back onto an amount that was taken. */
  ghost predicate NoCollision(s: State, events: seq<Event>)
    decreases |events|
  {
    events == []
    || (&& Enabled(s, events[0])
        && (events[0].Create? ==> !InUse(s, events[0].order.account, events[0].order.adjusted))
        && NoCollision(Apply(s, events[0]), events[1..]))
  }

  ghost predicate AlwaysDistinct(s: State, events: seq<Event>)
    decreases |events|
  {
    Distinct(s) && (events != [] ==> Enabled(s, events[0]) && AlwaysDistinct(Apply(s, events[0]), events[1..]))
  }

  /** The amounts stay distinct throughout a run exactly when no create falls back onto a taken amount. */
  lemma {:induction false} DistinctIffNoCollision(
      s: State, events: seq<Event>, s': State, base: map<(Merchant, Account), int>)
    requires Inv(base, s) && Distinct(s) && Runs(s, events, s')
    ensures AlwaysDistinct(s, events) <==> NoCollision(s, events)
    decreases |events|
  {
    if events != [] {
      var e, next := events[0], Apply(s, events[0]);
      InvStep(s, e, base);
      if e.Create? {
        CreateKeepsDistinctIff(s, e);
      } else {
        OthersKeepDistinct(s, e);
      }
      if Distinct(next) {
        DistinctIffNoCollision(next, events[1..], s', base);
      }
    }
  }

  /** In any run, a customer is asked for the requested amount or for 1 to 99 satang more. */
  lemma {:induction false} AmountsInRange(s: State, events: seq<Event>, s': State, id: OrderId)
    requires Runs(s, events, s') && id !in s.orders && id in s'.orders
    ensures s'.orders[id].requested <= s'.orders[id].adjusted <= s'.orders[id].requested + 99
    decreases |events|
  {
    var next := Apply(s, events[0]);
    if id in next.orders {
      AmountsKept(next, events[1..], s', id);
    } else {
      AmountsInRange(next, events[1..], s', id);
    }
  }

  lemma {:induction false} AmountsKept(s: State, events: seq<Event>, s': State, id: OrderId)
    requires Runs(s, events, s') && id in s.orders
    ensures id in s'.orders
    ensures s'.orders[id].requested == s.orders[id].requested && s'.orders[id].adjusted == s.orders[id].adjusted
    decreases |events|
  {
    if events != [] {
      AmountsKept(Apply(s, events[0]), events[1..], s', id);
    }
  }

  /** With distinct amounts a lookup finds the only order it could mean: pending, not matched before, of that amount. */
  lemma UniqueMatchIsTheOrder(s: State, base: map<(Merchant, Account), int>, a: Account, amount: int, id: OrderId)
    requires Inv(base, s) && Distinct(s) && Enabled(s, MatchUnique(a, amount, id))
    ensures IsPendingFor(s, id, a, amount) && id !in s.matched
    ensures forall j :: IsPendingFor(s, j, a, amount) && j !in s.matched ==> j == id
  {
    assert OrderInv(s, id);
    forall j | IsPendingFor(s, j, a, amount) && j !in s.matched
      ensures j == id
    {
      assert OrderInv(s, j);
      assert (a, j) in s.pending && (a, id) in s.pending;
    }
  }

  // ------------------------------------------------------------------
  // Each order once
  // ------------------------------------------------------------------

  function Count(events: seq<Event>, id: OrderId, matches: bool): nat {
    if events == [] then 0
    else
      var hit := match events[0]
                 case MatchUnique(_, _, i) => matches && i == id
                 case MatchOldest(_, _, i) => matches && i == id
                 case Complete(i, _, _) => !matches && i == id
                 case Expire(i) => !matches && i == id
                 case _ => false;
      (if hit then 1 else 0) + Count(events[1..], id, matches)
  }

  /** An order of this account and amount has been matched and is still to be completed or expired. */
  ghost predicate Unsettled(s: State, a: Account, amount: int) {
    exists j :: j in s.matched && IsPendingFor(s, j, a, amount)
  }

  /** No time-based lookup is made for an account and amount with an unsettled match. */
  ghost predicate MatchesSettledFirst(s: State, events: seq<Event>)
    decreases |events|
  {
    events == []
    || (&& Enabled(s, events[0])
        && (events[0].MatchOldest? ==> !Unsettled(s, events[0].account, events[0].amount))
        && MatchesSettledFirst(Apply(s, events[0]), events[1..]))
  }

  lemma {:induction false} MatchedAtMostOnce(
      s: State, events: seq<Event>, s': State, base: map<(Merchant, Account), int>, id: OrderId)
    requires Inv(base, s) && Runs(s, events, s') && MatchesSettledFirst(s, events)
    ensures Count(events, id, true) <= (if id in s.matched then 0 else 1)
    decreases |events|
  {
    if events != [] {
      assert OrderInv(s, id);
      InvStep(s, events[0], base);
      MatchedAtMostOnce(Apply(s, events[0]), events[1..], s', base, id);
    }
  }

  /** An order is completed or expired at most once, so the merchant's wallet is credited for it at most once. */
  lemma {:induction false} SettledAtMostOnce(s: State, events: seq<Event>, s': State, id: OrderId)
    requires Runs(s, events, s')
    ensures Count(events, id, false) <= (if id in s.orders && !IsPending(s, id) then 0 else 1)
    decreases |events|
  {
    if events != [] {
      SettledAtMostOnce(Apply(s, events[0]), events[1..], s', id);
    }
  }

  /** The run has a completion of the order by a payment of `actual` with fee `fee`. */
  ghost predicate PaidIn(events: seq<Event>, id: OrderId, actual: int, fee: int) {
    exists i :: 0 <= i < |events| && events[i] == Complete(id, actual, fee)
  }

  ghost predicate ExpiredIn(events: seq<Event>, id: OrderId) {
    exists i :: 0 <= i < |events| && events[i] == Expire(id)
  }

  /**
   Along any run an order's status says what happened to it: completed by a payment whose amount and fee
   are the stored ones, expired by an expiry, pending if neither.
   */
  lemma {:induction false} StatusTells(s: State, events: seq<Event>, s': State, id: OrderId)
    requires Runs(s, events, s') && (id in s.orders ==> s.orders[id].status.Pending?)
    ensures id in s'.orders ==>
              var o := s'.orders[id];
              && (o.status.Completed? ==> PaidIn(events, id, o.actual, o.fee) && o.net == o.actual - o.fee)
              && (o.status.Expired? <==> ExpiredIn(events, id))
              && (o.status.Pending? ==> forall i :: 0 <= i < |events| ==> !events[i].Complete? || events[i].id != id)
    decreases |events|
  {
    if events != [] {
      var e, next := events[0], Apply(s, events[0]);
      if (e.Complete? || e.Expire?) && e.id == id {
        SettledStays(next, events[1..], s', id);
        assert events[0] == e;
      } else {
        StatusTells(next, events[1..], s', id);
        assert forall i :: 1 <= i < |events| ==> events[i] == events[1..][i - 1];
        assert forall i :: 0 <= i < |events| - 1 ==> events[1..][i] == events[i + 1];
      }
    }
  }

  /** Once settled, an order's row does not change and no later event settles it. */
  lemma {:induction false} SettledStays(s: State, events: seq<Event>, s': State, id: OrderId)
    requires Runs(s, events, s') && id in s.orders && !s.orders[id].status.Pending?
    ensures id in s'.orders && s'.orders[id] == s.orders[id]
    ensures forall i :: 0 <= i < |events| && (events[i].Complete? || events[i].Expire?) ==> events[i].id != id
    decreases |events|
  {
    if events != [] {
      SettledStays(Apply(s, events[0]), events[1..], s', id);
      assert forall i :: 1 <= i < |events| ==> events[i] == events[1..][i - 1];
    }
  }

  /**
   The time-based strategy asks the table, which a match does not change: right after a match the
   same order is found again, and only completing or expiring it stops that.
   */
  lemma OldestMatchRepeats(s: State, a: Account, amount: int, id: OrderId, e: Event)
    requires Enabled(s, MatchOldest(a, amount, id))
    ensures Enabled(Apply(s, MatchOldest(a, amount, id)), MatchOldest(a, amount, id))
    ensures Enabled(s, e) && e.Complete? && e.id == id ==> !Enabled(Apply(s, e), MatchOldest(a, amount, id))
    ensures Enabled(s, e) && e.Expire? && e.id == id ==> !Enabled(Apply(s, e), MatchOldest(a, amount, id))
  {
    var s' := Apply(s, MatchOldest(a, amount, id));
    assert forall j :: IsPendingFor(s', j, a, amount) <==> IsPendingFor(s, j, a, amount);
  }

  /** Orders are created in the order of their creation times, and all lookups are time-based. */
  ghost predicate TimeBased(s: State, events: seq<Event>)
    decreases |events|
  {
    events == []
    || (&& Enabled(s, events[0])
        && !events[0].MatchUnique?
        && (events[0].Create? ==> forall j :: j in s.orders ==> s.orders[j].createdAt <= events[0].order.createdAt)
        && TimeBased(Apply(s, events[0]), events[1..]))
  }

  /** Of the pending orders of one account and amount, the matched ones are the oldest. */
  ghost predicate MatchedAreOldest(s: State) {
    forall i, j :: i in s.matched && j !in s.matched && IsPending(s, i) && IsPending(s, j)
                   && s.orders[i].account == s.orders[j].account && s.orders[i].adjusted == s.orders[j].adjusted ==>
                     s.orders[i].createdAt <= s.orders[j].createdAt
  }

  lemma MatchedAreOldestStep(s: State, e: Event, base: map<(Merchant, Account), int>)
    requires Enabled(s, e) && Inv(base, s) && MatchedAreOldest(s) && !e.MatchUnique?
    requires e.Create? ==> forall j :: j in s.orders ==> s.orders[j].createdAt <= e.order.createdAt
    ensures MatchedAreOldest(Apply(s, e))
  {
    var s' := Apply(s, e);
    forall i, j | i in s'.matched && j !in s'.matched && IsPending(s', i) && IsPending(s', j)
                  && s'.orders[i].account == s'.orders[j].account && s'.orders[i].adjusted == s'.orders[j].adjusted
      ensures s'.orders[i].createdAt <= s'.orders[j].createdAt
    {
      assert OrderInv(s, i);
      if e.MatchOldest? && i == e.id {
        assert IsPendingFor(s, j, e.account, e.amount);
      }
    }
  }

  lemma {:induction false} MatchedAreOldestRun(
      s: State, events: seq<Event>, s': State, base: map<(Merchant, Account), int>)
    requires Inv(base, s) && Runs(s, events, s') && TimeBased(s, events) && MatchedAreOldest(s)
    ensures MatchedAreOldest(s')
    decreases |events|
  {
    if events != [] {
      InvStep(s, events[0], base);
      MatchedAreOldestStep(s, events[0], base);
      MatchedAreOldestRun(Apply(s, events[0]), events[1..], s', base);
    }
  }

  /**
   Exactly when a time-based lookup may return an order a second time: when an order of that account
   and amount is matched and not yet completed or expired.
   */
  lemma RepeatsIffUnsettled(
      start: State, events: seq<Event>, s: State, base: map<(Merchant, Account), int>, a: Account, amount: int)
    requires Initial(start, base) && Runs(start, events, s) && TimeBased(start, events)
    ensures (exists id :: id in s.matched && Enabled(s, MatchOldest(a, amount, id))) <==> Unsettled(s, a, amount)
  {
    assert forall k :: PendingOf(start, k) == {};
    MatchedAreOldestRun(start, events, s, base);
    if Unsettled(s, a, amount) {
      var candidates := set j | j in s.matched && IsPendingFor(s, j, a, amount);
      var created := map j | j in s.orders :: s.orders[j].createdAt;
      var some :| some in s.matched && IsPendingFor(s, some, a, amount);
      assert some in candidates;
      Systems.LowestExists(created, candidates);
      var id :| id in candidates && forall j :: j in candidates ==> created[id] <= created[j];
      forall j | j in s.orders && IsPendingFor(s, j, a, amount)
        ensures s.orders[id].createdAt <= s.orders[j].createdAt
      {
        assert j in s.matched ==> j in candidates;
      }
      assert Enabled(s, MatchOldest(a, amount, id));
    }
  }

  // ------------------------------------------------------------------
  // Fair use of the pool
  // ------------------------------------------------------------------

  ghost predicate CreatesOnly(events: seq<Event>) {
    forall i :: 0 <= i < |events| ==> events[i].Create? || events[i].FailCreate?
  }

  /** Loads of one merchant's accounts differ by at most one. */
  ghost predicate Balanced(s: State, m: Merchant) {
    forall j, k :: j in s.pool && k in s.pool && j.0 == m && k.0 == m ==> s.pool[j] <= s.pool[k] + 1
  }

  lemma BalancedStep(s: State, e: Event, m: Merchant)
    requires Enabled(s, e) && (e.Create? || e.FailCreate?) && Balanced(s, m)
    ensures Balanced(Apply(s, e), m)
  {
    var s' := Apply(s, e);
    var used := if e.Create? then (e.order.merchant, e.order.account) else (e.merchant, e.account);
    assert s'.pool == s.pool[used := s.pool[used] + 1];
    assert forall k :: k in s.pool && k.0 == used.0 ==> s.pool[used] <= s.pool[k];
  }

  /** From balanced loads any run of creates, successful or not, keeps them balanced. */
  lemma {:induction false} CreatesStayBalanced(s: State, events: seq<Event>, s': State, m: Merchant)
    requires Runs(s, events, s') && CreatesOnly(events) && Balanced(s, m)
    ensures Balanced(s', m)
    decreases |events|
  {
    if events != [] {
      BalancedStep(s, events[0], m);
      CreatesStayBalanced(Apply(s, events[0]), events[1..], s', m);
    }
  }
}
