/**
 The order service's methods over its table and Redis structures. Each call is one event of the
 deposit order life cycle, or a list of them; an error changes nothing.
 */
module DepositService {
  import opened DepositOrders
  import Money
  import Systems

  const UNIQUE_TRIES: nat := 100

  datatype CreateResult = Created(id: OrderId) | NoAccount | Failed

  datatype MatchResult = Matched(id: OrderId) | NoMatch

  datatype CompleteResult = Done | NotFound | NotPending

  function AfterTick(o: Order, now: int): Order {
    if o.status == Pending && o.expiresAt <= now then o.(status := Expired) else o
  }

  /** Midway through a tick: the orders in `rest` are still to expire, all others are as they will be. */
  ghost predicate Ticking(s0: State, s: State, now: int, rest: set<OrderId>) {
    && s.orders.Keys == s0.orders.Keys
    && (forall id :: id in rest ==> IsPending(s0, id) && s0.orders[id].expiresAt <= now)
    && (forall id :: id in s.orders ==>
          s.orders[id] == if id in rest then s0.orders[id] else AfterTick(s0.orders[id], now))
  }

  lemma TickStep(s0: State, s: State, now: int, rest: set<OrderId>, id: OrderId)
    requires Ticking(s0, s, now, rest) && id in rest
    ensures Enabled(s, Expire(id)) && Ticking(s0, Apply(s, Expire(id)), now, rest - {id})
  {}

  /** The first drawn amount, 1 to 99 satang above the base, that is free; the base when none is. */
  ghost predicate IsFirstFree(s: State, account: Account, baseAmount: int, draws: seq<nat>, amount: int) {
    && (amount == baseAmount <==> AllTaken(s, account, baseAmount, draws))
    && (amount != baseAmount ==>
          exists i :: 0 <= i < |draws| && amount == baseAmount + draws[i] + 1 && !InUse(s, account, amount)
                      && AllTaken(s, account, baseAmount, draws[..i]))
  }

  ghost predicate AllTaken(s: State, account: Account, baseAmount: int, draws: seq<nat>) {
    forall i :: 0 <= i < |draws| ==> InUse(s, account, baseAmount + draws[i] + 1)
  }

  /** With some free draw a create keeps the amounts of every account distinct. */
  lemma FreeDrawKeepsDistinct(s: State, id: OrderId, o: Order, draws: seq<nat>)
    requires Enabled(s, Create(id, o)) && Distinct(s) && OrderInv(s, id)
    requires IsFirstFree(s, o.account, o.requested, draws, o.adjusted)
    requires !AllTaken(s, o.account, o.requested, draws)
    ensures Distinct(Apply(s, Create(id, o)))
  {
    CreateKeepsDistinctIff(s, Create(id, o));
  }

  lemma SamePending(s: State, s': State, account: Account, baseAmount: int, draws: seq<nat>, amount: int)
    requires s'.pending == s.pending && IsFirstFree(s, account, baseAmount, draws, amount)
    ensures IsFirstFree(s', account, baseAmount, draws, amount)
  {
    assert forall a, x :: InUse(s', a, x) <==> InUse(s, a, x);
  }

  class OrderService {
    const base: map<(Merchant, Account), int>
    const orderExpiry: nat
    const feePercent: real
    const uniqueAmount: bool
    var orders: map<OrderId, Order>
    var pending: map<(Account, OrderId), int>
    var expiry: map<OrderId, int>
    var pool: map<(Merchant, Account), int>
    // Which orders were ever matched, and the creates that failed after raising a load.
    ghost var matched: set<OrderId>
    ghost var orphans: multiset<(Merchant, Account)>

    ghost function View(): State
      reads this
    {
      State(orders, pending, expiry, pool, matched, orphans)
    }

    ghost predicate Valid()
      reads this
    {
      Inv(base, View())
    }

    constructor (pool: map<(Merchant, Account), int>, orderExpiry: nat, feePercent: real, uniqueAmount: bool)
      ensures Valid() && Initial(View(), pool) && base == pool
      ensures this.orderExpiry == orderExpiry && this.feePercent == feePercent && this.uniqueAmount == uniqueAmount
    {
      base, this.pool := pool, pool;
      this.orderExpiry, this.feePercent, this.uniqueAmount := orderExpiry, feePercent, uniqueAmount;
      orders, pending, expiry, matched, orphans := map[], map[], map[], {}, multiset{};
      new;
      IndexesAgree(View(), [], View(), pool);
    }

    // ----------------------------------------------------------------
    // Creating
    // ----------------------------------------------------------------

    /**
     Tries up to 100 random offsets of 1 to 99 satang. `draws` is what the random source returns.
     The base amount comes back exactly when every try hits a taken amount.
     */
    method AdjustAmountForUniqueness(account: Account, baseAmount: int, draws: seq<nat>) returns (amount: int)
      requires |draws| == 100 && forall i :: 0 <= i < |draws| ==> draws[i] < 99
      ensures IsFirstFree(View(), account, baseAmount, draws, amount)
    {
      for i := 0 to UNIQUE_TRIES
        invariant AllTaken(View(), account, baseAmount, draws[..i])
      {
        var offset := draws[i] + 1;
        var candidate := baseAmount + offset;
        if !(exists p :: p in pending && p.0 == account && pending[p] == candidate) {
          assert !InUse(View(), account, baseAmount + draws[i] + 1);
          return candidate;
        }
        assert draws[..i + 1] == draws[..i] + [draws[i]];
      }
      assert draws[..UNIQUE_TRIES] == draws;
      return baseAmount;
    }

    method LeastLoaded(m: Merchant) returns (found: bool, account: Account)
      ensures found ==> IsLeastLoaded(View(), m, account)
      ensures !found ==> forall k :: k in pool ==> k.0 != m
    {
      var keys := set k | k in pool && k.0 == m;
      if keys == {} {
        assert forall k :: k in pool && k.0 == m ==> k in keys;
        return false, 0;
      }
      Systems.LowestExists(pool, keys);
      var best :| best in keys && forall j :: j in keys ==> pool[best] <= pool[j];
      assert best == (m, best.1);
      assert forall k :: k in pool && k.0 == m ==> k in keys;
      return true, best.1;
    }

    /** The load of the chosen account goes up before anything is saved. */
    method SelectAccount(m: Merchant) returns (found: bool, account: Account)
      modifies `pool
      ensures !found ==> pool == old(pool) && forall k :: k in pool ==> k.0 != m
      ensures found ==> IsLeastLoaded(old(View()), m, account) && pool == Bumped(old(pool), (m, account), 1)
    {
      found, account := LeastLoaded(m);
      if found {
        pool := pool[(m, account) := pool[(m, account)] + 1];
      }
    }

    method StoreOrder(id: OrderId, order: Order)
      modifies `orders, `pending, `expiry
      ensures orders == old(orders)[id := order]
      ensures pending == old(pending)[(order.account, id) := order.adjusted]
      ensures expiry == old(expiry)[id := order.expiresAt]
    {
      orders := orders[id := order];
      pending := pending[(order.account, id) := order.adjusted];
      expiry := expiry[id := order.expiresAt];
    }

    /** `saved` is false when drawing the QR code or inserting the row fails, after the load was raised. */
    method CreateDepositOrder(m: Merchant, amount: int, id: OrderId, now: int, draws: seq<nat>, saved: bool)
      returns (r: CreateResult, ghost e: Event)
      requires Valid() && id !in orders
      requires |draws| == 100 && forall i :: 0 <= i < |draws| ==> draws[i] < 99
      modifies this
      ensures Valid()
      ensures r.NoAccount? <==> forall k :: k in old(pool) ==> k.0 != m
      ensures r.NoAccount? ==> View() == old(View())
      ensures !r.NoAccount? ==> Enabled(old(View()), e) && View() == Apply(old(View()), e)
      ensures r.Failed? ==> !saved && e.FailCreate? && e.merchant == m
      ensures r.Created? ==>
                && saved && r.id == id && id in orders && e == Create(id, orders[id])
                && orders[id].requested == amount && orders[id].merchant == m
                && orders[id].status == Pending && orders[id].createdAt == now
                && orders[id].expiresAt == now + orderExpiry
                && orders[id].actual == orders[id].fee == orders[id].net == 0
      ensures r.Created? && !uniqueAmount ==> orders[id].adjusted == amount
      ensures r.Created? && uniqueAmount ==>
                IsFirstFree(old(View()), orders[id].account, amount, draws, orders[id].adjusted)
      ensures r.Created? && uniqueAmount ==>
                (Distinct(old(View())) && !AllTaken(old(View()), orders[id].account, amount, draws) ==>
                   Distinct(View()))
    {
      ghost var before := View();
      var found, account := SelectAccount(m);
      if !found {
        return NoAccount, FailCreate(m, account);
      }
      assert (m, account) in before.pool;
      var adjusted := amount;
      if uniqueAmount {
        adjusted := AdjustAmountForUniqueness(account, amount, draws);
        SamePending(View(), before, account, amount, draws, adjusted);
      }
      var order := Order(m, account, amount, adjusted, Pending, now, now + orderExpiry, 0, 0, 0);
      assert IsAdjusted(before, account, amount, adjusted);
      if !saved {
        e := FailCreate(m, account);
        LeaveLoad(before, m, account);
        r := Failed;
      } else {
        e := Create(id, order);
        SaveOrder(before, id, order);
        if uniqueAmount && Distinct(before) && !AllTaken(before, account, amount, draws) {
          assert OrderInv(before, id);
          FreeDrawKeepsDistinct(before, id, order, draws);
        }
        r := Created(id);
      }
    }

    /** A create that fails now leaves the account's load raised. */
    ghost method LeaveLoad(before: State, m: Merchant, account: Account)
      requires Enabled(before, FailCreate(m, account)) && Inv(base, before)
      requires View() == before.(pool := Bumped(before.pool, (m, account), 1))
      modifies `orphans
      ensures View() == Apply(before, FailCreate(m, account)) && Valid()
    {
      InvStep(before, FailCreate(m, account), base);
      orphans := orphans + multiset{(m, account)};
    }

    method SaveOrder(ghost before: State, id: OrderId, order: Order)
      requires Enabled(before, Create(id, order)) && Inv(base, before)
      requires View() == before.(pool := Bumped(before.pool, (order.merchant, order.account), 1))
      modifies `orders, `pending, `expiry
      ensures View() == Apply(before, Create(id, order)) && Valid()
    {
      InvStep(before, Create(id, order), base);
      StoreOrder(id, order);
    }

    // ----------------------------------------------------------------
    // Matching
    // ----------------------------------------------------------------

    method MatchSMSToOrder(account: Account, amount: int) returns (r: MatchResult)
      requires Valid()
      modifies `pending, `matched
      ensures Valid()
      ensures r.NoMatch? ==> View() == old(View())
      ensures uniqueAmount ==> (r.NoMatch? <==> !InUse(old(View()), account, amount))
      ensures !uniqueAmount ==> (r.NoMatch? <==> forall j :: !IsPendingFor(old(View()), j, account, amount))
      ensures r.Matched? ==>
                var e := if uniqueAmount then MatchUnique(account, amount, r.id)
                         else MatchOldest(account, amount, r.id);
                Enabled(old(View()), e) && View() == Apply(old(View()), e)
    {
      if uniqueAmount {
        r := MatchByUniqueAmount(account, amount);
      } else {
        r := MatchByTimeBased(account, amount);
      }
    }

    method MatchByUniqueAmount(account: Account, amount: int) returns (r: MatchResult)
      requires Valid()
      modifies `pending, `matched
      ensures Valid()
      ensures r.NoMatch? ==> View() == old(View())
      ensures r.NoMatch? <==> !InUse(old(View()), account, amount)
      ensures r.Matched? ==> Enabled(old(View()), MatchUnique(account, amount, r.id))
                             && View() == Apply(old(View()), MatchUnique(account, amount, r.id))
    {
      var members := set p | p in pending && p.0 == account && pending[p] == amount;
      if members == {} {
        assert forall p :: p in pending && p.0 == account && pending[p] == amount ==> p in members;
        return NoMatch;
      }
      var member :| member in members;
      var id := member.1;
      assert member == (account, id);
      InvStep(View(), MatchUnique(account, amount, id), base);
      pending, matched := pending - {(account, id)}, matched + {id};
      return Matched(id);
    }

    method MatchByTimeBased(account: Account, amount: int) returns (r: MatchResult)
      requires Valid()
      modifies `pending, `matched
      ensures Valid()
      ensures r.NoMatch? ==> View() == old(View())
      ensures r.NoMatch? <==> forall j :: !IsPendingFor(old(View()), j, account, amount)
      ensures r.Matched? ==> Enabled(old(View()), MatchOldest(account, amount, r.id))
                             && View() == Apply(old(View()), MatchOldest(account, amount, r.id))
    {
      var rows := set j | j in orders && orders[j].account == account && orders[j].adjusted == amount
                          && orders[j].status == Pending;
      assert forall j :: IsPendingFor(View(), j, account, amount) <==> j in rows;
      if rows == {} {
        return NoMatch;
      }
      Systems.LowestExists(map j | j in orders :: orders[j].createdAt, rows);
      var id :| id in rows && forall j :: j in rows ==> orders[id].createdAt <= orders[j].createdAt;
      InvStep(View(), MatchOldest(account, amount, id), base);
      pending, matched := pending - {(account, id)}, matched + {id};
      return Matched(id);
    }

    // ----------------------------------------------------------------
    // Completing and expiring
    // ----------------------------------------------------------------

    /** ZINCRBY -1 on the account's load, and removal from the two sorted sets. */
    method Release(id: OrderId, m: Merchant, account: Account)
      modifies `pending, `expiry, `pool
      ensures pending == old(pending) - {(account, id)} && expiry == old(expiry) - {id}
      ensures pool == Bumped(old(pool), (m, account), -1)
    {
      pending := pending - {(account, id)};
      expiry := expiry - {id};
      pool := pool[(m, account) := (if (m, account) in pool then pool[(m, account)] else 0) - 1];
    }

    method CompleteDeposit(id: OrderId, actual: int) returns (r: CompleteResult)
      requires Valid()
      modifies this
      ensures Valid()
      ensures r.NotFound? <==> id !in old(orders)
      ensures r.Done? <==> IsPending(old(View()), id)
      ensures !r.Done? ==> View() == old(View())
      ensures r.Done? ==> var fee := Money.Share(actual, feePercent);
                          && View() == Apply(old(View()), Complete(id, actual, fee))
                          && orders == old(orders)[id := old(orders)[id].(
                                         status := Completed, actual := actual, fee := fee, net := actual - fee)]
    {
      if id !in orders {
        return NotFound;
      }
      var order := orders[id];
      if order.status != Pending {
        return NotPending;
      }
      var fee := Money.Share(actual, feePercent);
      var net := actual - fee;
      InvStep(View(), Complete(id, actual, fee), base);
      orders := orders[id := order.(status := Completed, actual := actual, fee := fee, net := net)];
      Release(id, order.merchant, order.account);
      return Done;
    }

    /** Fails if there is no such row. */
    method ExpireSingleOrder(id: OrderId) returns (ok: bool)
      requires Valid()
      modifies this
      ensures Valid()
      ensures ok <==> id in old(orders)
      ensures IsPending(old(View()), id) ==>
                View() == Apply(old(View()), Expire(id))
                && orders == old(orders)[id := old(orders)[id].(status := Expired)]
      ensures !IsPending(old(View()), id) ==> View() == old(View())
    {
      if id !in orders {
        return false;
      }
      var order := orders[id];
      if order.status != Pending {
        assert OrderInv(View(), id);
        DropExpiry(id);
        return true;
      }
      InvStep(View(), Expire(id), base);
      orders := orders[id := order.(status := Expired)];
      Release(id, order.merchant, order.account);
      return true;
    }

    method DropExpiry(id: OrderId)
      modifies `expiry
      ensures expiry == old(expiry) - {id}
      ensures id !in old(expiry) ==> expiry == old(expiry)
    {
      expiry := expiry - {id};
    }

    method DueOrders(now: int) returns (due: set<OrderId>)
      requires Valid()
      ensures forall id :: id in due <==> IsPending(View(), id) && orders[id].expiresAt <= now
    {
      due := set id | id in expiry && expiry[id] <= now;
      forall id
        ensures id in due <==> IsPending(View(), id) && orders[id].expiresAt <= now
      {
        assert OrderInv(View(), id);
      }
    }

    /** One tick of the worker: exactly the pending orders whose time has come expire; no other row changes. */
    method ProcessExpiredOrders(now: int) returns (ghost events: seq<Event>)
      requires Valid()
      modifies this
      ensures Valid() && Runs(old(View()), events, View())
      ensures orders.Keys == old(orders).Keys
      ensures forall id :: id in orders ==>
                var o := old(orders)[id];
                orders[id] == if o.status == Pending && o.expiresAt <= now then o.(status := Expired) else o
    {
      events := [];
      var rest := DueOrders(now);
      assert Ticking(old(View()), View(), now, rest);
      while rest != {}
        invariant Valid() && Runs(old(View()), events, View())
        invariant Ticking(old(View()), View(), now, rest)
        decreases rest
      {
        var id :| id in rest;
        TickStep(old(View()), View(), now, rest, id);
        Systems.Then(Next, old(View()), events, View(), Expire(id), Apply(View(), Expire(id)));
        events := events + [Expire(id)];
        var _ := ExpireSingleOrder(id);
        rest := rest - {id};
      }
    }
  }
}
