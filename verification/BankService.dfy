/**
 The bank service's methods over its tables and the cached pools. Between two commands any number
 of steps of other calls may happen; whatever they are, a call is a run of the protocol.
 */
module BankService {
  import opened BankProtocol
  import Systems

  datatype Selection = Selected(id: AccountId) | NoneActive | AllAtLimit

  /** What SelectAccount promises: a highest-priority active account of the merchant among those with room. */
  ghost predicate Selects(s: State, m: Merchant, r: Selection) {
    match r
    case Selected(a) =>
      && a in ActivePool(s, m) && !OverLimit(s, a)
      && forall b :: b in ActivePool(s, m) && !OverLimit(s, b) ==> ActivePool(s, m)[b] <= ActivePool(s, m)[a]
    case NoneActive => ActivePool(s, m) == map[]
    case AllAtLimit => ActivePool(s, m) != map[] && forall a :: a in ActivePool(s, m) ==> OverLimit(s, a)
  }

  /**
   When no call is in flight after any run, an account is selected exactly when the merchant has an
   active one, and it is one of the highest priority among all active ones: none is skipped.
   */
  lemma QuietSelectsHighestPriority(start: State, actions: seq<Action>, s: State, m: Merchant, r: Selection)
    requires Started(start) && Runs(start, actions, s) && AllIdle(s) && Selects(s, m, r)
    ensures r.Selected? <==> ActivePool(s, m) != map[]
    ensures r.Selected? ==> r.id in ActivePool(s, m)
                            && forall b :: b in ActivePool(s, m) ==> ActivePool(s, m)[b] <= ActivePool(s, m)[r.id]
  {
    QuietMeansUnderLimit(start, actions, s);
    assert ActivePool(s, m) == map[] || exists a :: a in ActivePool(s, m);
    assert forall a :: a in ActivePool(s, m) ==> !OverLimit(s, a);
  }

  /** The account is active, mapped to the merchant and has room. */
  predicate CanTake(s: State, m: Merchant, a: AccountId) {
    && m in s.mapped && a in s.mapped[m]
    && a in s.accounts && s.accounts[a].active && s.accounts[a].received < s.accounts[a].limit
  }

  /** The same outright: the selected account can take a deposit, and has the highest priority of all that can. */
  ghost predicate ChoiceIsRight(s: State, m: Merchant, r: Selection) {
    && (r.Selected? <==> exists a :: CanTake(s, m, a))
    && (r.Selected? ==> CanTake(s, m, r.id))
    && (r.Selected? ==> forall b :: CanTake(s, m, b) ==> s.accounts[b].priority <= s.accounts[r.id].priority)
    && (r.NoneActive? ==> forall a :: m in s.mapped && a in s.mapped[m] && a in s.accounts ==> !s.accounts[a].active)
    && (r.AllAtLimit? ==> exists a :: m in s.mapped && a in s.mapped[m] && a in s.accounts && s.accounts[a].active)
  }

  lemma RightChoice(s: State, m: Merchant, r: Selection)
    requires Selects(s, m, r)
    ensures ChoiceIsRight(s, m, r)
  {
    forall b | CanTake(s, m, b)
      ensures b in ActivePool(s, m) && !OverLimit(s, b)
    {}
    if r.Selected? {
      assert CanTake(s, m, r.id);
    } else if r.AllAtLimit? {
      var a :| a in ActivePool(s, m);
    } else {
      forall a | m in s.mapped && a in s.mapped[m] && a in s.accounts
        ensures !s.accounts[a].active
      {
        assert a !in ActivePool(s, m);
      }
    }
  }

  /** An answer of the query for a merchant's active accounts: each once, highest priority first. */
  ghost predicate IsActiveList(s: State, m: Merchant, rows: seq<Row>) {
    && ListsActive(s, m, rows)
    && (forall i, j :: 0 <= i < j < |rows| ==> rows[i].id != rows[j].id && rows[j].priority <= rows[i].priority)
  }

  /** A later state of the same system, by steps of any calls. */
  ghost predicate Later(s: State, s': State) {
    && Systems.Reaches(Next, s, s')
    && LimitInv(s') && PositiveLimits(s') && Settled(s, s')
  }

  /** What no step changes or takes back. */
  ghost predicate Settled(s: State, s': State) {
    && |s'.calls| == |s.calls| && s'.accounts.Keys == s.accounts.Keys && s'.mapped == s.mapped
    && s.pools.Keys <= s'.pools.Keys
    && forall a :: a in s.accounts && !s.accounts[a].active ==> !s'.accounts[a].active
  }

  lemma StepSettled(s: State, a: Action)
    requires Enabled(s, a)
    ensures Settled(s, Apply(s, a))
  {}

  lemma LaterRefl(s: State)
    requires LimitInv(s) && PositiveLimits(s)
    ensures Later(s, s)
  {
    Systems.ReachesSelf(Next, s);
  }

  lemma LaterThen(s: State, mid: State, a: Action)
    requires Later(s, mid) && Enabled(mid, a)
    ensures Later(s, Apply(mid, a))
  {
    Systems.ReachesThen(Next, s, mid, a, Apply(mid, a));
    LimitStep(mid, a);
    StepSettled(mid, a);
  }

  lemma LaterTrans(s: State, mid: State, s': State)
    requires Later(s, mid) && Later(mid, s')
    ensures Later(s, s')
  {
    Systems.ReachesOn(Next, s, mid, s');
  }

  /** A list of active accounts read at some time after `start`. */
  ghost predicate IsListAfter(start: State, m: Merchant, rows: seq<Row>) {
    exists read :: Later(start, read) && IsActiveList(read, m, rows)
  }

  lemma OffIsNotListed(start: State, m: Merchant, rows: seq<Row>, id: AccountId, j: nat)
    requires IsListAfter(start, m, rows) && id in start.accounts && !start.accounts[id].active && j < |rows|
    ensures rows[j].id != id
  {
    var read :| Later(start, read) && IsActiveList(read, m, rows);
    assert rows[j].id in ActivePool(read, m);
  }

  ghost predicate AreListsAfter(start: State, merchants: seq<Merchant>, lists: seq<seq<Row>>) {
    |lists| == |merchants| && forall i :: 0 <= i < |lists| ==> IsListAfter(start, merchants[i], lists[i])
  }

  lemma ListsOneMore(start: State, merchants: seq<Merchant>, i: nat, lists: seq<seq<Row>>, rows: seq<Row>)
    requires i < |merchants| && AreListsAfter(start, merchants[..i], lists) && IsListAfter(start, merchants[i], rows)
    ensures AreListsAfter(start, merchants[..i + 1], lists + [rows])
  {}

  lemma OffIsOnNoList(start: State, merchants: seq<Merchant>, lists: seq<seq<Row>>, id: AccountId)
    requires AreListsAfter(start, merchants, lists) && id in start.accounts && !start.accounts[id].active
    ensures forall i, j :: 0 <= i < |lists| && 0 <= j < |lists[i]| ==> lists[i][j].id != id
  {
    forall i, j | 0 <= i < |lists| && 0 <= j < |lists[i]|
      ensures lists[i][j].id != id
    {
      OffIsNotListed(start, merchants[i], lists[i], id, j);
    }
  }

  /** The counter of the account grew by the amount, and no account is otherwise different. */
  ghost predicate IsDeposit(before: State, after: State, id: AccountId, amount: int) {
    && after.accounts.Keys == before.accounts.Keys && after.mapped == before.mapped && after.pools == before.pools
    && (forall a :: a in before.accounts ==>
          after.accounts[a]
          == before.accounts[a].(received := before.accounts[a].received + if a == id then amount else 0))
  }

  /** A command to a cached pool. */
  datatype Command =
    | DelKey(m: Merchant)
    | AddRow(m: Merchant, row: Row)

  /** The commands that store a list: DEL, then one ZADD per row. */
  function StoreOf(m: Merchant, rows: seq<Row>): seq<Command> {
    [DelKey(m)] + seq(|rows|, i requires 0 <= i < |rows| => AddRow(m, rows[i]))
  }

  lemma StoreOneMore(m: Merchant, rows: seq<Row>, i: nat)
    requires i < |rows|
    ensures StoreOf(m, rows[..i + 1]) == StoreOf(m, rows[..i]) + [AddRow(m, rows[i])]
  {}

  function StoresOf(merchants: seq<Merchant>, lists: seq<seq<Row>>): seq<Command>
    requires |merchants| == |lists|
  {
    if merchants == [] then []
    else
      var n := |merchants| - 1;
      StoresOf(merchants[..n], lists[..n]) + StoreOf(merchants[n], lists[n])
  }

  lemma StoresOneMore(sent: seq<Command>, merchants: seq<Merchant>, i: nat, lists: seq<seq<Row>>, rows: seq<Row>)
    requires i < |merchants| && |lists| == i
    ensures sent + StoresOf(merchants[..i + 1], lists + [rows])
         == sent + StoresOf(merchants[..i], lists) + StoreOf(merchants[i], rows)
  {
    assert merchants[..i + 1][..i] == merchants[..i] && (lists + [rows])[..i] == lists;
  }

  /** A step that is not call `t`'s own. */
  predicate ByOthers(a: Action, t: nat) {
    a.Reset? || a.t != t
  }

  lemma OthersLeaveCall(s: State, a: Action, t: nat)
    requires Enabled(s, a) && ByOthers(a, t) && t < |s.calls|
    ensures t < |Apply(s, a).calls| && Apply(s, a).calls[t] == s.calls[t]
  {}

  class BankService {
    var accounts: map<AccountId, Account>
    var mapped: map<Merchant, set<AccountId>>
    var pools: map<Merchant, map<AccountId, int>>
    // Where each call is.
    var calls: seq<Call>
    // The commands the methods have sent to the cached pools.
    ghost var sent: seq<Command>

    function View(): State
      reads this
    {
      State(accounts, mapped, pools, calls)
    }

    ghost predicate Valid()
      reads this
    {
      LimitInv(View()) && PositiveLimits(View())
    }

    ghost predicate IsAt(t: nat, call: Call)
      reads this
    {
      t < |calls| && calls[t] == call
    }

    constructor (accounts: map<AccountId, Account>, mapped: map<Merchant, set<AccountId>>, callers: nat)
      requires forall a :: a in accounts ==>
                 0 < accounts[a].limit && (accounts[a].active ==> accounts[a].received < accounts[a].limit)
      ensures Valid() && Started(View()) && |calls| == callers
      ensures this.accounts == accounts && this.mapped == mapped && pools == map[] && sent == []
    {
      this.accounts, this.mapped, pools, sent := accounts, mapped, map[], [];
      calls := seq(callers, _ => Idle);
    }

    /** Other calls take any steps they can. */
    method Interleave(t: nat)
      requires Valid() && t < |calls|
      modifies `accounts, `mapped, `pools, `calls
      ensures Later(old(View()), View()) && IsAt(t, old(calls)[t])
    {
      LaterRefl(View());
      var n: int := *;
      while n > 0
        invariant Later(old(View()), View()) && IsAt(t, old(calls)[t])
      {
        var a: Action := *;
        if Enabled(View(), a) && ByOthers(a, t) {
          LaterThen(old(View()), View(), a);
          OthersLeaveCall(View(), a, t);
          var s := Apply(View(), a);
          accounts, mapped, pools, calls := s.accounts, s.mapped, s.pools, s.calls;
        }
        n := n - 1;
      }
    }

    // ----------------------------------------------------------------
    // One command to the database or to Redis
    // ----------------------------------------------------------------

    method IncrementDailyReceived(t: nat, id: AccountId, amount: int)
      requires Valid() && IsAt(t, Idle)
      modifies `accounts, `calls
      ensures View() == Apply(old(View()), Receive(t, id, amount)) && Later(old(View()), View())
      ensures IsAt(t, Rereading(id))
    {
      LaterRefl(View());
      LaterThen(View(), View(), Receive(t, id, amount));
      if id in accounts {
        accounts := accounts[id := accounts[id].(received := accounts[id].received + amount)];
      }
      calls := calls[t := Rereading(id)];
    }

    method GetAccountByID(t: nat, id: AccountId) returns (found: bool, account: Account)
      requires Valid() && IsAt(t, Rereading(id))
      modifies `calls
      ensures View() == Apply(old(View()), Reread(t)) && Later(old(View()), View())
      ensures found == (id in accounts) && (found ==> account == accounts[id])
      ensures IsAt(t, if found && account.received >= account.limit then Disabling(id) else Idle)
    {
      LaterRefl(View());
      LaterThen(View(), View(), Reread(t));
      found, account := id in accounts, Account(false, 0, 0, 0);
      if found {
        account := accounts[id];
      }
      calls := calls[t := if found && account.received >= account.limit then Disabling(id) else Idle];
    }

    method UpdateAccountStatusDisabled(t: nat, id: AccountId) returns (found: bool)
      requires Valid() && IsAt(t, Disabling(id))
      modifies `accounts, `calls
      ensures View() == Apply(old(View()), Disable(t)) && Later(old(View()), View())
      ensures found == (id in accounts) && IsAt(t, if found then Listing(id) else Idle)
    {
      LaterRefl(View());
      LaterThen(View(), View(), Disable(t));
      found := id in accounts;
      if found {
        accounts := accounts[id := accounts[id].(active := false)];
        calls := calls[t := Listing(id)];
      } else {
        calls := calls[t := Idle];
      }
    }

    method GetMerchantsByAccount(t: nat, id: AccountId) returns (merchants: seq<Merchant>)
      requires Valid() && IsAt(t, Listing(id))
      modifies `calls
      ensures ListsMerchantsOf(old(View()), id, merchants)
      ensures View() == Apply(old(View()), List(t, merchants)) && Later(old(View()), View())
      ensures IsAt(t, Rebuild(merchants))
    {
      LaterRefl(View());
      merchants := [];
      var rest := set m | m in mapped && id in mapped[m];
      while rest != {}
        invariant forall m :: m in rest ==> m in mapped && id in mapped[m]
        invariant forall m :: m in mapped && id in mapped[m] ==> m in rest || m in merchants
        invariant forall i :: 0 <= i < |merchants| ==> merchants[i] in mapped && id in mapped[merchants[i]]
        decreases rest
      {
        var m :| m in rest;
        merchants, rest := merchants + [m], rest - {m};
      }
      LaterThen(View(), View(), List(t, merchants));
      calls := calls[t := Rebuild(merchants)];
    }

    /** SELECT of the merchant's active accounts, ORDER BY priority DESC. */
    method GetActiveAccountsByMerchant(m: Merchant) returns (rows: seq<Row>)
      ensures IsActiveList(View(), m, rows)
      ensures forall i, j :: 0 <= i < j < |rows| ==>
                rows[i].id != rows[j].id && rows[j].priority <= rows[i].priority
    {
      var pool := ActivePool(View(), m);
      rows := [];
      var rest := pool.Keys;
      while rest != {}
        invariant rest <= pool.Keys
        invariant forall i :: 0 <= i < |rows| ==>
                    rows[i].id in pool && rows[i].id !in rest && rows[i].priority == pool[rows[i].id]
        invariant forall a :: a in pool ==> a in rest || Row(a, pool[a]) in rows
        invariant forall i, a :: 0 <= i < |rows| && a in rest ==> pool[a] <= rows[i].priority
        invariant forall i, j :: 0 <= i < j < |rows| ==>
                    rows[i].id != rows[j].id && rows[j].priority <= rows[i].priority
        decreases rest
      {
        Systems.LowestExists(map k | k in pool :: -pool[k], rest);
        var a :| a in rest && forall b :: b in rest ==> pool[b] <= pool[a];
        rows, rest := rows + [Row(a, pool[a])], rest - {a};
      }
    }

    /** The query of a rebuild. */
    method FetchRows(t: nat, m: Merchant, ghost rest: seq<Merchant>) returns (rows: seq<Row>)
      requires Valid() && IsAt(t, Fetching([m] + rest))
      modifies `calls
      ensures IsActiveList(old(View()), m, rows)
      ensures View() == Apply(old(View()), Fetch(t, rows)) && Later(old(View()), View())
      ensures IsAt(t, Deleting([m] + rest, rows))
    {
      LaterRefl(View());
      rows := GetActiveAccountsByMerchant(m);
      LaterThen(View(), View(), Fetch(t, rows));
      calls := calls[t := Deleting(calls[t].todo, rows)];
    }

    method DelPool(t: nat, m: Merchant, ghost rest: seq<Merchant>, ghost rows: seq<Row>)
      requires Valid() && IsAt(t, Deleting([m] + rest, rows))
      modifies `pools, `calls, `sent
      ensures View() == Apply(old(View()), Del(t)) && Later(old(View()), View())
      ensures m in pools && pools[m] == map[] && IsAt(t, Fill([m] + rest, rows))
      ensures sent == old(sent) + [DelKey(m)]
    {
      LaterRefl(View());
      LaterThen(View(), View(), Del(t));
      pools, sent := pools[m := map[]], sent + [DelKey(m)];
      calls := calls[t := Fill(calls[t].todo, calls[t].rows)];
    }

    method ZAddPool(t: nat, m: Merchant, row: Row, ghost rest: seq<Merchant>, ghost rows: seq<Row>)
      requires Valid() && IsAt(t, Adding([m] + rest, [row] + rows))
      modifies `pools, `calls, `sent
      ensures View() == Apply(old(View()), Add(t)) && Later(old(View()), View())
      ensures m in pools && row.id in pools[m] && pools[m][row.id] == row.priority && IsAt(t, Fill([m] + rest, rows))
      ensures sent == old(sent) + [AddRow(m, row)]
    {
      LaterRefl(View());
      LaterThen(View(), View(), Add(t));
      assert calls[t].rows[1..] == rows;
      pools, sent := pools[m := Cached(View(), m)[row.id := row.priority]], sent + [AddRow(m, row)];
      calls := calls[t := Fill(calls[t].todo, calls[t].rows[1..])];
    }

    // ----------------------------------------------------------------
    // The service's methods
    // ----------------------------------------------------------------

    method SelectAccount(m: Merchant) returns (r: Selection)
      ensures Selects(View(), m, r)
      ensures ChoiceIsRight(View(), m, r)
    {
      var rows := GetActiveAccountsByMerchant(m);
      if |rows| == 0 {
        assert ActivePool(View(), m) == map[];
        RightChoice(View(), m, NoneActive);
        return NoneActive;
      }
      for i := 0 to |rows|
        invariant forall j :: 0 <= j < i ==> OverLimit(View(), rows[j].id)
      {
        var account := accounts[rows[i].id];
        if account.received >= account.limit {
          continue;
        }
        assert forall b :: b in ActivePool(View(), m) ==>
                             exists j :: 0 <= j < |rows| && rows[j] == Row(b, ActivePool(View(), m)[b]);
        RightChoice(View(), m, Selected(rows[i].id));
        return Selected(rows[i].id);
      }
      assert rows[0].id in ActivePool(View(), m);
      RightChoice(View(), m, AllAtLimit);
      return AllAtLimit;
    }

    /**
     Replaces the cached pool of the first merchant on the call's list by a list of its active accounts
     that is read during the call: DEL, then one ZADD per account.
     */
    method UpdateAccountPool(t: nat, m: Merchant, ghost rest: seq<Merchant>)
      returns (rows: seq<Row>, ghost read: State)
      requires Valid() && IsAt(t, Fetching([m] + rest))
      modifies this
      ensures Later(old(View()), View()) && IsAt(t, Rebuild(rest))
      ensures Later(old(View()), read) && Later(read, View()) && IsActiveList(read, m, rows)
      ensures m in pools && (rows == [] ==> pools[m] == map[])
      ensures rows != [] ==> var last := rows[|rows| - 1]; last.id in pools[m] && pools[m][last.id] == last.priority
      ensures sent == old(sent) + StoreOf(m, rows)
    {
      Interleave(t);
      read := View();
      LaterRefl(read);
      rows := FetchRows(t, m, rest);
      LaterTrans(old(View()), read, View());
      StoreRows(t, m, rest, rows, read);
      LaterTrans(old(View()), read, View());
    }

    /** DEL, once other calls have had their turn. */
    method DelNext(t: nat, m: Merchant, ghost rest: seq<Merchant>, ghost rows: seq<Row>, ghost start: State)
      requires Valid() && IsAt(t, Deleting([m] + rest, rows)) && Later(start, View())
      modifies `accounts, `mapped, `pools, `calls, `sent
      ensures Later(start, View()) && Later(old(View()), View())
      ensures m in pools && pools[m] == map[] && IsAt(t, Fill([m] + rest, rows))
      ensures sent == old(sent) + [DelKey(m)]
    {
      Interleave(t);
      ghost var mid := View();
      DelPool(t, m, rest, rows);
      LaterTrans(old(View()), mid, View());
      LaterTrans(start, old(View()), View());
    }

    /** ZADD, once other calls have had their turn. */
    method ZAddNext(t: nat, m: Merchant, row: Row, ghost rest: seq<Merchant>, ghost rows: seq<Row>, ghost start: State)
      requires Valid() && IsAt(t, Adding([m] + rest, [row] + rows)) && Later(start, View())
      modifies `accounts, `mapped, `pools, `calls, `sent
      ensures Later(start, View()) && Later(old(View()), View())
      ensures m in pools && row.id in pools[m] && pools[m][row.id] == row.priority && IsAt(t, Fill([m] + rest, rows))
      ensures sent == old(sent) + [AddRow(m, row)]
    {
      Interleave(t);
      ghost var mid := View();
      ZAddPool(t, m, row, rest, rows);
      LaterTrans(old(View()), mid, View());
      LaterTrans(start, old(View()), View());
    }

    /** Stores a list that has been fetched. */
    method StoreRows(t: nat, m: Merchant, ghost rest: seq<Merchant>, rows: seq<Row>, ghost start: State)
      requires Valid() && IsAt(t, Deleting([m] + rest, rows)) && Later(start, View())
      modifies this
      ensures Later(start, View()) && IsAt(t, Rebuild(rest))
      ensures m in pools && (rows == [] ==> pools[m] == map[])
      ensures rows != [] ==> var last := rows[|rows| - 1]; last.id in pools[m] && pools[m][last.id] == last.priority
      ensures sent == old(sent) + StoreOf(m, rows)
    {
      DelNext(t, m, rest, rows, start);
      for i := 0 to |rows|
        invariant Later(start, View()) && IsAt(t, Fill([m] + rest, rows[i..]))
        invariant m in pools && (i == 0 ==> pools[m] == map[])
        invariant i > 0 ==> rows[i - 1].id in pools[m] && pools[m][rows[i - 1].id] == rows[i - 1].priority
        invariant sent == old(sent) + StoreOf(m, rows[..i])
      {
        assert rows[i..] == [rows[i]] + rows[i + 1..];
        StoreOneMore(m, rows, i);
        ZAddNext(t, m, rows[i], rest, rows[i + 1..], start);
      }
      assert ([m] + rest)[1..] == rest && rows[..|rows|] == rows;
    }

    /** A rebuild from a list read after `start`. */
    method UpdateNextPool(t: nat, m: Merchant, ghost rest: seq<Merchant>, ghost start: State) returns (rows: seq<Row>)
      requires Valid() && IsAt(t, Fetching([m] + rest)) && Later(start, View())
      modifies this
      ensures Later(start, View()) && Later(old(View()), View()) && IsAt(t, Rebuild(rest))
      ensures m in pools && IsListAfter(start, m, rows)
      ensures sent == old(sent) + StoreOf(m, rows)
    {
      ghost var read;
      rows, read := UpdateAccountPool(t, m, rest);
      LaterTrans(start, old(View()), View());
      LaterTrans(start, old(View()), read);
    }

    /** The last part of AutoSwitch: one rebuild per affected merchant, each from a list read after `start`. */
    method UpdateAccountPools(t: nat, merchants: seq<Merchant>, ghost start: State) returns (lists: seq<seq<Row>>)
      requires Valid() && IsAt(t, Rebuild(merchants)) && Later(start, View())
      modifies this
      ensures Later(start, View()) && IsAt(t, Idle)
      ensures AreListsAfter(start, merchants, lists) && forall m :: m in merchants ==> m in pools
      ensures sent == old(sent) + StoresOf(merchants, lists)
    {
      lists := [];
      for i := 0 to |merchants|
        invariant Later(start, View()) && IsAt(t, Rebuild(merchants[i..])) && |lists| == i
        invariant AreListsAfter(start, merchants[..i], lists) && forall j :: 0 <= j < i ==> merchants[j] in pools
        invariant sent == old(sent) + StoresOf(merchants[..i], lists)
      {
        assert merchants[i..] == [merchants[i]] + merchants[i + 1..];
        var rows := UpdateNextPool(t, merchants[i], merchants[i + 1..], start);
        StoresOneMore(old(sent), merchants, i, lists, rows);
        ListsOneMore(start, merchants, i, lists, rows);
        lists := lists + [rows];
      }
      assert merchants[..|merchants|] == merchants;
    }

    /**
     Switches an account off and rebuilds the pool of every merchant it is mapped to, from lists that do
     not hold it; fails if the account does not exist.
     */
    method AutoSwitch(t: nat, id: AccountId) returns (ok: bool, merchants: seq<Merchant>, lists: seq<seq<Row>>)
      requires Valid() && IsAt(t, Disabling(id))
      modifies this
      ensures Later(old(View()), View()) && IsAt(t, Idle)
      ensures ok == (id in old(accounts)) && (ok ==> id in accounts && !accounts[id].active)
      ensures ok ==> forall m :: m in merchants <==> m in mapped && id in mapped[m]
      ensures |lists| == |merchants| && sent == old(sent) + StoresOf(merchants, lists)
      ensures forall i :: 0 <= i < |lists| ==>
                merchants[i] in pools && forall j :: 0 <= j < |lists[i]| ==> lists[i][j].id != id
    {
      merchants, lists := [], [];
      Interleave(t);
      ghost var mid := View();
      ok := UpdateAccountStatusDisabled(t, id);
      LaterTrans(old(View()), mid, View());
      if !ok {
        return;
      }
      mid := View();
      merchants, lists := ReassignMerchants(t, id);
      LaterTrans(old(View()), mid, View());
    }

    /** The rest of AutoSwitch, once the account is off. */
    method ReassignMerchants(t: nat, id: AccountId) returns (merchants: seq<Merchant>, lists: seq<seq<Row>>)
      requires Valid() && IsAt(t, Listing(id)) && id in accounts && !accounts[id].active
      modifies this
      ensures Later(old(View()), View()) && IsAt(t, Idle)
      ensures ListsMerchantsOf(View(), id, merchants)
      ensures |lists| == |merchants| && sent == old(sent) + StoresOf(merchants, lists)
      ensures forall i :: 0 <= i < |lists| ==>
                merchants[i] in pools && forall j :: 0 <= j < |lists[i]| ==> lists[i][j].id != id
    {
      Interleave(t);
      ghost var mid := View();
      merchants := GetMerchantsByAccount(t, id);
      LaterTrans(old(View()), mid, View());
      lists := UpdateAccountPools(t, merchants, old(View()));
      OffIsOnNoList(old(View()), merchants, lists, id);
    }

    /** The increment, once other calls have had their turn: `before` and `after` are the states around it. */
    method AddDeposit(t: nat, id: AccountId, amount: int) returns (ghost before: State, ghost after: State)
      requires Valid() && IsAt(t, Idle)
      modifies `accounts, `mapped, `pools, `calls
      ensures Later(old(View()), before) && Later(before, after) && View() == after && Later(old(View()), View())
      ensures IsAt(t, Rereading(id)) && IsDeposit(before, after, id, amount)
    {
      Interleave(t);
      before := View();
      IncrementDailyReceived(t, id, amount);
      after := View();
      LaterTrans(old(View()), before, after);
    }

    /** The re-read, once other calls have had their turn; `read` is the state it sees. */
    method ReadBack(t: nat, id: AccountId) returns (found: bool, account: Account, ghost read: State)
      requires Valid() && IsAt(t, Rereading(id))
      modifies `accounts, `mapped, `pools, `calls
      ensures Later(old(View()), read) && Later(read, View()) && Later(old(View()), View())
      ensures found == (id in read.accounts) && (found ==> account == read.accounts[id])
      ensures IsAt(t, if found && account.received >= account.limit then Disabling(id) else Idle)
    {
      Interleave(t);
      read := View();
      found, account := GetAccountByID(t, id);
      LaterTrans(old(View()), read, View());
    }

    /**
     Adds a deposit to the account's daily counter, in one step from `before` to `after`. The account is
     then read back, in state `read`: if it has reached its limit there it is off when the call returns,
     else the call leaves accounts and pools alone.
     */
    method UpdateDailyReceived(t: nat, id: AccountId, amount: int)
      returns (ok: bool, ghost before: State, ghost after: State, ghost read: State)
      requires Valid() && IsAt(t, Idle)
      modifies this
      ensures Later(old(View()), View()) && IsAt(t, Idle)
      ensures ok == (id in old(accounts))
      ensures Later(old(View()), before) && Later(before, after) && Later(after, read) && Later(read, View())
      ensures IsDeposit(before, after, id, amount)
      ensures id in before.accounts ==>
                id in after.accounts && after.accounts[id].received == before.accounts[id].received + amount
      ensures id in read.accounts && read.accounts[id].limit <= read.accounts[id].received ==>
                id in accounts && !accounts[id].active
      ensures id in read.accounts && read.accounts[id].received < read.accounts[id].limit ==> sent == old(sent)
    {
      before, after := AddDeposit(t, id, amount);
      var found, account;
      found, account, read := ReadBack(t, id);
      LaterTrans(old(View()), after, View());
      if !found {
        return false, before, after, read;
      }
      ok := true;
      if account.received >= account.limit {
        ghost var mid := View();
        var merchants, lists;
        ok, merchants, lists := AutoSwitch(t, id);
        LaterTrans(read, mid, View());
        LaterTrans(old(View()), mid, View());
      }
    }

    /** Midnight: every counter back to zero; accounts that are off stay off. */
    method ResetDailyCounters()
      requires Valid()
      modifies this
      ensures View() == Apply(old(View()), Reset) && Later(old(View()), View())
    {
      LaterRefl(View());
      LaterThen(View(), View(), Reset);
      accounts := map a | a in accounts :: accounts[a].(received := 0);
    }
  }
}
