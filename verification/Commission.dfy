/**
 Splitting a transaction's fee between the system, an agent and a partner. Amounts are whole
 satang, percentages exact fractions, and each product is rounded to the satang.
 */
module Commission {
  import opened Text
  import Money
  import DepositOrders

  type OwnerId = nat

  datatype TransactionType = Deposit | Withdrawal

  datatype Input = Input(
    transactionType: TransactionType,
    amount: int,
    feePct: real,
    agentPct: real,
    partnerPct: real,
    agent: Option<OwnerId>,
    partner: Option<OwnerId>,
    currency: string)

  /** One row of the commissions table; `createdAt` in seconds. */
  datatype Record = Record(
    transactionType: TransactionType,
    fee: int,
    system: int,
    agent: Option<OwnerId>,
    agentAmount: int,
    partner: Option<OwnerId>,
    partnerAmount: int,
    currency: string,
    createdAt: int)

  datatype Outcome =
    | Split(record: Record)
    | ExceedsFee
    | NegativeSystem(system: int)

  function PartyShare(amount: int, party: Option<OwnerId>, pct: real): int {
    if party.Some? then Money.Share(amount, pct) else 0
  }

  /** What is left of the rounded fee after the agent and the partner. */
  function SystemShare(input: Input): int {
    Money.Share(input.amount, input.feePct)
    - PartyShare(input.amount, input.agent, input.agentPct)
    - PartyShare(input.amount, input.partner, input.partnerPct)
  }

  function CalculateCommission(input: Input, now: int): Outcome {
    if input.agentPct + input.partnerPct > input.feePct then ExceedsFee
    else
      var totalFee := Money.Share(input.amount, input.feePct);
      var agentShare := PartyShare(input.amount, input.agent, input.agentPct);
      var partnerShare := PartyShare(input.amount, input.partner, input.partnerPct);
      var systemShare := totalFee - agentShare - partnerShare;
      if systemShare < 0 then NegativeSystem(systemShare)
      else Split(Record(input.transactionType, totalFee, systemShare, input.agent, agentShare,
                        input.partner, partnerShare, input.currency, now))
  }

  /** Amount and percentages as the admin screens allow them. */
  predicate IsOrdinary(input: Input) {
    && 0 <= input.amount && 0.0 <= input.feePct && 0.0 <= input.agentPct && 0.0 <= input.partnerPct
    && input.agentPct + input.partnerPct <= input.feePct
  }

  /** What every accepted split looks like: no negative part, nothing for an absent party, and the parts are the fee. */
  predicate IsFairSplit(r: Record) {
    && 0 <= r.system && 0 <= r.agentAmount && 0 <= r.partnerAmount
    && (r.agent.None? ==> r.agentAmount == 0) && (r.partner.None? ==> r.partnerAmount == 0)
    && r.system + r.agentAmount + r.partnerAmount == r.fee
  }

  lemma ProductsOrdered(amount: int, p: real, q: real)
    requires 0 <= amount && p <= q
    ensures amount as real * p <= amount as real * q
  {
    assert amount as real * (q - p) >= 0.0;
  }

  lemma ShareNonNegative(amount: int, pct: real)
    requires 0 <= amount && 0.0 <= pct
    ensures 0 <= Money.Share(amount, pct)
  {
    ProductsOrdered(amount, 0.0, pct);
    Money.RoundingIsMonotone(0.0, amount as real * pct);
  }

  lemma AcceptedSplitIsFair(input: Input, now: int)
    requires IsOrdinary(input) && CalculateCommission(input, now).Split?
    ensures IsFairSplit(CalculateCommission(input, now).record)
  {
    ShareNonNegative(input.amount, input.agentPct);
    ShareNonNegative(input.amount, input.partnerPct);
  }

  /** The rounded percentage of the amount for a party that is there, nothing for one that is not. */
  predicate IsShare(satang: int, amount: int, party: Option<OwnerId>, pct: real) {
    if party.Some? then Money.IsRounded(satang, amount as real * pct) else satang == 0
  }

  lemma PartyShareIs(satang: int, amount: int, party: Option<OwnerId>, pct: real)
    requires IsShare(satang, amount, party, pct)
    ensures PartyShare(amount, party, pct) == satang
  {
    if party.Some? {
      Money.RoundingIsUnique(amount as real * pct, satang);
    }
  }

  lemma OutcomeOf(input: Input, now: int)
    ensures var fee := PartyShare(input.amount, Some(0), input.feePct);
            var agent := PartyShare(input.amount, input.agent, input.agentPct);
            var partner := PartyShare(input.amount, input.partner, input.partnerPct);
            CalculateCommission(input, now) ==
            if input.agentPct + input.partnerPct > input.feePct then ExceedsFee
            else if fee - agent - partner < 0 then NegativeSystem(fee - agent - partner)
            else Split(Record(input.transactionType, fee, fee - agent - partner, input.agent, agent,
                              input.partner, partner, input.currency, now))
  {}

  /**
   Every outcome, for any input: refused when the two percentages exceed the fee's; else the rounded shares,
   with the rest for the system, unless that is negative.
   */
  lemma OutcomeIs(input: Input, now: int, fee: int, agent: int, partner: int)
    requires Money.IsRounded(fee, input.amount as real * input.feePct)
    requires IsShare(agent, input.amount, input.agent, input.agentPct)
    requires IsShare(partner, input.amount, input.partner, input.partnerPct)
    ensures CalculateCommission(input, now) ==
            if input.agentPct + input.partnerPct > input.feePct then ExceedsFee
            else if fee - agent - partner < 0 then NegativeSystem(fee - agent - partner)
            else Split(Record(input.transactionType, fee, fee - agent - partner, input.agent, agent,
                              input.partner, partner, input.currency, now))
  {
    PartyShareIs(fee, input.amount, Some(0), input.feePct);
    PartyShareIs(agent, input.amount, input.agent, input.agentPct);
    PartyShareIs(partner, input.amount, input.partner, input.partnerPct);
    OutcomeOf(input, now);
  }

  /** One half or more goes up: the rounding of a nonnegative amount, by its whole and fractional parts. */
  lemma RoundedParts(x: real)
    requires 0.0 <= x
    ensures Money.RoundHalfAway(x) == x.Floor + (if x - x.Floor as real < 0.5 then 0 else 1)
  {
    Money.RoundingIsUnique(x, x.Floor + (if x - x.Floor as real < 0.5 then 0 else 1));
  }

  /** Both shares `x` and `y` are rounded up, and the fee `f` is too tight for that. */
  predicate RoundsOver(x: real, y: real, f: real) {
    x - x.Floor as real >= 0.5 && y - y.Floor as real >= 0.5 && f < x.Floor as real + y.Floor as real + 1.5
  }

  /**
   Rounding two parts of at most `f` gives at most one satang more than rounding `f`, and exactly one
   more when both parts are rounded up and `f` is less than one and a half above their whole satang.
   */
  lemma RoundedSum(x: real, y: real, f: real)
    requires 0.0 <= x && 0.0 <= y && x + y <= f
    ensures Money.RoundHalfAway(x) + Money.RoundHalfAway(y) <= Money.RoundHalfAway(f) + 1
    ensures Money.RoundHalfAway(x) + Money.RoundHalfAway(y) == Money.RoundHalfAway(f) + 1 <==> RoundsOver(x, y, f)
  {
    RoundedParts(x);
    RoundedParts(y);
    RoundedParts(f);
    assert f.Floor >= x.Floor + y.Floor by {
      assert (f.Floor + 1) as real > f >= (x.Floor + y.Floor) as real;
    }
    if x - x.Floor as real >= 0.5 && y - y.Floor as real >= 0.5 {
      assert f.Floor >= x.Floor + y.Floor + 1 by {
        assert (f.Floor + 1) as real > f >= (x.Floor + y.Floor + 1) as real;
      }
      assert f < x.Floor as real + y.Floor as real + 1.5 <==>
             f.Floor == x.Floor + y.Floor + 1 && f - f.Floor as real < 0.5;
    }
  }

  /** The rounded remainder, when each of the two parts may be missing. */
  lemma RoundedRemainder(x: real, y: real, f: real, hasX: bool, hasY: bool)
    requires 0.0 <= x && 0.0 <= y && x + y <= f
    ensures var rest := Money.RoundHalfAway(f) - (if hasX then Money.RoundHalfAway(x) else 0)
                        - (if hasY then Money.RoundHalfAway(y) else 0);
            && -1 <= rest
            && (rest < 0 <==> hasX && hasY && RoundsOver(x, y, f))
  {
    RoundedSum(x, y, f);
    RoundedParts(0.0);
    Money.RoundingIsMonotone(0.0, f);
    Money.RoundingIsMonotone(x, f);
    Money.RoundingIsMonotone(y, f);
  }

  lemma OrdinaryProducts(input: Input)
    requires IsOrdinary(input)
    ensures 0.0 <= input.amount as real * input.agentPct
    ensures 0.0 <= input.amount as real * input.partnerPct
    ensures input.amount as real * input.agentPct + input.amount as real * input.partnerPct
         <= input.amount as real * input.feePct
  {
    var amount, x, y := input.amount as real, input.agentPct, input.partnerPct;
    ProductsOrdered(input.amount, 0.0, x);
    ProductsOrdered(input.amount, 0.0, y);
    ProductsOrdered(input.amount, x + y, input.feePct);
    assert amount * (x + y) == amount * x + amount * y;
  }

  /**
   A split with allowed percentages is refused exactly when both parties are present and the rounding
   goes over; it then overshoots the fee by exactly one satang.
   */
  lemma RejectedIffRoundsOver(input: Input, now: int)
    requires IsOrdinary(input)
    ensures -1 <= SystemShare(input)
    ensures CalculateCommission(input, now).NegativeSystem? <==>
            && input.agent.Some? && input.partner.Some?
            && RoundsOver(input.amount as real * input.agentPct, input.amount as real * input.partnerPct,
                          input.amount as real * input.feePct)
    ensures !CalculateCommission(input, now).ExceedsFee?
  {
    OrdinaryProducts(input);
    SystemShareIs(input, input.amount as real * input.agentPct, input.amount as real * input.partnerPct,
                  input.amount as real * input.feePct);
  }

  lemma SystemShareIs(input: Input, x: real, y: real, f: real)
    requires x == input.amount as real * input.agentPct && y == input.amount as real * input.partnerPct
    requires f == input.amount as real * input.feePct
    requires 0.0 <= x && 0.0 <= y && x + y <= f
    ensures -1 <= SystemShare(input)
    ensures SystemShare(input) < 0 <==> input.agent.Some? && input.partner.Some? && RoundsOver(x, y, f)
  {
    RoundedRemainder(x, y, f, input.agent.Some?, input.partner.Some?);
    Money.ShareIs(input.amount, input.feePct, f);
    Money.ShareIs(input.amount, input.agentPct, x);
    Money.ShareIs(input.amount, input.partnerPct, y);
  }

  /** Half a baht at 1% each for agent and partner, out of a 2% fee, is refused. */
  lemma SmallDepositRefused(agent: OwnerId, partner: OwnerId, currency: string, now: int)
    ensures var input := Input(Deposit, 50, 0.02, 0.01, 0.01, Some(agent), Some(partner), currency);
            IsOrdinary(input) && CalculateCommission(input, now) == NegativeSystem(-1)
  {
    RejectedIffRoundsOver(Input(Deposit, 50, 0.02, 0.01, 0.01, Some(agent), Some(partner), currency), now);
    assert (50 as real * 0.01).Floor == 0;
  }

  /** The merchant's credit and the three shares add up to what the customer paid. */
  lemma CreditAndSharesArePaid(
      s: DepositOrders.State, id: DepositOrders.OrderId, actual: int, feePct: real, input: Input, now: int)
    requires DepositOrders.Enabled(s, DepositOrders.Complete(id, actual, Money.Share(actual, feePct)))
    requires input.amount == actual && input.feePct == feePct && CalculateCommission(input, now).Split?
    ensures var o := DepositOrders.Apply(s, DepositOrders.Complete(id, actual, Money.Share(actual, feePct))).orders[id];
            var r := CalculateCommission(input, now).record;
            o.net + r.system + r.agentAmount + r.partnerAmount == actual && r.fee == o.fee
  {}

  // ------------------------------------------------------------------
  // Recording
  // ------------------------------------------------------------------

  /** UPDATE of a balance: a wallet that does not exist is left alone. */
  function Credited(wallets: map<OwnerId, int>, id: OwnerId, amount: int): map<OwnerId, int> {
    if id in wallets then wallets[id := wallets[id] + amount] else wallets
  }

  class CommissionTable {
    var records: seq<Record>
    var wallets: map<OwnerId, int>

    method CreditWallet(id: OwnerId, amount: int)
      modifies `wallets
      ensures wallets == Credited(old(wallets), id, amount)
    {
      if id in wallets {
        wallets := wallets[id := wallets[id] + amount];
      }
    }

    /** Stores the split; agent and partner receive their positive shares, and nobody else's balance changes. */
    method RecordCommission(r: Record)
      modifies this
      ensures records == old(records) + [r]
      ensures wallets.Keys == old(wallets).Keys
      ensures forall w :: w in wallets ==>
                wallets[w] == old(wallets)[w] + (if r.agent == Some(w) && r.agentAmount > 0 then r.agentAmount else 0)
                              + (if r.partner == Some(w) && r.partnerAmount > 0 then r.partnerAmount else 0)
    {
      records := records + [r];
      if r.agent.Some? && r.agentAmount > 0 {
        CreditWallet(r.agent.value, r.agentAmount);
      }
      if r.partner.Some? && r.partnerAmount > 0 {
        CreditWallet(r.partner.value, r.partnerAmount);
      }
    }
  }
}
