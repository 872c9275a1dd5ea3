/** Amounts in satang (hundredths of a baht) and the rounding of the decimal library. */
module Money {

  /** `Round(2)` of a baht amount given in satang: to the nearest satang, halves away from zero. */
  function RoundHalfAway(x: real): (n: int)
    ensures IsRounded(n, x)
  {
    if x >= 0.0 then (x + 0.5).Floor else -(0.5 - x).Floor
  }

  /** The nearest whole number; of two equally near ones the one away from zero. */
  predicate IsRounded(n: int, x: real) {
    && n as real - 0.5 <= x <= n as real + 0.5
    && (x == n as real - 0.5 ==> n > 0)
    && (x == n as real + 0.5 ==> n < 0)
  }

  /** These clauses leave no other choice. */
  lemma RoundingIsUnique(x: real, n: int)
    requires IsRounded(n, x)
    ensures n == RoundHalfAway(x)
  {
    var r := RoundHalfAway(x);
    assert n < r ==> n as real + 1.0 <= r as real;
    assert r < n ==> r as real + 1.0 <= n as real;
  }

  lemma RoundingIsMonotone(x: real, y: real)
    requires x <= y
    ensures RoundHalfAway(x) <= RoundHalfAway(y)
  {
    var m, n := RoundHalfAway(x), RoundHalfAway(y);
    assert n < m ==> n as real + 1.0 <= m as real;
  }

  /** The share of an amount at a percentage written as a fraction, in satang. */
  function Share(amount: int, pct: real): (n: int)
    ensures IsRounded(n, amount as real * pct)
  {
    RoundHalfAway(amount as real * pct)
  }

  lemma ShareIs(amount: int, pct: real, x: real)
    requires x == amount as real * pct
    ensures Share(amount, pct) == RoundHalfAway(x)
  {}
}
