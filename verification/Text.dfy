/** Decimal numbers as text, the way `%d` and `%02d` print them and a digit scanner reads them. */
module Text {

  datatype Option<+T> = None | Some(value: T)

  predicate IsDigit(c: char) {
    '0' <= c <= '9'
  }

  predicate AllDigits(s: string) {
    forall i :: 0 <= i < |s| ==> IsDigit(s[i])
  }

  function DigitChar(d: nat): (c: char)
    requires d < 10
    ensures IsDigit(c)
  {
    '0' + d as char
  }

  /** The number a run of digits denotes; the empty run denotes zero. */
  function Value(s: string): nat
    requires AllDigits(s)
  {
    if s == "" then 0 else 10 * Value(s[..|s| - 1]) + (s[|s| - 1] - '0') as nat
  }

  /** `%d` of a natural number. */
  function Digits(n: nat): (s: string)
    ensures AllDigits(s) && |s| >= 1 && (n >= 10 ==> |s| >= 2)
  {
    if n < 10 then [DigitChar(n)] else Digits(n / 10) + [DigitChar(n % 10)]
  }

  /** `%02d` of a natural number: at least two digits, more when needed. */
  function Pad2(n: nat): (s: string)
    ensures AllDigits(s) && |s| >= 2
  {
    if n < 10 then "0" + Digits(n) else Digits(n)
  }

  /** `%d` of an integer. */
  function Signed(n: int): (s: string)
    ensures |s| >= 1
    ensures forall i :: 0 <= i < |s| ==> IsDigit(s[i]) || (i == 0 && s[0] == '-')
  {
    if n < 0 then "-" + Digits(-n) else Digits(n)
  }

  lemma {:induction false} DigitsValue(n: nat)
    ensures Value(Digits(n)) == n
  {
    var s := Digits(n);
    if n < 10 {
      assert s[..0] == "";
    } else {
      assert s[..|s| - 1] == Digits(n / 10);
      DigitsValue(n / 10);
    }
  }

  lemma {:induction false} NoLeadingZero(n: nat)
    ensures n > 0 ==> Digits(n)[0] != '0'
    ensures |Pad2(n)| > 2 ==> Pad2(n)[0] != '0'
  {
    if n >= 10 {
      NoLeadingZero(n / 10);
    }
  }

  lemma Pad2Value(n: nat)
    ensures Value(Pad2(n)) == n
    ensures n <= 99 <==> |Pad2(n)| == 2
  {
    DigitsValue(n);
    if n < 10 {
      assert Pad2(n)[..1] == "0" && "0"[..0] == "";
    } else if n < 100 {
      assert |Digits(n / 10)| == 1;
    } else {
      assert |Digits(n / 10 / 10)| >= 1;
    }
  }

  /** Reads an optional minus sign and digits. */
  function SignedValue(s: string): int
    requires s != "" && AllDigits(s[1..]) && (IsDigit(s[0]) || s[0] == '-')
  {
    if s[0] == '-' then 0 - Value(s[1..]) else Value(s)
  }

  /** A signed number reads back, with a minus sign exactly if it is negative. */
  lemma SignedRoundTrip(n: int)
    ensures var s := Signed(n);
            AllDigits(s[1..]) && SignedValue(s) == n && (s[0] == '-' <==> n < 0)
  {
    if n < 0 {
      DigitsValue(-n);
      assert Signed(n)[1..] == Digits(-n);
    } else {
      DigitsValue(n);
    }
  }
}
