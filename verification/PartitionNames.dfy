/** The names of monthly partitions: how they are printed, and what the archive job reads out of them. */
module PartitionNames {
  import opened Text
  import opened Calendar

  /** `{table}_{year}_{month}`, the month with two digits */
  function Name(table: string, m: int): string {
    table + "_" + Signed(YearOf(m)) + "_" + Pad2(MonthOfYear(m))
  }

  function LeadingDigits(s: string): (n: nat)
    ensures n <= |s| && AllDigits(s[..n])
    ensures n == |s| || !IsDigit(s[n])
  {
    if s == "" || !IsDigit(s[0]) then 0
    else
      assert s[..1 + LeadingDigits(s[1..])] == [s[0]] + s[1..][..LeadingDigits(s[1..])];
      1 + LeadingDigits(s[1..])
  }

  /** `%d`: an optional sign and at least one digit; the value and how much text it took. */
  function ScanInt(s: string): Option<(int, nat)> {
    var signed := s != "" && (s[0] == '-' || s[0] == '+');
    var digits := if signed then s[1..] else s;
    var n := LeadingDigits(digits);
    if n == 0 then None
    else
      var v: int := Value(digits[..n]);
      Some((if signed && s[0] == '-' then -v else v, if signed then n + 1 else n))
  }

  /** What a scan passes over before a number: white space, but no newline. */
  predicate IsBlank(c: char) {
    var u := c as int;
    || (9 <= u <= 13 && u != 10) || u in {0x20, 0x85, 0xa0, 0x1680}
    || 0x2000 <= u <= 0x200a || u in {0x2028, 0x2029, 0x202f, 0x205f, 0x3000}
  }

  function Unblanked(s: string): string {
    if s != "" && IsBlank(s[0]) then Unblanked(s[1..]) else s
  }

  function FirstTwo(s: string): string {
    if |s| > 2 then s[..2] else s
  }

  /**
   `Sscanf(s, "%d_%02d")`: blanks before a number are skipped, the second number takes at most two
   characters, and text after it is ignored.
   */
  function ScanYearMonth(s: string): Option<(int, int)> {
    var t := Unblanked(s);
    match ScanInt(t)
    case None => None
    case Some((year, used)) =>
      if used >= |t| || t[used] != '_' then None
      else
        match ScanInt(FirstTwo(Unblanked(t[used + 1..])))
        case None => None
        case Some((month, _)) => Some((year, month))
  }

  /** The year and month a partition name stands for, if it follows the convention. */
  function ParsePartitionDate(name: string, table: string): (r: Option<(int, int)>)
    ensures r.Some? ==> 1 <= r.value.1 <= 12
  {
    if !(table + "_" <= name) then None
    else
      match ScanYearMonth(name[|table| + 1..])
      case None => None
      case Some((year, month)) => if 1 <= month <= 12 then Some((year, month)) else None
  }

  lemma {:induction false} LeadingDigitsOf(digits: string, rest: string)
    requires AllDigits(digits) && (rest == "" || !IsDigit(rest[0]))
    ensures LeadingDigits(digits + rest) == |digits|
  {
    var s := digits + rest;
    if digits == "" {
      assert s == rest;
    } else {
      assert s[1..] == digits[1..] + rest;
      LeadingDigitsOf(digits[1..], rest);
    }
  }

  lemma ScanTwo(s: string, year: int, used: nat, rest: string, month: int, width: nat)
    requires ScanInt(Unblanked(s)) == Some((year, used)) && used < |Unblanked(s)| && Unblanked(s)[used] == '_'
    requires Unblanked(Unblanked(s)[used + 1..]) == rest && ScanInt(FirstTwo(rest)) == Some((month, width))
    ensures ScanYearMonth(s) == Some((year, month))
  {}

  /** An optional sign and at least one digit. */
  predicate IsNumber(s: string) {
    s != "" && if s[0] == '-' || s[0] == '+' then |s| >= 2 && AllDigits(s[1..]) else AllDigits(s)
  }

  function NumberValue(s: string): int
    requires IsNumber(s)
  {
    if s[0] == '-' then 0 - Value(s[1..]) else if s[0] == '+' then Value(s[1..]) else Value(s)
  }

  /** Scanning finds the longest number at the start, and nothing else. */
  lemma ScanIntIff(s: string, v: int, used: nat)
    ensures ScanInt(s) == Some((v, used)) <==>
            && used <= |s| && IsNumber(s[..used]) && NumberValue(s[..used]) == v
            && (used < |s| ==> !IsDigit(s[used]))
  {
    var signed := s != "" && (s[0] == '-' || s[0] == '+');
    var digits := if signed then s[1..] else s;
    var n := LeadingDigits(digits);
    var taken := if signed then n + 1 else n;
    if signed {
      assert s[..taken][1..] == digits[..n];
    } else {
      assert s[..taken] == digits[..n];
    }
    assert n > 0 ==> s[..taken][0] == s[0];
    if used <= |s| && IsNumber(s[..used]) && (used < |s| ==> !IsDigit(s[used])) {
      assert s[..used][0] == s[0];
      var k := if signed then used - 1 else used;
      assert (if signed then s[..used][1..] else s[..used]) == digits[..k];
      LongestDigits(digits, k);
    }
  }

  lemma LongestDigits(s: string, k: nat)
    requires k <= |s| && AllDigits(s[..k]) && (k < |s| ==> !IsDigit(s[k]))
    ensures LeadingDigits(s) == k
  {
    LeadingDigitsOf(s[..k], s[k..]);
    assert s[..k] + s[k..] == s;
  }

  predicate AllBlank(s: string) {
    forall i :: 0 <= i < |s| ==> IsBlank(s[i])
  }

  lemma {:induction false} UnblankedOf(blanks: string, rest: string)
    requires AllBlank(blanks) && (rest == "" || !IsBlank(rest[0]))
    ensures Unblanked(blanks + rest) == rest
  {
    if blanks == "" {
      assert blanks + rest == rest;
    } else {
      assert (blanks + rest)[1..] == blanks[1..] + rest;
      UnblankedOf(blanks[1..], rest);
    }
  }

  lemma {:induction false} SkippedBlanks(s: string) returns (blanks: string)
    ensures AllBlank(blanks) && s == blanks + Unblanked(s)
  {
    blanks := "";
    if s != "" && IsBlank(s[0]) {
      var more := SkippedBlanks(s[1..]);
      blanks := [s[0]] + more;
    }
  }

  /**
   The table, a year, a month of at most two characters, and text that does not lengthen the month. Blanks
   may precede the numbers.
   */
  predicate ReadsAs(name: string, table: string, pad: string, year: string, gap: string, month: string, text: string) {
    && name == table + "_" + (pad + (year + ("_" + (gap + (month + text)))))
    && AllBlank(pad) && IsNumber(year) && AllBlank(gap) && IsNumber(month) && |month| <= 2
    && (|month| < 2 && text != "" ==> !IsDigit(text[0]))
  }

  lemma MonthScans(month: string, text: string)
    requires IsNumber(month) && |month| <= 2 && (|month| < 2 && text != "" ==> !IsDigit(text[0]))
    ensures ScanInt(FirstTwo(month + text)) == Some((NumberValue(month), |month|))
  {
    var two := FirstTwo(month + text);
    assert two[..|month|] == month;
    assert |month| < |two| ==> two[|month|] == text[0];
    ScanIntIff(two, NumberValue(month), |month|);
  }

  lemma ReadsAsParses(
      name: string, table: string, pad: string, year: string, gap: string, month: string, text: string)
    requires ReadsAs(name, table, pad, year, gap, month, text) && 1 <= NumberValue(month) <= 12
    ensures ParsePartitionDate(name, table) == Some((NumberValue(year), NumberValue(month)))
  {
    var rest := gap + (month + text);
    var t := year + ("_" + rest);
    assert name[|table| + 1..] == pad + t;
    assert t[0] == year[0] && (month + text)[0] == month[0];
    UnblankedOf(pad, t);
    UnblankedOf(gap, month + text);
    assert t[..|year|] == year && t[|year|] == '_' && t[|year| + 1..] == rest;
    ScanIntIff(t, NumberValue(year), |year|);
    MonthScans(month, text);
    ScanTwo(pad + t, NumberValue(year), |year|, month + text, NumberValue(month), |month|);
  }

  lemma ScannedMonth(s: string, month: int, width: nat) returns (gap: string, z: string, text: string)
    requires ScanInt(FirstTwo(Unblanked(s))) == Some((month, width))
    ensures s == gap + (z + text) && AllBlank(gap) && IsNumber(z) && |z| <= 2 && NumberValue(z) == month
    ensures |z| < 2 && text != "" ==> !IsDigit(text[0])
  {
    var rest := Unblanked(s);
    var two := FirstTwo(rest);
    gap := SkippedBlanks(s);
    ScanIntIff(two, month, width);
    z, text := rest[..width], rest[width..];
    assert z == two[..width] && rest == z + text;
    assert width < |two| ==> text[0] == two[width];
  }

  lemma ScannedYear(s: string, year: int, used: nat) returns (pad: string, y: string, rest: string)
    requires ScanInt(Unblanked(s)) == Some((year, used)) && used < |Unblanked(s)| && Unblanked(s)[used] == '_'
    ensures rest == Unblanked(s)[used + 1..] && s == pad + (y + ("_" + rest))
    ensures AllBlank(pad) && IsNumber(y) && NumberValue(y) == year
  {
    var t := Unblanked(s);
    pad := SkippedBlanks(s);
    ScanIntIff(t, year, used);
    y, rest := t[..used], t[used + 1..];
    assert t[used..] == "_" + rest;
    assert t == y + t[used..];
  }

  lemma ScannedAs(name: string, table: string, year: int, month: int)
    returns (pad: string, y: string, gap: string, z: string, text: string)
    requires ParsePartitionDate(name, table) == Some((year, month))
    ensures ReadsAs(name, table, pad, y, gap, z, text) && NumberValue(y) == year && NumberValue(z) == month
  {
    var s := name[|table| + 1..];
    var rest;
    pad, y, rest := ScannedYear(s, year, ScanInt(Unblanked(s)).value.1);
    gap, z, text := ScannedMonth(rest, month, ScanInt(FirstTwo(Unblanked(rest))).value.1);
    assert name == table + "_" + s;
  }

  /** Exactly the names the parser accepts, and what it makes of them. */
  lemma AcceptedNames(name: string, table: string, year: int, month: int)
    ensures ParsePartitionDate(name, table) == Some((year, month)) <==>
            && 1 <= month <= 12
            && exists pad, y, gap, z, text ::
                 ReadsAs(name, table, pad, y, gap, z, text) && NumberValue(y) == year && NumberValue(z) == month
  {
    if ParsePartitionDate(name, table) == Some((year, month)) {
      var pad, y, gap, z, text := ScannedAs(name, table, year, month);
    }
    if 1 <= month <= 12 {
      forall pad, y, gap, z, text |
        ReadsAs(name, table, pad, y, gap, z, text) && NumberValue(y) == year && NumberValue(z) == month
        ensures ParsePartitionDate(name, table) == Some((year, month))
      {
        ReadsAsParses(name, table, pad, y, gap, z, text);
      }
    }
  }

  lemma SignedIsNumber(n: int)
    ensures IsNumber(Signed(n)) && NumberValue(Signed(n)) == n
  {
    DigitsValue(if n < 0 then -n else n);
  }

  /** The parser ignores what follows the month, so any table named after a partition reads like it. */
  lemma TrailingTextIsIgnored(table: string, m: int, text: string)
    ensures ParsePartitionDate(Name(table, m) + text, table) == Some((YearOf(m), MonthOfYear(m)))
  {
    var year, month := Signed(YearOf(m)), Pad2(MonthOfYear(m));
    SignedIsNumber(YearOf(m));
    Pad2Value(MonthOfYear(m));
    assert Name(table, m) + text == table + "_" + ("" + (year + ("_" + ("" + (month + text)))));
    ReadsAsParses(Name(table, m) + text, table, "", year, "", month, text);
  }

  /** Main result on names: the parser inverts the printer, for every table, year and month. */
  lemma ParseInvertsName(table: string, m: int)
    ensures ParsePartitionDate(Name(table, m), table) == Some((YearOf(m), MonthOfYear(m)))
  {
    TrailingTextIsIgnored(table, m, "");
    assert Name(table, m) + "" == Name(table, m);
  }

  lemma NoUnderscoreAfter(a: string, x: string, k: int)
    requires '_' !in x && |a| < k <= |a| + |x|
    ensures (a + "_" + x)[k] != '_'
  {
    assert (a + "_" + x)[k] == x[k - |a| - 1];
  }

  lemma LastUnderscore(a: string, x: string, b: string, y: string)
    requires '_' !in x && '_' !in y
    requires a + "_" + x == b + "_" + y
    ensures a == b && x == y
  {
    var s := a + "_" + x;
    assert s[|a|] == '_' && s[|b|] == '_';
    if |a| < |b| {
      NoUnderscoreAfter(a, x, |b|);
    } else if |b| < |a| {
      NoUnderscoreAfter(b, y, |a|);
    } else {
      assert a == s[..|a|] && b == s[..|a|];
      assert x == s[|a| + 1..] && y == s[|a| + 1..];
    }
  }

  /** No two partitions share a name, whatever the tables are called. */
  lemma NameInjective(table: string, m: int, other: string, n: int)
    requires Name(table, m) == Name(other, n)
    ensures table == other && m == n
  {
    LastUnderscore(table + "_" + Signed(YearOf(m)), Pad2(MonthOfYear(m)),
                   other + "_" + Signed(YearOf(n)), Pad2(MonthOfYear(n)));
    LastUnderscore(table, Signed(YearOf(m)), other, Signed(YearOf(n)));
    ParseInvertsName(table, m);
    ParseInvertsName(table, n);
  }
}
