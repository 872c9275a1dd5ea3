/**
 The PromptPay payload of a deposit order: tag-length-value text following the EMV QR Code
 Specification for Payment Systems, Merchant-Presented Mode, closed by a CRC (section 4.7.3).

 A Go string is modelled as a sequence of bytes, one `char` each; amounts are whole satang.
 */
module PromptPayQr {
  import opened Text
  import Crc16

  datatype Field = Field(tag: string, value: string)

  const PROMPT_PAY_AID := "A000000677010111"

  // ------------------------------------------------------------------
  // Printing and reading tag-length-value text
  // ------------------------------------------------------------------

  function Tlv(tag: string, value: string): string {
    tag + Pad2(|value|) + value
  }

  function Concat(parts: seq<string>): string {
    if parts == [] then "" else parts[0] + Concat(parts[1..])
  }

  function Elements(fields: seq<Field>): (parts: seq<string>)
    ensures |parts| == |fields|
  {
    seq(|fields|, i requires 0 <= i < |fields| => Tlv(fields[i].tag, fields[i].value))
  }

  function Print(fields: seq<Field>): string {
    Concat(Elements(fields))
  }

  lemma {:induction false} ConcatAppend(x: seq<string>, y: seq<string>)
    ensures Concat(x + y) == Concat(x) + Concat(y)
  {
    if x == [] {
      assert x + y == y;
    } else {
      assert (x + y)[1..] == x[1..] + y;
      ConcatAppend(x[1..], y);
    }
  }

  lemma ConcatOne(x: seq<string>, part: string)
    ensures Concat(x + [part]) == Concat(x) + part
  {
    ConcatAppend(x, [part]);
    assert [part][1..] == [];
  }

  lemma ConcatSix(a: string, b: string, c: string, d: string, e: string, f: string)
    ensures Concat([a, b, c, d, e, f]) == "" + a + b + c + d + e + f
  {
    ConcatOne([], a);
    ConcatOne([a], b);
    ConcatOne([a, b], c);
    ConcatOne([a, b, c], d);
    ConcatOne([a, b, c, d], e);
    ConcatOne([a, b, c, d, e], f);
    assert [a, b, c, d, e, f] == [a, b, c, d, e] + [f];
    assert [a, b, c, d, e] == [a, b, c, d] + [e];
    assert [a, b, c, d] == [a, b, c] + [d];
    assert [a, b, c] == [a, b] + [c];
    assert [a, b] == [a] + [b];
    assert [a] == [] + [a];
  }

  /** A scanner of tag-length-value text: two characters of tag, two digits of length, the value. */
  function Read(s: string): Option<seq<Field>>
    decreases |s|
  {
    if s == "" then Some([])
    else if |s| < 4 || !AllDigits(s[2..4]) then None
    else
      var end := 4 + Value(s[2..4]);
      if |s| < end then None
      else
        match Read(s[end..])
        case None => None
        case Some(rest) => Some([Field(s[..2], s[4..end])] + rest)
  }

  ghost predicate TwoCharTags(fields: seq<Field>) {
    forall i :: 0 <= i < |fields| ==> |fields[i].tag| == 2
  }

  ghost predicate ShortValues(fields: seq<Field>) {
    forall i :: 0 <= i < |fields| ==> |fields[i].value| <= 99
  }

  /** The scanner takes one printed element off the front. */
  lemma ReadStep(tag: string, value: string, rest: string)
    requires |tag| == 2 && |value| <= 99 && Read(rest).Some?
    ensures Read(Tlv(tag, value) + rest) == Some([Field(tag, value)] + Read(rest).value)
  {
    Pad2Value(|value|);
    var s := Tlv(tag, value) + rest;
    var end := 4 + |value|;
    assert s[2..4] == Pad2(|value|);
    assert s[..2] == tag && s[4..end] == value && s[end..] == rest;
  }

  lemma PrintCons(fields: seq<Field>)
    requires fields != []
    ensures Print(fields) == Tlv(fields[0].tag, fields[0].value) + Print(fields[1..])
  {
    assert Elements(fields)[1..] == Elements(fields[1..]);
  }

  lemma {:induction false} ReadsPrinted(fields: seq<Field>)
    requires TwoCharTags(fields) && ShortValues(fields)
    ensures Read(Print(fields)) == Some(fields)
  {
    if fields != [] {
      var f, rest := fields[0], fields[1..];
      ReadsPrinted(rest);
      PrintCons(fields);
      ReadStep(f.tag, f.value, Print(rest));
      assert [f] + rest == fields;
    }
  }

  lemma TwoDigitsAreSmall(s: string)
    requires |s| == 2 && AllDigits(s)
    ensures Value(s) <= 99
  {
    assert Value(s) == 10 * Value(s[..1]) + (s[1] - '0') as nat;
    assert s[..1][..0] == "";
    assert Value(s[..1]) == 10 * Value("") + (s[0] - '0') as nat;
  }

  lemma {:induction false} ReadGivesShortValues(s: string)
    requires Read(s).Some?
    ensures TwoCharTags(Read(s).value) && ShortValues(Read(s).value)
    decreases |s|
  {
    if s != "" {
      TwoDigitsAreSmall(s[2..4]);
      ReadGivesShortValues(s[4 + Value(s[2..4])..]);
    }
  }

  /**
   Main result on the text format: a scanner recovers exactly the printed fields if and only if
   every value has at most 99 characters. A longer value prints a three-digit length.
   */
  lemma RoundTrip(fields: seq<Field>)
    requires TwoCharTags(fields)
    ensures Read(Print(fields)) == Some(fields) <==> ShortValues(fields)
  {
    if ShortValues(fields) {
      ReadsPrinted(fields);
    } else if Read(Print(fields)) == Some(fields) {
      ReadGivesShortValues(Print(fields));
    }
  }

  // ------------------------------------------------------------------
  // Account numbers
  // ------------------------------------------------------------------

  /** `strings.ReplaceAll(s, c, "")` */
  function Without(s: string, c: char): (r: string)
    ensures c !in r
    ensures forall d :: d !in s ==> d !in r
    ensures c !in s ==> r == s
  {
    if s == "" then "" else (if s[0] == c then "" else [s[0]]) + Without(s[1..], c)
  }

  /** The characters that are not dropped stay, in their order. */
  lemma {:induction false} WithoutOneMore(s: string, d: char, c: char)
    ensures Without(s + [d], c) == Without(s, c) + if d == c then [] else [d]
  {
    if s != "" {
      assert (s + [d])[1..] == s[1..] + [d];
      WithoutOneMore(s[1..], d, c);
    }
  }

  function ZeroPad(s: string): (r: string)
    ensures |r| >= 13 && (|s| >= 13 ==> r == s)
    ensures |s| < 13 ==> |r| == 13
    ensures forall d :: d in r ==> d in s || d == '0'
    decreases 13 - |s|
  {
    if |s| < 13 then ZeroPad("0" + s) else s
  }

  function Zeros(n: nat): string {
    seq(n, _ => '0')
  }

  lemma {:induction false} ZeroPadIs(s: string)
    ensures ZeroPad(s) == Zeros(if |s| < 13 then 13 - |s| else 0) + s
    decreases 13 - |s|
  {
    if |s| < 13 {
      ZeroPadIs("0" + s);
      assert Zeros(12 - |s|) + "0" == Zeros(13 - |s|);
      assert Zeros(12 - |s|) + ("0" + s) == Zeros(12 - |s|) + "0" + s;
    } else {
      assert Zeros(0) + s == s;
    }
  }

  /** A local number of at most ten characters gets the international prefix. */
  function Internationalise(s: string): string {
    if |s| <= 10 && "0" <= s then "0066" + s[1..] else s
  }

  /** The normalised payee: separators dropped, local numbers made international, 13 characters at least. */
  function PayeeId(account: string): string {
    ZeroPad(Internationalise(Without(Without(account, '-'), ' ')))
  }

  /** The characters but dashes and spaces; a local number abroad; zeros in front up to 13 characters. */
  method FormatAccount(account: string) returns (r: string)
    ensures r == PayeeId(account)
    ensures var bare := Without(Without(account, '-'), ' ');
            var full := if |bare| <= 10 && bare != "" && bare[0] == '0' then "0066" + bare[1..] else bare;
            r == Zeros(if |full| < 13 then 13 - |full| else 0) + full
  {
    ZeroPadIs(Internationalise(Without(Without(account, '-'), ' ')));
    r := Without(account, '-');
    r := Without(r, ' ');
    if |r| <= 10 && "0" <= r {
      r := "0066" + r[1..];
    }
    while |r| < 13
      invariant ZeroPad(r) == PayeeId(account)
    {
      r := "0" + r;
    }
  }

  /** The normalised payee has no separators, is long enough, and normalising it again changes nothing. */
  lemma PayeeIdIsNormal(account: string)
    ensures |PayeeId(account)| >= 13
    ensures '-' !in PayeeId(account) && ' ' !in PayeeId(account)
    ensures PayeeId(PayeeId(account)) == PayeeId(account)
  {
    var bare := Without(Without(account, '-'), ' ');
    assert '-' !in bare && ' ' !in bare;
    assert forall d :: d in Internationalise(bare) ==> d in bare || d == '0' || d == '6';
    var r := PayeeId(account);
    assert '-' !in r && ' ' !in r;
    assert Without(Without(r, '-'), ' ') == r;
  }

  // ------------------------------------------------------------------
  // Amounts
  // ------------------------------------------------------------------

  /** `amount.StringFixed(2)` of an amount in satang. */
  function AmountText(satang: int): string {
    if satang < 0 then "-" + FixedText(-satang) else FixedText(satang)
  }

  function FixedText(satang: nat): string {
    Digits(satang / 100) + "." + Pad2(satang % 100)
  }

  /** Reads digits, a point and two digits. */
  function FixedValue(s: string): nat
    requires |s| >= 3 && AllDigits(s[..|s| - 3]) && AllDigits(s[|s| - 2..])
  {
    100 * Value(s[..|s| - 3]) + Value(s[|s| - 2..])
  }

  lemma FixedTextValue(satang: nat)
    ensures var s := FixedText(satang);
            && |s| >= 4 && IsDigit(s[0]) && s[|s| - 3] == '.' && (|s| > 4 ==> s[0] != '0')
            && AllDigits(s[..|s| - 3]) && AllDigits(s[|s| - 2..])
            && FixedValue(s) == satang
  {
    var s := FixedText(satang);
    Pad2Value(satang % 100);
    DigitsValue(satang / 100);
    NoLeadingZero(satang / 100);
    assert s[..|s| - 3] == Digits(satang / 100);
    assert s[|s| - 2..] == Pad2(satang % 100);
    assert s[0] == Digits(satang / 100)[0];
    assert s[|s| - 3] == '.';
  }

  /** A sign if negative, digits without a leading zero, a point and two digits, which read as the amount. */
  lemma AmountTextIs(satang: int) returns (text: string)
    ensures AmountText(satang) == (if satang < 0 then "-" + text else text)
    ensures |text| >= 4 && AllDigits(text[..|text| - 3]) && AllDigits(text[|text| - 2..]) && text[|text| - 3] == '.'
    ensures |text| > 4 ==> text[0] != '0'
    ensures 100 * Value(text[..|text| - 3]) + Value(text[|text| - 2..]) == (if satang < 0 then -satang else satang)
  {
    text := FixedText(if satang < 0 then -satang else satang);
    FixedTextValue(if satang < 0 then -satang else satang);
  }

  /** Different amounts print differently. */
  lemma AmountTextInjective(x: int, y: int)
    requires AmountText(x) == AmountText(y)
    ensures x == y
  {
    var p, q := if x < 0 then -x else x, if y < 0 then -y else y;
    FixedTextValue(p);
    FixedTextValue(q);
    assert x < 0 ==> AmountText(x)[0] == '-' && AmountText(x)[1..] == FixedText(p);
    assert y < 0 ==> AmountText(y)[0] == '-' && AmountText(y)[1..] == FixedText(q);
  }

  // ------------------------------------------------------------------
  // Bytes and hexadecimal
  // ------------------------------------------------------------------

  /** The low `width` binary digits of `n`, highest first. */
  function Binary(n: nat, width: nat): (b: Crc16.Bits)
    ensures |b| == width
  {
    if width == 0 then [] else Binary(n / 2, width - 1) + [n % 2 == 1]
  }

  function Number(b: Crc16.Bits): (n: nat) {
    if b == [] then 0 else 2 * Number(b[..|b| - 1]) + (if b[|b| - 1] then 1 else 0)
  }

  lemma {:induction false} BinaryOfNumber(b: Crc16.Bits)
    ensures Binary(Number(b), |b|) == b
  {
    if b != [] {
      BinaryOfNumber(b[..|b| - 1]);
    }
  }

  lemma NibbleNumber(b: Crc16.Bits)
    requires |b| == 4
    ensures Number(b) < 16
  {
    var b3 := b[..3];
    var b2 := b3[..2];
    var b1 := b2[..1];
    assert b1[..0] == [];
    assert Number(b1) <= 1;
    assert Number(b2) <= 3;
    assert Number(b3) <= 7;
  }

  function ToByte(c: char): Crc16.Byte {
    Binary(c as nat, 8)
  }

  function ToBytes(s: string): (b: seq<Crc16.Byte>)
    ensures |b| == |s|
  {
    seq(|s|, i requires 0 <= i < |s| => ToByte(s[i]))
  }

  function HexDigit(n: nat): char
    requires n < 16
  {
    if n < 10 then '0' + n as char else 'A' + (n - 10) as char
  }

  function HexNibble(w: Crc16.Bits): char
    requires |w| == 4
  {
    NibbleNumber(w);
    HexDigit(Number(w))
  }

  /** `%04X` of a 16-bit word. */
  function Hex4(w: Crc16.Word): (s: string)
    ensures |s| == 4
  {
    [HexNibble(w[..4]), HexNibble(w[4..8]), HexNibble(w[8..12]), HexNibble(w[12..])]
  }

  /** Reads one upper-case hexadecimal digit. */
  function HexDigitValue(c: char): Option<nat> {
    if '0' <= c <= '9' then Some((c - '0') as nat)
    else if 'A' <= c <= 'F' then Some(10 + (c - 'A') as nat)
    else None
  }

  predicate IsHex(s: string) {
    forall i :: 0 <= i < |s| ==> HexDigitValue(s[i]).Some?
  }

  /** Reads upper-case hexadecimal digits, highest first. */
  function HexValue(s: string): nat
    requires IsHex(s)
  {
    if s == "" then 0 else 16 * HexValue(s[..|s| - 1]) + HexDigitValue(s[|s| - 1]).value
  }

  lemma HexNibbleValue(b: Crc16.Bits)
    requires |b| == 4
    ensures HexDigitValue(HexNibble(b)) == Some(Number(b))
  {
    NibbleNumber(b);
  }

  lemma FourMoreBits(x: Crc16.Bits, y: Crc16.Bits)
    requires |y| == 4
    ensures Number(x + y) == 16 * Number(x) + Number(y)
  {
    NumberAppend(x, y[..1]);
    NumberAppend(x, y[..2]);
    NumberAppend(x, y[..3]);
    NumberAppend(x, y);
    assert y[..1][..0] == [] && x + y[..0] == x;
  }

  lemma NumberAppend(x: Crc16.Bits, y: Crc16.Bits)
    requires y != []
    ensures Number(x + y) == 2 * Number(x + y[..|y| - 1]) + (if y[|y| - 1] then 1 else 0)
    ensures Number(y) == 2 * Number(y[..|y| - 1]) + (if y[|y| - 1] then 1 else 0)
    ensures forall k :: 0 <= k < |y| ==> y[..|y| - 1][..k] == y[..k]
  {
    assert (x + y)[..|x + y| - 1] == x + y[..|y| - 1];
  }

  lemma TwoNibbles(x: Crc16.Bits, hi: Crc16.Bits, lo: Crc16.Bits)
    requires |hi| == 4 == |lo|
    ensures Number(x + (hi + lo)) == 256 * Number(x) + Number(hi + lo)
  {
    FourMoreBits(x, hi);
    FourMoreBits(x + hi, lo);
    FourMoreBits(hi, lo);
    assert (x + hi) + lo == x + (hi + lo);
  }

  lemma EightMoreBits(x: Crc16.Bits, y: Crc16.Bits)
    requires |y| == 8
    ensures Number(x + y) == 256 * Number(x) + Number(y)
  {
    TwoNibbles(x, y[..4], y[4..]);
    assert y[..4] + y[4..] == y;
  }

  lemma WordNumber(w: Crc16.Word)
    ensures Number(w) == 4096 * Number(w[..4]) + 256 * Number(w[4..8]) + 16 * Number(w[8..12]) + Number(w[12..])
  {
    EightMoreBits(w[..8], w[8..]);
    FourMoreBits(w[..4], w[4..8]);
    FourMoreBits(w[8..12], w[12..]);
    assert w[..8] + w[8..] == w && w[..4] + w[4..8] == w[..8] && w[8..12] + w[12..] == w[8..];
  }

  /** The printed checksum, read as a hexadecimal number, is the number the word stands for. */
  lemma Hex4Value(w: Crc16.Word)
    ensures IsHex(Hex4(w)) && HexValue(Hex4(w)) == Number(w)
  {
    HexNibbleValue(w[..4]);
    HexNibbleValue(w[4..8]);
    HexNibbleValue(w[8..12]);
    HexNibbleValue(w[12..]);
    WordNumber(w);
    HexFour(Hex4(w));
  }

  lemma HexFour(s: string)
    requires |s| == 4 && IsHex(s)
    ensures HexValue(s) == 4096 * HexDigitValue(s[0]).value + 256 * HexDigitValue(s[1]).value
                           + 16 * HexDigitValue(s[2]).value + HexDigitValue(s[3]).value
  {
    assert s[..3][..2] == s[..2] && s[..2][..1] == s[..1] && s[..1][..0] == "";
    assert HexValue(s[..1]) == HexDigitValue(s[0]).value;
    assert HexValue(s[..2]) == 16 * HexValue(s[..1]) + HexDigitValue(s[1]).value;
    assert HexValue(s[..3]) == 16 * HexValue(s[..2]) + HexDigitValue(s[2]).value;
  }

  lemma HexDigitOf(c: char, d: char)
    requires HexDigitValue(c).Some? && HexDigitValue(d).Some?
    ensures HexDigitValue(c).value < 16
    ensures HexDigitValue(c).value == HexDigitValue(d).value ==> c == d
  {}

  lemma FourDigits(a: nat, b: nat, c: nat, d: nat, w: nat, x: nat, y: nat, z: nat)
    requires b < 16 && c < 16 && d < 16 && x < 16 && y < 16 && z < 16
    requires 4096 * a + 256 * b + 16 * c + d == 4096 * w + 256 * x + 16 * y + z
    ensures a == w && b == x && c == y && d == z
  {}

  lemma {:induction false} NumberOfBinary(n: nat, width: nat)
    requires n < Power2(width)
    ensures Number(Binary(n, width)) == n
  {
    if width > 0 {
      NumberOfBinary(n / 2, width - 1);
      assert Binary(n, width)[..width - 1] == Binary(n / 2, width - 1);
    }
  }

  function Power2(k: nat): nat {
    if k == 0 then 1 else 2 * Power2(k - 1)
  }

  /** A byte's bits are the character's code, highest first. */
  lemma ByteNumber(c: char)
    requires c as nat < 256
    ensures Number(ToByte(c)) == c as nat
  {
    assert Power2(8) == 256 by {
      assert Power2(4) == 16;
    }
    NumberOfBinary(c as nat, 8);
  }

  /** Texts of four hexadecimal digits with the same value are the same. */
  lemma HexInjective(s: string, t: string)
    requires |s| == 4 == |t| && IsHex(s) && IsHex(t) && HexValue(s) == HexValue(t)
    ensures s == t
  {
    HexFour(s);
    HexFour(t);
    HexDigitOf(s[0], t[0]);
    HexDigitOf(s[1], t[1]);
    HexDigitOf(t[1], s[1]);
    HexDigitOf(s[2], t[2]);
    HexDigitOf(t[2], s[2]);
    HexDigitOf(s[3], t[3]);
    HexDigitOf(t[3], s[3]);
    FourDigits(HexDigitValue(s[0]).value, HexDigitValue(s[1]).value, HexDigitValue(s[2]).value,
               HexDigitValue(s[3]).value, HexDigitValue(t[0]).value, HexDigitValue(t[1]).value,
               HexDigitValue(t[2]).value, HexDigitValue(t[3]).value);
  }

  /** Two hexadecimal digits as a byte. */
  function HexByte(s: string): Crc16.Byte
    requires |s| == 2 && IsHex(s)
  {
    Binary(HexValue(s), 8)
  }

  lemma HexByteNumber(s: string)
    requires |s| == 2 && IsHex(s)
    ensures Number(HexByte(s)) == HexValue(s) == 16 * HexDigitValue(s[0]).value + HexDigitValue(s[1]).value
  {
    assert s[..1][..0] == "";
    assert HexValue(s[..1]) == HexDigitValue(s[0]).value;
    HexDigitOf(s[0], s[0]);
    HexDigitOf(s[1], s[1]);
    assert Power2(8) == 256 by {
      assert Power2(4) == 16;
    }
    NumberOfBinary(HexValue(s), 8);
  }

  /** Four hexadecimal digits, read as two bytes, are printed as they were. */
  lemma Hex4OfBytes(hex: string)
    requires |hex| == 4 && IsHex(hex)
    ensures Hex4(HexByte(hex[..2]) + HexByte(hex[2..])) == hex
  {
    var w: Crc16.Word := HexByte(hex[..2]) + HexByte(hex[2..]);
    HexByteNumber(hex[..2]);
    HexByteNumber(hex[2..]);
    EightMoreBits(HexByte(hex[..2]), HexByte(hex[2..]));
    HexFour(hex);
    Hex4Value(w);
    HexInjective(Hex4(w), hex);
  }

  /** The printed checksum determines the word. */
  lemma Hex4Injective(x: Crc16.Word, y: Crc16.Word)
    requires Hex4(x) == Hex4(y)
    ensures x == y
  {
    Hex4Value(x);
    Hex4Value(y);
    BinaryOfNumber(x);
    BinaryOfNumber(y);
  }

  // ------------------------------------------------------------------
  // The payload
  // ------------------------------------------------------------------

  function MerchantFields(account: string): seq<Field> {
    [Field("00", PROMPT_PAY_AID), Field("01", PayeeId(account))]
  }

  /** The fields before the checksum, given the merchant information and the amount as text. */
  function FieldsBefore(merchant: string, amount: string): seq<Field> {
    [Field("00", "01"),
     Field("01", "12"),
     Field("29", merchant),
     Field("53", "764"),
     Field("54", amount),
     Field("58", "TH")]
  }

  function BodyFields(account: string, satang: int): seq<Field> {
    FieldsBefore(Print(MerchantFields(account)), AmountText(satang))
  }

  /** Everything the checksum covers: the fields and the header of tag 63. */
  function Covered(account: string, satang: int): string {
    Print(BodyFields(account, satang)) + "6304"
  }

  function ChecksumText(covered: string): (s: string)
    ensures |s| == 4
  {
    Hex4(Crc16.Checksum(ToBytes(covered)))
  }

  function Payload(account: string, satang: int): string {
    Covered(account, satang) + ChecksumText(Covered(account, satang))
  }

  lemma BodyText(merchant: string, amount: string)
    ensures Print(FieldsBefore(merchant, amount)) ==
            "" + Tlv("00", "01") + Tlv("01", "12") + Tlv("29", merchant)
            + Tlv("53", "764") + Tlv("54", amount) + Tlv("58", "TH")
  {
    var a, b, c := Tlv("00", "01"), Tlv("01", "12"), Tlv("29", merchant);
    var d, e, f := Tlv("53", "764"), Tlv("54", amount), Tlv("58", "TH");
    assert Elements(FieldsBefore(merchant, amount)) == [a, b, c, d, e, f];
    ConcatSix(a, b, c, d, e, f);
  }

  lemma MerchantText(account: string)
    ensures Print(MerchantFields(account)) == Tlv("00", PROMPT_PAY_AID) + Tlv("01", PayeeId(account))
  {
    var a, b := Tlv("00", PROMPT_PAY_AID), Tlv("01", PayeeId(account));
    assert Elements(MerchantFields(account)) == [] + [a] + [b];
    ConcatOne([], a);
    ConcatOne([] + [a], b);
  }

  lemma LengthText()
    ensures Pad2(2) == "02" && Pad2(3) == "03" && Pad2(16) == "16"
  {
    assert Digits(2) == "2" && Digits(3) == "3" && Digits(1) == "1" && Digits(6) == "6";
    assert Digits(16) == Digits(1) + ['6'];
  }

  lemma ConstantElements()
    ensures Tlv("00", "01") == "000201" && Tlv("01", "12") == "010212"
    ensures Tlv("53", "764") == "5303764" && Tlv("58", "TH") == "5802TH"
    ensures Tlv("00", PROMPT_PAY_AID) == "0016A000000677010111"
  {
    LengthText();
  }

  lemma BodyIs(merchant: string, amount: string)
    ensures Print(FieldsBefore(merchant, amount))
         == "000201" + "010212" + ("29" + Pad2(|merchant|) + merchant)
            + "5303764" + ("54" + Pad2(|amount|) + amount) + "5802TH"
  {
    BodyText(merchant, amount);
    ConstantElements();
    assert "" + "000201" == "000201";
  }

  lemma MerchantIs(account: string)
    ensures Print(MerchantFields(account))
         == "0016A000000677010111" + ("01" + Pad2(|PayeeId(account)|) + PayeeId(account))
  {
    MerchantText(account);
    ConstantElements();
  }

  /** The text the checksum covers, element by element. */
  lemma CoveredText(account: string, satang: int, payee: string, amount: string, merchant: string)
    requires payee == PayeeId(account) && amount == AmountText(satang)
    requires merchant == "0016A000000677010111" + ("01" + Pad2(|payee|) + payee)
    ensures Covered(account, satang)
         == "000201" + "010212" + ("29" + Pad2(|merchant|) + merchant)
            + "5303764" + ("54" + Pad2(|amount|) + amount) + "5802TH" + "6304"
  {
    MerchantIs(account);
    BodyIs(merchant, amount);
  }

  /** Builds the payload text; rendering it as an image is not part of this model. */
  method GeneratePromptPayQR(accountNumber: string, satang: int) returns (qrPayload: string)
    ensures qrPayload == Payload(accountNumber, satang)
    ensures var payee, amount := PayeeId(accountNumber), AmountText(satang);
            var merchant := "0016A000000677010111" + ("01" + Pad2(|payee|) + payee);
            var covered := "000201" + "010212" + ("29" + Pad2(|merchant|) + merchant)
                           + "5303764" + ("54" + Pad2(|amount|) + amount) + "5802TH" + "6304";
            qrPayload == covered + ChecksumText(covered)
  {
    ghost var id, text := PayeeId(accountNumber), AmountText(satang);
    CoveredText(accountNumber, satang, id, text, "0016A000000677010111" + ("01" + Pad2(|id|) + id));
    var payee := FormatAccount(accountNumber);
    var merchantAccountInfo := Tlv("00", PROMPT_PAY_AID) + Tlv("01", payee);
    MerchantText(accountNumber);

    var amountText := AmountText(satang);
    var payload := "";
    payload := payload + Tlv("00", "01");
    payload := payload + Tlv("01", "12");
    payload := payload + Tlv("29", merchantAccountInfo);
    payload := payload + Tlv("53", "764");
    payload := payload + Tlv("54", amountText);
    payload := payload + Tlv("58", "TH");
    BodyText(merchantAccountInfo, amountText);
    qrPayload := AppendChecksum(payload);
  }

  /** The placeholder header, the checksum over everything so far, and its text. */
  method AppendChecksum(body: string) returns (qrPayload: string)
    ensures qrPayload == body + "6304" + ChecksumText(body + "6304")
  {
    var payload := body + "6304";
    var crc := Crc16.Crc16CcittFalse(ToBytes(payload));
    qrPayload := payload[..|payload| - 4] + ("6304" + Hex4(crc));
    ReplacePlaceholder(body, Hex4(crc));
  }

  lemma ReplacePlaceholder(body: string, hex: string)
    ensures var payload := body + "6304";
            payload[..|payload| - 4] + ("6304" + hex) == payload + hex
  {}

  lemma ChecksumElement(crc: string)
    requires |crc| == 4
    ensures Tlv("63", crc) == "6304" + crc
  {
    assert Pad2(|crc|) == "04" by {
      assert Digits(4) == "4";
    }
  }

  lemma PrintChecksum(body: seq<Field>, crc: string)
    requires |crc| == 4
    ensures Print(body + [Field("63", crc)]) == Print(body) + "6304" + crc
  {
    assert Elements(body + [Field("63", crc)]) == Elements(body) + [Tlv("63", crc)];
    ConcatOne(Elements(body), Tlv("63", crc));
    ChecksumElement(crc);
    assert Print(body) + ("6304" + crc) == Print(body) + "6304" + crc;
  }

  /** The payload is a field list itself: the body fields and tag 63 holding the checksum. */
  lemma PayloadIsFields(account: string, satang: int)
    ensures Payload(account, satang) == Print(PayloadFields(account, satang))
  {
    var body := BodyFields(account, satang);
    var crc := ChecksumText(Covered(account, satang));
    PrintChecksum(body, crc);
  }

  lemma MerchantLength(account: string)
    ensures |Print(MerchantFields(account))| <= 99 <==> |PayeeId(account)| <= 75
    ensures |Print(MerchantFields(account))| <= 99 ==>
              Read(Print(MerchantFields(account))) == Some(MerchantFields(account))
  {
    var m := MerchantFields(account);
    MerchantText(account);
    Pad2Value(|PROMPT_PAY_AID|);
    Pad2Value(|PayeeId(account)|);
    assert |Tlv("00", PROMPT_PAY_AID)| == 20;
    if |Print(m)| <= 99 {
      ReadsPrinted(m);
    }
  }

  /** All top-level fields of the payload. */
  function PayloadFields(account: string, satang: int): seq<Field> {
    BodyFields(account, satang) + [Field("63", ChecksumText(Covered(account, satang)))]
  }

  lemma FieldsShort(merchant: string, amount: string, crc: string)
    requires |crc| == 4
    ensures var f := FieldsBefore(merchant, amount) + [Field("63", crc)];
            && TwoCharTags(f) && (ShortValues(f) <==> |merchant| <= 99 && |amount| <= 99)
            && |f| == 7 && f[2].value == merchant && f[6] == Field("63", crc)
  {
    var f := FieldsBefore(merchant, amount) + [Field("63", crc)];
    assert f[2].value == merchant && f[4].value == amount;
  }

  lemma CoveredIsPrefix(account: string, satang: int)
    ensures var p := Payload(account, satang); |p| >= 4 && p[..|p| - 4] == Covered(account, satang)
  {}

  lemma PayloadFieldsShort(account: string, satang: int)
    ensures var f := PayloadFields(account, satang);
            && TwoCharTags(f) && (ShortValues(f) <==> |PayeeId(account)| <= 75 && |AmountText(satang)| <= 99)
            && |f| == 7 && f[2].value == Print(MerchantFields(account))
            && f[6] == Field("63", ChecksumText(Covered(account, satang)))
  {
    FieldsShort(Print(MerchantFields(account)), AmountText(satang), ChecksumText(Covered(account, satang)));
    MerchantLength(account);
  }

  /**
   Main result on the payload: a scanner recovers every printed field, the payee inside tag 29
   and the checksum of everything before it, exactly when the normalised payee has at most 75
   characters and the amount text at most 99.
   */
  lemma PayloadRoundTrip(account: string, satang: int)
    ensures Read(Payload(account, satang)) == Some(PayloadFields(account, satang)) <==>
            |PayeeId(account)| <= 75 && |AmountText(satang)| <= 99
    ensures |PayeeId(account)| <= 75 ==>
              Read(PayloadFields(account, satang)[2].value) == Some(MerchantFields(account))
    ensures var p := Payload(account, satang);
            PayloadFields(account, satang)[6] == Field("63", ChecksumText(p[..|p| - 4]))
  {
    PayloadIsFields(account, satang);
    PayloadFieldsShort(account, satang);
    RoundTrip(PayloadFields(account, satang));
    MerchantLength(account);
    CoveredIsPrefix(account, satang);
  }

  lemma FieldsDetermine(m: string, x: string, c: Field, n: string, y: string, d: Field)
    requires FieldsBefore(m, x) + [c] == FieldsBefore(n, y) + [d]
    ensures m == n && x == y
  {
    var f, g := FieldsBefore(m, x) + [c], FieldsBefore(n, y) + [d];
    assert f[2] == g[2] && f[4] == g[4];
  }

  lemma MerchantDetermines(a: string, b: string)
    requires |PayeeId(a)| <= 75 && |PayeeId(b)| <= 75
    requires Print(MerchantFields(a)) == Print(MerchantFields(b))
    ensures PayeeId(a) == PayeeId(b)
  {
    MerchantLength(a);
    MerchantLength(b);
    assert MerchantFields(a)[1] == MerchantFields(b)[1];
  }

  /** Within those limits the payload determines the payee and the amount. */
  lemma PayloadInjective(a: string, x: int, b: string, y: int)
    requires |PayeeId(a)| <= 75 && |PayeeId(b)| <= 75
    requires |AmountText(x)| <= 99 && |AmountText(y)| <= 99
    requires Payload(a, x) == Payload(b, y)
    ensures PayeeId(a) == PayeeId(b) && x == y
  {
    PayloadRoundTrip(a, x);
    PayloadRoundTrip(b, y);
    FieldsDetermine(
      Print(MerchantFields(a)), AmountText(x), Field("63", ChecksumText(Covered(a, x))),
      Print(MerchantFields(b)), AmountText(y), Field("63", ChecksumText(Covered(b, y))));
    MerchantDetermines(a, b);
    AmountTextInjective(x, y);
  }

  /**
   Replacing two neighbouring characters of the covered text (or one of them) is always noticed:
   the checksum printed in the payload no longer belongs to the text.
   */
  lemma TamperingDetected(covered: string, tampered: string, k: nat)
    requires |tampered| == |covered| && k + 2 <= |covered|
    requires tampered[..k] == covered[..k] && tampered[k + 2..] == covered[k + 2..]
    requires ToBytes(tampered) != ToBytes(covered)
    ensures ChecksumText(tampered) != ChecksumText(covered)
  {
    var x, y := ToBytes(covered), ToBytes(tampered);
    var p, q := Crc16.MessageBits(x), Crc16.MessageBits(y);
    forall i | 0 <= i < |p| && !(8 * k <= i < 8 * k + 16)
      ensures p[i] == q[i]
    {
      Crc16.MessageBitsAt(x, i);
      Crc16.MessageBitsAt(y, i);
      if i < 8 * k {
        assert covered[i / 8] == covered[..k][i / 8];
        assert tampered[i / 8] == tampered[..k][i / 8];
      } else {
        assert covered[i / 8] == covered[k + 2..][i / 8 - k - 2];
        assert tampered[i / 8] == tampered[k + 2..][i / 8 - k - 2];
      }
    }
    Crc16.BurstDetected(x, y, 8 * k, 16);
    if ChecksumText(tampered) == ChecksumText(covered) {
      Hex4Injective(Crc16.Checksum(y), Crc16.Checksum(x));
    }
  }

  /** What a receiver computes: the register over the text and the two bytes its last four characters spell. */
  function Residue(covered: string, hex: string): Crc16.Word
    requires |hex| == 4 && IsHex(hex)
  {
    Crc16.Checksum(ToBytes(covered) + [HexByte(hex[..2]), HexByte(hex[2..])])
  }

  /** A receiver ends at zero exactly when the four characters are the checksum of the text. */
  lemma ReceiverAcceptsIff(covered: string, hex: string)
    requires |hex| == 4 && IsHex(hex)
    ensures Residue(covered, hex) == Crc16.Zeros(16) <==> hex == ChecksumText(covered)
  {
    var w: Crc16.Word := HexByte(hex[..2]) + HexByte(hex[2..]);
    assert Crc16.Trailer(w) == [HexByte(hex[..2]), HexByte(hex[2..])];
    Crc16.ResidueIsZeroIff(ToBytes(covered), w);
    Hex4OfBytes(hex);
    if hex == ChecksumText(covered) {
      Hex4Injective(w, Crc16.Checksum(ToBytes(covered)));
    }
  }

  /** Every payload is accepted. */
  lemma PayloadIsAccepted(account: string, satang: int)
    ensures var p := Payload(account, satang);
            && |p| >= 4 && IsHex(p[|p| - 4..])
            && Residue(p[..|p| - 4], p[|p| - 4..]) == Crc16.Zeros(16)
  {
    var p, covered := Payload(account, satang), Covered(account, satang);
    assert p[..|p| - 4] == covered && p[|p| - 4..] == ChecksumText(covered);
    Hex4Value(Crc16.Checksum(ToBytes(covered)));
    ReceiverAcceptsIff(covered, ChecksumText(covered));
  }
}
