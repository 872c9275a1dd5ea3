/**
 The checksum of the PromptPay payload: CRC-16/CCITT-FALSE, generator
 x^16 + x^12 + x^5 + 1, register preloaded with ones, most significant bit first.

 A `uint16` is modelled by its 16 bits and a byte by its 8 bits, highest first, which are
 also the coefficients of a polynomial over GF(2), highest power first.
 */
module Crc16 {

  type Bits = seq<bool>
  type Word = w: Bits | |w| == 16
    witness [false, false, false, false, false, false, false, false,
             false, false, false, false, false, false, false, false]
  type Byte = b: Bits | |b| == 8
    witness [false, false, false, false, false, false, false, false]

  function Zeros(n: nat): (z: Bits)
    ensures |z| == n && forall i :: 0 <= i < n ==> !z[i]
  {
    seq(n, _ => false)
  }

  /** Bitwise exclusive or, which is addition of polynomials. */
  function Xor(x: Bits, y: Bits): (z: Bits)
    requires |x| == |y|
    ensures |z| == |x| && forall i :: 0 <= i < |x| ==> z[i] == (x[i] != y[i])
  {
    seq(|x|, i requires 0 <= i < |x| => x[i] != y[i])
  }

  /** 0xFFFF */
  const PRELOAD: Word :=
    [true, true, true, true, true, true, true, true, true, true, true, true, true, true, true, true]

  /** 0x1021 */
  const POLYNOMIAL: Word :=
    [false, false, false, true, false, false, false, false, false, false, true, false, false, false, false, true]

  // ------------------------------------------------------------------
  // The register
  // ------------------------------------------------------------------

  function ShiftLeft(w: Word): Word {
    w[1..] + [false]
  }

  /** A byte in the high half of a word. */
  function High(b: Byte): Word {
    b + Zeros(8)
  }

  function BitStep(crc: Word): Word {
    if crc[0] then Xor(ShiftLeft(crc), POLYNOMIAL) else ShiftLeft(crc)
  }

  function Steps(crc: Word, n: nat): Word
    decreases n
  {
    if n == 0 then crc else Steps(BitStep(crc), n - 1)
  }

  function ByteStep(crc: Word, b: Byte): Word {
    Steps(Xor(crc, High(b)), 8)
  }

  /** The register after `data`, starting from `crc`. */
  function Update(crc: Word, data: seq<Byte>): Word
    decreases |data|
  {
    if data == [] then crc else Update(ByteStep(crc, data[0]), data[1..])
  }

  function Checksum(data: seq<Byte>): Word {
    Update(PRELOAD, data)
  }

  lemma {:induction false} UpdateAppend(crc: Word, x: seq<Byte>, y: seq<Byte>)
    ensures Update(crc, x + y) == Update(Update(crc, x), y)
    decreases |x|
  {
    if x == [] {
      assert x + y == y;
    } else {
      assert (x + y)[1..] == x[1..] + y;
      UpdateAppend(ByteStep(crc, x[0]), x[1..], y);
    }
  }

  lemma {:induction false} StepsAppend(crc: Word, m: nat)
    ensures Steps(crc, m + 1) == BitStep(Steps(crc, m))
    decreases m
  {
    if m > 0 {
      StepsAppend(BitStep(crc), m - 1);
    }
  }

  /** The service's loop: each byte into the high half, then eight shifts. */
  method Crc16CcittFalse(data: seq<Byte>) returns (crc: Word)
    ensures crc == Checksum(data)
  {
    crc := PRELOAD;
    for k := 0 to |data|
      invariant crc == Update(PRELOAD, data[..k])
    {
      ghost var before := crc;
      crc := Xor(crc, High(data[k]));
      ghost var start := crc;
      for i := 0 to 8
        invariant crc == Steps(start, i)
      {
        StepsAppend(start, i);
        if crc[0] {
          crc := Xor(ShiftLeft(crc), POLYNOMIAL);
        } else {
          crc := ShiftLeft(crc);
        }
      }
      assert data[..k + 1] == data[..k] + [data[k]];
      UpdateAppend(PRELOAD, data[..k], [data[k]]);
      assert Update(before, [data[k]]) == Update(ByteStep(before, data[k]), []);
    }
    assert data[..|data|] == data;
  }

  // ------------------------------------------------------------------
  // Feeding single bits
  // ------------------------------------------------------------------

  function MessageBits(data: seq<Byte>): (w: Bits)
    ensures |w| == 8 * |data|
  {
    if data == [] then [] else data[0] + MessageBits(data[1..])
  }

  /** At most 16 bits, left-aligned in a word. */
  function Pack(bits: Bits): Word
    requires |bits| <= 16
  {
    bits + Zeros(16 - |bits|)
  }

  /** The register fed one message bit at a time. */
  function Feed(crc: Word, bits: Bits): Word
    decreases |bits|
  {
    if bits == [] then crc else Feed(BitStep(Xor(crc, Pack([bits[0]]))), bits[1..])
  }

  lemma BitStepLinear(x: Word, y: Word)
    ensures BitStep(Xor(x, y)) == Xor(BitStep(x), BitStep(y))
  {
    assert ShiftLeft(Xor(x, y)) == Xor(ShiftLeft(x), ShiftLeft(y));
  }

  lemma BitStepInjective(x: Word, y: Word)
    requires BitStep(x) == BitStep(y)
    ensures x == y
  {
    assert x[0] == BitStep(x)[15] == BitStep(y)[15] == y[0];
    forall i | 1 <= i < 16
      ensures x[i] == y[i]
    {
      assert x[i] == ShiftLeft(x)[i - 1] && y[i] == ShiftLeft(y)[i - 1];
      assert BitStep(x)[i - 1] == BitStep(y)[i - 1];
    }
  }

  lemma {:induction false} StepsZero(n: nat)
    ensures Steps(Zeros(16), n) == Zeros(16)
    decreases n
  {
    if n > 0 {
      assert BitStep(Zeros(16)) == Zeros(16);
      StepsZero(n - 1);
    }
  }

  lemma {:induction false} StepsInjective(x: Word, y: Word, n: nat)
    requires Steps(x, n) == Steps(y, n)
    ensures x == y
    decreases n
  {
    if n > 0 {
      StepsInjective(BitStep(x), BitStep(y), n - 1);
      BitStepInjective(x, y);
    }
  }

  /** Feeding at most 16 bits one by one is adding them all to the register and then shifting. */
  lemma {:induction false} FeedIsSteps(crc: Word, bits: Bits)
    requires |bits| <= 16
    ensures Feed(crc, bits) == Steps(Xor(crc, Pack(bits)), |bits|)
    decreases |bits|
  {
    if bits == [] {
      assert Xor(crc, Zeros(16)) == crc;
    } else {
      var u := Xor(crc, Pack([bits[0]]));
      var v: Word := [false] + bits[1..] + Zeros(16 - |bits|);
      assert Xor(crc, Pack(bits)) == Xor(u, v);
      BitStepLinear(u, v);
      assert BitStep(v) == Pack(bits[1..]);
      FeedIsSteps(BitStep(u), bits[1..]);
    }
  }

  lemma {:induction false} FeedAppend(crc: Word, x: Bits, y: Bits)
    ensures Feed(crc, x + y) == Feed(Feed(crc, x), y)
    decreases |x|
  {
    if x == [] {
      assert x + y == y;
    } else {
      assert (x + y)[1..] == x[1..] + y;
      FeedAppend(BitStep(Xor(crc, Pack([x[0]]))), x[1..], y);
    }
  }

  /** The byte-wise loop and the bit-wise register agree on every message. */
  lemma {:induction false} UpdateIsFeed(crc: Word, data: seq<Byte>)
    ensures Update(crc, data) == Feed(crc, MessageBits(data))
    decreases |data|
  {
    if data != [] {
      FeedIsSteps(crc, data[0]);
      assert Pack(data[0]) == High(data[0]);
      FeedAppend(crc, data[0], MessageBits(data[1..]));
      UpdateIsFeed(ByteStep(crc, data[0]), data[1..]);
    }
  }

  /** The register is linear over XOR of start values and equally long messages. */
  lemma {:induction false} FeedLinear(a: Word, b: Word, x: Bits, y: Bits)
    requires |x| == |y|
    ensures Feed(Xor(a, b), Xor(x, y)) == Xor(Feed(a, x), Feed(b, y))
    decreases |x|
  {
    if x != [] {
      var u, v := Xor(a, Pack([x[0]])), Xor(b, Pack([y[0]]));
      assert Xor(x, y)[1..] == Xor(x[1..], y[1..]);
      assert Xor(Xor(a, b), Pack([x[0] != y[0]])) == Xor(u, v);
      BitStepLinear(u, v);
      FeedLinear(BitStep(u), BitStep(v), x[1..], y[1..]);
    }
  }

  lemma {:induction false} FeedZeros(crc: Word, n: nat)
    ensures Feed(crc, Zeros(n)) == Steps(crc, n)
    decreases n
  {
    if n > 0 {
      assert Zeros(n)[1..] == Zeros(n - 1);
      assert Xor(crc, Pack([false])) == crc;
      FeedZeros(BitStep(crc), n - 1);
    }
  }

  // ------------------------------------------------------------------
  // Error detection
  // ------------------------------------------------------------------

  /** All differing bits of `x` and `y` lie in the window of `width` bits starting at `from`. */
  ghost predicate DifferOnlyWithin(x: Bits, y: Bits, from: nat, width: nat) {
    && |x| == |y|
    && from + width <= |x|
    && forall i :: 0 <= i < |x| && !(from <= i < from + width) ==> x[i] == y[i]
  }

  /** From a zero register, a burst surrounded by zeros ends where the burst alone would. */
  lemma FeedBurst(from: nat, burst: Bits, tail: nat)
    requires |burst| <= 16
    ensures Feed(Zeros(16), Zeros(from) + (burst + Zeros(tail))) == Steps(Steps(Pack(burst), |burst|), tail)
  {
    FeedAppend(Zeros(16), Zeros(from), burst + Zeros(tail));
    FeedZeros(Zeros(16), from);
    StepsZero(from);
    FeedAppend(Zeros(16), burst, Zeros(tail));
    FeedIsSteps(Zeros(16), burst);
    assert Xor(Zeros(16), Pack(burst)) == Pack(burst);
    FeedZeros(Steps(Pack(burst), |burst|), tail);
  }

  lemma StepsNonzero(w: Word, n: nat)
    requires w != Zeros(16)
    ensures Steps(w, n) != Zeros(16)
  {
    StepsZero(n);
    if Steps(w, n) == Zeros(16) {
      StepsInjective(w, Zeros(16), n);
    }
  }

  /** The difference is a nonzero burst with zeros around it. */
  lemma DifferenceIsBurst(x: Bits, y: Bits, from: nat, width: nat)
    requires width <= 16 && DifferOnlyWithin(x, y, from, width) && x != y
    ensures var burst := Xor(x, y)[from..from + width];
            && Xor(x, y) == Zeros(from) + (burst + Zeros(|x| - from - width))
            && Pack(burst) != Zeros(16)
  {
    var d := Xor(x, y);
    var i :| 0 <= i < |x| && x[i] != y[i];
    assert d[i] && Pack(d[from..from + width])[i - from] == d[i];
  }

  lemma BurstIsFelt(from: nat, burst: Bits, tail: nat)
    requires |burst| <= 16 && Pack(burst) != Zeros(16)
    ensures Feed(Zeros(16), Zeros(from) + (burst + Zeros(tail))) != Zeros(16)
  {
    FeedBurst(from, burst, tail);
    StepsNonzero(Pack(burst), |burst|);
    StepsNonzero(Steps(Pack(burst), |burst|), tail);
  }

  lemma XorSelf(w: Word)
    ensures Xor(w, w) == Zeros(16)
  {}

  /** A nonzero difference inside 16 consecutive bits never cancels out of the register. */
  lemma BurstChangesFeed(crc: Word, x: Bits, y: Bits, from: nat, width: nat)
    requires width <= 16 && DifferOnlyWithin(x, y, from, width)
    requires x != y
    ensures Feed(crc, x) != Feed(crc, y)
  {
    DifferenceIsBurst(x, y, from, width);
    BurstIsFelt(from, Xor(x, y)[from..from + width], |x| - from - width);
    FeedLinear(crc, crc, x, y);
    XorSelf(crc);
    XorSelf(Feed(crc, x));
  }

  lemma {:induction false} MessageBitsInjective(x: seq<Byte>, y: seq<Byte>)
    requires |x| == |y| && MessageBits(x) == MessageBits(y)
    ensures x == y
    decreases |x|
  {
    if x != [] {
      assert x[0] == MessageBits(x)[..8] == MessageBits(y)[..8] == y[0];
      assert MessageBits(x[1..]) == MessageBits(x)[8..] == MessageBits(y)[8..] == MessageBits(y[1..]);
      MessageBitsInjective(x[1..], y[1..]);
    }
  }

  /**
   Main result on bursts: two equally long payloads that differ, and differ only inside a
   window of at most 16 consecutive bits, never share a checksum.
   */
  lemma BurstDetected(x: seq<Byte>, y: seq<Byte>, from: nat, width: nat)
    requires |x| == |y| && x != y
    requires width <= 16 && DifferOnlyWithin(MessageBits(x), MessageBits(y), from, width)
    ensures Checksum(x) != Checksum(y)
  {
    UpdateIsFeed(PRELOAD, x);
    UpdateIsFeed(PRELOAD, y);
    if MessageBits(x) == MessageBits(y) {
      MessageBitsInjective(x, y);
      assert false;
    }
    BurstChangesFeed(PRELOAD, MessageBits(x), MessageBits(y), from, width);
  }

  /** The sum of the coefficients, that is, the polynomial evaluated at 1. */
  function Parity(bits: Bits): bool {
    if bits == [] then false else bits[0] != Parity(bits[1..])
  }

  lemma {:induction false} ParityXor(x: Bits, y: Bits)
    requires |x| == |y|
    ensures Parity(Xor(x, y)) == (Parity(x) != Parity(y))
  {
    if x != [] {
      assert Xor(x, y)[1..] == Xor(x[1..], y[1..]);
      ParityXor(x[1..], y[1..]);
    }
  }

  lemma {:induction false} ParityAppend(x: Bits, y: Bits)
    ensures Parity(x + y) == (Parity(x) != Parity(y))
  {
    if x == [] {
      assert x + y == y;
    } else {
      assert (x + y)[1..] == x[1..] + y;
      ParityAppend(x[1..], y);
    }
  }

  lemma {:induction false} ParityZeros(n: nat)
    ensures !Parity(Zeros(n))
  {
    if n > 0 {
      assert Zeros(n)[1..] == Zeros(n - 1);
      ParityZeros(n - 1);
    }
  }

  lemma ParityOfPolynomial()
    ensures Parity(POLYNOMIAL)
  {
    var low := POLYNOMIAL[11..];
    assert POLYNOMIAL == Zeros(3) + ([true] + (Zeros(6) + ([true] + (Zeros(4) + [true]))));
    ParityZeros(3);
    ParityZeros(6);
    ParityZeros(4);
    ParityAppend(Zeros(4), [true]);
    ParityAppend([true], Zeros(4) + [true]);
    ParityAppend(Zeros(6), [true] + (Zeros(4) + [true]));
    ParityAppend([true], Zeros(6) + ([true] + (Zeros(4) + [true])));
    ParityAppend(Zeros(3), [true] + (Zeros(6) + ([true] + (Zeros(4) + [true]))));
    assert Parity([true]) by {
      assert [true][1..] == [];
    }
  }

  /** The dropped top bit and the three polynomial bits cancel: a shift keeps the parity. */
  lemma ParityBitStep(c: Word)
    ensures Parity(BitStep(c)) == Parity(c)
  {
    ParityAppend(c[1..], [false]);
    assert !Parity([false]) by {
      assert [false][1..] == [];
    }
    ParityXor(ShiftLeft(c), POLYNOMIAL);
    ParityOfPolynomial();
  }

  lemma {:induction false} ParityFeed(crc: Word, bits: Bits)
    ensures Parity(Feed(crc, bits)) == (Parity(crc) != Parity(bits))
    decreases |bits|
  {
    if bits != [] {
      var one := Pack([bits[0]]);
      assert one[1..] == Zeros(15);
      ParityZeros(15);
      ParityXor(crc, one);
      ParityBitStep(Xor(crc, one));
      ParityFeed(BitStep(Xor(crc, one)), bits[1..]);
    }
  }

  /**
   x + 1 divides the generator, so the checksum carries the parity of the payload and any odd
   number of flipped bits is detected, wherever they are.
   */
  lemma OddErrorsDetected(x: seq<Byte>, y: seq<Byte>)
    requires Parity(MessageBits(x)) != Parity(MessageBits(y))
    ensures Checksum(x) != Checksum(y)
  {
    UpdateIsFeed(PRELOAD, x);
    UpdateIsFeed(PRELOAD, y);
    ParityFeed(PRELOAD, MessageBits(x));
    ParityFeed(PRELOAD, MessageBits(y));
  }

  /** The two trailing bytes of a message carrying its checksum, high byte first. */
  function Trailer(crc: Word): seq<Byte> {
    [crc[..8], crc[8..]]
  }

  lemma TrailerBits(crc: Word)
    ensures MessageBits(Trailer(crc)) == crc
  {
    var t := Trailer(crc);
    assert t[1..] == [t[1]];
    assert t[1..][1..] == [];
  }

  lemma FeedingTrailer(crc: Word, x: Word)
    ensures Feed(crc, x) == Zeros(16) <==> x == crc
  {
    FeedIsSteps(crc, x);
    assert Pack(x) == x;
    if x == crc {
      XorSelf(crc);
      StepsZero(16);
    } else {
      var i :| 0 <= i < 16 && x[i] != crc[i];
      assert Xor(crc, x)[i];
      StepsNonzero(Xor(crc, x), 16);
    }
  }

  /**
   A receiver running the register over a message and two more bytes ends at zero exactly when they are the
   checksum, high byte first.
   */
  lemma ResidueIsZeroIff(data: seq<Byte>, x: Word)
    ensures Checksum(data + Trailer(x)) == Zeros(16) <==> x == Checksum(data)
  {
    var crc := Checksum(data);
    UpdateAppend(PRELOAD, data, Trailer(x));
    UpdateIsFeed(crc, Trailer(x));
    TrailerBits(x);
    FeedingTrailer(crc, x);
  }

  // ------------------------------------------------------------------
  // The checksum is the remainder of polynomial division
  // ------------------------------------------------------------------

  /** x^16 + x^12 + x^5 + 1 */
  const GENERATOR: Bits := [true] + POLYNOMIAL

  /** The generator times `bit`, aligned with the first of `n + 1` quotient bits. */
  function Lead(bit: bool, n: nat): (p: Bits)
    ensures |p| == n + 17
  {
    (if bit then GENERATOR else Zeros(17)) + Zeros(n)
  }

  /** The product of a polynomial and the generator, as a sum of shifted generators. */
  function TimesGenerator(q: Bits): (p: Bits)
    ensures |p| == |q| + 16
  {
    if q == [] then Zeros(16) else Xor(Lead(q[0], |q| - 1), [false] + TimesGenerator(q[1..]))
  }

  /** message * x^16 + preload * x^|message|, the dividend of the checksum. */
  function Dividend(preload: Word, message: Bits): (d: Bits)
    ensures |d| == |message| + 16
  {
    Xor(preload + Zeros(|message|), message + Zeros(16))
  }

  /** `r`, of degree below 16, is left when `dividend` is divided by the generator with quotient `q`. */
  ghost predicate Divides(dividend: Bits, q: Bits, r: Word) {
    && |dividend| == |q| + 16
    && dividend == Xor(TimesGenerator(q), Zeros(|q|) + r)
  }

  lemma DividesNothing(dividend: Bits, r: Word)
    ensures Divides(dividend, [], r) <==> dividend == r
  {
    assert Xor(Zeros(16), Zeros(0) + r) == r;
  }

  lemma XorBelow(lead: Bits, rest: Bits, low: Bits)
    requires |rest| == |low| && |lead| == |low| + 1
    ensures Xor(Xor(lead, [false] + rest), [false] + low) == Xor(lead, [false] + Xor(rest, low))
  {
    forall i | 0 <= i < |lead|
      ensures Xor(Xor(lead, [false] + rest), [false] + low)[i] == Xor(lead, [false] + Xor(rest, low))[i]
    {
      assert i > 0 ==> ([false] + rest)[i] == rest[i - 1] && ([false] + low)[i] == low[i - 1];
    }
  }

  lemma TopBit(d: Bits, lead: Bits, x: Bits)
    requires |d| == |lead| == |x| + 1
    ensures d == Xor(lead, [false] + x) <==> d[0] == lead[0] && Xor(d, lead)[1..] == x
  {
    var sum, low := Xor(lead, [false] + x), Xor(d, lead)[1..];
    assert sum[0] == lead[0] && forall i :: 0 <= i < |x| ==> sum[i + 1] == (lead[i + 1] != x[i]);
    assert forall i :: 0 <= i < |x| ==> low[i] == (d[i + 1] != lead[i + 1]);
    if d == sum {
      assert low == x;
    }
    if d[0] == lead[0] && low == x {
      assert forall i :: 1 <= i < |d| ==> low[i - 1] == (d[i] != lead[i]);
      assert d == sum;
    }
  }

  /** One step of long division: the top bit decides whether the generator is subtracted. */
  lemma DividesStep(dividend: Bits, q: Bits, r: Word)
    requires q != [] && |dividend| == |q| + 16
    ensures Divides(dividend, q, r) <==>
            dividend[0] == q[0] && Divides(Xor(dividend, Lead(q[0], |q| - 1))[1..], q[1..], r)
  {
    var lead, rest := Lead(q[0], |q| - 1), TimesGenerator(q[1..]);
    var low := Zeros(|q| - 1) + r;
    assert Zeros(|q|) + r == [false] + low;
    XorBelow(lead, rest, low);
    TopBit(dividend, lead, Xor(rest, low));
  }

  /** Subtracting the generator from the dividend is stepping the register. */
  lemma DividendStep(crc: Word, bits: Bits)
    requires bits != []
    ensures var c := Xor(crc, Pack([bits[0]]));
            && Dividend(crc, bits)[0] == c[0]
            && Xor(Dividend(crc, bits), Lead(c[0], |bits| - 1))[1..] == Dividend(BitStep(c), bits[1..])
  {
    var c := Xor(crc, Pack([bits[0]]));
    var n := |bits| - 1;
    var lead := Lead(c[0], n);
    var d, d' := Dividend(crc, bits), Dividend(BitStep(c), bits[1..]);
    var w, m := crc + Zeros(|bits|), bits + Zeros(16);
    var w', m' := BitStep(c) + Zeros(n), bits[1..] + Zeros(16);
    forall i | 0 <= i < n + 16
      ensures Xor(d, lead)[i + 1] == d'[i]
    {
      assert m[i + 1] == m'[i];
      assert (w[i + 1] != lead[i + 1]) == w'[i];
    }
  }

  /** The register computes one quotient bit per message bit. */
  lemma {:induction false} FeedDivides(crc: Word, bits: Bits) returns (q: Bits)
    ensures |q| == |bits| && Divides(Dividend(crc, bits), q, Feed(crc, bits))
    decreases |bits|
  {
    if bits == [] {
      q := [];
      assert Dividend(crc, []) == crc;
      DividesNothing(crc, crc);
    } else {
      var c := Xor(crc, Pack([bits[0]]));
      var rest := FeedDivides(BitStep(c), bits[1..]);
      q := [c[0]] + rest;
      assert q[1..] == rest;
      DividendStep(crc, bits);
      DividesStep(Dividend(crc, bits), q, Feed(crc, bits));
    }
  }

  /** Quotient and remainder by the generator are unique. */
  lemma {:induction false} DivisionUnique(dividend: Bits, q1: Bits, r1: Word, q2: Bits, r2: Word)
    requires Divides(dividend, q1, r1) && Divides(dividend, q2, r2)
    ensures q1 == q2 && r1 == r2
    decreases |q1|
  {
    if q1 == [] {
      DividesNothing(dividend, r1);
      DividesNothing(dividend, r2);
    } else {
      DividesStep(dividend, q1, r1);
      DividesStep(dividend, q2, r2);
      DivisionUnique(Xor(dividend, Lead(q1[0], |q1| - 1))[1..], q1[1..], r1, q2[1..], r2);
      assert q1 == [q1[0]] + q1[1..] && q2 == [q2[0]] + q2[1..];
    }
  }

  lemma {:induction false} MessageBitsAt(data: seq<Byte>, i: nat)
    requires i < 8 * |data|
    ensures MessageBits(data)[i] == data[i / 8][i % 8]
  {
    if i >= 8 {
      MessageBitsAt(data[1..], i - 8);
    }
  }

  lemma GeneratorIs()
    ensures forall i :: 0 <= i <= 16 ==> (GENERATOR[i] <==> 16 - i in {16, 12, 5, 0})
  {}

  lemma DividendIs(data: seq<Byte>)
    ensures forall i :: 0 <= i < 8 * |data| + 16 ==>
              (Dividend(PRELOAD, MessageBits(data))[i] <==> (i < 16) != (i < 8 * |data| && data[i / 8][i % 8]))
  {
    forall i | 0 <= i < 8 * |data|
      ensures MessageBits(data)[i] == data[i / 8][i % 8]
    {
      MessageBitsAt(data, i);
    }
  }

  lemma RemainderIff(message: Bits, r: Word)
    ensures r == Feed(PRELOAD, message) <==> exists q :: Divides(Dividend(PRELOAD, message), q, r)
  {
    var q := FeedDivides(PRELOAD, message);
    if q' :| Divides(Dividend(PRELOAD, message), q', r) {
      DivisionUnique(Dividend(PRELOAD, message), q, Feed(PRELOAD, message), q', r);
    }
  }

  /**
   Main result on the value: a word is the checksum of a message exactly when it is the
   remainder of the message polynomial, its first 16 coefficients flipped, divided by
   x^16 + x^12 + x^5 + 1.
   */
  lemma ChecksumIsRemainder(data: seq<Byte>, r: Word)
    ensures r == Checksum(data) <==> exists q :: Divides(Dividend(PRELOAD, MessageBits(data)), q, r)
    ensures forall i :: 0 <= i <= 16 ==> (GENERATOR[i] <==> 16 - i in {16, 12, 5, 0})
    ensures forall i :: 0 <= i < 8 * |data| + 16 ==>
              (Dividend(PRELOAD, MessageBits(data))[i] <==> (i < 16) != (i < 8 * |data| && data[i / 8][i % 8]))
  {
    UpdateIsFeed(PRELOAD, data);
    RemainderIff(MessageBits(data), r);
    GeneratorIs();
    DividendIs(data);
  }
}
