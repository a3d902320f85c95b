/** Decimal coefficients as two's-complement octets of least length. */
module Decimals {
  import opened Ring
  import opened Base128v
  import opened Octets

  type i32 = n: int | -0x8000_0000 <= n < 0x8000_0000

  /** A decimal: sign, 128-bit magnitude in two words, and exponent. Zero has no sign. */
  datatype Decimal = Decimal(negative: bool, hi: u64, lo: u64, exponent: i32)

  ghost predicate ValidDecimal(d: Decimal) {
    d.negative ==> d.hi != 0 || d.lo != 0
  }

  function Magnitude(hi: u64, lo: u64): nat {
    hi * TWO64 + lo
  }

  function Coefficient(d: Decimal): int {
    if d.negative then 0 - Magnitude(d.hi, d.lo) else Magnitude(d.hi, d.lo)
  }

  /** The decimal with coefficient `c`. */
  function DecimalOf(c: int, exponent: i32): Decimal
    requires -TWO64 * TWO64 < c < TWO64 * TWO64
  {
    var m := if c < 0 then -c else c;
    assert m / TWO64 < TWO64;
    Decimal(c < 0, m / TWO64, m % TWO64, exponent)
  }

  lemma CoefficientBounds(d: Decimal)
    ensures -TWO64 * TWO64 < Coefficient(d) < TWO64 * TWO64
  {
  }

  lemma DecimalOfCoefficient(d: Decimal)
    requires ValidDecimal(d)
    ensures -TWO64 * TWO64 < Coefficient(d) < TWO64 * TWO64
    ensures DecimalOf(Coefficient(d), d.exponent) == d
  {
  }

  /** `has_small_coefficient`. */
  predicate HasSmallCoefficient(d: Decimal) {
    d.hi == 0 && (d.lo < TWO63 || (d.lo == TWO63 && d.negative))
  }

  lemma SmallIsInt64(d: Decimal)
    requires ValidDecimal(d)
    ensures HasSmallCoefficient(d) <==> -TWO63 <= Coefficient(d) < TWO63
  {
  }

  // ----- Two's complement -----

  /** `c` fits `k` octets in two's complement. */
  predicate Fits(c: int, k: nat)
    requires k > 0
  {
    -128 * P256(k - 1) <= c < 128 * P256(k - 1)
  }

  lemma {:induction false} FitsMore(c: int, k: nat, k': nat)
    requires 0 < k <= k' && Fits(c, k)
    ensures Fits(c, k')
  {
    if k < k' {
      FitsMore(c, k, k' - 1);
    }
  }

  /** The octets of `c` in `k` octets of two's complement. */
  function Complement(c: int, k: nat): (bs: seq<byte>)
    requires k > 0 && Fits(c, k)
    ensures |bs| == k
  {
    assert P256(k) == 256 * P256(k - 1);
    BigEndian(if c < 0 then c + P256(k) else c, k)
  }

  /** The number `k` octets of two's complement denote. */
  function FromComplement(bs: seq<byte>): int
    requires bs != []
  {
    if bs[0] >= 128 then Number(bs) - P256(|bs|) else Number(bs)
  }

  lemma ComplementRoundTrip(c: int, k: nat)
    requires k > 0 && Fits(c, k)
    ensures FromComplement(Complement(c, k)) == c
  {
    assert P256(k) == 256 * P256(k - 1);
    NumberOfBigEndian(if c < 0 then c + P256(k) else c, k);
    TopBit(Complement(c, k));
  }

  /** The least number of octets that hold a coefficient. */
  ghost predicate Least(c: int, k: nat) {
    k > 1 && Fits(c, k) && !Fits(c, k - 1)
  }

  lemma LeastIsLeast(c: int, k: nat, k': nat)
    requires Least(c, k) && 0 < k' && Fits(c, k')
    ensures k <= k'
  {
    if k' < k {
      FitsMore(c, k', k - 1);
    }
  }

  // ----- The words the writer scans -----

  /** `~lo + 1`, `~hi` and the carry: the two's complement of a two-word number. */
  function Negate(hi: u64, lo: u64): (u64, u64) {
    var lo' := (TWO64 - lo) % TWO64;
    (if lo' == 0 then (TWO64 - hi) % TWO64 else TWO64 - 1 - hi, lo')
  }

  lemma NegateIsComplement(hi: u64, lo: u64)
    requires hi != 0 || lo != 0
    ensures var (hi', lo') := Negate(hi, lo);
            Magnitude(hi', lo') == TWO64 * TWO64 - Magnitude(hi, lo)
  {
    var (hi', lo') := Negate(hi, lo);
    if lo == 0 {
      assert lo' == 0 && hi' == TWO64 - hi;
    } else {
      assert lo' == TWO64 - lo;
    }
  }

  /** Between the high word `g` (of the number, or of its complement) and the next one up. */
  ghost predicate Within(c: int, g: nat) {
    g * TWO64 <= c < (g + 1) * TWO64 || 0 - (g + 1) * TWO64 <= c < 0 - g * TWO64
  }

  lemma MulGrows(a: nat, b: nat, p: nat)
    requires a <= b
    ensures a * p <= b * p
  {
  }

  lemma ScaleBounds(o: byte, p: nat, g: nat)
    requires o != 0 && o * p <= g < (o + 1) * p
    ensures p <= g < 256 * p && (o < 128 <==> g < 128 * p)
  {
    MulGrows(1, o, p);
    MulGrows(o + 1, 256, p);
    if o < 128 {
      MulGrows(o + 1, 128, p);
    } else {
      MulGrows(128, o, p);
    }
  }

  lemma FirstOctetBounds(g: nat, m: nat)
    requires g < P256(m + 1) && Octet(g, m) != 0
    ensures P256(m) <= g < 256 * P256(m)
    ensures Octet(g, m) < 128 <==> g < 128 * P256(m)
  {
    TopOctet(g, m);
    ScaleBounds(Octet(g, m), P256(m), g);
  }

  lemma FitsBounds(c: int, m: nat, q: nat)
    requires q == P256(m + 7)
    ensures Fits(c, m + 8) <==> -128 * q <= c < 128 * q
    ensures Fits(c, m + 9) <==> -128 * 256 * q <= c < 128 * 256 * q
    ensures Fits(c, m + 10) <==> -128 * 256 * 256 * q <= c < 128 * 256 * 256 * q
  {
    assert P256(m + 8) == 256 * q && P256(m + 9) == 256 * (256 * q);
  }

  lemma EightOctetsUp(m: nat)
    ensures 256 * P256(m + 7) == P256(m) * TWO64
  {
    P256IsWord();
    P256Add(m, 8);
    assert P256(m + 8) == 256 * P256(m + 7);
  }

  lemma BoundsDecide(c: int, g: nat, p: nat, q: nat)
    requires 256 * q == p * TWO64 && Within(c, g) && p <= g < 256 * p
    ensures !(-128 * q <= c < 128 * q)
    ensures g < 128 * p <==> -128 * 256 * q <= c < 128 * 256 * q
    ensures -128 * 256 * 256 * q <= c < 128 * 256 * 256 * q
  {
  }

  /** The first significant octet of the high word decides the length. */
  lemma FirstOctetDecides(c: int, g: nat, m: nat)
    requires m < 8 && g < P256(m + 1) && Within(c, g) && Octet(g, m) != 0
    ensures Least(c, if Octet(g, m) < 128 then m + 9 else m + 10)
  {
    var p, q := P256(m), P256(m + 7);
    FirstOctetBounds(g, m);
    EightOctetsUp(m);
    BoundsDecide(c, g, p, q);
    FitsBounds(c, m, q);
  }

  lemma NoOctetNeedsNine(c: int)
    requires Within(c, 0) && !(-TWO63 <= c < TWO63)
    ensures Least(c, 9)
  {
    P256IsWord();
  }

  lemma NoTopOctet(g: nat, m: nat)
    requires g < P256(m + 1) && Octet(g, m) == 0
    ensures g < P256(m)
  {
    TopOctet(g, m);
  }

  /** The scan for a non-negative number: skip zero octets of its high word. */
  method SizeOfPositive(hi: u64, ghost c: int) returns (size: nat)
    requires Within(c, hi) && !(-TWO63 <= c < TWO63)
    ensures 9 <= size <= 17 && Least(c, size)
  {
    assert hi < P256(8) by { P256IsWord(); }
    var offset := 0;
    while offset < 8
      invariant 0 <= offset <= 8 && hi < P256(8 - offset)
    {
      var octet := Octet(hi, 7 - offset);
      if octet != 0 {
        FirstOctetDecides(c, hi, 7 - offset);
        size := 16 - offset;
        if octet >= 128 {
          size := size + 1;
        }
        return;
      }
      NoTopOctet(hi, 7 - offset);
      offset := offset + 1;
    }
    NoOctetNeedsNine(c);
    return 9;
  }

  /** The scan for a negative number: skip 0xff octets of its high word. */
  method SizeOfNegative(hi: u64, ghost c: int) returns (size: nat)
    requires Within(c, TWO64 - 1 - hi) && !(-TWO63 <= c < TWO63)
    ensures 9 <= size <= 17 && Least(c, size)
  {
    ghost var g: nat := TWO64 - 1 - hi;
    assert P256(8) == TWO64 by { P256IsWord(); }
    var offset := 0;
    while offset < 8
      invariant 0 <= offset <= 8 && g < P256(8 - offset)
    {
      var octet := Octet(hi, 7 - offset);
      assert octet == 255 - Octet(g, 7 - offset) by { OctetOfComplement(g, 8, 7 - offset); }
      if octet != 255 {
        FirstOctetDecides(c, g, 7 - offset);
        size := 16 - offset;
        if octet < 128 {
          size := size + 1;
        }
        return;
      }
      NoTopOctet(g, 7 - offset);
      offset := offset + 1;
    }
    NoOctetNeedsNine(c);
    return 9;
  }

  /** `make_signed_coefficient_full`: the words of the two's complement and the least length. */
  method MakeSignedCoefficientFull(d: Decimal) returns (hi: u64, lo: u64, size: nat)
    requires ValidDecimal(d) && !HasSmallCoefficient(d)
    ensures Magnitude(hi, lo) == Coefficient(d) + (if d.negative then TWO64 * TWO64 else 0)
    ensures 9 <= size <= 17 && Least(Coefficient(d), size)
  {
    SmallIsInt64(d);
    hi, lo := d.hi, d.lo;
    if !d.negative {
      size := SizeOfPositive(hi, Coefficient(d));
      return;
    }
    NegateIsComplement(hi, lo);
    var negated := Negate(hi, lo);
    hi, lo := negated.0, negated.1;
    size := SizeOfNegative(hi, Coefficient(d));
  }

  // ----- The octets the writer stores -----

  lemma WrapsAround(x: int, a: nat, b: nat)
    ensures (a - 1) * b + x == x - b + a * b
  {
  }

  /** The octets of the words are the octets of the coefficient. */
  lemma WordsAreComplement(c: int, t: nat, k: nat)
    requires 0 < k <= 16 && Fits(c, k) && t == c + (if c < 0 then TWO64 * TWO64 else 0)
    ensures BigEndian(t, k) == Complement(c, k)
  {
    P256IsWord();
    assert P256(k) == 256 * P256(k - 1);
    if c < 0 {
      P256Add(16 - k, k);
      P256Positive(16 - k);
      WrapsAround(c + P256(k), P256(16 - k), P256(k));
      BigEndianLow(c + P256(k), P256(16 - k) - 1, k);
    }
  }

  /** A number has only one octet string of a length. */
  lemma {:induction false} NumberUnique(bs: seq<byte>, n: nat)
    requires Number(bs) == n
    ensures BigEndian(n, |bs|) == bs
  {
    if bs != [] {
      NumberUnique(bs[..|bs| - 1], n / 256);
    }
  }

  lemma {:induction false} NumberPrepend(b: byte, bs: seq<byte>)
    ensures Number([b] + bs) == b * P256(|bs|) + Number(bs)
  {
    NumberConcat([b], bs);
    assert Number([b]) == b by { assert [b][..0] == []; }
  }

  /** A seventeenth octet is the sign. */
  lemma SignOctet(c: int, t: nat)
    requires Fits(c, 17) && -TWO64 * TWO64 < c < TWO64 * TWO64 && t == c + (if c < 0 then TWO64 * TWO64 else 0)
    ensures [if c < 0 then 255 else 0] + BigEndian(t, 16) == Complement(c, 17)
  {
    P256IsWord();
    assert P256(17) == 256 * P256(16);
    var n := if c < 0 then c + P256(17) else c;
    var top := if c < 0 then 255 else 0;
    NumberOfBigEndian(t, 16);
    NumberPrepend(top, BigEndian(t, 16));
    NumberUnique([top] + BigEndian(t, 16), n);
  }

  // ----- The words the reader rebuilds -----

  /** What `read_decimal_coefficient` lets through. */
  predicate CoefficientInRange(bs: seq<byte>) {
    && 0 < |bs| <= 17
    && (|bs| == 17 ==> bs[0] == 0 || (bs[0] == 255 && exists i :: 0 < i < 17 && bs[i] != 0))
  }

  /** Some octet is not zero exactly when the number is not. */
  lemma {:induction false} NumberZero(bs: seq<byte>)
    ensures Number(bs) == 0 <==> forall i :: 0 <= i < |bs| ==> bs[i] == 0
  {
    if bs != [] {
      NumberZero(bs[..|bs| - 1]);
    }
  }

  /** `octet << (8 * offset)`. */
  function Scaled(octet: nat, offset: nat): nat {
    octet * P256(offset)
  }

  lemma {:induction false} P256Grows(a: nat, b: nat)
    requires a <= b
    ensures P256(a) <= P256(b)
  {
    if a < b {
      P256Grows(a, b - 1);
    }
  }

  /** One of the loops of `read_decimal`: octets from the low end into a word. */
  method CollectOctets(bs: seq<byte>, from: nat, to: nat) returns (word: nat)
    requires from <= to <= |bs| && to - from <= 8
    ensures word == Number(bs[from..to]) < TWO64
  {
    word := 0;
    var offset := 0;
    while offset < to - from
      invariant 0 <= offset <= to - from && word == Number(bs[to - offset..to])
    {
      var octet := bs[to - offset - 1];
      NumberPrepend(octet, bs[to - offset..to]);
      assert bs[to - offset - 1..to] == [octet] + bs[to - offset..to];
      word := word + Scaled(octet, offset);
      offset := offset + 1;
    }
    NumberBelow(bs[from..to]);
    P256IsWord();
    P256Grows(to - from, 8);
  }

  /** The octets below the sign octet of a seventeen-octet coefficient, or all of them. */
  ghost function Low16(bs: seq<byte>): seq<byte> {
    if |bs| == 17 then bs[1..] else bs
  }

  lemma SeventeenOctets(bs: seq<byte>)
    requires CoefficientInRange(bs) && |bs| == 17 && bs[0] >= 128
    ensures 0 < Number(bs[1..]) < P256(16) && FromComplement(bs) == Number(bs[1..]) - P256(16)
  {
    NumberBelow(bs[1..]);
    NumberZero(bs[1..]);
    NumberPrepend(bs[0], bs[1..]);
    assert bs == [bs[0]] + bs[1..];
    assert P256(17) == 256 * P256(16);
    var i :| 0 < i < 17 && bs[i] != 0;
    assert bs[1..][i - 1] != 0;
  }

  lemma UpTo16Octets(bs: seq<byte>)
    requires 8 <= |bs| <= 16 && bs[0] >= 128
    ensures 0 < Number(bs) < P256(|bs| - 8) * TWO64 == P256(|bs|) && P256(|bs| - 8) <= TWO64
    ensures FromComplement(bs) == Number(bs) - P256(|bs|)
  {
    var n := |bs|;
    NumberBelow(bs);
    TopBit(bs);
    P256Positive(n - 1);
    P256IsWord();
    P256Add(n - 8, 8);
    P256Grows(n - 8, 8);
  }

  /** The high word after sign extension. */
  function Extended(n: nat, hi: nat): int
    requires n >= 8
  {
    if n < 16 then hi + (TWO64 - P256(n - 8)) else hi
  }

  lemma ExtendSign(number: nat, hi: nat, lo: u64, q: nat)
    requires number == hi * TWO64 + lo && 0 < number < q * TWO64 && q <= TWO64
    ensures 0 <= hi + (TWO64 - q) < TWO64 && (hi + (TWO64 - q) != 0 || lo != 0)
    ensures (hi + (TWO64 - q)) * TWO64 + lo == number + TWO64 * TWO64 - q * TWO64
  {
  }

  /** Sign extension and negation turn the words into the magnitude of a negative coefficient. */
  lemma NegativeWords(bs: seq<byte>, hi: nat, lo: u64)
    requires CoefficientInRange(bs) && bs[0] >= 128 && |bs| >= 8
    requires Number(Low16(bs)) == hi * TWO64 + lo
    ensures 0 <= Extended(|bs|, hi) < TWO64 && (Extended(|bs|, hi) != 0 || lo != 0)
    ensures FromComplement(bs) == Extended(|bs|, hi) * TWO64 + lo - TWO64 * TWO64
  {
    if |bs| == 17 {
      SeventeenOctets(bs);
      assert P256(16) == TWO64 * TWO64 by { P256IsWord(); }
    } else {
      UpTo16Octets(bs);
      var q := P256(|bs| - 8);
      assert |bs| == 16 ==> q == TWO64 by { P256IsWord(); }
      assert Extended(|bs|, hi) == hi + (TWO64 - q);
      ExtendSign(Number(bs), hi, lo, q);
    }
  }

  /** The two collected words make up the number. */
  lemma TwoWords(bs: seq<byte>, hi: nat, lo: nat)
    requires CoefficientInRange(bs)
    requires var low, top := Min(|bs|, 8), if |bs| > 16 then |bs| - 16 else 0;
             hi == Number(bs[top..|bs| - low]) && lo == Number(bs[|bs| - low..|bs|])
    ensures Number(Low16(bs)) == hi * TWO64 + lo
  {
    var low, top := Min(|bs|, 8), if |bs| > 16 then |bs| - 16 else 0;
    var a, b := bs[top..|bs| - low], bs[|bs| - low..|bs|];
    NumberConcat(a, b);
    assert Low16(bs) == a + b;
    if |bs| < 8 {
      assert a == [];
    } else {
      P256IsWord();
    }
  }

  lemma NonNegative(bs: seq<byte>)
    requires CoefficientInRange(bs) && bs[0] < 128
    ensures FromComplement(bs) == Number(Low16(bs))
  {
    if |bs| == 17 {
      NumberPrepend(bs[0], bs[1..]);
      assert bs == [bs[0]] + bs[1..];
    }
  }

  /** The loops of `read_decimal`: words of the octets, sign extension, and the magnitude. The source
      asserts that a negative coefficient has at least eight octets. */
  method ReadWords(bs: seq<byte>) returns (negative: bool, hi: u64, lo: u64)
    requires CoefficientInRange(bs) && (bs[0] >= 128 ==> |bs| >= 8)
    ensures var c := FromComplement(bs);
            negative == (c < 0) && Magnitude(hi, lo) == if c < 0 then -c else c
  {
    var n := |bs|;
    var low := Min(n, 8);
    lo := CollectOctets(bs, n - low, n);
    var top := if n > 16 then n - 16 else 0;
    hi := CollectOctets(bs, top, n - low);
    TwoWords(bs, hi, lo);
    negative := bs[0] >= 128;
    if negative {
      NegativeWords(bs, hi, lo);
      hi := Extended(n, hi);
      NegateIsComplement(hi, lo);
      var negated := Negate(hi, lo);
      hi, lo := negated.0, negated.1;
    } else {
      NonNegative(bs);
    }
  }
}
