/** The strict variable-length integer code: seven bits a byte, low group first, a ninth byte of
    eight bits, and signed integers folded onto unsigned ones. */
module Base128v {
  import opened Ring
  import opened Wrappers

  const TWO63: int := 0x8000_0000_0000_0000
  const TWO64: int := 0x1_0000_0000_0000_0000

  type u64 = n: int | 0 <= n < TWO64
  type i64 = n: int | -TWO63 <= n < TWO63

  // ----- The code -----

  /** What is left for the groups from number `i` on: 64 bits less seven for each group before. */
  function Limit(i: nat): nat
    requires i <= 8
    decreases 8 - i
  {
    if i == 8 then 256 else 128 * Limit(i + 1)
  }

  lemma LimitIsU64()
    ensures Limit(0) == TWO64
  {
    assert Limit(6) == 128 * (128 * 256);
    assert Limit(4) == 128 * (128 * Limit(6));
    assert Limit(2) == 128 * (128 * Limit(4));
  }

  /** The groups of `v` from number `i` on. */
  function EncodeFrom(v: nat, i: nat): (r: seq<byte>)
    requires i <= 8 && v < Limit(i)
    ensures 0 < |r| <= 9 - i
    decreases 8 - i
  {
    if i == 8 || v < 128 then [v] else [128 + v % 128] + EncodeFrom(v / 128, i + 1)
  }

  function Encode(v: u64): (r: seq<byte>)
    ensures 0 < |r| <= 9
  {
    LimitIsU64();
    EncodeFrom(v, 0)
  }

  /** The value of the groups from number `i` on, and how many there are; zero groups are refused
      except for the value zero itself. */
  function DecodeFrom(s: seq<byte>, i: nat): Option<(nat, nat)>
    requires i <= 8
    decreases 8 - i
  {
    if s == [] then None
    else if s[0] == 0 && i != 0 then None
    else if i == 8 || s[0] < 128 then Some((s[0], 1))
    else
      match DecodeFrom(s[1..], i + 1)
      case None => None
      case Some((v, k)) => Some((s[0] - 128 + 128 * v, k + 1))
  }

  function Decode(s: seq<byte>): Option<(nat, nat)> {
    DecodeFrom(s, 0)
  }

  lemma {:induction false} DecodeEncodeFrom(v: nat, i: nat, rest: seq<byte>)
    requires i <= 8 && v < Limit(i) && (i > 0 ==> v > 0)
    ensures DecodeFrom(EncodeFrom(v, i) + rest, i) == Some((v, |EncodeFrom(v, i)|))
    decreases 8 - i
  {
    if i < 8 && v >= 128 {
      DecodeEncodeFrom(v / 128, i + 1, rest);
      var tail := EncodeFrom(v / 128, i + 1);
      assert ([128 + v % 128] + tail + rest)[1..] == tail + rest;
    }
  }

  /** Every value decodes back to itself, whatever follows. */
  lemma DecodeEncode(v: u64, rest: seq<byte>)
    ensures Decode(Encode(v) + rest) == Some((v, |Encode(v)|))
  {
    LimitIsU64();
    DecodeEncodeFrom(v, 0, rest);
  }

  lemma {:induction false} LimitAtLeast(i: nat)
    requires i <= 8
    ensures Limit(i) >= 256
    decreases 8 - i
  {
    if i < 8 {
      LimitAtLeast(i + 1);
    }
  }

  lemma {:induction false} EncodeDecodeFrom(s: seq<byte>, i: nat, v: nat, k: nat)
    requires i <= 8 && DecodeFrom(s, i) == Some((v, k))
    ensures v < Limit(i) && (i > 0 ==> v > 0) && 0 < k <= |s| && EncodeFrom(v, i) == s[..k]
    decreases 8 - i
  {
    if i < 8 && s[0] >= 128 {
      var (v1, k1) := DecodeFrom(s[1..], i + 1).value;
      EncodeDecodeFrom(s[1..], i + 1, v1, k1);
      assert v >= 128 && v % 128 == s[0] - 128 && v / 128 == v1;
      assert s[..k] == [s[0]] + s[1..][..k1];
    } else {
      LimitAtLeast(i);
      assert s[..1] == [s[0]];
    }
  }

  /** Every byte string the strict reader accepts is the encoding of its result. */
  lemma EncodeDecode(s: seq<byte>, v: nat, k: nat)
    requires Decode(s) == Some((v, k))
    ensures v < TWO64 && 0 < k <= |s| && Encode(v) == s[..k]
  {
    LimitIsU64();
    EncodeDecodeFrom(s, 0, v, k);
  }

  // ----- Size -----

  function Pow128(k: nat): nat {
    if k == 0 then 1 else 128 * Pow128(k - 1)
  }

  lemma {:induction false} Pow128AtLeast(k: nat)
    requires k > 0
    ensures Pow128(k) >= 128
  {
    if k > 1 {
      Pow128AtLeast(k - 1);
    } else {
      assert Pow128(1) == 128 * Pow128(0);
    }
  }

  /** At most `k` groups suffice exactly for values below `128^k`. */
  lemma {:induction false} SizeBelow(v: nat, i: nat, k: nat)
    requires i + k <= 8 && k > 0 && v < Limit(i)
    ensures |EncodeFrom(v, i)| <= k <==> v < Pow128(k)
    decreases k
  {
    if k == 1 {
      assert Pow128(1) == 128 * Pow128(0);
      if v >= 128 {
        assert |EncodeFrom(v, i)| == 1 + |EncodeFrom(v / 128, i + 1)|;
      }
    } else if v >= 128 {
      SizeBelow(v / 128, i + 1, k - 1);
    } else {
      Pow128AtLeast(k);
    }
  }

  /** `1ULL << k`. */
  function Shift(k: nat): nat {
    if k == 0 then 1 else 2 * Shift(k - 1)
  }

  lemma {:induction false} ShiftIsPow(i: nat)
    ensures Shift(i * 7) == Pow128(i)
  {
    if i > 0 {
      ShiftIsPow(i - 1);
      var k := (i - 1) * 7;
      assert Shift(k + 2) == 4 * Shift(k);
      assert Shift(k + 4) == 4 * Shift(k + 2);
      assert Shift(k + 6) == 4 * Shift(k + 4);
    }
  }

  /** `size_unsigned`: the length of the encoding. */
  method SizeUnsigned(value: u64) returns (n: nat)
    ensures n == |Encode(value)|
  {
    LimitIsU64();
    var i := 1;
    ghost var e := EncodeFrom(value, 0);
    while i <= 8
      invariant 1 <= i <= 9 && |e| >= i
    {
      SizeBelow(value, 0, i);
      ShiftIsPow(i);
      if value < Shift(i * 7) {
        return i;
      }
      i := i + 1;
    }
    return 9;
  }

  // ----- Reading and writing a buffer -----

  /** `s` with `bytes` written over it from `at` on. */
  function Splice(s: seq<byte>, at: nat, bytes: seq<byte>): (r: seq<byte>)
    requires at + |bytes| <= |s|
    ensures |r| == |s|
  {
    s[..at] + bytes + s[at + |bytes|..]
  }

  lemma SpliceMore(s: seq<byte>, at: nat, bytes: seq<byte>, i: nat)
    requires i < |bytes| && at + i < |s|
    ensures Splice(s, at, bytes[..i])[at + i := bytes[i]] == Splice(s, at, bytes[..i + 1])
  {
  }

  /** Writing over a string changes nothing exactly if it was there already. */
  lemma SpliceSame(s: seq<byte>, at: nat, bytes: seq<byte>)
    requires at + |bytes| <= |s|
    ensures Splice(s, at, bytes) == s <==> s[at..at + |bytes|] == bytes
  {
    var r := Splice(s, at, bytes);
    assert r[at..at + |bytes|] == bytes;
    if s[at..at + |bytes|] == bytes {
      assert s == s[..at] + s[at..at + |bytes|] + s[at + |bytes|..];
    }
  }

  /** Stores byte `i` of `bytes` behind those before it. */
  method PutByte(buf: array<byte>, ghost was: seq<byte>, at: nat, ghost bytes: seq<byte>, i: nat, b: byte)
    requires |was| == buf.Length && i < |bytes| && bytes[i] == b && at + i < buf.Length
    requires buf[..] == Splice(was, at, bytes[..i])
    modifies buf
    ensures buf[..] == Splice(was, at, bytes[..i + 1]) && (i + 1 == |bytes| ==> buf[..] == Splice(was, at, bytes))
  {
    SpliceMore(was, at, bytes, i);
    buf[at + i] := b;
    assert i + 1 == |bytes| ==> bytes[..i + 1] == bytes;
  }

  /** The first `i` groups of `e` are written, the rest encode `work`. */
  ghost predicate Written(e: seq<byte>, i: nat, work: nat) {
    i <= 8 && i < |e| && work < Limit(i) && e[i..] == EncodeFrom(work, i)
  }

  lemma WrittenGroup(e: seq<byte>, i: nat, work: nat)
    requires Written(e, i, work) && i < 8 && work >= 128
    ensures e[i] == 128 + work % 128 && Written(e, i + 1, work / 128)
  {
    assert e[i..][1..] == e[i + 1..];
  }

  lemma WrittenLast(e: seq<byte>, i: nat, work: nat)
    requires Written(e, i, work) && (i == 8 || work < 128)
    ensures |e| == i + 1 && e[i] == work
  {
  }

  /** `write_unsigned`: all of it if there is room. Otherwise the position stays, but the room there
      was holds the first bytes of the encoding. */
  method WriteUnsigned(value: u64, buf: array<byte>, position: nat, end: nat) returns (ok: bool, position': nat)
    requires position <= end <= buf.Length
    modifies buf
    ensures ok <==> |Encode(value)| <= end - position
    ensures position' == if ok then position + |Encode(value)| else position
    ensures buf[..] == Splice(old(buf[..]), position, if ok then Encode(value) else Encode(value)[..end - position])
    ensures !ok ==> (buf[..] == old(buf[..]) <==> old(buf[position..end]) == Encode(value)[..end - position])
  {
    ghost var e := Encode(value);
    assert Written(e, 0, value) by { LimitIsU64(); }
    var work: nat := value;
    var i := 0;
    while i < 8
      invariant 0 <= i <= 8 && position + i <= end && Written(e, i, work)
      invariant buf[..] == Splice(old(buf[..]), position, e[..i])
    {
      if position + i == end {
        SpliceSame(old(buf[..]), position, e[..i]);
        return false, position;
      }
      if work / 128 == 0 {
        WrittenLast(e, i, work);
        PutByte(buf, old(buf[..]), position, e, i, work % 128);
        return true, position + i + 1;
      }
      WrittenGroup(e, i, work);
      PutByte(buf, old(buf[..]), position, e, i, 128 + work % 128);
      work := work / 128;
      i := i + 1;
    }
    if position + i == end {
      SpliceSame(old(buf[..]), position, e[..i]);
      return false, position;
    }
    WrittenLast(e, i, work);
    PutByte(buf, old(buf[..]), position, e, i, work % 256);
    return true, position + i + 1;
  }

  /** Without room the writer does not do nothing: 128 takes two bytes, and with room for one the first
      of them is stored. */
  method FailedWriteLeavesBytes() returns (ok: bool, position: nat, before: seq<byte>, after: seq<byte>)
    ensures !ok && position == 0 && before == [0] && after == [128]
  {
    var buf := new byte[1](_ => 0);
    before := buf[..];
    LimitIsU64();
    assert Encode(128) == [128] + EncodeFrom(1, 1);
    ok, position := WriteUnsigned(128, buf, 0, 1);
    after := buf[..];
  }

  /** `g << (i * 7)`. */
  function Weighted(i: nat, g: nat): nat {
    Pow128(i) * g
  }

  /** What decoding the groups from `i` on means for the whole, with `acc` from the groups before. */
  ghost function Lift(r: Option<(nat, nat)>, acc: nat, i: nat): Option<(nat, nat)> {
    match r
    case None => None
    case Some((v, k)) => Some((acc + Weighted(i, v), i + k))
  }

  ghost function Reading(s: seq<byte>, acc: nat, i: nat): Option<(nat, nat)>
    requires i <= 8 && i <= |s|
  {
    Lift(DecodeFrom(s[i..], i), acc, i)
  }

  lemma ReadingGroup(s: seq<byte>, acc: nat, i: nat)
    requires i < 8 && i < |s| && s[i] >= 128
    ensures Reading(s, acc, i) == Reading(s, acc + Weighted(i, s[i] - 128), i + 1)
  {
    assert s[i..][1..] == s[i + 1..];
    match DecodeFrom(s[i + 1..], i + 1)
    case None =>
    case Some((v, k)) =>
      assert Pow128(i) * (s[i] - 128 + 128 * v) == Pow128(i) * (s[i] - 128) + Pow128(i) * (128 * v);
      assert Pow128(i) * (128 * v) == 128 * Pow128(i) * v;
  }

  lemma ReadingLast(s: seq<byte>, acc: nat, i: nat)
    requires i <= 8 && i < |s| && (i == 8 || s[i] < 128)
    ensures Reading(s, acc, i) == if s[i] == 0 && i != 0 then None else Some((acc + Weighted(i, s[i]), i + 1))
  {
  }

  /** `impl_read_unsigned`; the position moves only on success. */
  method ReadUnsigned(buf: seq<byte>, position: nat, end: nat) returns (result: Option<nat>, position': nat)
    requires position <= end <= |buf|
    ensures match Decode(buf[position..end])
            case None => result == None && position' == position
            case Some((v, k)) => result == Some(v) && position' == position + k
  {
    ghost var s := buf[position..end];
    var acc: nat := 0;
    var i := 0;
    assert Reading(s, acc, 0) == Decode(s) by { assert s[0..] == s; }
    while true
      invariant 0 <= i <= 8 && position + i <= end
      invariant Reading(s, acc, i) == Decode(s)
      decreases 8 - i
    {
      if position + i == end {
        return None, position;
      }
      var group := buf[position + i];
      if i == 8 || group < 128 {
        ReadingLast(s, acc, i);
        if group == 0 && i != 0 {
          return None, position;
        }
        return Some(acc + Weighted(i, group)), position + i + 1;
      }
      ReadingGroup(s, acc, i);
      acc := acc + Weighted(i, group - 128);
      i := i + 1;
    }
  }

  // ----- Signed integers -----

  /** `encode_signed`: shift the bit pattern left, complement it for negative values. */
  function EncodeSigned(v: i64): u64 {
    var work := v % TWO64 * 2 % TWO64;
    if v < 0 then TWO64 - 1 - work else work
  }

  /** `decode_signed`. */
  function DecodeSigned(e: u64): i64 {
    var half := e / 2;
    var work := if e % 2 != 0 then TWO64 - 1 - half else half;
    if work >= TWO63 then work - TWO64 else work
  }

  /** Small magnitudes get small codes: 0, -1, 1, -2, ... become 0, 1, 2, 3, ... */
  lemma SignedIsZigzag(v: i64)
    ensures EncodeSigned(v) == if v >= 0 then 2 * v else -2 * v - 1
  {
    if v < 0 {
      assert v % TWO64 == v + TWO64;
    }
  }

  /** The fold is a bijection between the signed and the unsigned 64-bit integers. */
  lemma SignedRoundTrip(v: i64, e: u64)
    ensures DecodeSigned(EncodeSigned(v)) == v
    ensures EncodeSigned(DecodeSigned(e)) == e
  {
    SignedIsZigzag(v);
    SignedIsZigzag(DecodeSigned(e));
  }
}
