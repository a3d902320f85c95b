/** The entry readers that loop or move through a buffer, against the reading functions. A reader is
    given the bytes between its position and the end, and says how far the position moved; on an
    exception it stays. */
module ValueInput {
  import opened Ring
  import opened Wrappers
  import opened Base128v
  import opened Octets
  import opened Decimals
  import opened Values

  datatype Outcome<+T> = Ok(value: T) | Err(error: Error)

  /** The call did what `r` says, and moved the position by `n`. */
  ghost predicate Took<T(!new)>(r: Read<T>, result: Outcome<T>, n: nat) {
    match r
    case Fail(e) => result == Err(e) && n == 0
    case Got(v, size) => result == Ok(v) && n == size
  }

  /** `read_uint`, `read_sint` and `read_sint32`. */
  method TakeField(k: Field, s: seq<byte>) returns (result: Outcome<int>, n: nat)
    ensures Took(ReadField(k, s), result, n)
  {
    assert s[0..|s|] == s;
    var v;
    v, n := ReadUnsigned(s, 0, |s|);
    if v == None {
      return Err(Underflow), 0;
    }
    EncodeDecode(s, v.value, n);
    if k == U64 {
      return Ok(v.value), n;
    }
    var i := DecodeSigned(v.value);
    if k == S32 && !FieldOk(S32, i) {
      return Err(OutOfRange), 0;
    }
    result := Ok(i);
  }

  method TakeInt(s: seq<byte>) returns (result: Outcome<int>, n: nat)
    ensures Took(ReadInt(s), result, n)
    ensures result.Ok? ==> n <= |s| && (s[..n] == EncodeInt(result.value) || s[..n] == [INT] + EncodeField(S64, result.value))
  {
    if ReadInt(s).Got? {
      IntTook(s, ReadInt(s).value, ReadInt(s).size);
    }
    var refused := Expect(EInt, s);
    if refused.Some? {
      return Err(refused.value), 0;
    }
    var first := s[0];
    if first <= 0x3f {
      return Ok(first), 1;
    }
    if EMBED_NEGATIVE_INT <= first <= EMBED_NEGATIVE_INT + 0x0f {
      return Ok(first - EMBED_NEGATIVE_INT + MIN_EMBED_INT), 1;
    }
    result, n := TakeField(S64, s[1..]);
    if result.Ok? {
      n := 1 + n;
    }
  }

  lemma NumberMore(bs: seq<byte>, i: nat)
    requires i < |bs|
    ensures Number(bs[..i + 1]) == 256 * Number(bs[..i]) + bs[i]
  {
    assert bs[..i + 1][..i] == bs[..i];
  }

  lemma ScaledMore(bs: seq<byte>, i: nat)
    requires i < |bs|
    ensures Number(bs[..i]) * P256(|bs| - i) + Scaled(bs[i], |bs| - 1 - i) == Number(bs[..i + 1]) * P256(|bs| - 1 - i)
  {
    NumberMore(bs, i);
    var p := P256(|bs| - 1 - i);
    assert P256(|bs| - i) == 256 * p;
    assert Number(bs[..i]) * (256 * p) == 256 * Number(bs[..i]) * p;
  }

  /** `read_fixed`: `size` octets, each shifted to its place. */
  method TakeFixed(size: nat, s: seq<byte>) returns (result: Outcome<nat>, n: nat)
    ensures Took(if |s| < size then Fail(Underflow) else Got(Number(s[..size]), size), result, n)
  {
    if |s| < size {
      return Err(Underflow), 0;
    }
    ghost var bs := s[..size];
    var word: nat := 0;
    n := 0;
    while n < size
      invariant 0 <= n <= size && word == Number(bs[..n]) * P256(size - n)
    {
      ScaledMore(bs, n);
      word := word + Scaled(s[n], size - 1 - n);
      n := n + 1;
    }
    assert bs[..size] == bs;
    result := Ok(word);
  }

  /** `read_float4` and `read_float8`, up to the bit pattern. */
  method TakeFloat(e: Entry, size: nat, s: seq<byte>) returns (result: Outcome<nat>, n: nat)
    ensures Took(ReadFloat(e, size, s), result, n)
  {
    var refused := Expect(e, s);
    if refused.Some? {
      return Err(refused.value), 0;
    }
    result, n := TakeFixed(size, s[1..]);
    if result.Ok? {
      assert s[1..][..size] == s[1..1 + size];
      n := 1 + n;
    }
  }

  /** The front of `read_character`, `read_octet`, `read_row_begin` and `read_array_begin`. */
  method TakeSize(e: Entry, embed: byte, max: nat, ghost header: byte, s: seq<byte>) returns (result: Outcome<nat>, n: nat)
    requires Forms(e, embed, max, header)
    ensures Took(ReadSize(e, embed, max, s), result, n)
    ensures result.Ok? ==>
              && result.value < LIMIT_SIZE && n <= |s|
              && (s[..n] == EncodeSize(embed, max, header, result.value) || s[..n] == [header] + Encode(result.value))
  {
    if ReadSize(e, embed, max, s).Got? {
      SizeTook(e, embed, max, header, s, ReadSize(e, embed, max, s).value, ReadSize(e, embed, max, s).size);
    }
    var refused := Expect(e, s);
    if refused.Some? {
      return Err(refused.value), 0;
    }
    var first := s[0];
    if embed <= first < embed + max {
      return Ok(first - embed + 1), 1;
    }
    var size;
    size, n := TakeField(U64, s[1..]);
    if size.Err? {
      return Err(size.error), 0;
    }
    if size.value >= LIMIT_SIZE {
      return Err(OutOfRange), 0;
    }
    return Ok(size.value), 1 + n;
  }

  /** `read_character` and `read_octet`. */
  method TakeString(e: Entry, embed: byte, max: nat, ghost header: byte, s: seq<byte>) returns (result: Outcome<seq<byte>>, n: nat)
    requires Forms(e, embed, max, header)
    ensures Took(ReadString(e, embed, max, s), result, n)
    ensures result.Ok? ==> n <= |s| && StringCode(embed, max, header, s[..n], result.value)
  {
    if ReadString(e, embed, max, s).Got? {
      StringTook(e, embed, max, header, s, ReadString(e, embed, max, s).value, ReadString(e, embed, max, s).size);
    }
    var size;
    size, n := TakeSize(e, embed, max, header, s);
    if size.Err? {
      return Err(size.error), 0;
    }
    if |s| - n < size.value {
      return Err(Underflow), 0;
    }
    return Ok(s[n..n + size.value]), n + size.value;
  }

  /** The search for an octet that is not zero, behind the first one. */
  method FindNonZero(bs: seq<byte>) returns (found: bool)
    requires bs != []
    ensures found <==> exists i :: 0 < i < |bs| && bs[i] != 0
  {
    var i := 1;
    while i < |bs|
      invariant 1 <= i <= |bs| && forall j :: 0 < j < i ==> bs[j] == 0
    {
      if bs[i] != 0 {
        return true;
      }
      i := i + 1;
    }
    found := false;
  }

  /** `read_decimal_coefficient`. */
  method TakeCoefficient(s: seq<byte>) returns (result: Outcome<seq<byte>>, n: nat)
    ensures Took(ReadCoefficient(s), result, n)
  {
    var size;
    size, n := TakeField(U64, s);
    if size.Err? {
      return Err(size.error), 0;
    }
    if size.value == 0 || size.value > 17 {
      return Err(OutOfRange), 0;
    }
    if |s| - n < size.value {
      return Err(Underflow), 0;
    }
    var bs := s[n..n + size.value];
    if size.value == 17 && bs[0] != 0 {
      if bs[0] != 255 {
        return Err(OutOfRange), 0;
      }
      var found := FindNonZero(bs);
      if !found {
        return Err(OutOfRange), 0;
      }
    }
    return Ok(bs), n + size.value;
  }

  /** Exponent and coefficient octets of the full form. */
  method TakeFullParts(s: seq<byte>) returns (result: Outcome<(int, seq<byte>)>, n: nat)
    ensures Took(ReadFullParts(s), result, n)
  {
    var exponent, coefficient, m;
    exponent, n := TakeField(S32, s);
    if exponent.Err? {
      return Err(exponent.error), 0;
    }
    coefficient, m := TakeCoefficient(s[n..]);
    if coefficient.Err? {
      return Err(coefficient.error), 0;
    }
    var bs := coefficient.value;
    if bs[0] >= 128 && |bs| < 8 {
      return Err(AssertionViolated), 0;
    }
    return Ok((exponent.value, bs)), n + m;
  }

  lemma WordsAreDecimal(negative: bool, hi: u64, lo: u64, exponent: i32, c: int)
    requires negative == (c < 0) && Magnitude(hi, lo) == (if c < 0 then -c else c)
    ensures -TWO64 * TWO64 < c < TWO64 * TWO64 && DecimalOf(c, exponent) == Decimal(negative, hi, lo, exponent)
  {
    var d := Decimal(negative, hi, lo, exponent);
    assert Coefficient(d) == c;
    DecimalOfCoefficient(d);
  }

  method TakeFull(s: seq<byte>) returns (result: Outcome<Decimal>, n: nat)
    ensures Took(ReadFull(s), result, n)
  {
    var parts;
    parts, n := TakeFullParts(s);
    if parts.Err? {
      return Err(parts.error), 0;
    }
    var (exponent, bs) := parts.value;
    var negative, hi, lo := ReadWords(bs);
    WordsAreDecimal(negative, hi, lo, exponent, FromComplement(bs));
    result := Ok(Decimal(negative, hi, lo, exponent));
  }

  /** Exponent and coefficient of the compact form. */
  method TakeCompactParts(s: seq<byte>) returns (result: Outcome<(int, int)>, n: nat)
    ensures Took(ReadCompactParts(s), result, n)
  {
    var exponent, coefficient, m;
    exponent, n := TakeField(S32, s);
    if exponent.Err? {
      return Err(exponent.error), 0;
    }
    coefficient, m := TakeField(S64, s[n..]);
    if coefficient.Err? {
      return Err(coefficient.error), 0;
    }
    return Ok((exponent.value, coefficient.value)), n + m;
  }

  /** `read_decimal`. */
  method TakeDecimal(s: seq<byte>) returns (result: Outcome<Decimal>, n: nat)
    ensures Took(ReadDecimal(s), result, n)
  {
    if PeekType(s) == Got(EInt, 0) {
      var i;
      i, n := TakeInt(s);
      if i.Err? {
        return Err(i.error), 0;
      }
      return Ok(DecimalOf(i.value, 0)), n;
    }
    var refused := Expect(EDecimal, s);
    if refused.Some? {
      return Err(refused.value), 0;
    }
    if s[0] == DECIMAL_COMPACT {
      var parts;
      parts, n := TakeCompactParts(s[1..]);
      result := if parts.Err? then Err(parts.error) else Ok(DecimalOf(parts.value.1, parts.value.0));
    } else {
      result, n := TakeFull(s[1..]);
    }
    if result.Ok? {
      n := 1 + n;
    }
  }
}
