/** The serialized value language: what each `write_*` produces, what each `read_*` accepts, and
    that reading gives back what was written. */
module Values {
  import opened Ring
  import opened Wrappers
  import opened Base128v
  import opened Octets
  import opened Decimals

  // ----- Headers -----

  const EMBED_CHARACTER: byte := 0x40
  const EMBED_ROW: byte := 0x80
  const EMBED_ARRAY: byte := 0xa0
  const EMBED_NEGATIVE_INT: byte := 0xc0
  const EMBED_OCTET: byte := 0xd0
  const EMBED_BIT: byte := 0xe0
  const UNKNOWN: byte := 0xe8
  const INT: byte := 0xe9
  const FLOAT4: byte := 0xea
  const FLOAT8: byte := 0xeb
  const DECIMAL_COMPACT: byte := 0xec
  const DECIMAL: byte := 0xed
  const TIME_OF_DAY_WITH_OFFSET: byte := 0xee
  const TIME_POINT_WITH_OFFSET: byte := 0xef
  const CHARACTER: byte := 0xf0
  const OCTET: byte := 0xf1
  const BIT: byte := 0xf2
  const DATE: byte := 0xf3
  const TIME_OF_DAY: byte := 0xf4
  const TIME_POINT: byte := 0xf5
  const DATETIME_INTERVAL: byte := 0xf6
  const ROW: byte := 0xf8
  const ARRAY: byte := 0xf9
  const CLOB: byte := 0xfa
  const BLOB: byte := 0xfb
  const END_OF_CONTENTS: byte := 0xfe

  const MIN_EMBED_INT: int := -16
  const MAX_EMBED_INT: int := 63
  const LIMIT_SIZE: nat := 0x8000_0000

  datatype StampKind = Date | TimeOfDay | TimeOfDayWithOffset | TimePoint | TimePointWithOffset | DatetimeInterval

  datatype Entry =
    | EEnd | ENull | EInt | EFloat4 | EFloat8 | EDecimal | ECharacter | EOctet | EBit
    | EStamp(kind: StampKind) | ERow | EArray | EClob | EBlob

  datatype Error = Underflow | Mismatch | Unrecognized | OutOfRange | AssertionViolated

  /** A reader's result: a value and how many bytes it took, or an exception. */
  datatype Read<+T> = Got(value: T, size: nat) | Fail(error: Error)

  /** `peek_type`. */
  function PeekType(s: seq<byte>): (r: Read<Entry>)
    ensures r.Fail? ==> r.error == Underflow || r.error == Unrecognized
  {
    if s == [] then Fail(Underflow) else
      var h := s[0];
      if h < EMBED_CHARACTER then Got(EInt, 0)
      else if h < EMBED_ROW then Got(ECharacter, 0)
      else if h < EMBED_ARRAY then Got(ERow, 0)
      else if h < EMBED_NEGATIVE_INT then Got(EArray, 0)
      else if h < EMBED_OCTET then Got(EInt, 0)
      else if h < EMBED_BIT then Got(EOctet, 0)
      else if h < UNKNOWN then Got(EBit, 0)
      else if h == UNKNOWN then Got(ENull, 0)
      else if h == INT then Got(EInt, 0)
      else if h == FLOAT4 then Got(EFloat4, 0)
      else if h == FLOAT8 then Got(EFloat8, 0)
      else if h == DECIMAL_COMPACT || h == DECIMAL then Got(EDecimal, 0)
      else if h == TIME_OF_DAY_WITH_OFFSET then Got(EStamp(TimeOfDayWithOffset), 0)
      else if h == TIME_POINT_WITH_OFFSET then Got(EStamp(TimePointWithOffset), 0)
      else if h == CHARACTER then Got(ECharacter, 0)
      else if h == OCTET then Got(EOctet, 0)
      else if h == BIT then Got(EBit, 0)
      else if h == DATE then Got(EStamp(Date), 0)
      else if h == TIME_OF_DAY then Got(EStamp(TimeOfDay), 0)
      else if h == TIME_POINT then Got(EStamp(TimePoint), 0)
      else if h == DATETIME_INTERVAL then Got(EStamp(DatetimeInterval), 0)
      else if h == ROW then Got(ERow, 0)
      else if h == ARRAY then Got(EArray, 0)
      else if h == CLOB then Got(EClob, 0)
      else if h == BLOB then Got(EBlob, 0)
      else if h == END_OF_CONTENTS then Got(EEnd, 0)
      else Fail(Unrecognized)
  }

  /** `requires_entry`: the exception thrown instead of reading an entry of type `e`, if any. */
  function Expect(e: Entry, s: seq<byte>): (r: Option<Error>)
    ensures r.Some? ==> r.value != AssertionViolated
  {
    match PeekType(s)
    case Fail(error) => Some(error)
    case Got(found, _) => if found == e then None else Some(Mismatch)
  }

  /** The header alone decides the type. */
  lemma ExpectHeader(h: byte, s: seq<byte>, e: Entry)
    requires PeekType([h]) == Got(e, 0)
    ensures Expect(e, [h] + s) == None
  {
  }

  /** The result of reading behind `n` bytes already taken. */
  function Skip<T>(n: nat, r: Read<T>): Read<T> {
    match r
    case Fail(e) => Fail(e)
    case Got(v, m) => Got(v, n + m)
  }

  lemma Glue(a: seq<byte>, b: seq<byte>, c: seq<byte>)
    ensures a + b + c == a + (b + c)
    ensures (a + (b + c))[|a|..] == b + c
  {
  }

  // ----- Integers behind a header -----

  datatype Field = U64 | S64 | S32

  predicate FieldOk(k: Field, v: int) {
    match k
    case U64 => 0 <= v < TWO64
    case S64 => -TWO63 <= v < TWO63
    case S32 => -0x8000_0000 <= v < 0x8000_0000
  }

  function EncodeField(k: Field, v: int): (r: seq<byte>)
    requires FieldOk(k, v)
    ensures 0 < |r| <= 9
  {
    if k == U64 then Encode(v) else Encode(EncodeSigned(v))
  }

  /** `read_uint`, `read_sint` and `read_sint32`. */
  function ReadField(k: Field, s: seq<byte>): (r: Read<int>)
    ensures r.Got? ==> FieldOk(k, r.value) && 0 < r.size <= |s|
    ensures r.Fail? ==> r.error == Underflow || r.error == OutOfRange
  {
    match Decode(s)
    case None => Fail(Underflow)
    case Some((v, n)) =>
      EncodeDecode(s, v, n);
      if k == U64 then Got(v, n)
      else
        var i := DecodeSigned(v);
        if k == S32 && !FieldOk(S32, i) then Fail(OutOfRange) else Got(i, n)
  }

  lemma FieldRoundTrip(k: Field, v: int, rest: seq<byte>)
    requires FieldOk(k, v)
    ensures ReadField(k, EncodeField(k, v) + rest) == Got(v, |EncodeField(k, v)|)
  {
    if k == U64 {
      DecodeEncode(v, rest);
    } else {
      DecodeEncode(EncodeSigned(v), rest);
      SignedRoundTrip(v, 0);
    }
  }

  /** The bytes an integer was read from are its code. */
  lemma FieldTook(k: Field, s: seq<byte>, v: int, n: nat)
    requires ReadField(k, s) == Got(v, n)
    ensures n <= |s| && s[..n] == EncodeField(k, v)
  {
    var (u, _) := Decode(s).value;
    EncodeDecode(s, u, n);
    SignedRoundTrip(0, u);
  }

  ghost predicate FieldsOk(ks: seq<Field>, vs: seq<int>) {
    |vs| == |ks| && forall i :: 0 <= i < |ks| ==> FieldOk(ks[i], vs[i])
  }

  ghost function EncodeFields(ks: seq<Field>, vs: seq<int>): seq<byte>
    requires FieldsOk(ks, vs)
  {
    if ks == [] then [] else EncodeField(ks[0], vs[0]) + EncodeFields(ks[1..], vs[1..])
  }

  function ReadFields(ks: seq<Field>, s: seq<byte>): (r: Read<seq<int>>)
    ensures r.Got? ==> FieldsOk(ks, r.value) && r.size <= |s|
    decreases |ks|
  {
    if ks == [] then Got([], 0) else
      match ReadField(ks[0], s)
      case Fail(e) => Fail(e)
      case Got(v, n) =>
        match ReadFields(ks[1..], s[n..])
        case Fail(e) => Fail(e)
        case Got(vs, m) => Got([v] + vs, n + m)
  }

  lemma ReadFieldsFirst(k: Field, ks: seq<Field>, a: seq<byte>, b: seq<byte>, v: int, vs: seq<int>, m: nat)
    requires ReadField(k, a + b) == Got(v, |a|) && ReadFields(ks, b) == Got(vs, m)
    ensures ReadFields([k] + ks, a + b) == Got([v] + vs, |a| + m)
  {
    assert (a + b)[|a|..] == b;
    assert ([k] + ks)[1..] == ks;
  }

  lemma {:induction false} FieldsRoundTrip(ks: seq<Field>, vs: seq<int>, rest: seq<byte>)
    requires FieldsOk(ks, vs)
    ensures ReadFields(ks, EncodeFields(ks, vs) + rest) == Got(vs, |EncodeFields(ks, vs)|)
    decreases |ks|
  {
    if ks == [] {
      assert vs == [];
    } else {
      var k, v := ks[0], vs[0];
      var first, more := EncodeField(k, v), EncodeFields(ks[1..], vs[1..]);
      FieldsRoundTrip(ks[1..], vs[1..], rest);
      FieldRoundTrip(k, v, more + rest);
      ReadFieldsFirst(k, ks[1..], first, more + rest, v, vs[1..], |more|);
      Glue(first, more, rest);
      assert vs == [v] + vs[1..] && ks == [k] + ks[1..];
    }
  }

  // ----- Dates and times -----

  function StampHeader(k: StampKind): byte {
    match k
    case Date => DATE
    case TimeOfDay => TIME_OF_DAY
    case TimeOfDayWithOffset => TIME_OF_DAY_WITH_OFFSET
    case TimePoint => TIME_POINT
    case TimePointWithOffset => TIME_POINT_WITH_OFFSET
    case DatetimeInterval => DATETIME_INTERVAL
  }

  function StampFields(k: StampKind): seq<Field> {
    match k
    case Date => [S64]
    case TimeOfDay => [U64]
    case TimeOfDayWithOffset => [U64, S32]
    case TimePoint => [S64, U64]
    case TimePointWithOffset => [S64, U64, S32]
    case DatetimeInterval => [S32, S32, S32, S64]
  }

  ghost function EncodeStamp(k: StampKind, vs: seq<int>): seq<byte>
    requires FieldsOk(StampFields(k), vs)
  {
    [StampHeader(k)] + EncodeFields(StampFields(k), vs)
  }

  function ReadStamp(k: StampKind, s: seq<byte>): (r: Read<seq<int>>)
    ensures r.Got? ==> r.size <= |s|
  {
    match Expect(EStamp(k), s)
    case Some(e) => Fail(e)
    case None => Skip(1, ReadFields(StampFields(k), s[1..]))
  }

  lemma StampType(k: StampKind)
    ensures PeekType([StampHeader(k)]) == Got(EStamp(k), 0)
  {
  }

  lemma StampRoundTrip(k: StampKind, vs: seq<int>, rest: seq<byte>)
    requires FieldsOk(StampFields(k), vs)
    ensures ReadStamp(k, EncodeStamp(k, vs) + rest) == Got(vs, |EncodeStamp(k, vs)|)
  {
    var ks := StampFields(k);
    var body := EncodeFields(ks, vs);
    StampType(k);
    ExpectHeader(StampHeader(k), body + rest, EStamp(k));
    Glue([StampHeader(k)], body, rest);
    FieldsRoundTrip(ks, vs, rest);
  }

  // ----- Integers and floats -----

  function EncodeInt(v: i64): (r: seq<byte>)
    ensures 0 < |r| <= 10
  {
    if 0 <= v <= MAX_EMBED_INT then [v]
    else if MIN_EMBED_INT <= v < 0 then [EMBED_NEGATIVE_INT + (v - MIN_EMBED_INT)]
    else [INT] + EncodeField(S64, v)
  }

  function ReadInt(s: seq<byte>): (r: Read<int>)
    ensures r.Got? ==> -TWO63 <= r.value < TWO63 && r.size <= |s|
    ensures r.Fail? ==> r.error != AssertionViolated
  {
    match Expect(EInt, s)
    case Some(e) => Fail(e)
    case None =>
      if s[0] <= 0x3f then Got(s[0], 1)
      else if EMBED_NEGATIVE_INT <= s[0] <= EMBED_NEGATIVE_INT + 0x0f then Got(s[0] - EMBED_NEGATIVE_INT + MIN_EMBED_INT, 1)
      else Skip(1, ReadField(S64, s[1..]))
  }

  lemma IntType(v: i64)
    ensures PeekType([EncodeInt(v)[0]]) == Got(EInt, 0)
  {
  }

  lemma IntRoundTrip(v: i64, rest: seq<byte>)
    ensures ReadInt(EncodeInt(v) + rest) == Got(v, |EncodeInt(v)|)
  {
    if !(MIN_EMBED_INT <= v <= MAX_EMBED_INT) {
      Glue([INT], EncodeField(S64, v), rest);
      FieldRoundTrip(S64, v, rest);
    }
  }

  lemma IntTook(s: seq<byte>, v: i64, n: nat)
    requires ReadInt(s) == Got(v, n)
    ensures n <= |s| && (s[..n] == EncodeInt(v) || s[..n] == [INT] + EncodeField(S64, v))
  {
    if EMBED_CHARACTER <= s[0] && !(EMBED_NEGATIVE_INT <= s[0] < EMBED_OCTET) {
      FieldTook(S64, s[1..], v, n - 1);
      assert s[..n] == [s[0]] + s[1..][..n - 1];
    } else {
      assert s[..1] == [s[0]];
    }
  }

  /** `read_int` accepts exactly two codes of an integer: the one that is written, and the long one. */
  lemma IntCodes(s: seq<byte>, v: i64, n: nat)
    ensures ReadInt(s) == Got(v, n) <==> n <= |s| && (s[..n] == EncodeInt(v) || s[..n] == [INT] + EncodeField(S64, v))
  {
    if ReadInt(s) == Got(v, n) {
      IntTook(s, v, n);
    } else if n <= |s| {
      assert s == s[..n] + s[n..];
      if s[..n] == EncodeInt(v) {
        IntRoundTrip(v, s[n..]);
      } else if s[..n] == [INT] + EncodeField(S64, v) {
        Glue([INT], EncodeField(S64, v), s[n..]);
        FieldRoundTrip(S64, v, s[n..]);
      }
    }
  }

  /** `write_float4` and `write_float8`: the bit pattern, high octet first. */
  function EncodeFloat(header: byte, bits: nat, n: nat): (r: seq<byte>)
    ensures |r| == 1 + n
  {
    [header] + BigEndian(bits, n)
  }

  function ReadFloat(e: Entry, n: nat, s: seq<byte>): (r: Read<nat>)
    ensures r.Got? ==> r.size <= |s|
  {
    match Expect(e, s)
    case Some(error) => Fail(error)
    case None => if |s| < 1 + n then Fail(Underflow) else Got(Number(s[1..1 + n]), 1 + n)
  }

  lemma FloatRoundTrip(e: Entry, header: byte, bits: nat, n: nat, rest: seq<byte>)
    requires bits < P256(n) && PeekType([header]) == Got(e, 0)
    ensures ReadFloat(e, n, EncodeFloat(header, bits, n) + rest) == Got(bits, 1 + n)
  {
    assert (EncodeFloat(header, bits, n) + rest)[1..1 + n] == BigEndian(bits, n);
    NumberOfBigEndian(bits, n);
  }

  // ----- Strings and containers -----

  /** The header of a string, row or array of `n` items: sizes from 1 to `max` ride in the header. */
  function EncodeSize(embed: byte, max: nat, header: byte, n: nat): (r: seq<byte>)
    requires embed + max <= 256 && n < TWO64
    ensures 0 < |r| <= 10
  {
    if 1 <= n <= max then [embed + n - 1] else [header] + Encode(n)
  }

  /** The front of `read_character`, `read_octet`, `read_row_begin` and `read_array_begin`. */
  function ReadSize(e: Entry, embed: byte, max: nat, s: seq<byte>): (r: Read<nat>)
    requires embed + max <= 256
    ensures r.Got? ==> r.size <= |s|
  {
    match Expect(e, s)
    case Some(error) => Fail(error)
    case None =>
      if embed <= s[0] < embed + max then Got(s[0] - embed + 1, 1)
      else
        match ReadField(U64, s[1..])
        case Fail(error) => Fail(error)
        case Got(n, k) => if n >= LIMIT_SIZE then Fail(OutOfRange) else Got(n, 1 + k)
  }

  /** `embed` and `header` are the two forms of entry `e`. */
  ghost predicate Forms(e: Entry, embed: byte, max: nat, header: byte) {
    || (e == ECharacter && embed == EMBED_CHARACTER && max == 64 && header == CHARACTER)
    || (e == EOctet && embed == EMBED_OCTET && max == 16 && header == OCTET)
    || (e == ERow && embed == EMBED_ROW && max == 32 && header == ROW)
    || (e == EArray && embed == EMBED_ARRAY && max == 32 && header == ARRAY)
  }

  lemma SizeType(e: Entry, embed: byte, max: nat, header: byte, n: nat)
    requires Forms(e, embed, max, header) && n < TWO64
    ensures PeekType([EncodeSize(embed, max, header, n)[0]]) == Got(e, 0)
  {
  }

  lemma SizeRoundTrip(e: Entry, embed: byte, max: nat, header: byte, n: nat, rest: seq<byte>)
    requires Forms(e, embed, max, header) && n < LIMIT_SIZE
    ensures ReadSize(e, embed, max, EncodeSize(embed, max, header, n) + rest) == Got(n, |EncodeSize(embed, max, header, n)|)
  {
    var code := EncodeSize(embed, max, header, n);
    SizeType(e, embed, max, header, n);
    assert code == [code[0]] + code[1..];
    Glue([code[0]], code[1..], rest);
    ExpectHeader(code[0], code[1..] + rest, e);
    if !(1 <= n <= max) {
      FieldRoundTrip(U64, n, rest);
    }
  }

  lemma SizeTook(e: Entry, embed: byte, max: nat, header: byte, s: seq<byte>, size: nat, n: nat)
    requires Forms(e, embed, max, header) && ReadSize(e, embed, max, s) == Got(size, n)
    ensures size < LIMIT_SIZE && n <= |s| && (s[..n] == EncodeSize(embed, max, header, size) || s[..n] == [header] + Encode(size))
  {
    if embed <= s[0] < embed + max {
      assert s[..1] == [s[0]];
    } else {
      FieldTook(U64, s[1..], size, n - 1);
      assert s[..n] == [s[0]] + s[1..][..n - 1];
    }
  }

  lemma LongSize(e: Entry, embed: byte, max: nat, header: byte, size: nat, rest: seq<byte>)
    requires Forms(e, embed, max, header) && size < LIMIT_SIZE
    ensures ReadSize(e, embed, max, [header] + Encode(size) + rest) == Got(size, 1 + |Encode(size)|)
  {
    Glue([header], Encode(size), rest);
    ExpectHeader(header, Encode(size) + rest, e);
    FieldRoundTrip(U64, size, rest);
  }

  /** A size, too, is accepted in exactly two codes. */
  lemma SizeCodes(e: Entry, embed: byte, max: nat, header: byte, s: seq<byte>, size: nat, n: nat)
    requires Forms(e, embed, max, header) && size < LIMIT_SIZE
    ensures ReadSize(e, embed, max, s) == Got(size, n) <==>
            n <= |s| && (s[..n] == EncodeSize(embed, max, header, size) || s[..n] == [header] + Encode(size))
  {
    if ReadSize(e, embed, max, s) == Got(size, n) {
      SizeTook(e, embed, max, header, s, size, n);
    } else if n <= |s| {
      assert s == s[..n] + s[n..];
      if s[..n] == EncodeSize(embed, max, header, size) {
        SizeRoundTrip(e, embed, max, header, size, s[n..]);
      } else if s[..n] == [header] + Encode(size) {
        LongSize(e, embed, max, header, size, s[n..]);
      }
    }
  }

  function EncodeString(embed: byte, max: nat, header: byte, bs: seq<byte>): seq<byte>
    requires embed + max <= 256 && |bs| < TWO64
  {
    EncodeSize(embed, max, header, |bs|) + bs
  }

  /** `read_character` and `read_octet`. */
  function ReadString(e: Entry, embed: byte, max: nat, s: seq<byte>): (r: Read<seq<byte>>)
    requires embed + max <= 256
    ensures r.Got? ==> r.size <= |s|
  {
    match ReadSize(e, embed, max, s)
    case Fail(error) => Fail(error)
    case Got(n, k) => if |s| - k < n then Fail(Underflow) else Got(s[k..k + n], k + n)
  }

  /** `bytes` is a code of the size of `value`, and then `value`. */
  ghost predicate StringCode(embed: byte, max: nat, header: byte, bytes: seq<byte>, value: seq<byte>)
    requires embed + max <= 256
  {
    var size := |value|;
    size < LIMIT_SIZE && (bytes == EncodeSize(embed, max, header, size) + value || bytes == [header] + Encode(size) + value)
  }

  lemma StringCodeOf(embed: byte, max: nat, header: byte, code: seq<byte>, value: seq<byte>)
    requires embed + max <= 256 && |value| < LIMIT_SIZE
    requires code == EncodeSize(embed, max, header, |value|) || code == [header] + Encode(|value|)
    ensures StringCode(embed, max, header, code + value, value)
  {
  }

  lemma StringParts(e: Entry, embed: byte, max: nat, s: seq<byte>, value: seq<byte>, n: nat) returns (k: nat)
    requires embed + max <= 256 && ReadString(e, embed, max, s) == Got(value, n)
    ensures ReadSize(e, embed, max, s) == Got(|value|, k) && k <= n <= |s| && s[..n] == s[..k] + value
  {
    k := ReadSize(e, embed, max, s).size;
    assert s[..k + |value|] == s[..k] + s[k..k + |value|];
  }

  lemma StringTook(e: Entry, embed: byte, max: nat, header: byte, s: seq<byte>, value: seq<byte>, n: nat)
    requires Forms(e, embed, max, header) && ReadString(e, embed, max, s) == Got(value, n)
    ensures n <= |s| && StringCode(embed, max, header, s[..n], value)
  {
    var k := StringParts(e, embed, max, s, value, n);
    SizeTook(e, embed, max, header, s, |value|, k);
    StringCodeOf(embed, max, header, s[..k], value);
  }

  lemma StringRoundTrip(e: Entry, embed: byte, max: nat, header: byte, bs: seq<byte>, rest: seq<byte>)
    requires Forms(e, embed, max, header) && |bs| < LIMIT_SIZE
    ensures ReadString(e, embed, max, EncodeString(embed, max, header, bs) + rest)
         == Got(bs, |EncodeString(embed, max, header, bs)|)
  {
    var code := EncodeSize(embed, max, header, |bs|);
    SizeRoundTrip(e, embed, max, header, |bs|, bs + rest);
    Glue(code, bs, rest);
    assert (code + (bs + rest))[|code|..|code| + |bs|] == bs;
  }

  // ----- Decimals -----

  /** The least number of octets, found by trying. */
  function LeastSize(c: int, k: nat): nat
    requires 0 < k <= 17
    decreases 17 - k
  {
    if k == 17 || Fits(c, k) then k else LeastSize(c, k + 1)
  }

  lemma {:induction false} LeastSizeFits(c: int, k: nat)
    requires 0 < k <= 17 && Fits(c, 17)
    ensures k <= LeastSize(c, k) <= 17 && Fits(c, LeastSize(c, k))
    decreases 17 - k
  {
    if k < 17 && !Fits(c, k) {
      LeastSizeFits(c, k + 1);
    }
  }

  lemma {:induction false} LeastSizeFound(c: int, k: nat, size: nat)
    requires Least(c, size) && 1 <= k <= size <= 17
    ensures LeastSize(c, k) == size
    decreases size - k
  {
    if k < size {
      if Fits(c, k) {
        LeastIsLeast(c, size, k);
      }
      LeastSizeFound(c, k + 1, size);
    }
  }

  lemma DecimalFits(d: Decimal)
    requires ValidDecimal(d)
    ensures Fits(Coefficient(d), 17)
    ensures HasSmallCoefficient(d) <==> Fits(Coefficient(d), 8)
  {
    P256IsWord();
    SmallIsInt64(d);
    CoefficientBounds(d);
  }

  ghost function CompactCode(exponent: i32, c: i64): seq<byte> {
    [DECIMAL_COMPACT] + (EncodeField(S32, exponent) + EncodeField(S64, c))
  }

  ghost function FullCode(exponent: i32, c: int, k: nat): seq<byte>
    requires 0 < k <= 17 && Fits(c, k)
  {
    [DECIMAL] + (EncodeField(S32, exponent) + (Encode(k) + Complement(c, k)))
  }

  /** As an int, as exponent and coefficient, or as exponent, length and two's complement. */
  ghost function EncodeDecimal(d: Decimal): (r: seq<byte>)
    requires ValidDecimal(d)
    ensures 0 < |r| <= 36
  {
    DecimalFits(d);
    SmallIsInt64(d);
    var c := Coefficient(d);
    if HasSmallCoefficient(d) then
      if d.exponent == 0 then EncodeInt(c) else CompactCode(d.exponent, c)
    else
      LeastSizeFits(c, 1);
      FullCode(d.exponent, c, LeastSize(c, 1))
  }

  /** `read_decimal_coefficient`. */
  function ReadCoefficient(s: seq<byte>): (r: Read<seq<byte>>)
    ensures r.Got? ==> r.size <= |s| && CoefficientInRange(r.value)
  {
    match ReadField(U64, s)
    case Fail(e) => Fail(e)
    case Got(size, n) =>
      if size == 0 || size > 17 then Fail(OutOfRange)
      else if |s| - n < size then Fail(Underflow)
      else
        var bs := s[n..n + size];
        if CoefficientInRange(bs) then Got(bs, n + size) else Fail(OutOfRange)
  }

  lemma InRangeBounds(bs: seq<byte>)
    requires CoefficientInRange(bs)
    ensures -TWO64 * TWO64 < FromComplement(bs) < TWO64 * TWO64
  {
    P256IsWord();
    NumberBelow(bs);
    if |bs| < 17 {
      P256Grows(|bs|, 16);
      TopBit(bs);
      P256Positive(|bs| - 1);
    } else if bs[0] >= 128 {
      SeventeenOctets(bs);
    } else {
      assert bs == [bs[0]] + bs[1..];
      NumberPrepend(bs[0], bs[1..]);
      NumberBelow(bs[1..]);
    }
  }

  /** Exponent and coefficient octets of the full form. A negative coefficient of fewer than eight
      octets violates an assertion of the source. */
  function ReadFullParts(s: seq<byte>): (r: Read<(int, seq<byte>)>)
    ensures r.Got? ==> r.size <= |s| && FieldOk(S32, r.value.0) && CoefficientInRange(r.value.1)
  {
    match ReadField(S32, s)
    case Fail(e) => Fail(e)
    case Got(exponent, n) =>
      match ReadCoefficient(s[n..])
      case Fail(e) => Fail(e)
      case Got(bs, m) =>
        if bs[0] >= 128 && |bs| < 8 then Fail(AssertionViolated) else Got((exponent, bs), n + m)
  }

  function ReadFull(s: seq<byte>): (r: Read<Decimal>)
    ensures r.Got? ==> r.size <= |s|
  {
    match ReadFullParts(s)
    case Fail(e) => Fail(e)
    case Got((exponent, bs), n) =>
      InRangeBounds(bs);
      Got(DecimalOf(FromComplement(bs), exponent), n)
  }

  /** Exponent and coefficient of the compact form. */
  function ReadCompactParts(s: seq<byte>): (r: Read<(int, int)>)
    ensures r.Got? ==> r.size <= |s| && FieldOk(S32, r.value.0) && FieldOk(S64, r.value.1)
  {
    match ReadField(S32, s)
    case Fail(e) => Fail(e)
    case Got(exponent, n) =>
      match ReadField(S64, s[n..])
      case Fail(e) => Fail(e)
      case Got(c, m) => Got((exponent, c), n + m)
  }

  function ReadCompact(s: seq<byte>): (r: Read<Decimal>)
    ensures r.Got? ==> r.size <= |s|
    ensures r.Fail? ==> r.error != AssertionViolated
  {
    match ReadCompactParts(s)
    case Fail(e) => Fail(e)
    case Got((exponent, c), n) => Got(DecimalOf(c, exponent), n)
  }

  /** `read_decimal`; it also takes int entries. */
  function ReadDecimal(s: seq<byte>): (r: Read<Decimal>)
    ensures r.Got? ==> r.size <= |s|
  {
    if PeekType(s) == Got(EInt, 0) then
      match ReadInt(s)
      case Fail(e) => Fail(e)
      case Got(v, n) => Got(DecimalOf(v, 0), n)
    else
      match Expect(EDecimal, s)
      case Some(e) => Fail(e)
      case None => Skip(1, if s[0] == DECIMAL_COMPACT then ReadCompact(s[1..]) else ReadFull(s[1..]))
  }

  lemma ReadDecimalForm(h: byte, s: seq<byte>)
    requires h == DECIMAL_COMPACT || h == DECIMAL
    ensures ReadDecimal([h] + s) == Skip(1, if h == DECIMAL_COMPACT then ReadCompact(s) else ReadFull(s))
  {
    assert ([h] + s)[1..] == s;
  }

  lemma CompactBody(exponent: i32, c: i64, rest: seq<byte>)
    ensures ReadCompact(EncodeField(S32, exponent) + EncodeField(S64, c) + rest)
         == Got(DecimalOf(c, exponent), |EncodeField(S32, exponent)| + |EncodeField(S64, c)|)
  {
    var e, f := EncodeField(S32, exponent), EncodeField(S64, c);
    Glue(e, f, rest);
    FieldRoundTrip(S32, exponent, f + rest);
    FieldRoundTrip(S64, c, rest);
  }

  lemma CompactRoundTrip(exponent: i32, c: i64, rest: seq<byte>)
    ensures ReadDecimal(CompactCode(exponent, c) + rest) == Got(DecimalOf(c, exponent), |CompactCode(exponent, c)|)
  {
    var body := EncodeField(S32, exponent) + EncodeField(S64, c);
    CompactBody(exponent, c, rest);
    Glue([DECIMAL_COMPACT], body, rest);
    ReadDecimalForm(DECIMAL_COMPACT, body + rest);
  }

  lemma CoefficientRoundTrip(c: int, k: nat, rest: seq<byte>)
    requires 0 < k <= 17 && Fits(c, k) && CoefficientInRange(Complement(c, k))
    ensures ReadCoefficient(Encode(k) + Complement(c, k) + rest) == Got(Complement(c, k), |Encode(k)| + k)
  {
    var code, bs := Encode(k), Complement(c, k);
    FieldRoundTrip(U64, k, bs + rest);
    Glue(code, bs, rest);
    assert (code + (bs + rest))[|code|..|code| + k] == bs;
  }

  lemma FullBody(exponent: i32, c: int, k: nat, rest: seq<byte>)
    requires 8 <= k <= 17 && Fits(c, k) && -TWO64 * TWO64 < c < TWO64 * TWO64 && CoefficientInRange(Complement(c, k))
    ensures ReadFull(EncodeField(S32, exponent) + (Encode(k) + Complement(c, k)) + rest)
         == Got(DecimalOf(c, exponent), |EncodeField(S32, exponent)| + |Encode(k)| + k)
  {
    var e, f := EncodeField(S32, exponent), Encode(k) + Complement(c, k);
    Glue(e, f, rest);
    FieldRoundTrip(S32, exponent, f + rest);
    CoefficientRoundTrip(c, k, rest);
    ComplementRoundTrip(c, k);
  }

  lemma FullRoundTrip(exponent: i32, c: int, k: nat, rest: seq<byte>)
    requires 8 <= k <= 17 && Fits(c, k) && -TWO64 * TWO64 < c < TWO64 * TWO64 && CoefficientInRange(Complement(c, k))
    ensures ReadDecimal(FullCode(exponent, c, k) + rest) == Got(DecimalOf(c, exponent), |FullCode(exponent, c, k)|)
  {
    var body := EncodeField(S32, exponent) + (Encode(k) + Complement(c, k));
    FullBody(exponent, c, k, rest);
    Glue([DECIMAL], body, rest);
    ReadDecimalForm(DECIMAL, body + rest);
  }

  // ----- Where `read_decimal` violates its own assertion -----

  /** The bytes begin with a decimal in full form whose coefficient is negative and of fewer than eight octets. */
  ghost predicate ShortNegative(s: seq<byte>, exponent: i32, bs: seq<byte>) {
    0 < |bs| < 8 && bs[0] >= 128 && [DECIMAL] + (EncodeField(S32, exponent) + (Encode(|bs|) + bs)) <= s
  }

  lemma ShortNegativeIsRead(s: seq<byte>, exponent: i32, bs: seq<byte>)
    requires ShortNegative(s, exponent, bs)
    ensures ReadDecimal(s) == Fail(AssertionViolated)
  {
    var e, k := EncodeField(S32, exponent), Encode(|bs|);
    var code := [DECIMAL] + (e + (k + bs));
    var rest := s[|code|..];
    assert s == code + rest;
    Glue([DECIMAL], e + (k + bs), rest);
    Glue(e, k + bs, rest);
    Glue(k, bs, rest);
    ReadDecimalForm(DECIMAL, e + (k + bs) + rest);
    FieldRoundTrip(S32, exponent, k + bs + rest);
    FieldRoundTrip(U64, |bs|, bs + rest);
    assert (k + (bs + rest))[|k|..|k| + |bs|] == bs;
  }

  lemma CoefficientTook(s: seq<byte>, bs: seq<byte>, n: nat)
    requires ReadCoefficient(s) == Got(bs, n)
    ensures n <= |s| && s[..n] == Encode(|bs|) + bs
  {
    var Got(size, k) := ReadField(U64, s);
    FieldTook(U64, s, size, k);
    assert s[..n] == s[..k] + s[k..n];
  }

  lemma FullPartsTook(body: seq<byte>) returns (exponent: i32, bs: seq<byte>)
    requires ReadFullParts(body) == Fail(AssertionViolated)
    ensures 0 < |bs| < 8 && bs[0] >= 128 && EncodeField(S32, exponent) + (Encode(|bs|) + bs) <= body
  {
    var Got(i, n) := ReadField(S32, body);
    var Got(coefficient, m) := ReadCoefficient(body[n..]);
    exponent, bs := i, coefficient;
    FieldTook(S32, body, exponent, n);
    CoefficientTook(body[n..], bs, m);
    assert body[..n + m] == body[..n] + body[n..][..m];
  }

  lemma OnlyFullViolates(s: seq<byte>)
    requires s == [] || s[0] != DECIMAL
    ensures ReadDecimal(s) != Fail(AssertionViolated)
  {
  }

  lemma FullViolates(body: seq<byte>)
    requires ReadDecimal([DECIMAL] + body) == Fail(AssertionViolated)
    ensures ReadFullParts(body) == Fail(AssertionViolated)
  {
    ReadDecimalForm(DECIMAL, body);
  }

  lemma ViolationTook(s: seq<byte>) returns (exponent: i32, bs: seq<byte>)
    requires ReadDecimal(s) == Fail(AssertionViolated)
    ensures ShortNegative(s, exponent, bs)
  {
    if s == [] || s[0] != DECIMAL {
      OnlyFullViolates(s);
    }
    var body := s[1..];
    assert s == [DECIMAL] + body;
    FullViolates(body);
    exponent, bs := FullPartsTook(body);
  }

  /** It does exactly on such bytes. */
  lemma ViolatesExactly(s: seq<byte>)
    ensures ReadDecimal(s) == Fail(AssertionViolated) <==> exists exponent: i32, bs :: ShortNegative(s, exponent, bs)
  {
    if ReadDecimal(s) == Fail(AssertionViolated) {
      var exponent, bs := ViolationTook(s);
    }
    if exponent: i32, bs :| ShortNegative(s, exponent, bs) {
      ShortNegativeIsRead(s, exponent, bs);
    }
  }

  /** For example the number -1 in one octet. */
  lemma MinusOneInOneOctet()
    ensures ReadDecimal([0xed, 0, 1, 0xff]) == Fail(AssertionViolated)
  {
    var s := [0xed, 0, 1, 0xff];
    LimitIsU64();
    assert EncodeSigned(0) == 0 && Encode(0) == [0] && Encode(1) == [1];
    assert [DECIMAL] + (EncodeField(S32, 0) + (Encode(1) + [0xff])) == s;
    ShortNegativeIsRead(s, 0, [0xff]);
  }

  /** What the writer stores is within what the reader lets through. */
  lemma ComplementInRange(c: int, k: nat)
    requires 0 < k <= 17 && Fits(c, k) && -TWO64 * TWO64 < c < TWO64 * TWO64
    ensures CoefficientInRange(Complement(c, k))
  {
    if k == 17 {
      var t: nat := c + (if c < 0 then TWO64 * TWO64 else 0);
      SignOctet(c, t);
      var low := BigEndian(t, 16);
      P256IsWord();
      NumberOfBigEndian(t, 16);
      NumberZero(low);
      if c < 0 {
        var i :| 0 <= i < 16 && low[i] != 0;
        assert Complement(c, k)[i + 1] == low[i];
      }
    }
  }

  lemma {:induction false} LeastSizeIsLeast(c: int, k: nat)
    requires 1 < k <= 17 && !Fits(c, k - 1) && Fits(c, 17)
    ensures k <= LeastSize(c, k) <= 17 && Least(c, LeastSize(c, k))
    decreases 17 - k
  {
    if k < 17 && !Fits(c, k) {
      LeastSizeIsLeast(c, k + 1);
    }
  }

  lemma {:induction false} LeastSizeStartsLater(c: int, k: nat, j: nat)
    requires 1 <= k <= j <= 17 && j > 1 && !Fits(c, j - 1)
    ensures LeastSize(c, k) == LeastSize(c, j)
    decreases j - k
  {
    if k < j {
      if Fits(c, k) {
        FitsMore(c, k, j - 1);
      }
      LeastSizeStartsLater(c, k + 1, j);
    }
  }

  /** A coefficient beyond 64 bits takes nine to seventeen octets, and no fewer would do. */
  lemma LargeNeedsNine(d: Decimal)
    requires ValidDecimal(d) && !HasSmallCoefficient(d)
    ensures var k := LeastSize(Coefficient(d), 1);
            9 <= k <= 17 && Least(Coefficient(d), k)
  {
    DecimalFits(d);
    LeastSizeStartsLater(Coefficient(d), 1, 9);
    LeastSizeIsLeast(Coefficient(d), 9);
  }

  /** Every decimal is read back. */
  lemma DecimalRoundTrip(d: Decimal, rest: seq<byte>)
    requires ValidDecimal(d)
    ensures ReadDecimal(EncodeDecimal(d) + rest) == Got(d, |EncodeDecimal(d)|)
  {
    var c := Coefficient(d);
    DecimalOfCoefficient(d);
    SmallIsInt64(d);
    if HasSmallCoefficient(d) {
      if d.exponent == 0 {
        IntType(c);
        IntRoundTrip(c, rest);
      } else {
        CompactRoundTrip(d.exponent, c, rest);
      }
    } else {
      DecimalFits(d);
      LargeNeedsNine(d);
      var k := LeastSize(c, 1);
      ComplementInRange(c, k);
      FullRoundTrip(d.exponent, c, k, rest);
    }
  }

  // ----- Trees of values -----

  datatype Value =
    | Null
    | Int(i: i64)
    | Float4(bits: nat)
    | Float8(bits: nat)
    | Dec(d: Decimal)
    | Character(bs: seq<byte>)
    | Octet(bs: seq<byte>)
    | Stamp(kind: StampKind, fields: seq<int>)
    | Row(items: seq<Value>)
    | Array(items: seq<Value>)

  /** Which `read_*` calls to make. */
  datatype Shape =
    | SNull | SInt | SFloat4 | SFloat8 | SDec | SCharacter | SOctet | SStamp(kind: StampKind)
    | SRow(items: seq<Shape>) | SArray(items: seq<Shape>)

  ghost predicate ValidValue(v: Value) {
    match v
    case Float4(bits) => bits < P256(4)
    case Float8(bits) => bits < P256(8)
    case Dec(d) => ValidDecimal(d)
    case Character(bs) => |bs| < LIMIT_SIZE
    case Octet(bs) => |bs| < LIMIT_SIZE
    case Stamp(k, fields) => FieldsOk(StampFields(k), fields)
    case Row(items) => |items| < LIMIT_SIZE && ValidAll(items)
    case Array(items) => |items| < LIMIT_SIZE && ValidAll(items)
    case _ => true
  }

  ghost predicate ValidAll(vs: seq<Value>) {
    vs != [] ==> ValidValue(vs[0]) && ValidAll(vs[1..])
  }

  function ShapeOf(v: Value): Shape {
    match v
    case Null => SNull
    case Int(_) => SInt
    case Float4(_) => SFloat4
    case Float8(_) => SFloat8
    case Dec(_) => SDec
    case Character(_) => SCharacter
    case Octet(_) => SOctet
    case Stamp(k, _) => SStamp(k)
    case Row(items) => SRow(ShapesOf(items))
    case Array(items) => SArray(ShapesOf(items))
  }

  function ShapesOf(vs: seq<Value>): (r: seq<Shape>)
    ensures |r| == |vs|
  {
    if vs == [] then [] else [ShapeOf(vs[0])] + ShapesOf(vs[1..])
  }

  ghost function EncodeValue(v: Value): seq<byte>
    requires ValidValue(v)
  {
    match v
    case Null => [UNKNOWN]
    case Int(i) => EncodeInt(i)
    case Float4(bits) => EncodeFloat(FLOAT4, bits, 4)
    case Float8(bits) => EncodeFloat(FLOAT8, bits, 8)
    case Dec(d) => EncodeDecimal(d)
    case Character(bs) => EncodeString(EMBED_CHARACTER, 64, CHARACTER, bs)
    case Octet(bs) => EncodeString(EMBED_OCTET, 16, OCTET, bs)
    case Stamp(k, fields) => EncodeStamp(k, fields)
    case Row(items) => EncodeSize(EMBED_ROW, 32, ROW, |items|) + EncodeAll(items)
    case Array(items) => EncodeSize(EMBED_ARRAY, 32, ARRAY, |items|) + EncodeAll(items)
  }

  ghost function EncodeAll(vs: seq<Value>): seq<byte>
    requires ValidAll(vs)
  {
    if vs == [] then [] else EncodeValue(vs[0]) + EncodeAll(vs[1..])
  }

  function ReadNull(s: seq<byte>): (r: Read<Value>)
    ensures r.Got? ==> r.size <= |s|
  {
    match Expect(ENull, s)
    case Some(e) => Fail(e)
    case None => Got(Null, 1)
  }

  /** A result with its value wrapped. */
  function Map<T, U>(r: Read<T>, f: T -> U): Read<U> {
    match r
    case Fail(e) => Fail(e)
    case Got(v, n) => Got(f(v), n)
  }

  /** One `read_*` call for each entry a caller expects. */
  function ReadScalar(shape: Shape, s: seq<byte>): (r: Read<Value>)
    requires !shape.SRow? && !shape.SArray?
    ensures r.Got? ==> r.size <= |s|
  {
    match shape
    case SNull => ReadNull(s)
    case SInt => (match ReadInt(s) case Fail(e) => Fail(e) case Got(i, n) => Got(Int(i), n))
    case SFloat4 => Map(ReadFloat(EFloat4, 4, s), b => Float4(b))
    case SFloat8 => Map(ReadFloat(EFloat8, 8, s), b => Float8(b))
    case SDec => Map(ReadDecimal(s), d => Dec(d))
    case SCharacter => Map(ReadString(ECharacter, EMBED_CHARACTER, 64, s), bs => Character(bs))
    case SOctet => Map(ReadString(EOctet, EMBED_OCTET, 16, s), bs => Octet(bs))
    case SStamp(k) => Map(ReadStamp(k, s), fields => Stamp(k, fields))
  }

  /** Reading a tree. */
  function ReadValue(shape: Shape, s: seq<byte>): (r: Read<Value>)
    ensures r.Got? ==> r.size <= |s|
    decreases shape, 0
  {
    match shape
    case SRow(items) => Map(ReadItems(ERow, EMBED_ROW, items, s), vs => Row(vs))
    case SArray(items) => Map(ReadItems(EArray, EMBED_ARRAY, items, s), vs => Array(vs))
    case _ => ReadScalar(shape, s)
  }

  /** A container; one of another size than the caller expects is a mismatch. */
  function ReadItems(e: Entry, embed: byte, shapes: seq<Shape>, s: seq<byte>): (r: Read<seq<Value>>)
    requires embed + 32 <= 256
    ensures r.Got? ==> r.size <= |s|
    decreases shapes, 1
  {
    match ReadSize(e, embed, 32, s)
    case Fail(error) => Fail(error)
    case Got(n, k) => if n != |shapes| then Fail(Mismatch) else Skip(k, ReadAll(shapes, s[k..]))
  }

  function ReadAll(shapes: seq<Shape>, s: seq<byte>): (r: Read<seq<Value>>)
    ensures r.Got? ==> r.size <= |s|
    decreases shapes, 0
  {
    if shapes == [] then Got([], 0) else
      match ReadValue(shapes[0], s)
      case Fail(e) => Fail(e)
      case Got(v, n) =>
        match ReadAll(shapes[1..], s[n..])
        case Fail(e) => Fail(e)
        case Got(vs, m) => Got([v] + vs, n + m)
  }

  ghost predicate Scalar(v: Value) {
    !v.Row? && !v.Array?
  }

  lemma ScalarRoundTrip(v: Value, rest: seq<byte>)
    requires ValidValue(v) && Scalar(v)
    ensures ReadScalar(ShapeOf(v), EncodeValue(v) + rest) == Got(v, |EncodeValue(v)|)
  {
    match v
    case Null => ExpectHeader(UNKNOWN, rest, ENull);
    case Int(i) => IntRoundTrip(i, rest);
    case Float4(bits) => FloatRoundTrip(EFloat4, FLOAT4, bits, 4, rest);
    case Float8(bits) => FloatRoundTrip(EFloat8, FLOAT8, bits, 8, rest);
    case Dec(d) => DecimalRoundTrip(d, rest);
    case Character(bs) => StringRoundTrip(ECharacter, EMBED_CHARACTER, 64, CHARACTER, bs, rest);
    case Octet(bs) => StringRoundTrip(EOctet, EMBED_OCTET, 16, OCTET, bs, rest);
    case Stamp(k, fields) => StampRoundTrip(k, fields, rest);
  }

  /** Every tree of values is read back, and reading stops exactly at its end. */
  lemma {:induction false} ValueRoundTrip(v: Value, rest: seq<byte>)
    requires ValidValue(v)
    ensures ReadValue(ShapeOf(v), EncodeValue(v) + rest) == Got(v, |EncodeValue(v)|)
    decreases v, 0
  {
    match v
    case Row(items) => ItemsRoundTrip(ERow, EMBED_ROW, ROW, items, rest);
    case Array(items) => ItemsRoundTrip(EArray, EMBED_ARRAY, ARRAY, items, rest);
    case _ => ScalarRoundTrip(v, rest);
  }

  lemma {:induction false} ItemsRoundTrip(e: Entry, embed: byte, header: byte, vs: seq<Value>, rest: seq<byte>)
    requires Forms(e, embed, 32, header) && |vs| < LIMIT_SIZE && ValidAll(vs)
    ensures var code := EncodeSize(embed, 32, header, |vs|) + EncodeAll(vs);
            ReadItems(e, embed, ShapesOf(vs), code + rest) == Got(vs, |code|)
    decreases vs, 1
  {
    var code, body := EncodeSize(embed, 32, header, |vs|), EncodeAll(vs);
    SizeRoundTrip(e, embed, 32, header, |vs|, body + rest);
    Glue(code, body, rest);
    AllRoundTrip(vs, rest);
  }

  lemma ReadAllFirst(shape: Shape, shapes: seq<Shape>, a: seq<byte>, b: seq<byte>, v: Value, vs: seq<Value>, m: nat)
    requires ReadValue(shape, a + b) == Got(v, |a|) && ReadAll(shapes, b) == Got(vs, m)
    ensures ReadAll([shape] + shapes, a + b) == Got([v] + vs, |a| + m)
  {
    assert (a + b)[|a|..] == b;
    assert ([shape] + shapes)[1..] == shapes;
  }

  lemma {:induction false} AllRoundTrip(vs: seq<Value>, rest: seq<byte>)
    requires ValidAll(vs)
    ensures ReadAll(ShapesOf(vs), EncodeAll(vs) + rest) == Got(vs, |EncodeAll(vs)|)
    decreases vs, 0
  {
    if vs == [] {
    } else {
      var first, more := EncodeValue(vs[0]), EncodeAll(vs[1..]);
      ValueRoundTrip(vs[0], more + rest);
      AllRoundTrip(vs[1..], rest);
      ReadAllFirst(ShapeOf(vs[0]), ShapesOf(vs[1..]), first, more + rest, vs[0], vs[1..], |more|);
      Glue(first, more, rest);
      assert vs == [vs[0]] + vs[1..];
    }
  }

  /** The entry a value is announced as; a decimal that is an integer is announced as one. */
  function EntryOf(v: Value): Entry {
    match v
    case Null => ENull
    case Int(_) => EInt
    case Float4(_) => EFloat4
    case Float8(_) => EFloat8
    case Dec(d) => if HasSmallCoefficient(d) && d.exponent == 0 then EInt else EDecimal
    case Character(_) => ECharacter
    case Octet(_) => EOctet
    case Stamp(k, _) => EStamp(k)
    case Row(_) => ERow
    case Array(_) => EArray
  }

  /** `peek_type` announces every value without consuming it. */
  lemma PeekValue(v: Value, rest: seq<byte>)
    requires ValidValue(v)
    ensures PeekType(EncodeValue(v) + rest) == Got(EntryOf(v), 0)
  {
    match v
    case Int(i) => IntType(i);
    case Dec(d) => {
      SmallIsInt64(d);
      if HasSmallCoefficient(d) && d.exponent == 0 {
        IntType(Coefficient(d));
      }
    }
    case Character(bs) => SizeType(ECharacter, EMBED_CHARACTER, 64, CHARACTER, |bs|);
    case Octet(bs) => SizeType(EOctet, EMBED_OCTET, 16, OCTET, |bs|);
    case Row(items) => SizeType(ERow, EMBED_ROW, 32, ROW, |items|);
    case Array(items) => SizeType(EArray, EMBED_ARRAY, 32, ARRAY, |items|);
    case Stamp(k, _) => StampType(k);
    case _ =>
  }
}
