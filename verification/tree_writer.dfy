/** Writing a tree of values through the value writer, call by call, and reading it back. */
module TreeWriter {
  import opened Ring
  import opened Octets
  import opened Values
  import opened ValueWriter

  /** The call for a date, a time, a time point or an interval. */
  method WriteStamp(w: Writer, kind: StampKind, vs: seq<int>)
    requires FieldsOk(StampFields(kind), vs)
    modifies w, w.buffer
    ensures w.out == old(w.out) + EncodeStamp(kind, vs) && (w.buffer == old(w.buffer) || fresh(w.buffer))
  {
    match kind
    case Date =>
      assert vs == [vs[0]];
      w.WriteDate(vs[0]);
    case TimeOfDay =>
      assert vs == [vs[0]];
      w.WriteTimeOfDay(vs[0]);
    case TimeOfDayWithOffset =>
      assert vs == [vs[0], vs[1]];
      w.WriteTimeOfDayWithOffset(vs[0], vs[1]);
    case TimePoint =>
      assert vs == [vs[0], vs[1]];
      w.WriteTimePoint(vs[0], vs[1]);
    case TimePointWithOffset =>
      assert vs == [vs[0], vs[1], vs[2]];
      w.WriteTimePointWithOffset(vs[0], vs[1], vs[2]);
    case DatetimeInterval =>
      assert vs == [vs[0], vs[1], vs[2], vs[3]];
      w.WriteDatetimeInterval(vs[0], vs[1], vs[2], vs[3]);
  }

  /** The call for an entry that holds no others. */
  method WriteScalar(w: Writer, v: Value)
    requires ValidValue(v) && Scalar(v)
    modifies w, w.buffer
    ensures w.out == old(w.out) + EncodeValue(v) && (w.buffer == old(w.buffer) || fresh(w.buffer))
  {
    P256IsWord();
    assert P256(4) == 0x1_0000_0000;
    match v
    case Null => w.WriteNull();
    case Int(i) => w.WriteInt(i);
    case Float4(bits) => w.WriteFloat4(bits);
    case Float8(bits) => w.WriteFloat8(bits);
    case Dec(d) => w.WriteDecimal(d);
    case Character(bs) => w.WriteCharacter(bs);
    case Octet(bs) => w.WriteOctet(bs);
    case Stamp(kind, fields) => WriteStamp(w, kind, fields);
  }

  lemma Append(out: seq<byte>, a: seq<byte>, b: seq<byte>)
    ensures out + a + b == out + (a + b)
  {
  }

  /** The calls for a tree: a container's size, then its items. */
  method WriteTree(w: Writer, v: Value)
    requires ValidValue(v)
    modifies w, w.buffer
    ensures w.out == old(w.out) + EncodeValue(v) && (w.buffer == old(w.buffer) || fresh(w.buffer))
    decreases v
  {
    match v
    case Row(items) =>
      w.WriteRowBegin(|items|);
      WriteTrees(w, items);
      Append(old(w.out), EncodeSize(EMBED_ROW, 32, ROW, |items|), EncodeAll(items));
    case Array(items) =>
      w.WriteArrayBegin(|items|);
      WriteTrees(w, items);
      Append(old(w.out), EncodeSize(EMBED_ARRAY, 32, ARRAY, |items|), EncodeAll(items));
    case _ => WriteScalar(w, v);
  }

  method WriteTrees(w: Writer, vs: seq<Value>)
    requires ValidAll(vs)
    modifies w, w.buffer
    ensures w.out == old(w.out) + EncodeAll(vs) && (w.buffer == old(w.buffer) || fresh(w.buffer))
    decreases vs
  {
    if vs != [] {
      WriteTree(w, vs[0]);
      WriteTrees(w, vs[1..]);
      Append(old(w.out), EncodeValue(vs[0]), EncodeAll(vs[1..]));
    }
  }

  /** What the writer handed on for a tree reads back as the tree, with any bytes behind it. */
  method WriteAndRead(w: Writer, v: Value, ghost rest: seq<byte>) returns (start: nat)
    requires ValidValue(v)
    modifies w, w.buffer
    ensures start == |old(w.out)| <= |w.out| && w.out[..start] == old(w.out)
    ensures ReadValue(ShapeOf(v), w.out[start..] + rest) == Got(v, |w.out| - start)
  {
    start := |w.out|;
    WriteTree(w, v);
    ValueRoundTrip(v, rest);
    assert w.out[start..] == EncodeValue(v);
  }
}
