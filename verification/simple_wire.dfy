/** The buffer accesses of `simple_wire` on the buffer itself: copies that wrap around, and the
    two ways to read a message (`read`, or `payload` and `dispose`). */
module SimpleWire {
  import opened Ring
  import opened Wire

  /** The `len` bytes a ring holds from stream position `n` on. */
  function Slice(buf: seq<byte>, n: nat, len: nat): (r: seq<byte>)
    requires |buf| > 0
    ensures |r| == len
    ensures forall k: nat :: k < len ==> r[k] == At(buf, n + k)
  {
    seq<byte>(len, k requires 0 <= k < len => At(buf, n + k))
  }

  /** Crossing the end of the buffer at most once, a slice is the rest of the buffer and its start. */
  lemma SliceWraps(buf: seq<byte>, n: nat, len: nat)
    requires |buf| > 0 && len <= |buf|
    ensures var top := n % |buf|;
            Slice(buf, n, len) == if top + len <= |buf| then buf[top..top + len]
                                  else buf[top..] + buf[..len - (|buf| - top)]
  {
    var cap, top := |buf|, n % |buf|;
    var r := if top + len <= cap then buf[top..top + len] else buf[top..] + buf[..len - (cap - top)];
    forall k: nat | k < len
      ensures Slice(buf, n, len)[k] == r[k]
    {
      OffsetCell(n, k, cap);
    }
  }

  /** The ring after `from` is stored from position `n` on: those positions hold `from`, the
      others of one turn are as before. */
  ghost predicate Stores(buf: seq<byte>, buf': seq<byte>, n: nat, from: seq<byte>) {
    && |buf'| == |buf| > 0
    && forall i: nat :: n <= i < n + |buf| ==> At(buf', i) == if i < n + |from| then from[i - n] else At(buf, i)
  }

  /** `write_in_buffer`: one copy, or two around the end. */
  method WriteInBuffer(buffer: array<byte>, n: nat, from: seq<byte>)
    requires 0 < buffer.Length && |from| <= buffer.Length
    modifies buffer
    ensures Stores(old(buffer[..]), buffer[..], n, from)
  {
    var cap := buffer.Length;
    var top := n % cap;
    if cap >= top + |from| {
      forall k | 0 <= k < |from| {
        buffer[top + k] := from[k];
      }
    } else {
      var first := cap - top;
      forall k | 0 <= k < first {
        buffer[top + k] := from[k];
      }
      forall k | 0 <= k < |from| - first {
        buffer[k] := from[first + k];
      }
    }
    forall i: nat | n <= i < n + cap
      ensures At(buffer[..], i) == if i < n + |from| then from[i - n] else At(old(buffer[..]), i)
    {
      OffsetCell(n, i - n, cap);
    }
  }

  /** `read_from_buffer`, also `copy_header`: one copy, or two around the end. */
  method ReadFromBuffer(buffer: array<byte>, n: nat, len: nat) returns (bytes: seq<byte>)
    requires 0 < buffer.Length && len <= buffer.Length
    ensures bytes == Slice(buffer[..], n, len)
  {
    SliceWraps(buffer[..], n, len);
    var cap := buffer.Length;
    var from := n % cap;
    if cap >= from + len {
      bytes := buffer[from..from + len];
    } else {
      var first := cap - from;
      bytes := buffer[from..] + buffer[..len - first];
    }
    assert bytes == Slice(buffer[..], n, len);
  }

  /** Storing and then reading the same positions gives the bytes back. */
  lemma StoredIsRead(buf: seq<byte>, buf': seq<byte>, n: nat, from: seq<byte>)
    requires Stores(buf, buf', n, from) && |from| <= |buf|
    ensures Slice(buf', n, |from|) == from
  {
  }

  /** What `payload` decides: the message lies in one piece. */
  predicate InOnePiece(cap: nat, hs: nat, poped: nat, length: nat)
    requires cap > 0
  {
    (poped + hs) % cap < (poped + hs + length) % cap
  }

  /** The piece `payload` shows is inside the buffer exactly for lengths below the capacity. */
  lemma ViewInsideBuffer(cap: nat, hs: nat, poped: nat, length: nat)
    requires cap > 0 && InOnePiece(cap, hs, poped, length)
    ensures (poped + hs) % cap + length <= cap <==> length < cap
  {
    if length < cap {
      OffsetCell(poped + hs, length, cap);
    } else if length == cap {
      assert (poped + hs + cap) % cap == (poped + hs) % cap by {
        DivModUnique(poped + hs + cap, cap, (poped + hs) / cap + 1, (poped + hs) % cap);
      }
    }
  }

  /** Inside the buffer, the piece is the slice `read` would copy. */
  lemma ViewIsSlice(buf: seq<byte>, hs: nat, poped: nat, length: nat)
    requires |buf| > 0 && length < |buf| && InOnePiece(|buf|, hs, poped, length)
    ensures var top := (poped + hs) % |buf|;
            top + length <= |buf| && buf[top..top + length] == Slice(buf, poped + hs, length)
  {
    ViewInsideBuffer(|buf|, hs, poped, length);
    SliceWraps(buf, poped + hs, length);
  }

  // ----- When `payload` gives the payload -----

  /** As much of the message as the ring can hold lies in it from the popped position on. */
  ghost predicate OnTheWire(buf: seq<byte>, poped: nat, bytes: seq<byte>) {
    |buf| > 0 && forall i: nat :: poped <= i < poped + |bytes| && i < poped + |buf| ==> At(buf, i) == bytes[i - poped]
  }

  /** The piece shown is inside the ring and is the payload. */
  ghost predicate Shows(buf: seq<byte>, hs: nat, poped: nat, payload: seq<byte>)
    requires |buf| > 0
  {
    var top := (poped + hs) % |buf|;
    top + |payload| <= |buf| && buf[top..top + |payload|] == payload
  }

  /** Whatever message of this length arrives at this position, a piece that `payload` shows is its
      payload. (What it does not show in one piece, it copies by `read`.) */
  ghost predicate AlwaysRight(cap: nat, hs: nat, poped: nat, length: nat)
    requires cap > 0
  {
    InOnePiece(cap, hs, poped, length) ==>
      forall buf: seq<byte>, m: Msg ::
        |buf| == cap && |m.header| == hs && hs >= 4 && Length(m.header) == |m.payload| == length && OnTheWire(buf, poped, Bytes(m)) ==>
          Shows(buf, hs, poped, m.payload)
  }

  lemma FittingIsShown(buf: seq<byte>, poped: nat, m: Msg)
    requires |buf| > 0 && OnTheWire(buf, poped, Bytes(m)) && |Bytes(m)| <= |buf|
    requires |m.header| > 0 && InOnePiece(|buf|, |m.header|, poped, |m.payload|)
    ensures Shows(buf, |m.header|, poped, m.payload)
  {
    var hs := |m.header|;
    ViewIsSlice(buf, hs, poped, |m.payload|);
    forall k: nat | k < |m.payload|
      ensures Slice(buf, poped + hs, |m.payload|)[k] == m.payload[k]
    {
      assert At(buf, poped + hs + k) == Bytes(m)[hs + k];
    }
  }

  /** A ring that holds `bytes` from position `poped` on. */
  ghost function RingOf(cap: nat, poped: nat, bytes: seq<byte>): (buf: seq<byte>)
    requires 0 < cap <= |bytes|
    ensures |buf| == cap
  {
    var r := poped % cap;
    seq<byte>(cap, j requires 0 <= j < cap => if j >= r then bytes[j - r] else bytes[j + cap - r])
  }

  lemma RingOfHolds(cap: nat, poped: nat, bytes: seq<byte>)
    requires 0 < cap <= |bytes|
    ensures OnTheWire(RingOf(cap, poped, bytes), poped, bytes)
  {
    var buf := RingOf(cap, poped, bytes);
    forall i: nat | poped <= i < poped + |bytes| && i < poped + |buf|
      ensures At(buf, i) == bytes[i - poped]
    {
      OffsetCell(poped, i - poped, cap);
    }
  }

  /** A message of length `length` whose last byte is not byte `at` of its header. */
  ghost function Contrary(hs: nat, length: nat, at: nat): (m: Msg)
    requires 4 <= hs && length < 0x1_0000_0000
    ensures |m.header| == hs && |m.payload| == length
  {
    var header := seq<byte>(hs - 4, _ => 0) + LengthHeader(length);
    var other: byte := if at < hs && header[at] == 0 then 1 else 0;
    Msg(header, seq<byte>(length, _ => other))
  }

  lemma ContraryIsMessage(hs: nat, length: nat, at: nat)
    requires 4 <= hs && 0 < length < 0x1_0000_0000 && at < hs
    ensures var m := Contrary(hs, length, at);
            Length(m.header) == length && m.payload[length - 1] != m.header[at]
  {
    LengthHeaderRead(length);
    var m := Contrary(hs, length, at);
    assert m.header[hs - 4..] == LengthHeader(length);
  }

  lemma SameCell(i: nat, cap: nat)
    requires cap > 0
    ensures (i + cap) % cap == i % cap
  {
    DivModUnique(i + cap, cap, i / cap + 1, i % cap);
  }

  /** Too long for the ring and yet shown in one piece: the end of the piece is the header's. */
  lemma ShownEndIsHeader(buf: seq<byte>, poped: nat, m: Msg, k: nat)
    requires |buf| > 0 && OnTheWire(buf, poped, Bytes(m)) && 0 < |m.header| <= |buf|
    requires |m.payload| < |buf| && InOnePiece(|buf|, |m.header|, poped, |m.payload|)
    requires |buf| - |m.header| <= k < |m.payload|
    ensures var top := (poped + |m.header|) % |buf|;
            top + |m.payload| <= |buf| && buf[top + k] == m.header[|m.header| + k - |buf|]
  {
    var hs, at := |m.header|, |m.header| + k - |buf|;
    ViewIsSlice(buf, hs, poped, |m.payload|);
    assert Slice(buf, poped + hs, |m.payload|)[k] == At(buf, poped + at + |buf|);
    SameCell(poped + at, |buf|);
    assert At(buf, poped + at) == Bytes(m)[at];
  }

  lemma NotShown(buf: seq<byte>, poped: nat, m: Msg)
    requires |buf| > 0 && OnTheWire(buf, poped, Bytes(m)) && 0 < |m.header| <= |buf| < |Bytes(m)|
    requires InOnePiece(|buf|, |m.header|, poped, |m.payload|)
    requires |m.payload| < |buf| ==> m.payload[|m.payload| - 1] != m.header[|Bytes(m)| - 1 - |buf|]
    ensures !Shows(buf, |m.header|, poped, m.payload)
  {
    if |m.payload| < |buf| {
      ShownEndIsHeader(buf, poped, m, |m.payload| - 1);
    } else {
      ViewInsideBuffer(|buf|, |m.header|, poped, |m.payload|);
    }
  }

  lemma TooLongIsWrong(cap: nat, hs: nat, poped: nat, length: nat)
    requires 4 <= hs <= cap < hs + length && length < 0x1_0000_0000 && InOnePiece(cap, hs, poped, length)
    ensures !AlwaysRight(cap, hs, poped, length)
  {
    var at := if length < cap then hs + length - 1 - cap else 0;
    var m := Contrary(hs, length, at);
    var buf := RingOf(cap, poped, Bytes(m));
    ContraryIsMessage(hs, length, at);
    RingOfHolds(cap, poped, Bytes(m));
    NotShown(buf, poped, m);
  }

  /** `payload` is right at a position exactly if it copies, or header and payload fit the ring. */
  lemma PayloadExactly(cap: nat, hs: nat, poped: nat, length: nat)
    requires 4 <= hs <= cap && length < 0x1_0000_0000
    ensures AlwaysRight(cap, hs, poped, length) <==> !InOnePiece(cap, hs, poped, length) || hs + length <= cap
  {
    if InOnePiece(cap, hs, poped, length) {
      if hs + length <= cap {
        forall buf: seq<byte>, m: Msg |
          |buf| == cap && |m.header| == hs && Length(m.header) == |m.payload| == length && OnTheWire(buf, poped, Bytes(m))
          ensures Shows(buf, hs, poped, m.payload)
        {
          FittingIsShown(buf, poped, m);
        }
      } else {
        TooLongIsWrong(cap, hs, poped, length);
      }
    }
  }

  /** Such a message: nine bytes behind a header of four, in a ring of ten, from position six on. The
      piece shown ends with three bytes of the header, and disposing of it pops thirteen. */
  lemma PayloadShowsHeader() returns (buf: seq<byte>, m: Msg)
    ensures |buf| == 10 && |m.header| == 4 && Length(m.header) == |m.payload| == 9 && OnTheWire(buf, 6, Bytes(m))
    ensures InOnePiece(10, 4, 6, 9) && !Shows(buf, 4, 6, m.payload)
    ensures buf[(6 + 4) % 10..][..9] == m.payload[..6] + m.header[..3]
  {
    m := Msg([9, 0, 0, 0], [1, 2, 3, 4, 5, 6, 7, 8, 9]);
    RingOfHolds(10, 6, Bytes(m));
    buf := RingOf(10, 6, Bytes(m));
    assert buf == [1, 2, 3, 4, 5, 6, 9, 0, 0, 0];
    assert buf[8] != m.payload[8];
  }

  lemma HeldSlice(buf: seq<byte>, stream: seq<byte>, n: nat, len: nat)
    requires |buf| > 0 && Holds(buf, stream, n, n + len)
    ensures Slice(buf, n, len) == stream[n..n + len]
  {
    forall k: nat | k < len
      ensures Slice(buf, n, len)[k] == stream[n + k]
    {
      assert At(buf, n + k) == stream[n + k];
    }
  }

  // ----- The reader -----

  /** What `payload` gives: bytes, or a view that leaves the buffer. */
  datatype Shown = View(bytes: seq<byte>) | PastTheEnd

  /** The reader's side of a wire, after `peep` or `await` has received a header. */
  class WireReader {
    const hs: nat
    const buffer: array<byte>
    /** What the writer puts on the wire, by stream position. */
    const stream: seq<byte>
    var poped: nat
    var header: seq<byte>
    var needDispose: nat
    var copyOfPayload: seq<byte>

    ghost predicate Valid()
      reads this
    {
      4 <= hs == |header| && hs <= buffer.Length
    }

    /** The message is being written, and its first chunk is there. */
    ghost predicate Arriving()
      requires Valid()
      reads this, buffer
    {
      && poped + hs + Length(header) <= |stream|
      && Holds(buffer[..], stream, poped, poped + Min(hs + Length(header), buffer.Length))
    }

    ghost function Message(): seq<byte>
      requires Valid() && Arriving()
      reads this, buffer
    {
      stream[poped + hs..poped + hs + Length(header)]
    }

    constructor (hs: nat, buffer: array<byte>, stream: seq<byte>, poped: nat, header: seq<byte>)
      requires 4 <= hs == |header| && hs <= buffer.Length
      ensures Valid() && this.hs == hs && this.buffer == buffer && this.stream == stream && this.poped == poped && this.header == header
      ensures needDispose == 0 && copyOfPayload == []
    {
      this.hs, this.buffer, this.stream, this.poped, this.header := hs, buffer, stream, poped, header;
      needDispose, copyOfPayload := 0, [];
    }

    /** The wait of the chunk loop: the writer stores the next `n` bytes. */
    method WaitStored(n: nat)
      requires 0 < buffer.Length && n <= buffer.Length && poped + n <= |stream|
      modifies buffer
      ensures Holds(buffer[..], stream, poped, poped + n)
    {
      WriteInBuffer(buffer, poped, stream[poped..poped + n]);
    }

    /** `read`: the whole message, chunk by chunk. */
    method Read() returns (bytes: seq<byte>)
      requires Valid() && Arriving()
      modifies this`poped, buffer
      ensures Valid() && bytes == old(Message()) && poped == old(poped) + hs + Length(header)
    {
      var length := Length(header);
      var n := Min(length, buffer.Length - hs);
      bytes := ReadFromBuffer(buffer, poped + hs, n);
      HeldSlice(buffer[..], stream, poped + hs, n);
      poped := poped + hs + n;
      ghost var start := old(poped) + hs;
      while |bytes| < length
        invariant |bytes| <= length && poped == start + |bytes| && bytes == stream[start..start + |bytes|]
      {
        n := Min(length - |bytes|, buffer.Length);
        WaitStored(n);
        var chunk := ReadFromBuffer(buffer, poped, n);
        HeldSlice(buffer[..], stream, poped, n);
        bytes := bytes + chunk;
        poped := poped + n;
      }
    }

    /** `payload`: a view into the ring to be disposed of later, or a copy popped at once. */
    method Payload() returns (shown: Shown)
      requires Valid() && Arriving()
      modifies this, buffer
      ensures Valid() && header == old(header)
      ensures if InOnePiece(buffer.Length, hs, old(poped), Length(header)) then
                && poped == old(poped) && needDispose == hs + Length(header) && buffer[..] == old(buffer[..])
                && (shown == PastTheEnd <==> Length(header) >= buffer.Length)
                && (shown.View? ==> shown.bytes == Slice(buffer[..], poped + hs, Length(header)))
                && (hs + Length(header) <= buffer.Length ==> shown == View(old(Message())))
              else
                poped == old(poped) + hs + Length(header) && needDispose == old(needDispose) && shown == View(old(Message()))
    {
      var length := Length(header);
      var cap := buffer.Length;
      if (poped + hs) % cap < (poped + hs + length) % cap {
        needDispose := hs + length;
        var top := (poped + hs) % cap;
        ViewInsideBuffer(cap, hs, poped, length);
        if top + length > cap {
          return PastTheEnd;
        }
        ViewIsSlice(buffer[..], hs, poped, length);
        if hs + length <= cap {
          HeldSlice(buffer[..], stream, poped + hs, length);
        }
        shown := View(buffer[top..top + length]);
      } else {
        var bytes := Read();
        copyOfPayload := bytes;
        shown := View(bytes);
      }
    }

    /** `dispose`. */
    method Dispose()
      requires Valid()
      modifies this
      ensures Valid() && header == old(header)
      ensures poped == old(poped) + old(needDispose) && needDispose == 0 && copyOfPayload == []
    {
      if needDispose > 0 {
        poped := poped + needDispose;
        needDispose := 0;
      }
      copyOfPayload := [];
    }
  }

  /** Zero-copy refines copy: on two wires in the same state, `payload` and `dispose` on one give
      the bytes and the position that the whole of `read` gives on the other, for messages of any
      length that `payload` copies and for those it shows if they fit the ring. */
  method ZeroCopyRefinesCopy(a: WireReader, b: WireReader) returns (shown: Shown, copied: seq<byte>)
    requires a != b && a.buffer != b.buffer && a.Valid() && a.Arriving() && b.Valid() && b.Arriving() && a.needDispose == 0
    requires a.hs == b.hs && a.stream == b.stream && a.poped == b.poped && a.header == b.header && a.buffer.Length == b.buffer.Length
    requires !InOnePiece(a.buffer.Length, a.hs, a.poped, Length(a.header)) || a.hs + Length(a.header) <= a.buffer.Length
    modifies a, b, a.buffer, b.buffer
    ensures shown == View(copied) && copied == old(b.Message()) && a.poped == b.poped && a.needDispose == 0
  {
    shown := a.Payload();
    a.Dispose();
    copied := b.Read();
  }
}
