/** The value writer: an entry is stored in a buffer of its own and then handed on whole. */
module ValueWriter {
  import opened Ring
  import opened Base128v
  import opened Decimals
  import opened Values
  import opened ValueOutput

  /** With room for the code, a writer starting at the front succeeds and leaves it there. */
  lemma FitsInBuffer(was: seq<byte>, now: seq<byte>, code: seq<byte>, ok: bool, n: nat)
    requires code != [] && |code| <= |was| && Wrote(was, now, 0, |was|, code, ok, n)
    ensures ok && n == |code| <= |now| && now[..n] == code
  {
  }

  lemma {:induction false} FieldsBound(ks: seq<Field>, vs: seq<int>)
    requires FieldsOk(ks, vs)
    ensures |EncodeFields(ks, vs)| <= 9 * |ks|
    decreases |ks|
  {
    if ks != [] {
      FieldsBound(ks[1..], vs[1..]);
    }
  }

  lemma StampBound(k: StampKind, vs: seq<int>)
    requires FieldsOk(StampFields(k), vs)
    ensures |EncodeStamp(k, vs)| <= 37
  {
    FieldsBound(StampFields(k), vs);
  }

  /** The integers of an entry, one by one. */
  lemma FieldsAt(k: StampKind, vs: seq<int>)
    requires FieldsOk(StampFields(k), vs)
    ensures FieldOk(StampFields(k)[0], vs[0])
    ensures |vs| > 1 ==> FieldOk(StampFields(k)[1], vs[1])
    ensures |vs| > 2 ==> FieldOk(StampFields(k)[2], vs[2])
    ensures |vs| > 3 ==> FieldOk(StampFields(k)[3], vs[3])
  {
  }

  class Writer {
    var buffer: array<byte>
    /** What the underlying writer was given so far. */
    var out: seq<byte>

    constructor ()
      ensures out == [] && fresh(buffer)
    {
      buffer := new byte[0];
      out := [];
    }

    /** `buffer(reserve)`: grows the buffer if it is too small, keeping what it holds. */
    method Buffer(reserve: nat)
      modifies this`buffer
      ensures buffer.Length >= reserve && (buffer == old(buffer) || fresh(buffer))
      ensures old(buffer).Length <= buffer.Length && buffer[..old(buffer).Length] == old(buffer[..])
      ensures buffer.Length == if old(buffer.Length) < reserve then reserve else old(buffer.Length)
    {
      if buffer.Length < reserve {
        var bigger := new byte[reserve](_ => 0);
        forall i | 0 <= i < buffer.Length {
          bigger[i] := buffer[i];
        }
        buffer := bigger;
      }
    }

    /** Hands on the first `n` bytes of the buffer. */
    method Send(n: nat)
      requires n <= buffer.Length
      modifies this`out
      ensures out == old(out) + buffer[..n]
    {
      out := out + buffer[..n];
    }

    method WriteEndOfContents()
      modifies this, buffer
      ensures out == old(out) + [END_OF_CONTENTS] && (buffer == old(buffer) || fresh(buffer))
    {
      Buffer(1024);
      ghost var was := buffer[..];
      var ok, n := WriteHeader(END_OF_CONTENTS, buffer, 0, buffer.Length);
      FitsInBuffer(was, buffer[..], [END_OF_CONTENTS], ok, n);
      Send(n);
    }

    method WriteNull()
      modifies this, buffer
      ensures out == old(out) + [UNKNOWN] && (buffer == old(buffer) || fresh(buffer))
    {
      Buffer(1024);
      ghost var was := buffer[..];
      var ok, n := WriteHeader(UNKNOWN, buffer, 0, buffer.Length);
      FitsInBuffer(was, buffer[..], [UNKNOWN], ok, n);
      Send(n);
    }

    method WriteInt(value: i64)
      modifies this, buffer
      ensures out == old(out) + EncodeInt(value) && (buffer == old(buffer) || fresh(buffer))
    {
      Buffer(1024);
      ghost var was := buffer[..];
      var ok, n := ValueOutput.WriteInt(value, buffer, 0, buffer.Length);
      FitsInBuffer(was, buffer[..], EncodeInt(value), ok, n);
      Send(n);
    }

    method WriteFloat4(bits: nat)
      requires bits < 0x1_0000_0000
      modifies this, buffer
      ensures out == old(out) + EncodeFloat(FLOAT4, bits, 4) && (buffer == old(buffer) || fresh(buffer))
    {
      Buffer(1024);
      ghost var was := buffer[..];
      var ok, n := WriteFloat(FLOAT4, bits, 4, buffer, 0, buffer.Length);
      FitsInBuffer(was, buffer[..], EncodeFloat(FLOAT4, bits, 4), ok, n);
      Send(n);
    }

    method WriteFloat8(bits: u64)
      modifies this, buffer
      ensures out == old(out) + EncodeFloat(FLOAT8, bits, 8) && (buffer == old(buffer) || fresh(buffer))
    {
      Buffer(1024);
      ghost var was := buffer[..];
      var ok, n := WriteFloat(FLOAT8, bits, 8, buffer, 0, buffer.Length);
      FitsInBuffer(was, buffer[..], EncodeFloat(FLOAT8, bits, 8), ok, n);
      Send(n);
    }

    method WriteDecimal(value: Decimal)
      requires ValidDecimal(value)
      modifies this, buffer
      ensures out == old(out) + EncodeDecimal(value) && (buffer == old(buffer) || fresh(buffer))
    {
      Buffer(1024);
      ghost var was := buffer[..];
      var ok, n := ValueOutput.WriteDecimal(value, buffer, 0, buffer.Length);
      FitsInBuffer(was, buffer[..], EncodeDecimal(value), ok, n);
      Send(n);
    }

    method WriteCharacter(data: seq<byte>)
      requires |data| < TWO64
      modifies this, buffer
      ensures out == old(out) + EncodeString(EMBED_CHARACTER, 64, CHARACTER, data) && (buffer == old(buffer) || fresh(buffer))
    {
      Buffer(|data| + 10);
      ghost var was := buffer[..];
      var ok, n := ValueOutput.WriteCharacter(data, buffer, 0, buffer.Length);
      FitsInBuffer(was, buffer[..], EncodeString(EMBED_CHARACTER, 64, CHARACTER, data), ok, n);
      Send(n);
    }

    method WriteOctet(data: seq<byte>)
      requires |data| < TWO64
      modifies this, buffer
      ensures out == old(out) + EncodeString(EMBED_OCTET, 16, OCTET, data) && (buffer == old(buffer) || fresh(buffer))
    {
      Buffer(|data| + 10);
      ghost var was := buffer[..];
      var ok, n := ValueOutput.WriteOctet(data, buffer, 0, buffer.Length);
      FitsInBuffer(was, buffer[..], EncodeString(EMBED_OCTET, 16, OCTET, data), ok, n);
      Send(n);
    }

    method WriteDate(days: int)
      requires FieldsOk(StampFields(Date), [days])
      modifies this, buffer
      ensures out == old(out) + EncodeStamp(Date, [days]) && (buffer == old(buffer) || fresh(buffer))
    {
      StampBound(Date, [days]);
      assert FieldOk(StampFields(Date)[0], days);
      Buffer(1024);
      ghost var was := buffer[..];
      var ok, n := ValueOutput.WriteDate(days, buffer, 0, buffer.Length);
      FitsInBuffer(was, buffer[..], EncodeStamp(Date, [days]), ok, n);
      Send(n);
    }

    method WriteTimeOfDay(time: int)
      requires FieldsOk(StampFields(TimeOfDay), [time])
      modifies this, buffer
      ensures out == old(out) + EncodeStamp(TimeOfDay, [time]) && (buffer == old(buffer) || fresh(buffer))
    {
      StampBound(TimeOfDay, [time]);
      assert FieldOk(StampFields(TimeOfDay)[0], time);
      Buffer(1024);
      ghost var was := buffer[..];
      var ok, n := ValueOutput.WriteTimeOfDay(time, buffer, 0, buffer.Length);
      FitsInBuffer(was, buffer[..], EncodeStamp(TimeOfDay, [time]), ok, n);
      Send(n);
    }

    method WriteTimeOfDayWithOffset(time: int, offset: int)
      requires FieldsOk(StampFields(TimeOfDayWithOffset), [time, offset])
      modifies this, buffer
      ensures out == old(out) + EncodeStamp(TimeOfDayWithOffset, [time, offset]) && (buffer == old(buffer) || fresh(buffer))
    {
      StampBound(TimeOfDayWithOffset, [time, offset]);
      FieldsAt(TimeOfDayWithOffset, [time, offset]);
      Buffer(1024);
      ghost var was := buffer[..];
      var ok, n := ValueOutput.WriteTimeOfDayWithOffset(time, offset, buffer, 0, buffer.Length);
      FitsInBuffer(was, buffer[..], EncodeStamp(TimeOfDayWithOffset, [time, offset]), ok, n);
      Send(n);
    }

    method WriteTimePoint(seconds: int, subsecond: int)
      requires FieldsOk(StampFields(TimePoint), [seconds, subsecond])
      modifies this, buffer
      ensures out == old(out) + EncodeStamp(TimePoint, [seconds, subsecond]) && (buffer == old(buffer) || fresh(buffer))
    {
      StampBound(TimePoint, [seconds, subsecond]);
      FieldsAt(TimePoint, [seconds, subsecond]);
      Buffer(1024);
      ghost var was := buffer[..];
      var ok, n := ValueOutput.WriteTimePoint(seconds, subsecond, buffer, 0, buffer.Length);
      FitsInBuffer(was, buffer[..], EncodeStamp(TimePoint, [seconds, subsecond]), ok, n);
      Send(n);
    }

    method WriteTimePointWithOffset(seconds: int, subsecond: int, offset: int)
      requires FieldsOk(StampFields(TimePointWithOffset), [seconds, subsecond, offset])
      modifies this, buffer
      ensures out == old(out) + EncodeStamp(TimePointWithOffset, [seconds, subsecond, offset]) && (buffer == old(buffer) || fresh(buffer))
    {
      StampBound(TimePointWithOffset, [seconds, subsecond, offset]);
      FieldsAt(TimePointWithOffset, [seconds, subsecond, offset]);
      Buffer(1024);
      ghost var was := buffer[..];
      var ok, n := ValueOutput.WriteTimePointWithOffset(seconds, subsecond, offset, buffer, 0, buffer.Length);
      FitsInBuffer(was, buffer[..], EncodeStamp(TimePointWithOffset, [seconds, subsecond, offset]), ok, n);
      Send(n);
    }

    method WriteDatetimeInterval(year: int, month: int, day: int, time: int)
      requires FieldsOk(StampFields(DatetimeInterval), [year, month, day, time])
      modifies this, buffer
      ensures out == old(out) + EncodeStamp(DatetimeInterval, [year, month, day, time]) && (buffer == old(buffer) || fresh(buffer))
    {
      StampBound(DatetimeInterval, [year, month, day, time]);
      FieldsAt(DatetimeInterval, [year, month, day, time]);
      Buffer(1024);
      ghost var was := buffer[..];
      var ok, n := ValueOutput.WriteDatetimeInterval(year, month, day, time, buffer, 0, buffer.Length);
      FitsInBuffer(was, buffer[..], EncodeStamp(DatetimeInterval, [year, month, day, time]), ok, n);
      Send(n);
    }

    method WriteArrayBegin(size: u64)
      modifies this, buffer
      ensures out == old(out) + EncodeSize(EMBED_ARRAY, 32, ARRAY, size) && (buffer == old(buffer) || fresh(buffer))
    {
      Buffer(1024);
      ghost var was := buffer[..];
      var ok, n := ValueOutput.WriteArrayBegin(size, buffer, 0, buffer.Length);
      FitsInBuffer(was, buffer[..], EncodeSize(EMBED_ARRAY, 32, ARRAY, size), ok, n);
      Send(n);
    }

    method WriteRowBegin(size: u64)
      modifies this, buffer
      ensures out == old(out) + EncodeSize(EMBED_ROW, 32, ROW, size) && (buffer == old(buffer) || fresh(buffer))
    {
      Buffer(1024);
      ghost var was := buffer[..];
      var ok, n := ValueOutput.WriteRowBegin(size, buffer, 0, buffer.Length);
      FitsInBuffer(was, buffer[..], EncodeSize(EMBED_ROW, 32, ROW, size), ok, n);
      Send(n);
    }
  }
}
