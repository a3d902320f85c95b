/** The entry writers: each stores exactly the encoding, or nothing at all when it does not fit. */
module ValueOutput {
  import opened Ring
  import opened Base128v
  import opened Octets
  import opened Decimals
  import opened Values

  /** `buffer_remaining`. */
  function Remaining(position: nat, end: nat): nat {
    if position <= end then end - position else 0
  }

  /** All or nothing: `code` stored at `position`, or buffer and position as they were, and this
      exactly when the room is too small. */
  ghost predicate Wrote(was: seq<byte>, now: seq<byte>, position: nat, end: nat, code: seq<byte>, ok: bool, position': nat)
    requires code != [] && end <= |was|
  {
    && (ok <==> |code| <= Remaining(position, end))
    && position' == (if ok then position + |code| else position)
    && now == (if ok then Splice(was, position, code) else was)
  }

  lemma SpliceTwice(s: seq<byte>, at: nat, a: seq<byte>, b: seq<byte>)
    requires at + |a| + |b| <= |s|
    ensures Splice(Splice(s, at, a), at + |a|, b) == Splice(s, at, a + b)
  {
  }

  lemma SpliceByte(s: seq<byte>, at: nat, b: byte)
    requires at < |s|
    ensures s[at := b] == Splice(s, at, [b])
  {
  }

  // ----- A header and integers -----

  lemma {:induction false} EncodeFieldsMore(ks: seq<Field>, vs: seq<int>, k: Field, v: int)
    requires FieldsOk(ks, vs) && FieldOk(k, v)
    ensures FieldsOk(ks + [k], vs + [v])
    ensures EncodeFields(ks + [k], vs + [v]) == EncodeFields(ks, vs) + EncodeField(k, v)
    decreases |ks|
  {
    if ks == [] {
      assert ks + [k] == [k] && vs + [v] == [v];
    } else {
      var first, rest := EncodeField(ks[0], vs[0]), EncodeFields(ks[1..], vs[1..]);
      EncodeFieldsMore(ks[1..], vs[1..], k, v);
      Glue(first, rest, EncodeField(k, v));
      assert (ks + [k])[1..] == ks[1..] + [k] && (vs + [v])[1..] == vs[1..] + [v];
    }
  }

  lemma FieldsLength1(k: Field, v: int)
    requires FieldOk(k, v)
    ensures FieldsOk([k], [v]) && |EncodeFields([k], [v])| == |EncodeField(k, v)|
  {
  }

  lemma TwoFields(k: Field, v: int, k': Field, v': int)
    requires FieldOk(k, v) && FieldOk(k', v')
    ensures FieldsOk([k, k'], [v, v']) && EncodeFields([k, k'], [v, v']) == EncodeField(k, v) + EncodeField(k', v')
  {
    EncodeFieldsMore([k], [v], k', v');
    assert [k] + [k'] == [k, k'] && [v] + [v'] == [v, v'];
  }

  lemma FieldsLengthMore(ks: seq<Field>, vs: seq<int>, k: Field, v: int)
    requires FieldsOk(ks, vs) && FieldOk(k, v)
    ensures FieldsOk(ks + [k], vs + [v])
    ensures |EncodeFields(ks + [k], vs + [v])| == |EncodeFields(ks, vs)| + |EncodeField(k, v)|
  {
    EncodeFieldsMore(ks, vs, k, v);
  }

  /** `size_unsigned` and `size_signed`. */
  method SizeField(k: Field, v: int) returns (n: nat)
    requires FieldOk(k, v)
    ensures n == |EncodeField(k, v)|
  {
    n := SizeUnsigned(if k == U64 then v else EncodeSigned(v));
  }

  /** An entry being stored: what the buffer was, where the entry starts, and what is in already. */
  datatype Draft = Draft(was: seq<byte>, at: nat, header: byte, ks: seq<Field>, vs: seq<int>)

  ghost function Code(d: Draft): seq<byte>
    requires FieldsOk(d.ks, d.vs)
  {
    [d.header] + EncodeFields(d.ks, d.vs)
  }

  ghost predicate Holds(d: Draft, now: seq<byte>, position: nat) {
    && FieldsOk(d.ks, d.vs)
    && d.at + |Code(d)| <= |d.was|
    && position == d.at + |Code(d)|
    && now == Splice(d.was, d.at, Code(d))
  }

  /** `write_fixed8` of a header. */
  method PutHeader(buf: array<byte>, position: nat, header: byte) returns (position': nat, ghost d: Draft)
    requires position < buf.Length
    modifies buf
    ensures d == Draft(old(buf[..]), position, header, [], []) && Holds(d, buf[..], position')
    ensures position' == position + 1 && buf[..] == Splice(old(buf[..]), position, [header])
  {
    SpliceByte(buf[..], position, header);
    d := Draft(buf[..], position, header, [], []);
    buf[position] := header;
    assert Code(d) == [header];
    position' := position + 1;
  }

  ghost function Grown(d: Draft, k: Field, v: int): Draft {
    d.(ks := d.ks + [k], vs := d.vs + [v])
  }

  lemma CodeGrows(d: Draft, k: Field, v: int)
    requires FieldsOk(d.ks, d.vs) && FieldOk(k, v)
    ensures FieldsOk(d.ks + [k], d.vs + [v]) && Code(Grown(d, k, v)) == Code(d) + EncodeField(k, v)
  {
    EncodeFieldsMore(d.ks, d.vs, k, v);
    Glue([d.header], EncodeFields(d.ks, d.vs), EncodeField(k, v));
  }

  lemma DraftGrows(d: Draft, now: seq<byte>, position: nat, k: Field, v: int)
    requires Holds(d, now, position) && FieldOk(k, v) && position + |EncodeField(k, v)| <= |d.was|
    ensures Holds(Grown(d, k, v), Splice(now, position, EncodeField(k, v)), position + |EncodeField(k, v)|)
  {
    var code, more := Code(d), EncodeField(k, v);
    CodeGrows(d, k, v);
    SpliceTwice(d.was, d.at, code, more);
  }

  /** `write_unsigned` or `write_signed` behind what is in already. */
  method PutField(buf: array<byte>, position: nat, end: nat, k: Field, v: int, ghost d: Draft) returns (position': nat, ghost d': Draft)
    requires Holds(d, buf[..], position) && FieldOk(k, v)
    requires position + |EncodeField(k, v)| <= end <= buf.Length
    modifies buf
    ensures d' == Grown(d, k, v) && Holds(d', buf[..], position')
    ensures position' == position + |EncodeField(k, v)|
  {
    DraftGrows(d, buf[..], position, k, v);
    var ok;
    ok, position' := WriteUnsigned(if k == U64 then v else EncodeSigned(v), buf, position, end);
    d' := Grown(d, k, v);
  }

  /** A header and two integers. */
  method PutTwo(buf: array<byte>, position: nat, end: nat, header: byte, k: Field, v: int, k': Field, v': int)
    returns (position': nat, ghost d: Draft)
    requires FieldOk(k, v) && FieldOk(k', v')
    requires position + 1 + |EncodeField(k, v)| + |EncodeField(k', v')| <= end <= buf.Length
    modifies buf
    ensures d == Draft(old(buf[..]), position, header, [k, k'], [v, v']) && Holds(d, buf[..], position')
    ensures position' == position + 1 + |EncodeField(k, v)| + |EncodeField(k', v')|
  {
    ghost var first, second;
    position', first := PutHeader(buf, position, header);
    assert first.ks + [k] == [k] && first.vs + [v] == [v];
    position', second := PutField(buf, position', end, k, v, first);
    assert second.ks + [k'] == [k, k'] && second.vs + [v'] == [v, v'];
    position', d := PutField(buf, position', end, k', v', second);
  }

  // ----- Dates and times -----

  method WriteDate(days: int, buf: array<byte>, position: nat, end: nat) returns (ok: bool, position': nat)
    requires FieldsOk([S64], [days]) && end <= buf.Length
    modifies buf
    ensures Wrote(old(buf[..]), buf[..], position, end, EncodeStamp(Date, [days]), ok, position')
  {
    assert FieldOk(StampFields(Date)[0], days);
    FieldsLength1(S64, days);
    var n := SizeField(S64, days);
    if Remaining(position, end) < 1 + n {
      return false, position;
    }
    ghost var d;
    position', d := PutHeader(buf, position, DATE);
    position', d := PutField(buf, position', end, S64, days, d);
    assert Code(d) == EncodeStamp(Date, [days]);
    ok := true;
  }

  method WriteTimeOfDay(time: int, buf: array<byte>, position: nat, end: nat) returns (ok: bool, position': nat)
    requires FieldsOk([U64], [time]) && end <= buf.Length
    modifies buf
    ensures Wrote(old(buf[..]), buf[..], position, end, EncodeStamp(TimeOfDay, [time]), ok, position')
  {
    assert FieldOk(StampFields(TimeOfDay)[0], time);
    FieldsLength1(U64, time);
    var n := SizeField(U64, time);
    if Remaining(position, end) < 1 + n {
      return false, position;
    }
    ghost var d;
    position', d := PutHeader(buf, position, TIME_OF_DAY);
    position', d := PutField(buf, position', end, U64, time, d);
    assert Code(d) == EncodeStamp(TimeOfDay, [time]);
    ok := true;
  }

  /** The writers of two integers: a time with its offset, or a time point. */
  method WriteTwo(kind: StampKind, header: byte, k: Field, v: int, k': Field, v': int, buf: array<byte>, position: nat, end: nat)
    returns (ok: bool, position': nat)
    requires header == StampHeader(kind) && [k, k'] == StampFields(kind) && FieldOk(k, v) && FieldOk(k', v') && end <= buf.Length
    modifies buf
    ensures FieldsOk(StampFields(kind), [v, v'])
    ensures Wrote(old(buf[..]), buf[..], position, end, EncodeStamp(kind, [v, v']), ok, position')
  {
    TwoFields(k, v, k', v');
    var n := SizeField(k, v);
    var n' := SizeField(k', v');
    if Remaining(position, end) < 1 + n + n' {
      return false, position;
    }
    ghost var d;
    position', d := PutTwo(buf, position, end, header, k, v, k', v');
    assert Code(d) == EncodeStamp(kind, [v, v']);
    ok := true;
  }

  method WriteTimeOfDayWithOffset(time: int, offset: int, buf: array<byte>, position: nat, end: nat) returns (ok: bool, position': nat)
    requires FieldOk(U64, time) && FieldOk(S32, offset) && end <= buf.Length
    modifies buf
    ensures FieldsOk(StampFields(TimeOfDayWithOffset), [time, offset])
    ensures Wrote(old(buf[..]), buf[..], position, end, EncodeStamp(TimeOfDayWithOffset, [time, offset]), ok, position')
  {
    ok, position' := WriteTwo(TimeOfDayWithOffset, TIME_OF_DAY_WITH_OFFSET, U64, time, S32, offset, buf, position, end);
  }

  method WriteTimePoint(seconds: int, subsecond: int, buf: array<byte>, position: nat, end: nat) returns (ok: bool, position': nat)
    requires FieldOk(S64, seconds) && FieldOk(U64, subsecond) && end <= buf.Length
    modifies buf
    ensures FieldsOk(StampFields(TimePoint), [seconds, subsecond])
    ensures Wrote(old(buf[..]), buf[..], position, end, EncodeStamp(TimePoint, [seconds, subsecond]), ok, position')
  {
    ok, position' := WriteTwo(TimePoint, TIME_POINT, S64, seconds, U64, subsecond, buf, position, end);
  }

  method WriteTimePointWithOffset(seconds: int, subsecond: int, offset: int, buf: array<byte>, position: nat, end: nat)
    returns (ok: bool, position': nat)
    requires FieldOk(S64, seconds) && FieldOk(U64, subsecond) && FieldOk(S32, offset) && end <= buf.Length
    modifies buf
    ensures FieldsOk(StampFields(TimePointWithOffset), [seconds, subsecond, offset])
    ensures Wrote(old(buf[..]), buf[..], position, end, EncodeStamp(TimePointWithOffset, [seconds, subsecond, offset]), ok, position')
  {
    TwoFields(S64, seconds, U64, subsecond);
    FieldsLengthMore([S64, U64], [seconds, subsecond], S32, offset);
    assert [S64, U64] + [S32] == [S64, U64, S32] && [seconds, subsecond] + [offset] == [seconds, subsecond, offset];
    var n1 := SizeField(S64, seconds);
    var n2 := SizeField(U64, subsecond);
    var n3 := SizeField(S32, offset);
    if Remaining(position, end) < 1 + n1 + n2 + n3 {
      return false, position;
    }
    ghost var d;
    position', d := PutTwo(buf, position, end, TIME_POINT_WITH_OFFSET, S64, seconds, U64, subsecond);
    position', d := PutField(buf, position', end, S32, offset, d);
    assert d.ks == [S64, U64, S32] && d.vs == [seconds, subsecond, offset];
    assert Code(d) == EncodeStamp(TimePointWithOffset, [seconds, subsecond, offset]);
    ok := true;
  }

  lemma IntervalLength(year: int, month: int, day: int, time: int)
    requires FieldOk(S32, year) && FieldOk(S32, month) && FieldOk(S32, day) && FieldOk(S64, time)
    ensures FieldsOk(StampFields(DatetimeInterval), [year, month, day, time])
    ensures |EncodeFields(StampFields(DatetimeInterval), [year, month, day, time])|
         == |EncodeField(S32, year)| + |EncodeField(S32, month)| + |EncodeField(S32, day)| + |EncodeField(S64, time)|
  {
    TwoFields(S32, year, S32, month);
    FieldsLengthMore([S32, S32], [year, month], S32, day);
    assert [S32, S32] + [S32] == [S32, S32, S32] && [year, month] + [day] == [year, month, day];
    FieldsLengthMore([S32, S32, S32], [year, month, day], S64, time);
    assert [S32, S32, S32] + [S64] == [S32, S32, S32, S64] && [year, month, day] + [time] == [year, month, day, time];
  }

  method WriteDatetimeInterval(year: int, month: int, day: int, time: int, buf: array<byte>, position: nat, end: nat)
    returns (ok: bool, position': nat)
    requires FieldOk(S32, year) && FieldOk(S32, month) && FieldOk(S32, day) && FieldOk(S64, time) && end <= buf.Length
    modifies buf
    ensures FieldsOk(StampFields(DatetimeInterval), [year, month, day, time])
    ensures Wrote(old(buf[..]), buf[..], position, end, EncodeStamp(DatetimeInterval, [year, month, day, time]), ok, position')
  {
    IntervalLength(year, month, day, time);
    var n1 := SizeField(S32, year);
    var n2 := SizeField(S32, month);
    var n3 := SizeField(S32, day);
    var n4 := SizeField(S64, time);
    if Remaining(position, end) < 1 + n1 + n2 + n3 + n4 {
      return false, position;
    }
    ghost var d;
    position', d := PutTwo(buf, position, end, DATETIME_INTERVAL, S32, year, S32, month);
    position', d := PutField(buf, position', end, S32, day, d);
    position', d := PutField(buf, position', end, S64, time, d);
    assert d.ks == [S32, S32, S32, S64] && d.vs == [year, month, day, time];
    assert Code(d) == EncodeStamp(DatetimeInterval, [year, month, day, time]);
    ok := true;
  }

  // ----- Headers alone, integers and sizes -----

  /** `write_end_of_contents`, `write_null` and the embedded forms. */
  method WriteHeader(header: byte, buf: array<byte>, position: nat, end: nat) returns (ok: bool, position': nat)
    requires end <= buf.Length
    modifies buf
    ensures Wrote(old(buf[..]), buf[..], position, end, [header], ok, position')
  {
    if Remaining(position, end) < 1 {
      return false, position;
    }
    ghost var d;
    position', d := PutHeader(buf, position, header);
    ok := true;
  }

  /** A header and one integer. */
  method WriteHeaderAndField(header: byte, k: Field, v: int, buf: array<byte>, position: nat, end: nat) returns (ok: bool, position': nat)
    requires FieldOk(k, v) && end <= buf.Length
    modifies buf
    ensures Wrote(old(buf[..]), buf[..], position, end, [header] + EncodeField(k, v), ok, position')
  {
    var n := SizeField(k, v);
    if Remaining(position, end) < 1 + n {
      return false, position;
    }
    ghost var d;
    position', d := PutHeader(buf, position, header);
    ghost var before := d;
    position', d := PutField(buf, position', end, k, v, d);
    CodeGrows(before, k, v);
    assert Code(d) == [header] + EncodeField(k, v);
    ok := true;
  }

  method WriteInt(value: i64, buf: array<byte>, position: nat, end: nat) returns (ok: bool, position': nat)
    requires end <= buf.Length
    modifies buf
    ensures Wrote(old(buf[..]), buf[..], position, end, EncodeInt(value), ok, position')
  {
    if 0 <= value <= MAX_EMBED_INT {
      ok, position' := WriteHeader(value, buf, position, end);
    } else if MIN_EMBED_INT <= value <= -1 {
      ok, position' := WriteHeader(EMBED_NEGATIVE_INT + value - MIN_EMBED_INT, buf, position, end);
    } else {
      ok, position' := WriteHeaderAndField(INT, S64, value, buf, position, end);
    }
  }

  method WriteArrayBegin(size: u64, buf: array<byte>, position: nat, end: nat) returns (ok: bool, position': nat)
    requires end <= buf.Length
    modifies buf
    ensures Wrote(old(buf[..]), buf[..], position, end, EncodeSize(EMBED_ARRAY, 32, ARRAY, size), ok, position')
  {
    if 1 <= size <= 32 {
      ok, position' := WriteHeader(EMBED_ARRAY + size - 1, buf, position, end);
    } else {
      ok, position' := WriteHeaderAndField(ARRAY, U64, size, buf, position, end);
    }
  }

  method WriteRowBegin(size: u64, buf: array<byte>, position: nat, end: nat) returns (ok: bool, position': nat)
    requires end <= buf.Length
    modifies buf
    ensures Wrote(old(buf[..]), buf[..], position, end, EncodeSize(EMBED_ROW, 32, ROW, size), ok, position')
  {
    if 1 <= size <= 32 {
      ok, position' := WriteHeader(EMBED_ROW + size - 1, buf, position, end);
    } else {
      ok, position' := WriteHeaderAndField(ROW, U64, size, buf, position, end);
    }
  }

  // ----- Strings -----

  /** `write_bytes`. */
  method CopyBytes(data: seq<byte>, buf: array<byte>, position: nat)
    requires position + |data| <= buf.Length
    modifies buf
    ensures buf[..] == Splice(old(buf[..]), position, data)
  {
    forall i | 0 <= i < |data| {
      buf[position + i] := data[i];
    }
  }

  lemma BothWritten(was: seq<byte>, middle: seq<byte>, now: seq<byte>, position: nat, end: nat, code: seq<byte>, data: seq<byte>)
    requires code != [] && end <= |was| == |middle| && |code| + |data| <= Remaining(position, end)
    requires middle == Splice(was, position, code) && now == Splice(middle, position + |code|, data)
    ensures Wrote(was, now, position, end, code + data, true, position + |code| + |data|)
  {
    SpliceTwice(was, position, code, data);
  }

  /** `write_character` and `write_octet`. */
  method WriteString(embed: byte, max: nat, header: byte, data: seq<byte>, buf: array<byte>, position: nat, end: nat)
    returns (ok: bool, position': nat)
    requires embed + max <= 256 && |data| < TWO64 && end <= buf.Length
    modifies buf
    ensures Wrote(old(buf[..]), buf[..], position, end, EncodeString(embed, max, header, data), ok, position')
  {
    var size := |data|;
    ghost var code := EncodeSize(embed, max, header, size);
    var embedded := 1 <= size <= max;
    var n := 0;
    if !embedded {
      n := SizeUnsigned(size);
    }
    assert |code| == 1 + n;
    if Remaining(position, end) < 1 + n + size {
      return false, position;
    }
    if embedded {
      ok, position' := WriteHeader(embed + size - 1, buf, position, end);
    } else {
      ok, position' := WriteHeaderAndField(header, U64, size, buf, position, end);
    }
    ghost var middle := buf[..];
    CopyBytes(data, buf, position');
    BothWritten(old(buf[..]), middle, buf[..], position, end, code, data);
    position' := position' + size;
  }

  method WriteCharacter(data: seq<byte>, buf: array<byte>, position: nat, end: nat) returns (ok: bool, position': nat)
    requires |data| < TWO64 && end <= buf.Length
    modifies buf
    ensures Wrote(old(buf[..]), buf[..], position, end, EncodeString(EMBED_CHARACTER, 64, CHARACTER, data), ok, position')
  {
    ok, position' := WriteString(EMBED_CHARACTER, 64, CHARACTER, data, buf, position, end);
  }

  method WriteOctet(data: seq<byte>, buf: array<byte>, position: nat, end: nat) returns (ok: bool, position': nat)
    requires |data| < TWO64 && end <= buf.Length
    modifies buf
    ensures Wrote(old(buf[..]), buf[..], position, end, EncodeString(EMBED_OCTET, 16, OCTET, data), ok, position')
  {
    ok, position' := WriteString(EMBED_OCTET, 16, OCTET, data, buf, position, end);
  }

  // ----- Floats -----

  lemma SpliceOctet(s: seq<byte>, at: nat, value: nat, n: nat, i: nat)
    requires i < n && at + n <= |s|
    ensures Splice(s, at, BigEndian(value, n)[..i])[at + i := Octets.Octet(value, n - 1 - i)] == Splice(s, at, BigEndian(value, n)[..i + 1])
  {
    BigEndianAt(value, n, n - 1 - i);
    SpliceMore(s, at, BigEndian(value, n), i);
  }

  /** `write_fixed`: the octets of a value, high one first. */
  method WriteFixed(value: nat, n: nat, buf: array<byte>, position: nat) returns (position': nat)
    requires position + n <= buf.Length
    modifies buf
    ensures buf[..] == Splice(old(buf[..]), position, BigEndian(value, n)) && position' == position + n
  {
    ghost var was, e := buf[..], BigEndian(value, n);
    position' := position;
    var i := 0;
    assert Splice(was, position, e[..0]) == was;
    while i < n
      invariant 0 <= i <= n && position' == position + i
      invariant buf[..] == Splice(was, position, e[..i])
    {
      SpliceOctet(was, position, value, n, i);
      buf[position'] := Octets.Octet(value, n - 1 - i);
      position' := position' + 1;
      i := i + 1;
    }
    assert e[..n] == e;
  }

  /** `write_float4` and `write_float8`. */
  method WriteFloat(header: byte, bits: nat, n: nat, buf: array<byte>, position: nat, end: nat) returns (ok: bool, position': nat)
    requires end <= buf.Length
    modifies buf
    ensures Wrote(old(buf[..]), buf[..], position, end, EncodeFloat(header, bits, n), ok, position')
  {
    if Remaining(position, end) < 1 + n {
      return false, position;
    }
    ghost var d;
    position', d := PutHeader(buf, position, header);
    SpliceTwice(old(buf[..]), position, [header], BigEndian(bits, n));
    position' := WriteFixed(bits, n, buf, position');
    ok := true;
  }

  // ----- Decimals -----

  /** One of the octet loops: the low octets of a word, from the end backwards. */
  method WriteOctets(word: nat, count: nat, buf: array<byte>, last: nat)
    requires last < buf.Length && count <= last + 1
    modifies buf
    ensures forall j :: 0 <= j < count ==> buf[last - j] == Octets.Octet(word, j)
    ensures forall i :: 0 <= i < buf.Length && (i <= last - count || last < i) ==> buf[i] == old(buf[i])
  {
    var offset := 0;
    while offset < count
      invariant 0 <= offset <= count
      invariant forall j :: 0 <= j < offset ==> buf[last - j] == Octets.Octet(word, j)
      invariant forall i :: 0 <= i < buf.Length && (i <= last - offset || last < i) ==> buf[i] == old(buf[i])
    {
      buf[last - offset] := Octets.Octet(word, offset);
      offset := offset + 1;
    }
  }

  lemma WordsAsOctets(now: seq<byte>, position: nat, size: nat, hi: u64, lo: u64)
    requires 8 <= size <= 16 && position + size <= |now|
    requires forall j :: 0 <= j < 8 ==> now[position + size - 1 - j] == Octets.Octet(lo, j)
    requires forall j :: 0 <= j < size - 8 ==> now[position + size - 9 - j] == Octets.Octet(hi, j)
    ensures now[position..position + size] == BigEndian(Magnitude(hi, lo), size)
  {
    var e := BigEndian(Magnitude(hi, lo), size);
    P256IsWord();
    forall i | 0 <= i < size
      ensures now[position + i] == e[i]
    {
      var j := size - 1 - i;
      BigEndianAt(Magnitude(hi, lo), size, j);
      OctetOfWords(hi, lo, 8, j);
      if j < 8 {
        assert now[position + size - 1 - j] == Octets.Octet(lo, j);
      } else {
        assert now[position + size - 9 - (j - 8)] == Octets.Octet(hi, j - 8);
      }
    }
  }

  /** Both octet loops of `write_decimal`. */
  method WriteWords(hi: u64, lo: u64, size: nat, buf: array<byte>, position: nat)
    requires 8 <= size <= 16 && position + size <= buf.Length
    modifies buf
    ensures buf[..] == Splice(old(buf[..]), position, BigEndian(Magnitude(hi, lo), size))
  {
    WriteOctets(lo, 8, buf, position + size - 1);
    label middle:
    if size > 8 {
      WriteOctets(hi, size - 8, buf, position + size - 9);
    }
    forall j | 0 <= j < 8
      ensures buf[..][position + size - 1 - j] == Octets.Octet(lo, j)
    {
      assert buf[position + size - 1 - j] == old@middle(buf[position + size - 1 - j]);
    }
    WordsAsOctets(buf[..], position, size, hi, lo);
    assert buf[..position] == old(buf[..position]) && buf[position + size..] == old(buf[position + size..]);
  }

  lemma SignedOctets(c: int, t: nat, k: nat)
    requires 9 <= k <= 17 && Fits(c, k) && -TWO64 * TWO64 < c < TWO64 * TWO64
    requires t == c + (if c < 0 then TWO64 * TWO64 else 0)
    ensures Complement(c, k) == if k == 17 then [if c < 0 then 255 else 0] + BigEndian(t, 16) else BigEndian(t, k)
  {
    if k == 17 {
      SignOctet(c, t);
    } else {
      WordsAreComplement(c, t, k);
    }
  }

  /** The sign octet and the words: the coefficient in two's complement. */
  method WriteCoefficient(negative: bool, hi: u64, lo: u64, size: nat, ghost c: int, buf: array<byte>, position: nat)
    requires 9 <= size <= 17 && position + size <= buf.Length && Fits(c, size) && -TWO64 * TWO64 < c < TWO64 * TWO64
    requires negative == (c < 0) && Magnitude(hi, lo) == c + (if c < 0 then TWO64 * TWO64 else 0)
    modifies buf
    ensures buf[..] == Splice(old(buf[..]), position, Complement(c, size))
  {
    SignedOctets(c, Magnitude(hi, lo), size);
    if size > 16 {
      var sign := if negative then 255 else 0;
      SpliceByte(buf[..], position, sign);
      SpliceTwice(buf[..], position, [sign], BigEndian(Magnitude(hi, lo), 16));
      buf[position] := sign;
      WriteWords(hi, lo, 16, buf, position + 1);
    } else {
      WriteWords(hi, lo, size, buf, position);
    }
  }

  lemma FullCodeOfDraft(d: Draft, exponent: i32, c: int, k: nat)
    requires d.header == DECIMAL && 0 < k <= 17 && Fits(c, k) && d.ks == [S32, U64] && d.vs == [exponent, k]
    ensures FieldsOk(d.ks, d.vs) && Code(d) + Complement(c, k) == FullCode(exponent, c, k)
  {
    var e, f, bs := EncodeField(S32, exponent), Encode(k), Complement(c, k);
    TwoFields(S32, exponent, U64, k);
    Glue(e, f, bs);
    Glue([DECIMAL], e + f, bs);
  }

  lemma LargeCode(d: Decimal, k: nat)
    requires ValidDecimal(d) && !HasSmallCoefficient(d) && k <= 17 && Least(Coefficient(d), k)
    ensures EncodeDecimal(d) == FullCode(d.exponent, Coefficient(d), k)
    ensures |EncodeDecimal(d)| == 1 + |EncodeField(S32, d.exponent)| + |EncodeField(U64, k)| + k
  {
    LeastSizeFound(Coefficient(d), 1, k);
  }

  /** `write_decimal` for a coefficient beyond 64 bits. */
  method WriteLargeDecimal(value: Decimal, buf: array<byte>, position: nat, end: nat) returns (ok: bool, position': nat)
    requires ValidDecimal(value) && !HasSmallCoefficient(value) && end <= buf.Length
    modifies buf
    ensures Wrote(old(buf[..]), buf[..], position, end, EncodeDecimal(value), ok, position')
  {
    ghost var c := Coefficient(value);
    CoefficientBounds(value);
    var hi, lo, size := MakeSignedCoefficientFull(value);
    LargeCode(value, size);
    var n1 := SizeField(S32, value.exponent);
    var n2 := SizeField(U64, size);
    if Remaining(position, end) < 1 + n1 + n2 + size {
      return false, position;
    }
    ghost var d;
    position', d := PutTwo(buf, position, end, DECIMAL, S32, value.exponent, U64, size);
    FullCodeOfDraft(d, value.exponent, c, size);
    ghost var middle := buf[..];
    WriteCoefficient(value.negative, hi, lo, size, c, buf, position');
    BothWritten(old(buf[..]), middle, buf[..], position, end, Code(d), Complement(c, size));
    position' := position' + size;
    ok := true;
  }

  lemma CompactCodeOfFields(exponent: i32, c: i64)
    ensures FieldsOk([S32, S64], [exponent, c])
    ensures [DECIMAL_COMPACT] + EncodeFields([S32, S64], [exponent, c]) == CompactCode(exponent, c)
  {
    TwoFields(S32, exponent, S64, c);
  }

  method WriteDecimal(value: Decimal, buf: array<byte>, position: nat, end: nat) returns (ok: bool, position': nat)
    requires ValidDecimal(value) && end <= buf.Length
    modifies buf
    ensures Wrote(old(buf[..]), buf[..], position, end, EncodeDecimal(value), ok, position')
  {
    if !HasSmallCoefficient(value) {
      ok, position' := WriteLargeDecimal(value, buf, position, end);
      return;
    }
    SmallIsInt64(value);
    var c: i64 := if value.negative then 0 - value.lo else value.lo;
    if value.exponent == 0 {
      ok, position' := WriteInt(c, buf, position, end);
      return;
    }
    CompactCodeOfFields(value.exponent, c);
    var n1 := SizeField(S32, value.exponent);
    var n2 := SizeField(S64, c);
    if Remaining(position, end) < 1 + n1 + n2 {
      return false, position;
    }
    ghost var d;
    position', d := PutTwo(buf, position, end, DECIMAL_COMPACT, S32, value.exponent, S64, c);
    ok := true;
  }
}
