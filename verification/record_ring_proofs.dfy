/** Proofs about the result-set wire. */
module RecordRingProofs {
  import opened Ring
  import opened Wire
  import opened WireData
  import opened SimpleWire
  import opened RecordRing

  // ----- The split of a record -----

  lemma SamePage(s: nat, n: nat, cap: nat)
    requires cap > 0 && n > 0 && s / cap == (s + n - 1) / cap
    ensures s % cap + n <= cap
  {
    assert s == cap * (s / cap) + s % cap;
    assert s + n - 1 == cap * (s / cap) + (s + n - 1) % cap;
  }

  /** The page of the last published byte is the page after the one the record starts on. */
  lemma NextPage(s: nat, n: nat, v: nat, cap: nat)
    requires cap > 0 && n > 0 && s + n <= v < s + cap && s / cap != (s + n - 1) / cap
    ensures v / cap == s / cap + 1 && 0 <= v / cap * cap - s < n && s % cap + (v / cap * cap - s) == cap
  {
    var q, e := s / cap, s + n - 1;
    assert s == cap * q + s % cap;
    if s % cap + (n - 1) < cap {
      DivModUnique(e, cap, q, s % cap + (n - 1));
    }
    assert cap * (q + 1) == cap * q + cap;
    DivModUnique(v, cap, q + 1, v - cap * (q + 1));
  }

  /** The two pieces cover the record, wherever it lies and however much was published since. */
  lemma SplitFits(cap: nat, poped: nat, n: nat, valid: nat)
    requires cap >= 4 && n > 0 && poped + 4 + n <= valid <= poped + cap
    ensures PiecesFit(cap, Split(cap, poped, n, valid), poped, n)
  {
    var s := poped + 4;
    var p := Split(cap, poped, n, valid);
    if s / cap == (s + n - 1) / cap {
      SamePage(s, n, cap);
    } else {
      NextPage(s, n, valid, cap);
      DivModUnique(s + p.n1, cap, valid / cap, 0);
    }
    forall k: nat | k < n
      ensures Address(p, k) == (s + k) % cap
    {
      OffsetCell(s, k, cap);
    }
  }

  // ----- Server steps -----

  lemma ServerWaitsKeeps(cap: nat, s: RingState, s': RingState)
    requires ServerWaits(cap, s, s')
    ensures s'.x.(pc := s.x.pc) == s.x && s' == s.(x := s'.x, waitWrite := s'.waitWrite, mutex := s'.mutex)
    ensures !s.x.pc.XIdle? && !s.x.pc.XHeader? && !s.x.pc.XPublish?
    ensures s'.x.pc.XReserve? || s'.x.pc.XCopy? ==> s.x.pc.XUnlock? && s'.x.pc == if s.x.continued then XCopy({}) else XReserve
    ensures !s'.x.pc.XIdle? && !s'.x.pc.XHeader? && !s'.x.pc.XPublish? && !s'.x.pc.XPush? && !s'.x.pc.XTest?
    ensures !s.closed && (s'.x.pc.XLower? || s'.x.pc.XUnlock?) ==>
              RoomLeft(cap, s) >= Wants(s.x) || s.x.pc.XLower?
  {
  }

  lemma InvServerWaits(cap: nat, s: RingState, s': RingState)
    requires RingInv(cap, s) && !s.closed && ServerWaits(cap, s, s')
    ensures RingInv(cap, s')
  {
    ServerWaitsKeeps(cap, s, s');
  }

  lemma Reserves(cap: nat, s: RingState)
    requires RingInv(cap, s) && s.x.pc.XReserve?
    ensures RingInv(cap, s.(pushed := s.pushed + 4, x := s.x.(pc := XTest, continued := true)))
  {
  }

  lemma Tests(cap: nat, s: RingState, x: Server)
    requires RingInv(cap, s) && s.x.pc.XTest? && x == s.x.(pc := x.pc)
    requires x.pc == XLock || (Wants(x) <= RoomLeft(cap, s) && x.pc == if x.continued then XCopy({}) else XReserve)
    ensures RingInv(cap, s.(x := x))
  {
  }

  lemma LeavesIdle(cap: nat, s: RingState, x: Server)
    requires RingInv(cap, s) && s.x.pc.XIdle? && x.continued == s.x.continued
    requires (x.pc == XTest && x.data != []) || (x.pc == XHeader({}) && x.continued) || x == s.x
    ensures RingInv(cap, s.(x := x))
  {
  }

  lemma InvServerOpens(cap: nat, s: RingState, s': RingState)
    requires RingInv(cap, s) && ServerOpens(cap, s, s')
    ensures RingInv(cap, s')
  {
    if s.x.pc.XReserve? {
      Reserves(cap, s);
    } else if s.x.pc.XTest? {
      Tests(cap, s, s'.x);
    } else {
      LeavesIdle(cap, s, s'.x);
    }
  }

  /** Storing a byte of `bs` at its place keeps whatever lies elsewhere within one turn. */
  lemma HasMore(buf: seq<byte>, recs: seq<Msg>, poped: nat, valid: nat, at: nat, bs: seq<byte>, done: set<nat>, k: nat)
    requires HoldsMsgs(buf, recs, poped, valid) && Has(buf, at, bs, done) && k < |bs|
    requires poped <= valid <= at && at + |bs| <= poped + |buf|
    ensures var buf' := Put(buf, at + k, bs[k]);
            && |buf'| == |buf| && HoldsMsgs(buf', recs, poped, valid) && Has(buf', at, bs, done + {k})
            && forall i: nat :: poped <= i < poped + |buf| && i != at + k ==> At(buf', i) == At(buf, i)
  {
    PutKeeps(buf, at + k, bs[k], poped, poped + |buf|);
  }

  lemma HasDone(buf: seq<byte>, at: nat, bs: seq<byte>, done: set<nat>)
    requires Has(buf, at, bs, done) && forall k: nat :: k < |bs| ==> k in done
    ensures HasAll(buf, at, bs)
  {
    forall i: nat | at <= i < at + |bs|
      ensures At(buf, i) == bs[i - at]
    {
      var k: nat := i - at;
      assert k in done && At(buf, at + k) == bs[k];
    }
  }

  /** What was popped was published. */
  lemma PopedWithin(s: RingState)
    requires Counts(s.recs, s.read, s.cur, s.x.continued, s.pushed, s.valid, s.poped)
    ensures s.poped <= s.valid
  {
    StreamGrows(s.recs, |s.read|, |s.recs|);
    assert s.recs[..|s.recs|] == s.recs && s.recs[..|s.read|] == s.read;
  }

  lemma CopyByte(cap: nat, s: RingState, k: nat)
    requires RingInv(cap, s) && s.x.pc.XCopy? && k < |s.x.data|
    ensures RingInv(cap, XGoto(s, XCopy(s.x.pc.done + {k})).(buf := Put(s.buf, s.pushed + k, s.x.data[k])))
  {
    PopedWithin(s);
    HasMore(s.buf, s.recs, s.poped, s.valid, s.pushed, s.x.data, s.x.pc.done, k);
  }

  lemma CopyEnds(cap: nat, s: RingState)
    requires RingInv(cap, s) && s.x.pc.XCopy? && forall k: nat :: k < |s.x.data| ==> k in s.x.pc.done
    ensures RingInv(cap, XGoto(s, XPush))
  {
    HasDone(s.buf, s.pushed, s.x.data, s.x.pc.done);
  }

  lemma InvServerPushes(cap: nat, s: RingState)
    requires RingInv(cap, s) && s.x.pc.XPush?
    ensures RingInv(cap, XGoto(s, XIdle).(pushed := s.pushed + |s.x.data|, cur := s.cur + s.x.data))
  {
    assert HasAll(s.buf, s.valid + 4, s.cur + s.x.data);
  }

  lemma InvServerCopies(cap: nat, s: RingState, s': RingState)
    requires RingInv(cap, s) && |s.buf| > 0 && ServerCopies(s, s')
    ensures RingInv(cap, s')
  {
    if s.x.pc.XPush? {
      InvServerPushes(cap, s);
    } else if s'.x.pc.XPush? {
      CopyEnds(cap, s);
    } else {
      var k: nat :| k < |s.x.data| && k !in s.x.pc.done
        && s' == XGoto(s, XCopy(s.x.pc.done + {k})).(buf := Put(s.buf, s.pushed + k, s.x.data[k]));
      CopyByte(cap, s, k);
    }
  }

  lemma HeaderByte(cap: nat, s: RingState, k: nat)
    requires RingInv(cap, s) && s.x.pc.XHeader? && k < 4
    ensures RingInv(cap, XGoto(s, XHeader(s.x.pc.done + {k})).(buf := Put(s.buf, s.valid + k, LengthHeader(|s.cur|)[k])))
  {
    PopedWithin(s);
    HasMore(s.buf, s.recs, s.poped, s.valid, s.valid, LengthHeader(|s.cur|), s.x.pc.done, k);
  }

  lemma HeaderEnds(cap: nat, s: RingState)
    requires RingInv(cap, s) && s.x.pc.XHeader? && forall k: nat :: k < 4 ==> k in s.x.pc.done
    ensures RingInv(cap, XGoto(s, XPublish))
  {
    HasDone(s.buf, s.valid, LengthHeader(|s.cur|), s.x.pc.done);
  }

  /** `flush` publishes the open record as one more message. */
  lemma Publishes(cap: nat, s: RingState, m: Msg)
    requires ValidCap(cap) && RingInv(cap, s) && s.x.pc.XPublish? && m == Msg(LengthHeader(|s.cur|), s.cur)
    ensures RingInv(cap, s.(valid := s.pushed, x := s.x.(pc := XIdle, continued := false), recs := s.recs + [m], cur := []))
  {
    PopedWithin(s);
    LengthHeaderRead(|s.cur|);
    StreamAppend(s.recs, m);
    assert HoldsMsgs(s.buf, s.recs + [m], s.poped, s.pushed);
  }

  lemma InvServerHeader(cap: nat, s: RingState, s': RingState)
    requires RingInv(cap, s) && |s.buf| > 0 && ServerFlushes(s, s') && s.x.pc.XHeader?
    ensures RingInv(cap, s')
  {
    assert s.pushed - (s.valid + 4) == |s.cur|;
    if s'.x.pc.XPublish? {
      HeaderEnds(cap, s);
    } else {
      var k: nat :| k < 4 && k !in s.x.pc.done
        && s' == XGoto(s, XHeader(s.x.pc.done + {k})).(buf := Put(s.buf, s.valid + k, LengthHeader(|s.cur|)[k]));
      HeaderByte(cap, s, k);
    }
  }

  lemma InvServerFlushes(cap: nat, s: RingState, s': RingState)
    requires ValidCap(cap) && RingInv(cap, s) && |s.buf| > 0 && ServerFlushes(s, s')
    ensures RingInv(cap, s')
  {
    if s.x.pc.XPublish? {
      assert s.pushed - (s.valid + 4) == |s.cur|;
      Publishes(cap, s, Msg(LengthHeader(|s.cur|), s.cur));
    } else {
      InvServerHeader(cap, s, s');
    }
  }

  // ----- Client steps -----

  /** A record seen by `has_record` is there as a whole. */
  lemma RecordStored(s: RingState)
    requires Counts(s.recs, s.read, s.cur, s.x.continued, s.pushed, s.valid, s.poped) && s.valid > s.poped
    ensures |s.read| < |s.recs| && s.poped + 4 + |s.recs[|s.read|].payload| <= s.valid
    ensures |s.recs[|s.read|].header| == 4 && |s.recs[|s.read|].payload| > 0
  {
    var i := |s.read|;
    assert s.recs[..i] == s.read;
    assert i == |s.recs| ==> s.read == s.recs;
    StreamAt(s.recs, i, 0);
    StreamGrows(s.recs, i + 1, |s.recs|);
    assert s.recs[..|s.recs|] == s.recs;
  }

  /** The client is at a record that has not been popped. */
  lemma AtRecord(s: RingState)
    requires Counts(s.recs, s.read, s.cur, s.x.continued, s.pushed, s.valid, s.poped) && |s.read| < |s.recs|
    ensures s.valid > s.poped
  {
    var i := |s.read|;
    assert s.recs[..i] == s.read;
    StreamAt(s.recs, i, 0);
    StreamGrows(s.recs, i + 1, |s.recs|);
    assert s.recs[..|s.recs|] == s.recs;
  }

  lemma TakesHeaderByte(cap: nat, s: RingState, k: nat)
    requires RingInv(cap, s) && s.y.pc.YHeader? && k < 4
    ensures RingInv(cap, YGoto(s, YHeader(s.y.pc.hdone[k := At(s.buf, s.poped + k)])))
  {
    AtRecord(s);
    RecordStored(s);
    ReadByte(s.buf, s.recs, s.read, 0, s.poped, s.valid, k);
  }

  lemma TakesHeader(cap: nat, s: RingState)
    requires RingInv(cap, s) && s.y.pc.YHeader? && forall k: nat :: k < 4 ==> k in s.y.pc.hdone
    ensures RingInv(cap, s.(y := Client(YSplit, Collect(s.y.pc.hdone, 4), [])))
  {
    AtRecord(s);
    RecordStored(s);
    assert Collect(s.y.pc.hdone, 4) == s.recs[|s.read|].header;
  }

  lemma InvClientLooks(cap: nat, s: RingState, s': RingState)
    requires RingInv(cap, s) && |s.buf| > 0 && ClientLooks(s, s')
    ensures s'.closed || RingInv(cap, s')
  {
    if s.y.pc.YIdle? {
      if !s'.closed {
        RecordStored(s);
      }
    } else if s'.y.pc.YSplit? {
      TakesHeader(cap, s);
    } else {
      var k: nat :| k < 4 && k !in s.y.pc.hdone && s' == YGoto(s, YHeader(s.y.pc.hdone[k := At(s.buf, s.poped + k)]));
      TakesHeaderByte(cap, s, k);
    }
  }

  lemma Splits(cap: nat, s: RingState)
    requires ValidCap(cap) && RingInv(cap, s) && s.y.pc.YSplit?
    ensures RingInv(cap, YGoto(s, YRead(Split(cap, s.poped, Length(s.y.hdr), s.valid), map[])))
  {
    AtRecord(s);
    RecordStored(s);
    SplitFits(cap, s.poped, |s.recs[|s.read|].payload|, s.valid);
  }

  lemma TakesByte(cap: nat, s: RingState, k: nat)
    requires RingInv(cap, s) && s.y.pc.YRead? && k < Length(s.y.hdr) && 0 <= Address(s.y.pc.p, k) < |s.buf|
    ensures RingInv(cap, YGoto(s, YRead(s.y.pc.p, s.y.pc.done[k := s.buf[Address(s.y.pc.p, k)]])))
  {
    AtRecord(s);
    RecordStored(s);
    ReadByte(s.buf, s.recs, s.read, 0, s.poped, s.valid, 4 + k);
    assert PayloadBytes(s.recs, |s.read|, 0, s.y.pc.done[k := s.buf[Address(s.y.pc.p, k)]]);
  }

  lemma TakesRecord(cap: nat, s: RingState, n: nat)
    requires RingInv(cap, s) && s.y.pc.YRead? && n == Length(s.y.hdr) && forall k: nat :: k < n ==> k in s.y.pc.done
    ensures RingInv(cap, s.(y := Client(YPop, s.y.hdr, Collect(s.y.pc.done, n))))
  {
    AtRecord(s);
    RecordStored(s);
    assert Collect(s.y.pc.done, n) == s.recs[|s.read|].payload;
  }

  lemma PopCounts(s: RingState, m: Msg)
    requires Counts(s.recs, s.read, s.cur, s.x.continued, s.pushed, s.valid, s.poped)
    requires |s.read| < |s.recs| && m == s.recs[|s.read|]
    ensures Counts(s.recs, s.read + [m], s.cur, s.x.continued, s.pushed, s.valid, s.poped + |m.payload| + 4)
  {
    StreamAppend(s.read, m);
    assert s.read + [m] == s.recs[..|s.read| + 1];
  }

  lemma Pops(cap: nat, s: RingState)
    requires RingInv(cap, s) && s.y.pc.YPop?
    ensures RingInv(cap, s.(poped := s.poped + Length(s.y.hdr) + 4, read := s.read + [Msg(s.y.hdr, s.y.got)],
                            y := Client(YTestWait, [], [])))
  {
    AtRecord(s);
    RecordStored(s);
    var m := s.recs[|s.read|];
    assert Msg(s.y.hdr, s.y.got) == m;
    PopCounts(s, m);
  }

  lemma InvClientReads(cap: nat, s: RingState, s': RingState)
    requires ValidCap(cap) && RingInv(cap, s) && ClientReads(cap, s, s')
    ensures RingInv(cap, s')
  {
    if s.y.pc.YSplit? {
      Splits(cap, s);
    } else if s.y.pc.YPop? {
      Pops(cap, s);
    } else if s'.y.pc.YPop? {
      TakesRecord(cap, s, Length(s.y.hdr));
    } else {
      var k: nat :| k < Length(s.y.hdr) && k !in s.y.pc.done && 0 <= Address(s.y.pc.p, k) < |s.buf|
        && s' == YGoto(s, YRead(s.y.pc.p, s.y.pc.done[k := s.buf[Address(s.y.pc.p, k)]]));
      TakesByte(cap, s, k);
    }
  }

  lemma InvClientNotifies(cap: nat, s: RingState, s': RingState)
    requires RingInv(cap, s) && ClientNotifies(s, s')
    ensures RingInv(cap, s')
  {
    assert s' == s.(x := s'.x, y := s'.y, mutex := s'.mutex);
    assert s'.x == s.x || (s.x.pc == XAsleep && s'.x == s.x.(pc := XRelock));
  }

  lemma ClosedStays(cap: nat, s: RingState, s': RingState)
    requires s.closed && RingStep(cap, s, s')
    ensures s'.closed
  {
  }

  lemma RingStepKeeps(cap: nat, s: RingState, s': RingState)
    requires ValidCap(cap) && (s.closed || RingInv(cap, s)) && RingStep(cap, s, s')
    ensures s'.closed || RingInv(cap, s')
  {
    if s.closed {
      ClosedStays(cap, s, s');
    } else if ServerWaits(cap, s, s') {
      InvServerWaits(cap, s, s');
    } else if ServerOpens(cap, s, s') {
      InvServerOpens(cap, s, s');
    } else if ServerCopies(s, s') {
      InvServerCopies(cap, s, s');
    } else if ServerFlushes(s, s') {
      InvServerFlushes(cap, s, s');
    } else if ClientLooks(s, s') {
      InvClientLooks(cap, s, s');
    } else if ClientReads(cap, s, s') {
      InvClientReads(cap, s, s');
    } else {
      InvClientNotifies(cap, s, s');
    }
  }

  lemma RingInitInv(cap: nat, s: RingState)
    requires RingInit(cap, s) && cap > 0
    ensures RingInv(cap, s)
  {
  }

  /** A ring that differs from `buf` at position `i`. */
  lemma OtherByte(buf: seq<byte>, i: nat) returns (other: seq<byte>)
    requires |buf| > 0
    ensures |other| == |buf| && At(other, i) != At(buf, i)
  {
    other := Put(buf, i, if At(buf, i) == 0 then 1 else 0);
  }

  /** A wire that is not in use keeps its positions when it is given another buffer. It may be: whatever
      the buffer holds, all is well exactly if every record was disposed of and none is open. */
  lemma ReattachExactly(cap: nat, s: RingState)
    requires ValidCap(cap) && RingInv(cap, s) && s.x.pc.XIdle? && s.y.pc.YIdle?
    ensures (forall buf: seq<byte> :: |buf| == cap ==> RingInv(cap, s.(buf := buf))) <==> s.valid == s.poped && !s.x.continued
  {
    PopedWithin(s);
    if s.valid > s.poped {
      var other := OtherByte(s.buf, s.poped);
      assert At(s.buf, s.poped) == Stream(s.recs)[s.poped];
      assert !HoldsMsgs(other, s.recs, s.poped, s.valid);
      assert !RingInv(cap, s.(buf := other));
    } else if s.x.continued {
      var other := OtherByte(s.buf, s.valid + 4);
      assert At(s.buf, s.valid + 4) == s.cur[0];
      assert !HasAll(other, s.valid + 4, s.cur);
      assert !RingInv(cap, s.(buf := other));
    }
  }

  /** A wire that may be given another buffer is a wire just acquired. */
  lemma ReattachedIsInit(cap: nat, s: RingState, buf: seq<byte>)
    requires RingInv(cap, s) && s.valid == s.poped && !s.x.continued && |buf| == cap && !s.closed && !s.waitWrite && s.mutex == NoOne
    requires s.x.pc.XIdle? && s.y == Client(YIdle, [], [])
    ensures RingInit(cap, s.(buf := buf, x := Server(XIdle, [], false)))
  {
    if |s.read| < |s.recs| {
      AtRecord(s);
    }
    assert s.read == s.recs;
  }

  lemma {:induction false} RingAlways(cap: nat, t: seq<RingState>, i: nat)
    requires ValidCap(cap) && RingRun(cap, t) && i < |t|
    ensures t[i].closed || RingInv(cap, t[i])
  {
    if i == 0 {
      RingInitInv(cap, t[0]);
    } else {
      RingAlways(cap, t, i - 1);
      assert RingStepAt(cap, t, i - 1);
      RingStepKeeps(cap, t[i - 1], t[i]);
    }
  }

  // ----- Wakeups -----

  ghost predicate ClientWillNotify(s: RingState) {
    s.y.pc.YTestWait? || s.y.pc.YNotifyLock? || s.y.pc.YNotify?
  }

  ghost predicate ServerHolds(pc: XPc) {
    pc.XRaise? || pc.XPredRoom? || pc.XPredClosed? || pc.XSleep? || pc.XLower? || pc.XUnlock?
  }

  ghost predicate RingLockInv(s: RingState) {
    && (s.mutex == TheServer <==> ServerHolds(s.x.pc))
    && (s.mutex == TheClient <==> s.y.pc.YNotify? || s.y.pc.YNotifyUnlock?)
    && s.waitWrite == (s.x.pc.XPredRoom? || s.x.pc.XPredClosed? || s.x.pc.XSleep? || s.x.pc.XAsleep? || s.x.pc.XRelock?
                       || s.x.pc.XLower?)
  }

  ghost predicate RingWakeInv(cap: nat, s: RingState) {
    && RingLockInv(s)
    && (s.x.pc.XPredClosed? || s.x.pc.XSleep? || s.x.pc.XAsleep? ==>
          RoomLeft(cap, s) >= Wants(s.x) ==> ClientWillNotify(s))
    && (s.x.pc.XSleep? || s.x.pc.XAsleep? ==> s.closed ==> ClientWillNotify(s))
  }

  lemma WakeServerOpens(cap: nat, s: RingState, s': RingState)
    requires RingWakeInv(cap, s) && ServerOpens(cap, s, s')
    ensures RingWakeInv(cap, s')
  {
  }

  lemma WakeServerWrites(cap: nat, s: RingState, s': RingState)
    requires RingWakeInv(cap, s) && |s.buf| > 0 && (ServerCopies(s, s') || ServerFlushes(s, s'))
    ensures RingWakeInv(cap, s')
  {
    assert s' == s.(buf := s'.buf, pushed := s'.pushed, valid := s'.valid, x := s'.x, recs := s'.recs, cur := s'.cur);
  }

  lemma WakeServerWaits(cap: nat, s: RingState, s': RingState)
    requires RingWakeInv(cap, s) && ServerWaits(cap, s, s')
    ensures RingWakeInv(cap, s')
  {
  }

  lemma WakeClientReads(cap: nat, s: RingState, s': RingState)
    requires RingWakeInv(cap, s) && |s.buf| > 0 && cap > 0 && (ClientLooks(s, s') || ClientReads(cap, s, s'))
    ensures RingWakeInv(cap, s')
  {
    assert s'.x == s.x && s'.pushed == s.pushed && s'.mutex == s.mutex && s'.waitWrite == s.waitWrite;
    assert s' == s.(y := s'.y) || s'.y.pc.YTestWait?;
  }

  lemma WakeClientNotifies(cap: nat, s: RingState, s': RingState)
    requires RingWakeInv(cap, s) && ClientNotifies(s, s')
    ensures RingWakeInv(cap, s')
  {
  }

  lemma {:induction false} RingWakeAlways(cap: nat, t: seq<RingState>, i: nat)
    requires RingRun(cap, t) && i < |t|
    ensures RingWakeInv(cap, t[i])
  {
    if i > 0 {
      RingWakeAlways(cap, t, i - 1);
      assert RingStepAt(cap, t, i - 1);
      var s, s' := t[i - 1], t[i];
      if ServerWaits(cap, s, s') {
        WakeServerWaits(cap, s, s');
      } else if ServerOpens(cap, s, s') {
        WakeServerOpens(cap, s, s');
      } else if ServerCopies(s, s') || ServerFlushes(s, s') {
        WakeServerWrites(cap, s, s');
      } else if ClientNotifies(s, s') {
        WakeClientNotifies(cap, s, s');
      } else {
        WakeClientReads(cap, s, s');
      }
    }
  }

  // ----- Theorems: every run -----

  /** While the client reads a record, the two pieces `get_chunk` returned lie in the buffer and
      together are exactly the bytes written between two flushes. */
  lemma PiecesAreTheRecord(cap: nat, t: seq<RingState>, i: nat)
    requires ValidCap(cap) && RingRun(cap, t) && i < |t| && !t[i].closed && t[i].y.pc.YRead?
    ensures var s := t[i];
            var p := s.y.pc.p;
            && 0 <= p.a1 <= p.a1 + p.n1 <= |s.buf| && 0 <= p.a2 <= p.a2 + p.n2 <= |s.buf|
            && |s.read| < |s.recs|
            && s.buf[p.a1..p.a1 + p.n1] + s.buf[p.a2..p.a2 + p.n2] == s.recs[|s.read|].payload
  {
    RingAlways(cap, t, i);
    var s := t[i];
    AtRecord(s);
    RecordStored(s);
    var p, m := s.y.pc.p, s.recs[|s.read|];
    var both := s.buf[p.a1..p.a1 + p.n1] + s.buf[p.a2..p.a2 + p.n2];
    forall k: nat | k < |m.payload|
      ensures both[k] == m.payload[k]
    {
      assert both[k] == s.buf[Address(p, k)];
      ReadByte(s.buf, s.recs, s.read, 0, s.poped, s.valid, 4 + k);
    }
  }

  /** The records disposed of are the first records flushed; the client's position is a record
      boundary, the ring holds every flushed record not yet disposed of, and behind the last of them
      lie a free header slot and the unflushed bytes, within the capacity. */
  lemma FlushedAndUnflushed(cap: nat, t: seq<RingState>, i: nat)
    requires ValidCap(cap) && RingRun(cap, t) && i < |t| && !t[i].closed
    ensures var s := t[i];
            && |s.buf| > 0 && s.read <= s.recs
            && s.poped == |Stream(s.read)| && s.valid == |Stream(s.recs)| && s.poped <= s.valid
            && Slice(s.buf, s.poped, s.valid - s.poped) == Stream(s.recs)[s.poped..s.valid]
            && s.pushed == s.valid + (if s.x.continued then 4 + |s.cur| else 0) <= s.poped + cap
            && (s.x.continued ==> Slice(s.buf, s.valid + 4, |s.cur|) == s.cur)
  {
    RingAlways(cap, t, i);
    PopedWithin(t[i]);
  }

  lemma {:induction false} StreamPrefix(a: seq<Msg>, b: seq<Msg>)
    requires a <= b
    ensures Stream(a) <= Stream(b)
  {
    if |a| < |b| {
      StreamPrefix(a, b[..|b| - 1]);
    } else {
      assert a == b;
    }
  }

  lemma ServerRecs(cap: nat, s: RingState, s': RingState)
    requires |s.buf| > 0 && (ServerWaits(cap, s, s') || ServerOpens(cap, s, s') || ServerCopies(s, s') || ServerFlushes(s, s'))
    ensures s.recs <= s'.recs
  {
  }

  lemma ClientRecs(cap: nat, s: RingState, s': RingState)
    requires |s.buf| > 0 && cap > 0 && (ClientLooks(s, s') || ClientReads(cap, s, s') || ClientNotifies(s, s'))
    ensures s'.recs == s.recs
  {
  }

  lemma RecsGrow(cap: nat, s: RingState, s': RingState)
    requires RingStep(cap, s, s')
    ensures s.recs <= s'.recs
  {
    if ClientLooks(s, s') || ClientReads(cap, s, s') || ClientNotifies(s, s') {
      ClientRecs(cap, s, s');
    } else {
      ServerRecs(cap, s, s');
    }
  }

  lemma RecsGrowAt(cap: nat, t: seq<RingState>, i: nat)
    requires RingRun(cap, t) && i + 1 < |t|
    ensures t[i].recs <= t[i + 1].recs
  {
    assert RingStepAt(cap, t, i);
    RecsGrow(cap, t[i], t[i + 1]);
  }

  /** No step changes a byte of a flushed record the client has not disposed of. */
  lemma FlushedBytesAreSafe(cap: nat, t: seq<RingState>, i: nat)
    requires ValidCap(cap) && RingRun(cap, t) && i + 1 < |t| && !t[i].closed && !t[i + 1].closed
    ensures |t[i + 1].buf| == |t[i].buf| > 0
    ensures forall p: nat :: t[i].poped <= p < t[i].valid && t[i + 1].poped <= p ==> At(t[i + 1].buf, p) == At(t[i].buf, p)
  {
    RecsGrowAt(cap, t, i);
    RingAlways(cap, t, i);
    RingAlways(cap, t, i + 1);
    StreamPrefix(t[i].recs, t[i + 1].recs);
  }

  ghost predicate ServerWaiting(pc: XPc) {
    pc.XLock? || pc.XRaise? || pc.XPredRoom? || pc.XPredClosed? || pc.XSleep? || pc.XAsleep? || pc.XRelock?
  }

  /** If the open record with what is being added fits the ring, a server out of room has left the
      client a record to dispose of. */
  lemma BlockedMeansRecord(cap: nat, t: seq<RingState>, i: nat)
    requires ValidCap(cap) && RingRun(cap, t) && i < |t| && !t[i].closed
    requires ServerWaiting(t[i].x.pc) && RoomLeft(cap, t[i]) < Wants(t[i].x)
    requires t[i].x.continued ==> 4 + |t[i].cur| + |t[i].x.data| <= cap
    ensures t[i].valid > t[i].poped
  {
    RingAlways(cap, t, i);
    PopedWithin(t[i]);
  }

  /** A server asleep although it could go on is about to be notified, and its wait flag is up. */
  lemma ServerWakeupNotLost(cap: nat, t: seq<RingState>, i: nat)
    requires RingRun(cap, t) && i < |t| && t[i].x.pc == XAsleep
    requires RoomLeft(cap, t[i]) >= Wants(t[i].x) || t[i].closed
    ensures t[i].waitWrite && ClientWillNotify(t[i])
  {
    RingWakeAlways(cap, t, i);
  }
}
