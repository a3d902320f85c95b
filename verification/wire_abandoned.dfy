/** A reader in the middle of a message: whom it waits for, and what becomes of it when the writer
    gives the message up because the wire was closed. */
module WireAbandoned {
  import opened Ring
  import opened Wire
  import opened WireData
  import opened WireTheorems

  /** The reader has the header of a message and waits for bytes that are not there; this wait has
      neither a flag nor a time limit. */
  ghost predicate LacksBytes(c: Config, s: State) {
    s.r.hdr != [] && ReaderWaiting(s.r.pc) && Stored(s.m) < Want(c, s.r)
  }

  /** The writer is in the middle of the message the reader is at. */
  ghost predicate WritesItsMessage(s: State) {
    InProgress(s.w) && |s.log.msgs| == |s.log.recv| + 1 && s.w.msg == s.log.msgs[|s.log.recv|]
  }

  /** With nothing stored, the reader is at the last message, as far as it is published. */
  lemma AtLastMessage(c: Config, s: State)
    requires DataInv(c, s) && LacksBytes(c, s)
    ensures s.m.pushed == s.m.poped && |s.log.msgs| == |s.log.recv| + 1
    ensures s.m.pushed < |Stream(s.log.msgs)| && |Bytes(s.log.msgs[|s.log.recv|])| > c.cap
  {
    if s.m.pushed > s.m.poped {
      NextChunkStored(c, s);
    }
    var ms, i := s.log.msgs, |s.log.recv|;
    assert ValidMsg(c, ms[i]) && s.log.recv == ms[..i];
    StreamAt(ms, i, s.r.off);
    if i < |ms| - 1 {
      StreamGrows(ms, i + 1, |ms| - 1);
    }
  }

  /** In every run: a reader that lacks bytes of a message waits for a writer in that very message,
      or the writer has given it up. It happens only to messages longer than the ring. */
  lemma WaitsForWriterOrNobody(c: Config, t: seq<State>, i: nat)
    requires ValidConfig(c) && Run(c, t) && i < |t| && LacksBytes(c, t[i])
    ensures WritesItsMessage(t[i]) <==> !t[i].log.dead
    ensures |t[i].log.recv| < |t[i].log.msgs| && |Bytes(t[i].log.msgs[|t[i].log.recv|])| > c.cap
  {
    DataAlways(c, t, i);
    AtLastMessage(c, t[i]);
  }

  // ----- Given up -----

  ghost predicate Abandoned(c: Config, s: State) {
    LacksBytes(c, s) && s.log.dead
  }

  /** Nothing the reader waits for has changed, and it still waits. */
  ghost predicate StillWaits(s: State, s': State) {
    && s'.m.pushed == s.m.pushed && s'.m.poped == s.m.poped && s'.log.dead && s'.log.recv == s.log.recv
    && s'.r.(pc := s.r.pc) == s.r && ReaderWaiting(s'.r.pc)
  }

  lemma WriterLeavesIt(c: Config, s: State, s': State)
    requires DataInv(c, s) && Abandoned(c, s) && (WriterTests(c, s, s') || WriterWaits(c, s, s'))
    ensures StillWaits(s, s')
  {
  }

  lemma WriterPublishLeavesIt(c: Config, s: State, s': State)
    requires DataInv(c, s) && Abandoned(c, s) && |s.m.buf| > 0 && (WriterCopies(c, s, s') || WriterPublishes(c, s, s'))
    ensures StillWaits(s, s')
  {
  }

  lemma ReaderWaitsOn(c: Config, s: State, s': State)
    requires Abandoned(c, s) && |s.m.buf| > 0 && ReaderStep(c, s, s') && PcInv(c, s.r, Stored(s.m))
    ensures StillWaits(s, s')
  {
  }

  lemma SignalsDoNotHelp(c: Config, s: State, s': State, id: nat, g: Signal)
    requires Abandoned(c, s) && (RaiseStep(c, s, s', id, g) || SignalStep(c, s, s', id))
    ensures StillWaits(s, s')
  {
    if SignalStep(c, s, s', id) {
      SignalFrame(c, s, s', id);
    }
  }

  lemma AbandonedStep(c: Config, s: State, s': State)
    requires DataInv(c, s) && Abandoned(c, s) && Step(c, s, s')
    ensures StillWaits(s, s')
  {
    if WriterTests(c, s, s') || WriterWaits(c, s, s') {
      WriterLeavesIt(c, s, s');
    } else if WriterCopies(c, s, s') || WriterPublishes(c, s, s') {
      WriterPublishLeavesIt(c, s, s');
    } else if ReaderStep(c, s, s') {
      ReaderWaitsOn(c, s, s');
    } else if id, g :| RaiseStep(c, s, s', id, g) {
      SignalsDoNotHelp(c, s, s', id, g);
    } else {
      var id :| SignalStep(c, s, s', id);
      SignalsDoNotHelp(c, s, s', id, Close);
    }
  }

  /** Once given up, the reader waits for ever: no step of any thread, no notification and no close or
      termination ends its wait. */
  lemma {:induction false} AbandonedForEver(c: Config, t: seq<State>, i: nat, j: nat)
    requires ValidConfig(c) && Run(c, t) && i <= j < |t| && Abandoned(c, t[i])
    ensures Abandoned(c, t[j]) && t[j].log.recv == t[i].log.recv
    decreases j
  {
    if i < j {
      AbandonedForEver(c, t, i, j - 1);
      DataAlways(c, t, j - 1);
      assert StepAt(c, t, j - 1);
      AbandonedStep(c, t[j - 1], t[j]);
    }
  }

  // ----- A run -----

  /** A wire of four bytes, and a message of five. */
  ghost function Small(kind: Kind): Config {
    Config(4, 4, kind)
  }

  ghost function Five(): Msg {
    Msg([1, 0, 0, 0], [7])
  }

  ghost function Begin(): State {
    State(Shared([1, 0, 0, 0], 0, 0, false, false, Free, {}), Writer(WIdle, Five(), 0), Reader(RIdle, [], [], 0), map[],
          Log([], 0, false, false, [], map[]))
  }

  /** The first chunk of the message, the header, is published. */
  ghost function Halfway(): State {
    Begin().(m := Begin().m.(pushed := 4), w := Writer(WTestRoom, Five(), 4), log := Log([Five()], 4, false, false, [], map[]))
  }

  /** And read; the reader is about to wait for the rest. */
  ghost function HalfRead(): State {
    Halfway().(m := Begin().m.(pushed := 4, poped := 4), r := Reader(RLock, [1, 0, 0, 0], [], 4))
  }

  ghost function Copying(): State {
    Begin().(log := Log([Five()], 0, false, false, [], map[]))
  }

  ghost function Upto(k: nat): set<nat> {
    if k == 0 then {} else Upto(k - 1) + {k - 1}
  }

  lemma {:induction false} UptoHas(k: nat, i: nat)
    ensures i in Upto(k) <==> i < k
  {
    if k > 0 {
      UptoHas(k - 1, i);
    }
  }

  lemma UptoAll(k: nat)
    ensures forall i: nat :: i < k ==> i in Upto(k)
  {
    forall i: nat | i < k
      ensures i in Upto(k)
    {
      UptoHas(k, i);
    }
  }

  /** The header bytes the reader has taken over. */
  ghost function Taken4(k: nat): map<nat, byte>
    requires k <= 4
  {
    if k == 0 then map[] else Taken4(k - 1)[k - 1 := Five().header[k - 1]]
  }

  lemma {:induction false} Taken4Has(k: nat, i: nat)
    requires k <= 4
    ensures i in Taken4(k) <==> i < k
    ensures i < k ==> Taken4(k)[i] == Five().header[i]
  {
    if k > 0 {
      Taken4Has(k - 1, i);
    }
  }

  lemma ExtendWriter(c: Config, t: seq<State>, s': State)
    requires Run(c, t) && |t[|t| - 1].m.buf| > 0 && WriterStep(c, t[|t| - 1], s')
    ensures Run(c, t + [s'])
  {
    Extend(c, t, s');
  }

  lemma StartStep(kind: Kind)
    ensures WriterTests(Small(kind), Begin(), WGoto(Begin(), WTestRoom))
  {
    var c, m := Small(kind), Five();
    assert Length(m.header) == 1 == |m.payload|;
    assert ValidMsg(c, m);
    assert WGoto(Begin(), WTestRoom) == Begin().(w := Writer(WTestRoom, m, 0));
  }

  lemma RoomStep(kind: Kind)
    ensures WriterTests(Small(kind), WGoto(Begin(), WTestRoom), WGoto(Begin(), WGate))
  {
  }

  lemma GateStep(kind: Kind)
    ensures WriterTests(Small(kind), WGoto(Begin(), WGate), WGoto(Copying(), WCopy({})))
  {
    assert [] + [Five()] == [Five()];
  }

  lemma CopyStep(kind: Kind, k: nat)
    requires k < 4
    ensures WriterCopies(Small(kind), WGoto(Copying(), WCopy(Upto(k))), WGoto(Copying(), WCopy(Upto(k + 1))))
  {
    var s := WGoto(Copying(), WCopy(Upto(k)));
    UptoHas(k, k);
    assert Put(s.m.buf, s.m.pushed + k, Bytes(Five())[s.w.off + k]) == s.m.buf;
  }

  lemma PublishSteps(kind: Kind)
    ensures WriterCopies(Small(kind), WGoto(Copying(), WCopy(Upto(4))), WGoto(Copying(), WPush))
    ensures WriterPublishes(Small(kind), WGoto(Copying(), WPush), WGoto(Halfway(), WTestWait))
    ensures WriterPublishes(Small(kind), WGoto(Halfway(), WTestWait), Halfway())
  {
    UptoAll(4);
  }

  lemma WriteFirstChunk(kind: Kind) returns (t: seq<State>)
    ensures Run(Small(kind), t) && t[|t| - 1] == Halfway()
  {
    var c := Small(kind);
    StartStep(kind);
    RoomStep(kind);
    GateStep(kind);
    PublishSteps(kind);
    t := [Begin()];
    ExtendWriter(c, t, WGoto(Begin(), WTestRoom));
    t := t + [WGoto(Begin(), WTestRoom)];
    ExtendWriter(c, t, WGoto(Begin(), WGate));
    t := t + [WGoto(Begin(), WGate)];
    ExtendWriter(c, t, WGoto(Copying(), WCopy({})));
    t := t + [WGoto(Copying(), WCopy({}))];
    var k := 0;
    while k < 4
      invariant 0 <= k <= 4 && Run(c, t) && t[|t| - 1] == WGoto(Copying(), WCopy(Upto(k)))
    {
      CopyStep(kind, k);
      ExtendWriter(c, t, WGoto(Copying(), WCopy(Upto(k + 1))));
      t := t + [WGoto(Copying(), WCopy(Upto(k + 1)))];
      k := k + 1;
    }
    ExtendWriter(c, t, WGoto(Copying(), WPush));
    t := t + [WGoto(Copying(), WPush)];
    ExtendWriter(c, t, WGoto(Halfway(), WTestWait));
    t := t + [WGoto(Halfway(), WTestWait)];
    ExtendWriter(c, t, Halfway());
    t := t + [Halfway()];
  }

  /** What the reader goes through until it copies the header. */
  ghost function Looking(k: nat): RPc
    requires k <= 5
  {
    [RIdle, RLoad(0, {}), RLoad(1, {}), RLoad(2, {}), RTestStored({}), RHeader(map[])][k]
  }

  lemma LookStep(kind: Kind, k: nat)
    requires k < 5
    ensures ReaderLooks(Small(kind), RGoto(Halfway(), Looking(k)), RGoto(Halfway(), Looking(k + 1)))
  {
  }

  lemma TakeStep(kind: Kind, k: nat)
    requires k < 4
    ensures ReaderCopies(Small(kind), RGoto(Halfway(), RHeader(Taken4(k))), RGoto(Halfway(), RHeader(Taken4(k + 1))))
  {
    Taken4Has(k, k);
    assert At(Halfway().m.buf, Halfway().m.poped + k) == Five().header[k];
  }

  ghost function WithHeader(pc: RPc): State {
    Halfway().(r := Reader(pc, [1, 0, 0, 0], [], 0))
  }

  lemma HeaderStep(kind: Kind)
    ensures ReaderCopies(Small(kind), RGoto(Halfway(), RHeader(Taken4(4))), WithHeader(RCopy(map[])))
  {
    forall k: nat | k < 4
      ensures k in Taken4(4) && Taken4(4)[k] == [1, 0, 0, 0][k]
    {
      Taken4Has(4, k);
    }
    assert Collect(Taken4(4), 4) == [1, 0, 0, 0];
  }

  lemma FirstChunkIsEmpty(kind: Kind, pc: RPc)
    ensures Chunk(Small(kind), WithHeader(pc).r) == 0 && Total(Small(kind), WithHeader(pc).r) == 5
  {
    assert Length([1, 0, 0, 0]) == 1;
  }

  lemma EmptyCopyStep(kind: Kind)
    ensures ReaderCopies(Small(kind), WithHeader(RCopy(map[])), WithHeader(RPop))
  {
    FirstChunkIsEmpty(kind, RCopy(map[]));
    assert [] + Collect(map[], 0) == [];
  }

  lemma PopStep(kind: Kind)
    ensures ReaderReleases(Small(kind), WithHeader(RPop), RGoto(HalfRead(), RTestWait))
  {
    FirstChunkIsEmpty(kind, RPop);
  }

  lemma NextChunkStep(kind: Kind)
    ensures ReaderReleases(Small(kind), RGoto(HalfRead(), RTestWait), HalfRead())
  {
    FirstChunkIsEmpty(kind, RTestWait);
  }

  lemma ExtendReading(c: Config, t: seq<State>, s': State)
    requires Run(c, t) && |t[|t| - 1].m.buf| > 0 && ReaderStep(c, t[|t| - 1], s')
    ensures Run(c, t + [s'])
  {
    Extend(c, t, s');
  }

  lemma ReadFirstChunk(kind: Kind) returns (t: seq<State>)
    ensures Run(Small(kind), t) && t[|t| - 1] == HalfRead()
  {
    var c := Small(kind);
    t := WriteFirstChunk(kind);
    var k := 0;
    while k < 5
      invariant 0 <= k <= 5 && Run(c, t) && t[|t| - 1] == RGoto(Halfway(), Looking(k))
    {
      LookStep(kind, k);
      ExtendReading(c, t, RGoto(Halfway(), Looking(k + 1)));
      t := t + [RGoto(Halfway(), Looking(k + 1))];
      k := k + 1;
    }
    k := 0;
    while k < 4
      invariant 0 <= k <= 4 && Run(c, t) && t[|t| - 1] == RGoto(Halfway(), RHeader(Taken4(k)))
    {
      TakeStep(kind, k);
      ExtendReading(c, t, RGoto(Halfway(), RHeader(Taken4(k + 1))));
      t := t + [RGoto(Halfway(), RHeader(Taken4(k + 1)))];
      k := k + 1;
    }
    HeaderStep(kind);
    EmptyCopyStep(kind);
    PopStep(kind);
    NextChunkStep(kind);
    ExtendReading(c, t, WithHeader(RCopy(map[])));
    t := t + [WithHeader(RCopy(map[]))];
    ExtendReading(c, t, WithHeader(RPop));
    t := t + [WithHeader(RPop)];
    ExtendReading(c, t, RGoto(HalfRead(), RTestWait));
    t := t + [RGoto(HalfRead(), RTestWait)];
    ExtendReading(c, t, HalfRead());
    t := t + [HalfRead()];
  }

  /** The wire is closed between the two chunks. */
  ghost function ClosedNow(kind: Kind): State {
    var s := HalfRead();
    s.(m := s.m.(flags := {Closed}), sigs := map[0 := Signaller(Targets(kind, Close), STest)],
       log := s.log.(called := true, pubAt := map[Closed := 1]))
  }

  ghost function GivenUp(kind: Kind): State {
    var s := ClosedNow(kind);
    WGoto(s, WIdle).(log := s.log.(dead := true))
  }

  lemma CloseSteps(kind: Kind)
    ensures RaiseStep(Small(kind), HalfRead(), ClosedNow(kind), 0, Close)
    ensures WriterTests(Small(kind), ClosedNow(kind), WGoto(ClosedNow(kind), WGate))
    ensures WriterTests(Small(kind), WGoto(ClosedNow(kind), WGate), GivenUp(kind))
  {
    assert {} + {Closed} == {Closed};
  }

  lemma GivenUpIsAbandoned(kind: Kind)
    ensures Abandoned(Small(kind), GivenUp(kind))
  {
    var r := GivenUp(kind).r;
    assert Length(r.hdr) == 1;
    assert Want(Small(kind), r) == 1;
  }

  /** On either kind of wire, a run that leaves the reader waiting for a message given up. */
  lemma MessageIsAbandoned(kind: Kind) returns (t: seq<State>)
    ensures Run(Small(kind), t) && Abandoned(Small(kind), t[|t| - 1])
  {
    var c := Small(kind);
    t := ReadFirstChunk(kind);
    CloseSteps(kind);
    Extend(c, t, ClosedNow(kind));
    t := t + [ClosedNow(kind)];
    ExtendWriter(c, t, WGoto(ClosedNow(kind), WGate));
    t := t + [WGoto(ClosedNow(kind), WGate)];
    ExtendWriter(c, t, GivenUp(kind));
    t := t + [GivenUp(kind)];
    GivenUpIsAbandoned(kind);
  }
}
