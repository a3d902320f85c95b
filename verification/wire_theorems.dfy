/** What every run of a wire satisfies. */
module WireTheorems {
  import opened Ring
  import opened Wire
  import opened WireSync
  import opened WireData

  /** The messages read are exactly the first messages written, byte for byte. */
  lemma ReadIsPrefixOfWritten(c: Config, t: seq<State>, i: nat)
    requires ValidConfig(c) && Run(c, t) && i < |t|
    ensures t[i].log.recv <= t[i].log.msgs
  {
    DataAlways(c, t, i);
  }

  /** What no step of the writer touches; the buffer only changes while copying. */
  ghost predicate WriterLeaves(s: State, s': State) {
    && s'.m.flags == s.m.flags && s'.log.pubAt == s.log.pubAt && s'.log.recv == s.log.recv
    && (s'.r.pc == s.r.pc || s'.r.pc == RRelock(false))
  }

  lemma WriterFrame(c: Config, s: State, s': State)
    requires WriterTests(c, s, s') || WriterWaits(c, s, s')
    ensures WriterLeaves(s, s') && s'.m.buf == s.m.buf
  {
  }

  lemma WriterPublishFrame(c: Config, s: State, s': State)
    requires WriterPublishes(c, s, s')
    ensures WriterLeaves(s, s') && s'.m.buf == s.m.buf
  {
  }

  lemma WriterCopyFrame(c: Config, s: State, s': State)
    requires |s.m.buf| > 0 && WriterCopies(c, s, s')
    ensures WriterLeaves(s, s')
    ensures s'.m.buf == s.m.buf || exists i: nat, b ::
      s.w.pc.WCopy? && s.m.pushed <= i < s.m.pushed + Need(c, s.w) && s'.m.buf == Put(s.m.buf, i, b)
  {
  }

  lemma WriterStepFrame(c: Config, s: State, s': State)
    requires |s.m.buf| > 0 && WriterStep(c, s, s')
    ensures WriterLeaves(s, s')
    ensures s'.m.buf == s.m.buf || exists i: nat, b ::
      s.w.pc.WCopy? && s.m.pushed <= i < s.m.pushed + Need(c, s.w) && s'.m.buf == Put(s.m.buf, i, b)
  {
    if WriterCopies(c, s, s') {
      WriterCopyFrame(c, s, s');
    } else if WriterPublishes(c, s, s') {
      WriterPublishFrame(c, s, s');
    } else {
      WriterFrame(c, s, s');
    }
  }

  /** No step of the writer changes a byte the reader may still read. */
  lemma StoredBytesAreSafe(c: Config, t: seq<State>, i: nat)
    requires ValidConfig(c) && Run(c, t) && i + 1 < |t| && |t[i].m.buf| > 0 && WriterStep(c, t[i], t[i + 1])
    ensures |t[i + 1].m.buf| == |t[i].m.buf|
    ensures forall p: nat :: t[i].m.poped <= p < t[i].m.pushed ==> At(t[i + 1].m.buf, p) == At(t[i].m.buf, p)
  {
    DataAlways(c, t, i);
    var s, s' := t[i], t[i + 1];
    WriterStepFrame(c, s, s');
    if s'.m.buf != s.m.buf {
      var p: nat, b :|
        s.w.pc.WCopy? && s.m.pushed <= p < s.m.pushed + Need(c, s.w) && s'.m.buf == Put(s.m.buf, p, b);
      PutKeeps(s.m.buf, p, b, s.m.poped, s.m.pushed);
    }
  }

  /** A writer asleep although it could go on is about to be notified, and its wait flag is up. */
  lemma WriterWakeupNotLost(c: Config, t: seq<State>, i: nat)
    requires Run(c, t) && i < |t| && t[i].w.pc == WAsleep
    requires Room(c, t[i].m) >= Need(c, t[i].w) || Closed in t[i].m.flags
    ensures t[i].m.waitWrite && (RWillNotify(t[i]) || SWillNotify(t[i], Full))
  {
    SyncAlways(c, t, i);
  }

  /** What lets the reader's wait end. */
  ghost predicate ReaderCouldGoOn(c: Config, s: State) {
    Stored(s.m) >= Want(c, s.r) || (s.r.hdr == [] && exists f :: f in Watched(c.kind) && f in s.m.flags)
  }

  /** The same for the reader, unless all that could wake it is the closed flag of a response wire and
      `close` was never called. */
  lemma ReaderWakeupNotLost(c: Config, t: seq<State>, i: nat)
    requires Run(c, t) && i < |t| && t[i].r.pc == RAsleep && ReaderCouldGoOn(c, t[i])
    requires c.kind == Request || t[i].log.called || Terminated in t[i].m.flags || Stored(t[i].m) >= Want(c, t[i].r)
    ensures t[i].m.waitRead && (WWillNotify(t[i]) || SWillNotify(t[i], Empty))
  {
    SyncAlways(c, t, i);
    var s := t[i];
    if Stored(s.m) < Want(c, s.r) {
      var w := Watched(c.kind);
      var f :| f in w && f in s.m.flags && (f == Closed ==> s.log.called);
      var j :| 0 <= j < |w| && w[j] == f;
      assert j < Cleared(c, s) && Watched(c.kind)[j] in s.m.flags;
    }
  }

  // ----- Who owes the reader a notification -----

  /** On a response wire only `close` and the shutdown notice notify the reader. */
  ghost predicate OwedInv(s: State) {
    SWillNotify(s, Empty) ==> s.log.called || Terminated in s.m.flags
  }

  /** A step that neither raises flags nor notifies. */
  ghost predicate Quiet(s: State, s': State) {
    s'.sigs == s.sigs && s'.log.called == s.log.called && s'.m.flags == s.m.flags
  }

  lemma WriterQuiet(c: Config, s: State, s': State)
    requires WriterTests(c, s, s') || WriterWaits(c, s, s')
    ensures Quiet(s, s')
  {
  }

  lemma WriterCopyQuiet(c: Config, s: State, s': State)
    requires |s.m.buf| > 0 && (WriterCopies(c, s, s') || WriterPublishes(c, s, s'))
    ensures Quiet(s, s')
  {
  }

  lemma ReaderQuiet(c: Config, s: State, s': State)
    requires c.kind == Response && (ReaderLooks(c, s, s') || ReaderWaits(c, s, s'))
    ensures Quiet(s, s')
  {
  }

  lemma ReaderCopyQuiet(c: Config, s: State, s': State)
    requires |s.m.buf| > 0 && (ReaderCopies(c, s, s') || ReaderReleases(c, s, s'))
    ensures Quiet(s, s')
  {
  }

  lemma OwedRaise(c: Config, s: State, s': State, id: nat, g: Signal)
    requires c.kind == Response && OwedInv(s) && RaiseStep(c, s, s', id, g)
    ensures OwedInv(s')
  {
    if SWillNotify(s', Empty) {
      var j :| j in s'.sigs && Owes(s'.sigs[j], Empty);
      if j != id {
        assert s.sigs[j] == s'.sigs[j];
      }
    }
  }

  /** A signaller's step only pays what it owes. */
  lemma OwedSignal(c: Config, s: State, s': State, id: nat)
    requires OwedInv(s) && SignalStep(c, s, s', id)
    ensures OwedInv(s')
  {
    if SWillNotify(s', Empty) {
      var j :| j in s'.sigs && Owes(s'.sigs[j], Empty);
      assert j in s.sigs && Owes(s.sigs[j], Empty);
    }
  }

  lemma OwedStep(c: Config, s: State, s': State)
    requires c.kind == Response && OwedInv(s) && Step(c, s, s')
    ensures OwedInv(s')
  {
    if WriterTests(c, s, s') || WriterWaits(c, s, s') {
      WriterQuiet(c, s, s');
    } else if WriterCopies(c, s, s') || WriterPublishes(c, s, s') {
      WriterCopyQuiet(c, s, s');
    } else if ReaderLooks(c, s, s') || ReaderWaits(c, s, s') {
      ReaderQuiet(c, s, s');
    } else if ReaderCopies(c, s, s') || ReaderReleases(c, s, s') {
      ReaderCopyQuiet(c, s, s');
    } else if id, g :| RaiseStep(c, s, s', id, g) {
      OwedRaise(c, s, s', id, g);
    } else {
      var id :| SignalStep(c, s, s', id);
      OwedSignal(c, s, s', id);
    }
  }

  lemma {:induction false} OwedAlways(c: Config, t: seq<State>, i: nat)
    requires c.kind == Response && Run(c, t) && i < |t|
    ensures OwedInv(t[i])
  {
    if i > 0 {
      OwedAlways(c, t, i - 1);
      assert StepAt(c, t, i - 1);
      OwedStep(c, t[i - 1], t[i]);
    }
  }

  /** A response reader asleep for a header, with no shutdown, is owed a notification exactly if
      `close` was called, however often and whenever `force_close` was. */
  lemma ClosedReaderIsWokenByCloseOnly(c: Config, t: seq<State>, i: nat)
    requires c.kind == Response && Run(c, t) && i < |t|
    requires t[i].r.pc == RAsleep && t[i].r.hdr == [] && Terminated !in t[i].m.flags
    ensures SWillNotify(t[i], Empty) <==> t[i].log.called
  {
    SyncAlways(c, t, i);
    OwedAlways(c, t, i);
    if t[i].log.called {
      assert Watched(c.kind)[0] == Closed && 0 < Cleared(c, t[i]);
    }
  }

  /** Writer and reader cut a message at the same places. */
  lemma SameChunks(c: Config, w: Writer, r: Reader)
    requires ValidConfig(c) && ValidMsg(c, w.msg) && w.off < |Bytes(w.msg)|
    requires r.hdr == w.msg.header && r.off == w.off
    ensures Need(c, w) == Skip(c, r) + Chunk(c, r)
  {
  }

  ghost predicate WriterWaiting(pc: WPc) {
    pc.WLock? || pc.WRaise? || pc.WPredRoom? || pc.WPredClosed? || pc.WSleep? || pc.WAsleep? || pc.WRelock?
  }

  ghost predicate ReaderWaiting(pc: RPc) {
    pc.RLock? || pc.RRaise? || pc.RPredStored? || pc.RPredFlag? || pc.RSleep? || pc.RAsleep? || pc.RRelock?
  }

  /** Never does the writer lack room while the reader lacks bytes. */
  lemma NotBothStuck(c: Config, t: seq<State>, i: nat)
    requires ValidConfig(c) && Run(c, t) && i < |t| && WriterWaiting(t[i].w.pc) && ReaderWaiting(t[i].r.pc)
    ensures Room(c, t[i].m) >= Need(c, t[i].w) || Stored(t[i].m) >= Want(c, t[i].r)
  {
    DataAlways(c, t, i);
    if t[i].m.pushed > t[i].m.poped {
      NextChunkStored(c, t[i]);
    }
  }

  /** Writer and reader never sleep at the same time. */
  lemma NeverBothAsleep(c: Config, t: seq<State>, i: nat)
    requires ValidConfig(c) && Run(c, t) && i < |t|
    ensures !(t[i].w.pc == WAsleep && t[i].r.pc == RAsleep)
  {
    SyncAlways(c, t, i);
    if t[i].w.pc == WAsleep && t[i].r.pc == RAsleep {
      NotBothStuck(c, t, i);
    }
  }

  // ----- The end is reported only after draining -----

  ghost predicate DrainInv(s: State) {
    && s.m.flags <= s.log.pubAt.Keys
    && (forall f :: f in s.log.pubAt ==> s.log.pubAt[f] <= Published(s.log))
    && (s.r.pc.RLoad? || s.r.pc.RTestStored? || s.r.pc.REnd? ==> s.r.pc.seen <= s.m.flags)
    && (s.r.pc.REnd? ==> forall f :: f in s.r.pc.seen && f in s.log.pubAt ==> s.log.pubAt[f] <= |s.log.recv|)
  }

  /** With nothing stored, every published message has been read. */
  lemma NothingStored(c: Config, s: State)
    requires DataInv(c, s) && s.r.hdr == [] && |s.log.recv| < Published(s.log)
    ensures s.m.pushed > s.m.poped
  {
    var ms, i, last := s.log.msgs, |s.log.recv|, |s.log.msgs| - 1;
    assert s.log.recv == ms[..i];
    assert ValidMsg(c, ms[i]);
    StreamAt(ms, i, 0);
    if i < last {
      StreamGrows(ms, i + 1, last);
    }
  }

  lemma PublishedGrows(c: Config, s: State, s': State)
    requires DataInv(c, s) && |s.m.buf| > 0 && WriterStep(c, s, s')
    ensures Published(s.log) <= Published(s'.log)
  {
    if s.log.msgs != [] {
      var last := s.log.msgs[|s.log.msgs| - 1];
      assert ValidMsg(c, last);
      assert Stream(s.log.msgs) == Stream(s.log.msgs[..|s.log.msgs| - 1]) + Bytes(last);
    }
  }

  lemma DrainWriterStep(c: Config, s: State, s': State)
    requires DrainInv(s) && DataInv(c, s) && |s.m.buf| > 0 && WriterStep(c, s, s')
    ensures DrainInv(s')
  {
    PublishedGrows(c, s, s');
    WriterStepFrame(c, s, s');
  }

  lemma DrainReaderLooks(c: Config, s: State, s': State)
    requires DrainInv(s) && DataInv(c, s) && ReaderLooks(c, s, s')
    ensures DrainInv(s')
  {
    assert s'.log == s.log;
    if s'.r.pc.REnd? {
      if s.m.pushed > s.m.poped {
        NextChunkStored(c, s);
      }
      if |s.log.recv| < Published(s.log) {
        NothingStored(c, s);
      }
    }
  }

  /** Outside `peep` and `await` the reader neither loads nor lowers flags. */
  ghost predicate NoLook(s: State, s': State) {
    && s'.m.flags == s.m.flags && s'.log.(recv := s.log.recv) == s.log && s.log.recv <= s'.log.recv
    && !s'.r.pc.REnd? && (s'.r.pc.RLoad? ==> s'.r.pc.seen == {}) && !s'.r.pc.RTestStored?
  }

  lemma ReaderWaitNoLook(c: Config, s: State, s': State)
    requires ReaderWaits(c, s, s')
    ensures NoLook(s, s')
  {
  }

  lemma ReaderReleaseNoLook(c: Config, s: State, s': State)
    requires |s.m.buf| > 0 && (ReaderCopies(c, s, s') || ReaderReleases(c, s, s'))
    ensures NoLook(s, s')
  {
  }

  lemma DrainReaderOther(c: Config, s: State, s': State)
    requires DrainInv(s) && NoLook(s, s')
    ensures DrainInv(s')
  {
  }

  lemma DrainSignals(c: Config, s: State, s': State, id: nat, g: Signal)
    requires DrainInv(s) && (RaiseStep(c, s, s', id, g) || SignalStep(c, s, s', id))
    ensures DrainInv(s')
  {
    if SignalStep(c, s, s', id) {
      SignalFrame(c, s, s', id);
    }
  }

  lemma DrainStep(c: Config, s: State, s': State)
    requires DrainInv(s) && DataInv(c, s) && Step(c, s, s')
    ensures DrainInv(s')
  {
    if WriterStep(c, s, s') {
      DrainWriterStep(c, s, s');
    } else if ReaderLooks(c, s, s') {
      DrainReaderLooks(c, s, s');
    } else if ReaderWaits(c, s, s') {
      ReaderWaitNoLook(c, s, s');
      DrainReaderOther(c, s, s');
    } else if ReaderStep(c, s, s') {
      ReaderReleaseNoLook(c, s, s');
      DrainReaderOther(c, s, s');
    } else if id, g :| RaiseStep(c, s, s', id, g) {
      DrainSignals(c, s, s', id, g);
    } else {
      var id :| SignalStep(c, s, s', id);
      DrainSignals(c, s, s', id, Close);
    }
  }

  lemma {:induction false} DrainAlways(c: Config, t: seq<State>, i: nat)
    requires ValidConfig(c) && Run(c, t) && i < |t|
    ensures DrainInv(t[i])
  {
    if i > 0 {
      DrainAlways(c, t, i - 1);
      DataAlways(c, t, i - 1);
      assert StepAt(c, t, i - 1);
      DrainStep(c, t[i - 1], t[i]);
    }
  }

  lemma RaisedOrKept(c: Config, t: seq<State>, i: nat, f: Flag)
    requires Run(c, t) && i + 1 < |t| && f in t[i + 1].m.flags
    ensures var l, l' := t[i].log, t[i + 1].log;
            if f in t[i].m.flags then f in l.pubAt ==> f in l'.pubAt && l'.pubAt[f] == l.pubAt[f]
            else f in l'.pubAt && l'.pubAt[f] == Published(l)
  {
    assert StepAt(c, t, i);
    var s, s' := t[i], t[i + 1];
    if WriterStep(c, s, s') {
      WriterStepFrame(c, s, s');
    } else if ReaderLooks(c, s, s') {
      assert s'.log == s.log && s'.m.flags <= s.m.flags;
    } else if ReaderWaits(c, s, s') {
      ReaderWaitNoLook(c, s, s');
    } else if ReaderStep(c, s, s') {
      ReaderReleaseNoLook(c, s, s');
    } else if id :| SignalStep(c, s, s', id) {
      SignalFrame(c, s, s', id);
    }
  }

  /** While a flag stays up, the history keeps how much was published when it went up. */
  lemma {:induction false} PublishedWhenRaised(c: Config, t: seq<State>, j: nat, i: nat, f: Flag)
    requires Run(c, t) && j < i < |t| && f !in t[j].m.flags
    requires forall k :: j < k <= i ==> f in t[k].m.flags
    ensures f in t[i].log.pubAt && t[i].log.pubAt[f] == Published(t[j].log)
  {
    RaisedOrKept(c, t, i - 1, f);
    if i - 1 > j {
      PublishedWhenRaised(c, t, j, i - 1, f);
    }
  }

  /** `peep` reports termination and `await` the empty header only after reading every message
      whose first chunk was published before the flag went up. */
  lemma EndOnlyAfterDraining(c: Config, t: seq<State>, j: nat, i: nat, f: Flag)
    requires ValidConfig(c) && Run(c, t) && j < i < |t|
    requires f !in t[j].m.flags && forall k :: j < k <= i ==> f in t[k].m.flags
    requires t[i].r.pc.REnd? && f in t[i].r.pc.seen
    ensures |t[i].log.recv| >= Published(t[j].log) && t[i].log.recv <= t[i].log.msgs
  {
    DataAlways(c, t, i);
    DrainAlways(c, t, i);
    PublishedWhenRaised(c, t, j, i, f);
  }

  // ----- `force_close` -----

  lemma Extend(c: Config, t: seq<State>, s': State)
    requires Run(c, t) && Step(c, t[|t| - 1], s')
    ensures Run(c, t + [s'])
  {
    var t' := t + [s'];
    forall i: nat | i + 1 < |t'|
      ensures StepAt(c, t', i)
    {
      if i + 1 < |t| {
        assert StepAt(c, t, i);
      }
    }
  }

  /** The reader may take several steps of its own. */
  lemma ExtendReader(c: Config, t: seq<State>, s': State)
    requires Run(c, t) && |t[|t| - 1].m.buf| > 0
    requires ReaderLooks(c, t[|t| - 1], s') || ReaderWaits(c, t[|t| - 1], s')
    ensures Run(c, t + [s'])
  {
    assert ReaderStep(c, t[|t| - 1], s');
    Extend(c, t, s');
  }

  /** An empty response wire whose reader went to sleep waiting for a header. */
  lemma ReaderSleeps(c: Config) returns (t: seq<State>)
    requires ValidConfig(c) && c.kind == Response
    ensures Run(c, t)
    ensures t[|t| - 1] == State(Shared(seq(c.cap, _ => 0), 0, 0, false, true, Free, {}), Writer(WIdle, Msg([], []), 0),
                                Reader(RAsleep, [], [], 0), map[], Log([], 0, false, false, [], map[]))
  {
    var s := State(Shared(seq(c.cap, _ => 0), 0, 0, false, false, Free, {}), Writer(WIdle, Msg([], []), 0),
                   Reader(RIdle, [], [], 0), map[], Log([], 0, false, false, [], map[]));
    t := [s];
    var pcs := [RLoad(0, {}), RLoad(1, {}), RLoad(2, {}), RTestStored({}), RLock];
    var i := 0;
    while i < 5
      invariant 0 <= i <= 5 && Run(c, t)
      invariant t[|t| - 1] == RGoto(s, if i == 0 then RIdle else pcs[i - 1])
    {
      ExtendReader(c, t, RGoto(s, pcs[i]));
      t := t + [RGoto(s, pcs[i])];
      i := i + 1;
    }
    var s1 := Mutex(RGoto(s, RRaise), ByReader);
    ExtendReader(c, t, s1);
    t := t + [s1];
    var s2 := RGoto(s1, RPredStored(false)).(m := s1.m.(waitRead := true));
    ExtendReader(c, t, s2);
    t := t + [s2];
    var more := [RPredFlag(0, false), RPredFlag(1, false), RPredFlag(2, false), RSleep];
    i := 0;
    while i < 4
      invariant 0 <= i <= 4 && Run(c, t)
      invariant t[|t| - 1] == RGoto(s2, if i == 0 then RPredStored(false) else more[i - 1])
    {
      ExtendReader(c, t, RGoto(s2, more[i]));
      t := t + [RGoto(s2, more[i])];
      i := i + 1;
    }
    var s3 := Mutex(RGoto(s2, RAsleep), Free);
    ExtendReader(c, t, s3);
    t := t + [s3];
  }

  /** `force_close` raises the closed flag the reader waits for but notifies only the writer: on every
      response wire there is a run in which the reader is left asleep with nobody to wake it (until its wait times out). */
  lemma ForceCloseLosesWakeup(c: Config) returns (t: seq<State>)
    requires ValidConfig(c) && c.kind == Response
    ensures Run(c, t) && t[|t| - 1].r.pc == RAsleep && ReaderCouldGoOn(c, t[|t| - 1])
    ensures !WWillNotify(t[|t| - 1]) && !SWillNotify(t[|t| - 1], Empty) && t[|t| - 1].w.pc == WIdle
  {
    t := ReaderSleeps(c);
    var s := t[|t| - 1];
    var s1 := s.(m := s.m.(flags := {Closed}), sigs := map[0 := Signaller([Full], STest)],
                 log := s.log.(pubAt := map[Closed := 0]));
    assert RaiseStep(c, s, s1, 0, ForceClose);
    Extend(c, t, s1);
    t := t + [s1];
    var s2 := s1.(sigs := map[]);
    assert SignalStep(c, s1, s2, 0) by {
      assert s1.sigs - {0} == map[];
    }
    Extend(c, t, s2);
    t := t + [s2];
    assert Closed in Watched(c.kind) by { assert Watched(c.kind)[0] == Closed; }
  }
}
