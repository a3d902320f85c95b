/** No lost wakeup on a wire: whoever sleeps while its wait predicate is true is
    about to be notified. */
module WireSync {
  import opened Wire

  ghost predicate WHolds(pc: WPc) {
    pc.WRaise? || pc.WPredRoom? || pc.WPredClosed? || pc.WSleep? || pc.WLower? || pc.WUnlock?
    || pc.WNotify? || pc.WNotifyUnlock?
  }

  ghost predicate RHolds(pc: RPc) {
    pc.RRaise? || pc.RPredStored? || pc.RPredFlag? || pc.RSleep? || pc.RLower? || pc.RUnlock?
    || pc.RNotify? || pc.RNotifyUnlock?
  }

  ghost predicate SHolds(pc: SPc) {
    pc.SNotify? || pc.SUnlock?
  }

  /** The mutex is owned exactly by the thread inside its critical section. */
  ghost predicate MutexInv(s: State) {
    && (s.m.mutex == ByWriter <==> WHolds(s.w.pc))
    && (s.m.mutex == ByReader <==> RHolds(s.r.pc))
    && (forall id :: id in s.sigs ==> (s.m.mutex == BySignaller(id) <==> SHolds(s.sigs[id].pc)))
    && (s.m.mutex.BySignaller? ==> s.m.mutex.id in s.sigs)
    && (forall id :: id in s.sigs ==> s.sigs[id].todo != [])
  }

  /** A wait flag is up exactly while its owner waits. */
  ghost predicate WaitInv(s: State) {
    && s.m.waitWrite == (s.w.pc.WPredRoom? || s.w.pc.WPredClosed? || s.w.pc.WSleep? || s.w.pc.WAsleep?
                         || s.w.pc.WRelock? || s.w.pc.WLower?)
    && s.m.waitRead == (s.r.pc.RPredStored? || s.r.pc.RPredFlag? || s.r.pc.RSleep? || s.r.pc.RAsleep?
                        || s.r.pc.RRelock? || s.r.pc.RLower?)
  }

  /** The reader has popped and has yet to notify. */
  ghost predicate RWillNotify(s: State) {
    s.r.pc.RTestWait? || s.r.pc.RNotifyLock? || s.r.pc.RNotify?
  }

  /** The writer has pushed and has yet to notify. */
  ghost predicate WWillNotify(s: State) {
    s.w.pc.WTestWait? || s.w.pc.WNotifyLock? || s.w.pc.WNotify?
  }

  /** The signaller still has `cond` to notify. */
  ghost predicate Owes(g: Signaller, cond: Cond) {
    || (g.todo != [] && g.todo[0] == cond && !g.pc.SUnlock?)
    || (g.todo != [] && cond in g.todo[1..])
  }

  ghost predicate SWillNotify(s: State, cond: Cond) {
    exists id :: id in s.sigs && Owes(s.sigs[id], cond)
  }

  /** Flags the writer has already found down in this evaluation of its predicate. */
  ghost predicate WriterWakes(c: Config, s: State) {
    && (s.w.pc.WPredClosed? || s.w.pc.WSleep? || s.w.pc.WAsleep? ==>
          Room(c, s.m) >= Need(c, s.w) ==> RWillNotify(s))
    && (s.w.pc.WSleep? || s.w.pc.WAsleep? ==>
          Closed in s.m.flags ==> SWillNotify(s, Full))
  }

  /** How many of the watched flags the reader has found down in this evaluation. */
  ghost function Cleared(c: Config, s: State): nat {
    if s.r.hdr != [] then 0
    else if s.r.pc.RPredFlag? then s.r.pc.k
    else if s.r.pc.RSleep? || s.r.pc.RAsleep? then |Watched(c.kind)|
    else 0
  }

  ghost predicate StoredWakes(c: Config, s: State) {
    && (s.r.pc.RPredFlag? || s.r.pc.RSleep? || s.r.pc.RAsleep? ==>
          Stored(s.m) >= Want(c, s.r) ==> WWillNotify(s))
    && (s.r.pc.RPredFlag? ==> s.r.hdr == [])
  }

  ghost predicate FlagsWake(c: Config, s: State) {
    && (forall j :: 0 <= j < Cleared(c, s) && j < |Watched(c.kind)| ==>
          Watched(c.kind)[j] in s.m.flags ==>
            SWillNotify(s, Empty) || (Watched(c.kind)[j] == Closed && !s.log.called))
    && (s.log.called ==> Closed in s.m.flags)
  }

  ghost predicate ReaderWakes(c: Config, s: State) {
    StoredWakes(c, s) && FlagsWake(c, s)
  }

  ghost predicate LockInv(s: State) {
    MutexInv(s) && WaitInv(s)
  }

  ghost predicate SyncInv(c: Config, s: State) {
    LockInv(s) && WriterWakes(c, s) && ReaderWakes(c, s)
  }

  lemma LockWriterTests(c: Config, s: State, s': State)
    requires LockInv(s) && WriterTests(c, s, s')
    ensures LockInv(s')
  {
  }

  lemma SyncWriterTests(c: Config, s: State, s': State)
    requires SyncInv(c, s) && WriterTests(c, s, s')
    ensures SyncInv(c, s')
  {
    LockWriterTests(c, s, s');
  }

  lemma LockWriterWaits(c: Config, s: State, s': State)
    requires LockInv(s) && WriterWaits(c, s, s')
    ensures LockInv(s')
  {
  }

  lemma SyncWriterWaits(c: Config, s: State, s': State)
    requires SyncInv(c, s) && WriterWaits(c, s, s')
    ensures SyncInv(c, s')
  {
    LockWriterWaits(c, s, s');
  }

  lemma SyncWriterCopies(c: Config, s: State, s': State)
    requires SyncInv(c, s) && |s.m.buf| > 0 && WriterCopies(c, s, s')
    ensures SyncInv(c, s')
  {
  }

  lemma LockWriterPublishes(c: Config, s: State, s': State)
    requires LockInv(s) && WriterPublishes(c, s, s')
    ensures LockInv(s')
  {
  }

  lemma SyncWriterPublishes(c: Config, s: State, s': State)
    requires SyncInv(c, s) && WriterPublishes(c, s, s')
    ensures SyncInv(c, s')
  {
    LockWriterPublishes(c, s, s');
  }

  lemma LockReaderLooks(c: Config, s: State, s': State)
    requires LockInv(s) && ReaderLooks(c, s, s')
    ensures LockInv(s')
  {
  }

  lemma SyncReaderLooks(c: Config, s: State, s': State)
    requires SyncInv(c, s) && ReaderLooks(c, s, s')
    ensures SyncInv(c, s')
  {
    LockReaderLooks(c, s, s');
  }

  lemma MutexReaderWaits(c: Config, s: State, s': State)
    requires MutexInv(s) && ReaderWaits(c, s, s')
    ensures MutexInv(s')
  {
  }

  lemma WaitReaderWaits(c: Config, s: State, s': State)
    requires WaitInv(s) && ReaderWaits(c, s, s')
    ensures WaitInv(s')
  {
  }

  lemma LockReaderWaits(c: Config, s: State, s': State)
    requires LockInv(s) && ReaderWaits(c, s, s')
    ensures LockInv(s')
  {
    MutexReaderWaits(c, s, s');
    WaitReaderWaits(c, s, s');
  }

  lemma SyncReaderWaitsW(c: Config, s: State, s': State)
    requires SyncInv(c, s) && ReaderWaits(c, s, s')
    ensures WriterWakes(c, s')
  {
  }

  lemma SyncReaderWaitsStored(c: Config, s: State, s': State)
    requires SyncInv(c, s) && ReaderWaits(c, s, s')
    ensures StoredWakes(c, s')
  {
  }

  lemma SyncReaderWaitsFlags(c: Config, s: State, s': State)
    requires SyncInv(c, s) && ReaderWaits(c, s, s')
    ensures FlagsWake(c, s')
  {
  }

  lemma SyncReaderCopies(c: Config, s: State, s': State)
    requires SyncInv(c, s) && |s.m.buf| > 0 && ReaderCopies(c, s, s')
    ensures SyncInv(c, s')
  {
  }

  lemma LockReaderReleases(c: Config, s: State, s': State)
    requires LockInv(s) && ReaderReleases(c, s, s')
    ensures LockInv(s')
  {
  }

  lemma SyncReaderReleases(c: Config, s: State, s': State)
    requires SyncInv(c, s) && ReaderReleases(c, s, s')
    ensures SyncInv(c, s')
  {
    LockReaderReleases(c, s, s');
  }

  lemma SyncRaiseStep(c: Config, s: State, s': State, id: nat, g: Signal)
    requires SyncInv(c, s) && RaiseStep(c, s, s', id, g)
    ensures SyncInv(c, s')
  {
    forall cond | SWillNotify(s, cond)
      ensures SWillNotify(s', cond)
    {
      var j :| j in s.sigs && Owes(s.sigs[j], cond);
      assert s'.sigs[j] == s.sigs[j];
    }
    forall cond | cond in Targets(c.kind, g)
      ensures SWillNotify(s', cond)
    {
      assert Owes(s'.sigs[id], cond);
    }
  }

  /** Whoever owes a notification still does if only signaller `id` moved and it still owes its own. */
  lemma StillOwed(s: State, s': State, id: nat, cond: Cond)
    requires SWillNotify(s, cond) && id in s.sigs
    requires forall j :: j in s.sigs && j != id ==> j in s'.sigs && s'.sigs[j] == s.sigs[j]
    requires Owes(s.sigs[id], cond) ==> id in s'.sigs && Owes(s'.sigs[id], cond)
    ensures SWillNotify(s', cond)
  {
    var j :| j in s.sigs && Owes(s.sigs[j], cond);
    assert j in s'.sigs && Owes(s'.sigs[j], cond);
  }

  lemma MutexSignalStep(c: Config, s: State, s': State, id: nat)
    requires MutexInv(s) && SignalStep(c, s, s', id)
    ensures MutexInv(s')
  {
  }

  lemma WaitSignalStep(c: Config, s: State, s': State, id: nat)
    requires WaitInv(s) && SignalStep(c, s, s', id)
    ensures WaitInv(s')
  {
  }

  lemma LockSignalStep(c: Config, s: State, s': State, id: nat)
    requires LockInv(s) && SignalStep(c, s, s', id)
    ensures LockInv(s')
  {
    MutexSignalStep(c, s, s', id);
    WaitSignalStep(c, s, s', id);
  }

  /** A signaller stops owing `cond` only by notifying it or by finding its wait flag down. */
  lemma OwesAfter(c: Config, s: State, s': State, id: nat, cond: Cond)
    requires SignalStep(c, s, s', id) && Owes(s.sigs[id], cond)
    requires s.sigs[id].pc == SNotify ==> s.sigs[id].todo[0] != cond
    requires s.sigs[id].pc == STest && s.sigs[id].todo[0] == cond ==>
               if cond == Full then s.m.waitWrite else s.m.waitRead
    ensures id in s'.sigs && Owes(s'.sigs[id], cond)
  {
    var g := s.sigs[id];
    if cond in g.todo[1..] {
      assert g.todo[1..][0] == cond || cond in g.todo[1..][1..];
    }
  }

  lemma WriterSignalStep(c: Config, s: State, s': State, id: nat)
    requires SyncInv(c, s) && SignalStep(c, s, s', id)
    ensures WriterWakes(c, s')
  {
    if (s'.w.pc.WSleep? || s'.w.pc.WAsleep?) && Closed in s.m.flags {
      if Owes(s.sigs[id], Full) { OwesAfter(c, s, s', id, Full); }
      StillOwed(s, s', id, Full);
    }
  }

  lemma ReaderSignalStep(c: Config, s: State, s': State, id: nat)
    requires SyncInv(c, s) && SignalStep(c, s, s', id)
    ensures ReaderWakes(c, s')
  {
    if SWillNotify(s, Empty) && (s'.r.pc.RPredFlag? || s'.r.pc.RSleep? || s'.r.pc.RAsleep?) {
      if Owes(s.sigs[id], Empty) { OwesAfter(c, s, s', id, Empty); }
      StillOwed(s, s', id, Empty);
    }
  }

  lemma SyncStep(c: Config, s: State, s': State)
    requires SyncInv(c, s) && Step(c, s, s')
    ensures SyncInv(c, s')
  {
    if WriterTests(c, s, s') {
      SyncWriterTests(c, s, s');
    } else if WriterWaits(c, s, s') {
      SyncWriterWaits(c, s, s');
    } else if WriterCopies(c, s, s') {
      SyncWriterCopies(c, s, s');
    } else if WriterPublishes(c, s, s') {
      SyncWriterPublishes(c, s, s');
    } else if ReaderLooks(c, s, s') {
      SyncReaderLooks(c, s, s');
    } else if ReaderWaits(c, s, s') {
      LockReaderWaits(c, s, s');
      SyncReaderWaitsW(c, s, s');
      SyncReaderWaitsStored(c, s, s');
      SyncReaderWaitsFlags(c, s, s');
    } else if ReaderCopies(c, s, s') {
      SyncReaderCopies(c, s, s');
    } else if ReaderReleases(c, s, s') {
      SyncReaderReleases(c, s, s');
    } else if id, g :| RaiseStep(c, s, s', id, g) {
      SyncRaiseStep(c, s, s', id, g);
    } else {
      var id :| SignalStep(c, s, s', id);
      LockSignalStep(c, s, s', id);
      WriterSignalStep(c, s, s', id);
      ReaderSignalStep(c, s, s', id);
    }
  }

  lemma {:induction false} SyncAlways(c: Config, t: seq<State>, i: nat)
    requires Run(c, t) && i < |t|
    ensures SyncInv(c, t[i])
  {
    if i > 0 {
      SyncAlways(c, t, i - 1);
      assert StepAt(c, t, i - 1);
      SyncStep(c, t[i - 1], t[i]);
    }
  }
}
