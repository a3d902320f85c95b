/** A result set as a whole: the rings of its wires, with every byte, together with the arrival of
    records on all of them. */
module ResultSets {
  import opened RecordRing
  import opened RecordRingProofs
  import opened RecordArrival

  /** The wires' rings and what `active_wire`, `flush` and `set_eor` share. */
  datatype ResultSet = ResultSet(a: Arrivals, rings: seq<RingState>)

  ghost predicate SetInit(n: nat, cap: nat, s: ResultSet) {
    ArrivalsInit(n, s.a) && |s.rings| == n && forall j :: 0 <= j < n ==> RingInit(cap, s.rings[j]) && s.a.flushed[j] == |s.rings[j].recs|
  }

  /** The counters of the arrival are the records of the rings. */
  ghost predicate Linked(n: nat, s: ResultSet) {
    && SameSize(n, s.a) && |s.rings| == n
    && forall j :: 0 <= j < n ==> s.a.flushed[j] == |s.rings[j].recs| && s.a.taken[j] == |s.rings[j].read|
  }

  /** A step of ring `j`, and of no other. */
  ghost predicate OnRing(n: nat, cap: nat, s: ResultSet, s': ResultSet, j: nat) {
    && j < n == |s.rings| == |s'.rings|
    && s'.rings == s.rings[j := s'.rings[j]]
    && RingStep(cap, s.rings[j], s'.rings[j])
  }

  /** Writing, copying, waiting and reading in place, and closing. */
  ghost predicate WithinRing(n: nat, cap: nat, s: ResultSet, s': ResultSet, j: nat) {
    && OnRing(n, cap, s, s', j) && s'.a == s.a
    && |s'.rings[j].recs| == |s.rings[j].recs| && |s'.rings[j].read| == |s.rings[j].read|
  }

  /** The step of `flush` that publishes a record: the server of wire `j` is about to announce it. */
  ghost predicate Flushes(n: nat, cap: nat, s: ResultSet, s': ResultSet, j: nat) {
    && OnRing(n, cap, s, s', j) && SameSize(n, s.a) && s.a.servers[j] == NIdle
    && |s'.rings[j].recs| == |s.rings[j].recs| + 1 && |s'.rings[j].read| == |s.rings[j].read|
    && ServerStep(s.a, s'.a, j) && s'.a.flushed[j] == s.a.flushed[j] + 1
  }

  /** The step of `dispose` that pops a record of the wire `active_wire` found. */
  ghost predicate Disposes(n: nat, cap: nat, s: ResultSet, s': ResultSet, j: nat) {
    && OnRing(n, cap, s, s', j) && SameSize(n, s.a) && s.a.c == CFound(j)
    && |s'.rings[j].recs| == |s.rings[j].recs| && |s'.rings[j].read| == |s.rings[j].read| + 1
    && ClientStep(n, s.a, s'.a) && s'.a.taken[j] == s.a.taken[j] + 1
  }

  /** Searching, waiting, announcing and marking the end. */
  ghost predicate Arrives(n: nat, s: ResultSet, s': ResultSet) {
    && s'.rings == s.rings && ArrivalStep(n, s.a, s'.a)
    && s'.a.flushed == s.a.flushed && s'.a.taken == s.a.taken
  }

  ghost predicate SetStep(n: nat, cap: nat, s: ResultSet, s': ResultSet) {
    || Arrives(n, s, s')
    || exists j: nat :: WithinRing(n, cap, s, s', j) || Flushes(n, cap, s, s', j) || Disposes(n, cap, s, s', j)
  }

  ghost predicate SetStepAt(n: nat, cap: nat, t: seq<ResultSet>, i: nat) {
    i + 1 < |t| && SetStep(n, cap, t[i], t[i + 1])
  }

  ghost predicate SetRun(n: nat, cap: nat, t: seq<ResultSet>) {
    |t| > 0 && SetInit(n, cap, t[0]) && forall i: nat :: i + 1 < |t| ==> SetStepAt(n, cap, t, i)
  }

  // ----- Invariant -----

  ghost predicate RingsInv(cap: nat, rings: seq<RingState>) {
    forall j :: 0 <= j < |rings| ==> rings[j].closed || RingInv(cap, rings[j])
  }

  ghost predicate SetInv(n: nat, cap: nat, s: ResultSet) {
    ArrivalInv(n, s.a) && Linked(n, s) && RingsInv(cap, s.rings)
  }

  lemma RingsKeep(n: nat, cap: nat, s: ResultSet, s': ResultSet, j: nat)
    requires ValidCap(cap) && RingsInv(cap, s.rings) && OnRing(n, cap, s, s', j)
    ensures RingsInv(cap, s'.rings)
  {
    RingStepKeeps(cap, s.rings[j], s'.rings[j]);
  }

  lemma WithinKeeps(n: nat, cap: nat, s: ResultSet, s': ResultSet, j: nat)
    requires ValidCap(cap) && SetInv(n, cap, s) && WithinRing(n, cap, s, s', j)
    ensures SetInv(n, cap, s')
  {
    RingsKeep(n, cap, s, s', j);
  }

  lemma FlushKeeps(n: nat, cap: nat, s: ResultSet, s': ResultSet, j: nat)
    requires ValidCap(cap) && SetInv(n, cap, s) && Flushes(n, cap, s, s', j)
    ensures SetInv(n, cap, s')
  {
    RingsKeep(n, cap, s, s', j);
    ServerKeeps(n, s.a, s'.a, j);
  }

  lemma DisposeKeeps(n: nat, cap: nat, s: ResultSet, s': ResultSet, j: nat)
    requires ValidCap(cap) && SetInv(n, cap, s) && Disposes(n, cap, s, s', j)
    ensures SetInv(n, cap, s')
  {
    RingsKeep(n, cap, s, s', j);
    ClientKeeps(n, s.a, s'.a);
  }

  lemma SetStepKeeps(n: nat, cap: nat, s: ResultSet, s': ResultSet)
    requires ValidCap(cap) && SetInv(n, cap, s) && SetStep(n, cap, s, s')
    ensures SetInv(n, cap, s')
  {
    if Arrives(n, s, s') {
      ArrivalKeeps(n, s.a, s'.a);
    } else {
      var j: nat :| WithinRing(n, cap, s, s', j) || Flushes(n, cap, s, s', j) || Disposes(n, cap, s, s', j);
      if WithinRing(n, cap, s, s', j) {
        WithinKeeps(n, cap, s, s', j);
      } else if Flushes(n, cap, s, s', j) {
        FlushKeeps(n, cap, s, s', j);
      } else {
        DisposeKeeps(n, cap, s, s', j);
      }
    }
  }

  lemma SetInitInv(n: nat, cap: nat, s: ResultSet)
    requires ValidCap(cap) && SetInit(n, cap, s)
    ensures SetInv(n, cap, s)
  {
    forall j | 0 <= j < n
      ensures RingInv(cap, s.rings[j])
    {
      RingInitInv(cap, s.rings[j]);
    }
  }

  lemma {:induction false} SetAlways(n: nat, cap: nat, t: seq<ResultSet>, i: nat)
    requires ValidCap(cap) && SetRun(n, cap, t) && i < |t|
    ensures SetInv(n, cap, t[i])
  {
    if i == 0 {
      SetInitInv(n, cap, t[0]);
    } else {
      SetAlways(n, cap, t, i - 1);
      assert SetStepAt(n, cap, t, i - 1);
      SetStepKeeps(n, cap, t[i - 1], t[i]);
    }
  }

  // ----- Records over time -----

  lemma RecordsStay(n: nat, cap: nat, s: ResultSet, s': ResultSet, w: nat)
    requires SetStep(n, cap, s, s') && |s.rings| == n && w < n
    ensures |s'.rings| == n && s.rings[w].recs <= s'.rings[w].recs
  {
    if !Arrives(n, s, s') {
      var j: nat :| WithinRing(n, cap, s, s', j) || Flushes(n, cap, s, s', j) || Disposes(n, cap, s, s', j);
      assert OnRing(n, cap, s, s', j);
      RecsGrow(cap, s.rings[j], s'.rings[j]);
    }
  }

  lemma {:induction false} RecordsStayOn(n: nat, cap: nat, t: seq<ResultSet>, j: nat, i: nat, w: nat)
    requires SetRun(n, cap, t) && j <= i < |t| && |t[j].rings| == n && w < n
    ensures |t[i].rings| == n && t[j].rings[w].recs <= t[i].rings[w].recs
    decreases i
  {
    if j < i {
      RecordsStayOn(n, cap, t, j, i - 1, w);
      assert SetStepAt(n, cap, t, i - 1);
      RecordsStay(n, cap, t[i - 1], t[i], w);
    }
  }

  lemma EorStep(n: nat, cap: nat, s: ResultSet, s': ResultSet)
    requires SetStep(n, cap, s, s')
    ensures s.a.eor ==> s'.a.eor && s'.a.atEor == s.a.atEor
    ensures !s.a.eor && s'.a.eor ==> s'.a.atEor == s.a.flushed
  {
  }

  /** The history of the end mark is what was flushed when it was set. */
  lemma {:induction false} SetFlushedAtEor(n: nat, cap: nat, t: seq<ResultSet>, j: nat, i: nat)
    requires SetRun(n, cap, t) && j < i < |t| && !t[j].a.eor && t[j + 1].a.eor
    ensures t[i].a.eor && t[i].a.atEor == t[j].a.flushed
    decreases i
  {
    assert SetStepAt(n, cap, t, i - 1);
    EorStep(n, cap, t[i - 1], t[i]);
    if i - 1 > j {
      SetFlushedAtEor(n, cap, t, j, i - 1);
    }
  }

  /** `active_wire` returns no wire only after every record flushed before the end was marked was read
      and disposed of, byte for byte and in order, on every wire that was not closed. */
  lemma NullOnlyAfterReadingAll(n: nat, cap: nat, t: seq<ResultSet>, j: nat, i: nat, w: nat)
    requires ValidCap(cap) && SetRun(n, cap, t) && j < i < |t| && !t[j].a.eor && t[j + 1].a.eor
    requires t[i].a.c == CNull && w < n
    ensures |t[j].rings| == |t[i].rings| == n
    ensures !t[i].rings[w].closed ==> t[j].rings[w].recs <= t[i].rings[w].read
  {
    SetAlways(n, cap, t, j);
    SetAlways(n, cap, t, i);
    SetFlushedAtEor(n, cap, t, j, i);
    RecordsStayOn(n, cap, t, j, i, w);
    if !t[i].rings[w].closed {
      var mine, all := t[i].rings[w].read, t[i].rings[w].recs;
      assert RingInv(cap, t[i].rings[w]);
      assert mine <= all && |mine| >= |t[j].rings[w].recs|;
    }
  }
}
