/** Stealing while the queues change: a scan that comes back empty-handed has found every local queue
    empty at some moment of the scan. */
module SchedulerScan {
  import opened Scheduler
  import opened SchedulerTheorems
  import opened WorkerChoice

  /** Worker `i` is in the loop of `steal_and_execute` that ends at `end`. */
  ghost predicate Scanning(c: Config, s: State, i: nat, end: nat) {
    Sized(c, s) && i < c.n && s.ws[i].pc.Steal? && s.ws[i].pc.end == end
  }

  /** The local queue of worker `k` was empty in one of the states from `a` to before `x`. */
  ghost predicate SeenEmpty(t: seq<State>, a: nat, x: nat, k: nat)
    requires x <= |t|
  {
    exists y: nat :: a <= y < x && k < |t[y].q.local| && t[y].q.local[k] == []
  }

  /** A scanning worker stays, finds a queue empty and goes on, or takes a task. */
  ghost predicate Looked(c: Config, s: State, s': State, i: nat)
    requires Sized(c, s) && Sized(c, s') && i < c.n && s.ws[i].pc.Steal?
  {
    var idx, end := s.ws[i].pc.idx, s.ws[i].pc.end;
    || s'.ws[i].pc == s.ws[i].pc
    || s'.ws[i].pc.Running?
    || (idx < c.n && s.q.local[idx] == []
        && s'.ws[i].pc == if Scheduler.Next(c, idx) == end then RoundFailed else Steal(Scheduler.Next(c, idx), end))
  }

  lemma WorkerLooked(c: Config, s: State, s': State, j: nat, i: nat)
    requires Sized(c, s) && i < c.n && s.ws[i].pc.Steal? && WorkerMoves(c, s, s', j)
    ensures Sized(c, s') && Looked(c, s, s', i)
  {
    if BootMove(c, s, s', j) {
      BootGrows(c, s, s', j, i);
    } else if TryMove(c, s, s', j) {
      TryGrows(c, s, s', j, i);
    } else {
      LoopGrows(c, s, s', j, i);
    }
  }

  lemma OthersLooked(c: Config, s: State, s': State, p: nat, i: nat)
    requires Sized(c, s) && i < c.n && s.ws[i].pc.Steal? && (ProducerMoves(c, s, s', p) || StartMove(c, s, s'))
    ensures Sized(c, s') && s'.ws[i].pc == s.ws[i].pc
  {
  }

  lemma StepLooked(c: Config, s: State, s': State, i: nat)
    requires Step(c, s, s') && i < c.n && s.ws[i].pc.Steal?
    ensures Sized(c, s') && Looked(c, s, s', i)
  {
    if j :| WorkerMoves(c, s, s', j) {
      WorkerLooked(c, s, s', j, i);
    } else if p :| ProducerMoves(c, s, s', p) {
      OthersLooked(c, s, s', p, i);
    } else {
      OthersLooked(c, s, s', 0, i);
    }
  }

  lemma LookedAt(c: Config, t: seq<State>, x: nat, i: nat)
    requires Run(c, t) && x + 1 < |t| && i < c.n && Sized(c, t[x]) && t[x].ws[i].pc.Steal?
    ensures Sized(c, t[x + 1]) && Looked(c, t[x], t[x + 1], i)
  {
    assert StepAt(c, t, x);
    StepLooked(c, t[x], t[x + 1], i);
  }

  lemma SeenLonger(t: seq<State>, a: nat, x: nat, k: nat)
    requires x < |t| && SeenEmpty(t, a, x, k)
    ensures SeenEmpty(t, a, x + 1, k)
  {
    var y: nat :| a <= y < x && k < |t[y].q.local| && t[y].q.local[k] == [];
    assert a <= y < x + 1;
  }

  /** The workers passed by `d` steps of the scan were all found empty since it began. */
  ghost predicate Passed(t: seq<State>, a: nat, x: nat, end: nat, d: nat, n: nat)
    requires x <= |t|
  {
    forall e: nat :: e < d ==> SeenEmpty(t, a, x, Nth(end, e, n))
  }

  lemma PassOn(t: seq<State>, a: nat, x: nat, end: nat, d: nat, n: nat)
    requires a <= x < |t| && Passed(t, a, x, end, d, n)
    requires Nth(end, d, n) < |t[x].q.local| && t[x].q.local[Nth(end, d, n)] == []
    ensures Passed(t, a, x + 1, end, d + 1, n)
  {
    forall e: nat | e < d + 1
      ensures SeenEmpty(t, a, x + 1, Nth(end, e, n))
    {
      if e < d {
        SeenLonger(t, a, x, Nth(end, e, n));
      }
    }
  }

  lemma StayOn(t: seq<State>, a: nat, x: nat, end: nat, d: nat, n: nat)
    requires a <= x < |t| && Passed(t, a, x, end, d, n)
    ensures Passed(t, a, x + 1, end, d, n)
  {
    forall e: nat | e < d
      ensures SeenEmpty(t, a, x + 1, Nth(end, e, n))
    {
      SeenLonger(t, a, x, Nth(end, e, n));
    }
  }

  /** How far a scan that began at `a` has come. */
  ghost predicate Reached(c: Config, t: seq<State>, a: nat, x: nat, i: nat, end: nat, d: nat) {
    && x < |t| && d < c.n && Scanning(c, t[x], i, end) && t[x].ws[i].pc.idx == Nth(end, d, c.n)
    && Passed(t, a, x, end, d, c.n)
  }

  /** One more state of the scan. */
  lemma ScanOn(c: Config, t: seq<State>, a: nat, x: nat, i: nat, end: nat, d: nat) returns (d': nat)
    requires Run(c, t) && a <= x && x + 1 < |t| && end < c.n && Reached(c, t, a, x, i, end, d)
    requires Scanning(c, t[x + 1], i, end)
    ensures Reached(c, t, a, x + 1, i, end, d')
  {
    LookedAt(c, t, x, i);
    NthIs(end, d, c.n);
    if t[x + 1].ws[i].pc == t[x].ws[i].pc {
      StayOn(t, a, x, end, d, c.n);
      d' := d;
    } else {
      NthIs(end, d + 1, c.n);
      PassOn(t, a, x, end, d, c.n);
      d' := d + 1;
    }
  }

  lemma {:induction false} ScanSoFar(c: Config, t: seq<State>, a: nat, x: nat, i: nat, end: nat) returns (d: nat)
    requires Run(c, t) && a <= x < |t| && i < c.n && end < c.n && Sized(c, t[a]) && t[a].ws[i].pc == Steal(end, end)
    requires forall y :: a <= y <= x ==> Scanning(c, t[y], i, end)
    ensures Reached(c, t, a, x, i, end, d)
    decreases x
  {
    if x == a {
      d := 0;
    } else {
      d := ScanSoFar(c, t, a, x - 1, i, end);
      assert Scanning(c, t[x], i, end);
      d := ScanOn(c, t, a, x - 1, i, end, d);
    }
  }

  /** From the start of a scan to its failure every worker's local queue was empty at some moment,
      whatever was pushed, popped and stolen in between. */
  lemma FailedScanSawAllEmpty(c: Config, t: seq<State>, a: nat, b: nat, i: nat, end: nat, k: nat)
    requires Run(c, t) && a < b < |t| && i < c.n && k < c.n && end < c.n && Sized(c, t[a]) && t[a].ws[i].pc == Steal(end, end)
    requires forall y :: a <= y < b ==> Scanning(c, t[y], i, end)
    requires Sized(c, t[b]) && t[b].ws[i].pc == RoundFailed
    ensures exists y: nat :: a <= y < b && k < |t[y].q.local| && t[y].q.local[k] == []
  {
    var d := ScanSoFar(c, t, a, b - 1, i, end);
    assert Scanning(c, t[b - 1], i, end);
    LookedAt(c, t, b - 1, i);
    NthIs(end, d, c.n);
    NthIs(end, d + 1, c.n);
    PassOn(t, a, b - 1, end, d, c.n);
    CycleVisitsAll(end, c.n, k);
    var e: nat := if k >= end then k - end else k + c.n - end;
    assert SeenEmpty(t, a, b, Nth(end, e, c.n));
  }
}
