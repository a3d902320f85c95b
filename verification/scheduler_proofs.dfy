/** What every run of the scheduler keeps: no task is lost, doubled or run on the wrong worker, and
    no worker sleeps over a task nobody is about to wake it for. */
module SchedulerProofs {
  import opened Scheduler

  // ----- Counting tasks -----

  /** How often a task is in a queue. */
  ghost function Count(js: seq<Job>, job: Job): nat {
    multiset(js)[job]
  }

  ghost function CountAll(qs: seq<seq<Job>>, job: Job): nat {
    if qs == [] then 0 else CountAll(qs[..|qs| - 1], job) + Count(qs[|qs| - 1], job)
  }

  function One(a: Job, b: Job): nat {
    if a == b then 1 else 0
  }

  lemma CountPush(js: seq<Job>, x: Job, job: Job)
    ensures Count(js + [x], job) == Count(js, job) + One(x, job)
  {
  }

  lemma CountPop(js: seq<Job>, job: Job)
    requires js != []
    ensures Count(js, job) == Count(js[1..], job) + One(js[0], job)
  {
    assert js == [js[0]] + js[1..];
  }

  lemma {:induction false} CountUpdate(qs: seq<seq<Job>>, i: nat, x: seq<Job>, job: Job)
    requires i < |qs|
    ensures CountAll(qs[i := x], job) == CountAll(qs, job) - Count(qs[i], job) + Count(x, job)
  {
    var m := |qs| - 1;
    if i == m {
      assert qs[i := x][..m] == qs[..m];
    } else {
      CountUpdate(qs[..m], i, x, job);
      assert qs[i := x][..m] == qs[..m][i := x];
    }
  }

  lemma CountAllPush(qs: seq<seq<Job>>, i: nat, x: Job, job: Job)
    requires i < |qs|
    ensures CountAll(qs[i := qs[i] + [x]], job) == CountAll(qs, job) + One(x, job)
  {
    CountUpdate(qs, i, qs[i] + [x], job);
    CountPush(qs[i], x, job);
  }

  lemma CountAllPop(qs: seq<seq<Job>>, i: nat, job: Job)
    requires i < |qs| && qs[i] != []
    ensures CountAll(qs[i := qs[i][1..]], job) == CountAll(qs, job) - One(qs[i][0], job)
  {
    CountUpdate(qs, i, qs[i][1..], job);
    CountPop(qs[i], job);
  }

  ghost function Held(w: Worker): seq<Job> {
    if w.pc.Running? then [w.pc.job] else []
  }

  ghost function HeldBy(ws: seq<Worker>): seq<seq<Job>> {
    seq(|ws|, i requires 0 <= i < |ws| => Held(ws[i]))
  }

  ghost function Busy(ws: seq<Worker>, job: Job): nat {
    CountAll(HeldBy(ws), job)
  }

  lemma BusyUpdate(ws: seq<Worker>, i: nat, w: Worker, job: Job)
    requires i < |ws|
    ensures Busy(ws[i := w], job) == Busy(ws, job) - Count(Held(ws[i]), job) + Count(Held(w), job)
  {
    var h := HeldBy(ws);
    assert HeldBy(ws[i := w]) == h[i := Held(w)];
    CountUpdate(h, i, Held(w), job);
  }

  ghost function Ran(executed: seq<Done>, job: Job): nat {
    if executed == [] then 0 else Ran(executed[..|executed| - 1], job) + One(executed[|executed| - 1].job, job)
  }

  lemma RanMore(executed: seq<Done>, d: Done, job: Job)
    ensures Ran(executed + [d], job) == Ran(executed, job) + One(d.job, job)
  {
    assert (executed + [d])[..|executed|] == executed;
  }

  ghost function Queued(q: Queues, job: Job): nat {
    CountAll(q.initial, job) + CountAll(q.local, job) + CountAll(q.sticky, job)
  }

  /** Every scheduled task is in a queue, running or executed, and in one of these only. */
  ghost predicate Conserved(s: State, job: Job) {
    s.log.scheduled[job] == Queued(s.q, job) + Busy(s.ws, job) + Ran(s.log.executed, job)
  }

  lemma BootConserves(c: Config, i: nat, q: Queues, w: Worker, q': Queues, w': Worker, job: Job)
    requires Shaped(c, q) && i < c.n && BootStep(c, i, q, w, q', w')
    requires w.pc.Boot? ==> q.local[i] == []
    requires w.pc.BootSticky? ==> q.sticky[i] == []
    ensures Queued(q', job) == Queued(q, job) && Held(w') == Held(w)
  {
    match w.pc
    case Boot => assert q.local[i := []] == q.local;
    case BootSticky => assert q.sticky[i := []] == q.sticky;
    case Drain =>
      if q.initial[i] != [] {
        CountAllPop(q.initial, i, job);
        CountAllPush(q.local, i, q.initial[i][0], job);
        CountAllPush(q.sticky, i, q.initial[i][0], job);
      }
    case _ =>
  }

  lemma TryConserves(c: Config, i: nat, q: Queues, w: Worker, q': Queues, w': Worker, job: Job)
    requires Shaped(c, q) && i < c.n && TryStep(c, i, q, w, q', w')
    ensures Queued(q', job) + Count(Held(w'), job) == Queued(q, job) + Count(Held(w), job)
  {
    var k := if w.pc.Steal? then w.pc.idx else i;
    if q.local[k] != [] {
      CountAllPop(q.local, k, job);
    }
    if q.sticky[i] != [] {
      CountAllPop(q.sticky, i, job);
    }
  }

  // ----- One worker -----

  ghost predicate AllHome(js: seq<Job>, i: nat) {
    forall k :: 0 <= k < |js| ==> js[k].target == i
  }

  ghost predicate AllSticky(js: seq<Job>, sticky: bool) {
    forall k :: 0 <= k < |js| ==> js[k].sticky == sticky
  }

  /** Queues hold tasks meant for their worker, and are empty until they are reconstructed. */
  ghost predicate Own(c: Config, i: nat, w: Worker, initial: seq<Job>, local: seq<Job>, sticky: seq<Job>) {
    && AllHome(initial, i) && AllHome(local, i) && AllHome(sticky, i)
    && AllSticky(local, false) && AllSticky(sticky, true)
    && (w.pc.Boot? ==> local == [] && sticky == [])
    && (w.pc.BootSticky? ==> sticky == [])
    && (w.pc.Running? && w.pc.job.sticky ==> w.pc.job.target == i)
    && w.last < c.n
    && (w.pc.Steal? ==> w.pc.idx < c.n && w.pc.end < c.n)
  }

  /** Since it last cleared its flag, the worker has found its local queue empty. */
  predicate SeenLocal(pc: WPc) {
    match pc
    case Second(localFirst, _) => localFirst
    case _ => pc.Missed? || pc.Steal? || pc.RoundFailed? || pc.Suspending? || pc.Asleep?
  }

  predicate SeenSticky(pc: WPc) {
    match pc
    case Second(localFirst, _) => !localFirst
    case _ => pc.Missed? || pc.Steal? || pc.RoundFailed? || pc.Suspending? || pc.Asleep?
  }

  /** A task that arrived since has its flag set or about to be set. */
  ghost predicate Aware(pc: WPc, local: seq<Job>, sticky: seq<Job>, f: bool, pushed: bool) {
    && (SeenLocal(pc) && local != [] ==> f || pushed)
    && (SeenSticky(pc) && sticky != [] ==> f || pushed)
  }

  /** A flag over a waiting worker has its notification about to come. */
  ghost predicate Wakes(pc: WPc, f: bool, flagged: bool) {
    (pc == Asleep(false) || pc == FirstWait(false)) && f ==> flagged
  }

  /** The queues of the other workers are the same. */
  ghost predicate Apart(c: Config, i: nat, q: Queues, q': Queues)
    requires Shaped(c, q)
  {
    && Shaped(c, q')
    && forall j :: 0 <= j < c.n && j != i ==> q'.initial[j] == q.initial[j] && q'.local[j] == q.local[j] && q'.sticky[j] == q.sticky[j]
  }

  lemma BootKeeps(c: Config, i: nat, q: Queues, w: Worker, f: bool, pushed: bool, flagged: bool, q': Queues, w': Worker)
    requires Shaped(c, q) && i < c.n && BootStep(c, i, q, w, q', w')
    requires Own(c, i, w, q.initial[i], q.local[i], q.sticky[i]) && (!Initialized(w.pc) ==> !f)
    ensures Apart(c, i, q, q') && Own(c, i, w', q'.initial[i], q'.local[i], q'.sticky[i]) && !Initialized(w.pc)
    ensures Aware(w'.pc, q'.local[i], q'.sticky[i], f, pushed) && Wakes(w'.pc, f, flagged)
  {
  }

  /** A queue, or what is left of it after one task was taken. */
  ghost predicate Less(js: seq<Job>, js': seq<Job>) {
    js' == js || (js != [] && js' == js[1..])
  }

  lemma TryKeeps(c: Config, i: nat, q: Queues, w: Worker, f: bool, pushed: bool, flagged: bool, q': Queues, w': Worker)
    requires ValidConfig(c) && Shaped(c, q) && i < c.n && TryStep(c, i, q, w, q', w')
    requires Own(c, i, w, q.initial[i], q.local[i], q.sticky[i]) && Aware(w.pc, q.local[i], q.sticky[i], f, pushed)
    requires forall j :: 0 <= j < c.n ==> AllSticky(q.local[j], false)
    ensures Shaped(c, q') && q'.initial == q.initial
    ensures forall j :: 0 <= j < c.n ==> Less(q.local[j], q'.local[j]) && (j != i ==> q'.sticky[j] == q.sticky[j])
    ensures Own(c, i, w', q'.initial[i], q'.local[i], q'.sticky[i]) && Initialized(w'.pc)
    ensures Aware(w'.pc, q'.local[i], q'.sticky[i], f, pushed) && Wakes(w'.pc, f, flagged)
  {
  }

  lemma RoundKeeps(c: Config, i: nat, initial: seq<Job>, local: seq<Job>, sticky: seq<Job>, w: Worker, f: bool, pushed: bool, flagged: bool, w': Worker)
    requires ValidConfig(c) && RoundStep(c, w, w') && Own(c, i, w, initial, local, sticky) && Aware(w.pc, local, sticky, f, pushed)
    ensures Own(c, i, w', initial, local, sticky) && Aware(w'.pc, local, sticky, f, pushed) && Wakes(w'.pc, f, flagged)
    ensures Initialized(w'.pc) && Held(w') == Held(w)
  {
  }

  lemma SleepKeeps(c: Config, i: nat, initial: seq<Job>, local: seq<Job>, sticky: seq<Job>, w: Worker, f: bool, pushed: bool, flagged: bool, w': Worker, f': bool)
    requires SleepStep(w, f, w', f') && Own(c, i, w, initial, local, sticky) && Aware(w.pc, local, sticky, f, pushed)
    ensures Own(c, i, w', initial, local, sticky) && Aware(w'.pc, local, sticky, f', pushed) && Wakes(w'.pc, f', flagged)
    ensures Initialized(w'.pc) && Held(w') == Held(w)
  {
  }

  /** Losing a task to a thief, or being notified, changes nothing for the worker. */
  lemma OthersKeep(c: Config, i: nat, w: Worker, initial: seq<Job>, local: seq<Job>, sticky: seq<Job>, f: bool, pushed: bool, local': seq<Job>)
    requires Own(c, i, w, initial, local, sticky) && Aware(w.pc, local, sticky, f, pushed) && Less(local, local')
    ensures Own(c, i, w, initial, local', sticky) && Aware(w.pc, local', sticky, f, pushed)
    ensures Own(c, i, Notified(w), initial, local, sticky) && Aware(Notified(w).pc, local, sticky, f, pushed)
    ensures Wakes(Notified(w).pc, f, false) && Held(Notified(w)) == Held(w)
    ensures Initialized(Notified(w).pc) == Initialized(w.pc)
  {
  }

  // ----- All threads -----

  /** Some thread has pushed a task for worker `i` and is about to set its flag. */
  ghost predicate SomePushed(producers: map<nat, PPc>, i: nat) {
    exists p: nat :: Pc(producers, p) == Pushed(i)
  }

  /** Some thread has set the flag of worker `i` and is about to notify it. */
  ghost predicate SomeFlagged(producers: map<nat, PPc>, starter: SPc, i: nat) {
    starter == Notify(i) || exists p: nat :: Pc(producers, p) == Flagged(i)
  }

  /** The starter has seen worker `i` initialized. */
  predicate MustBeUp(starter: SPc, i: nat) {
    match starter
    case WaitInit(k) => i < k
    case _ => true
  }

  ghost predicate ProducerOk(c: Config, pc: PPc, started: bool) {
    match pc
    case Idle => true
    case Read(job, seen) => job.target < c.n && (seen ==> started)
    case Pushed(i) => i < c.n && started
    case Flagged(i) => i < c.n && started
  }

  ghost predicate Control(c: Config, producers: map<nat, PPc>, starter: SPc, started: bool) {
    (started ==> starter == Started) && forall p: nat :: ProducerOk(c, Pc(producers, p), started)
  }

  ghost predicate WorkerOk(c: Config, s: State, i: nat)
    requires Sized(c, s) && i < c.n
  {
    var w, f := s.ws[i], s.flags[i];
    && Own(c, i, w, s.q.initial[i], s.q.local[i], s.q.sticky[i])
    && Aware(w.pc, s.q.local[i], s.q.sticky[i], f, SomePushed(s.producers, i))
    && Wakes(w.pc, f, SomeFlagged(s.producers, s.starter, i))
    && (!Initialized(w.pc) ==> !f)
    && (MustBeUp(s.starter, i) ==> Initialized(w.pc))
  }

  ghost predicate AllOk(c: Config, s: State) {
    Sized(c, s) && forall i: nat :: i < c.n ==> WorkerOk(c, s, i)
  }

  /** A sticky task was executed by its own worker. */
  ghost predicate RanHome(d: Done) {
    d.job.sticky ==> d.job.target == d.worker
  }

  ghost predicate AllHomeRuns(executed: seq<Done>) {
    forall k :: 0 <= k < |executed| ==> RanHome(executed[k])
  }

  ghost predicate Inv(c: Config, s: State) {
    ValidConfig(c) && AllOk(c, s) && Control(c, s.producers, s.starter, s.started) && AllHomeRuns(s.log.executed)
  }

  lemma InitInv(c: Config, s: State)
    requires ValidConfig(c) && Init(c, s)
    ensures Inv(c, s)
  {
  }

  lemma BootInv(c: Config, s: State, s': State, i: nat)
    requires Inv(c, s) && i < c.n && BootMove(c, s, s', i)
    ensures AllOk(c, s')
  {
    assert WorkerOk(c, s, i);
    BootKeeps(c, i, s.q, s.ws[i], s.flags[i], SomePushed(s.producers, i), SomeFlagged(s.producers, s.starter, i), s'.q, s'.ws[i]);
    forall j: nat | j < c.n
      ensures WorkerOk(c, s', j)
    {
      assert WorkerOk(c, s, j);
    }
  }

  lemma TryInv(c: Config, s: State, s': State, i: nat)
    requires Inv(c, s) && i < c.n && TryMove(c, s, s', i)
    ensures AllOk(c, s')
  {
    assert WorkerOk(c, s, i);
    forall j: nat | j < c.n
      ensures AllSticky(s.q.local[j], false)
    {
      assert WorkerOk(c, s, j);
    }
    TryKeeps(c, i, s.q, s.ws[i], s.flags[i], SomePushed(s.producers, i), SomeFlagged(s.producers, s.starter, i), s'.q, s'.ws[i]);
    forall j: nat | j < c.n
      ensures WorkerOk(c, s', j)
    {
      assert WorkerOk(c, s, j);
      if j != i {
        OthersKeep(c, j, s.ws[j], s.q.initial[j], s.q.local[j], s.q.sticky[j], s.flags[j], SomePushed(s.producers, j), s'.q.local[j]);
      }
    }
  }

  lemma RoundInv(c: Config, s: State, s': State, i: nat)
    requires Inv(c, s) && i < c.n && RoundMove(c, s, s', i)
    ensures AllOk(c, s')
  {
    assert WorkerOk(c, s, i);
    RoundKeeps(c, i, s.q.initial[i], s.q.local[i], s.q.sticky[i], s.ws[i], s.flags[i],
               SomePushed(s.producers, i), SomeFlagged(s.producers, s.starter, i), s'.ws[i]);
    forall j: nat | j < c.n
      ensures WorkerOk(c, s', j)
    {
      assert WorkerOk(c, s, j);
    }
  }

  lemma SleepInv(c: Config, s: State, s': State, i: nat)
    requires Inv(c, s) && i < c.n && SleepMove(c, s, s', i)
    ensures AllOk(c, s')
  {
    assert WorkerOk(c, s, i);
    SleepKeeps(c, i, s.q.initial[i], s.q.local[i], s.q.sticky[i], s.ws[i], s.flags[i],
               SomePushed(s.producers, i), SomeFlagged(s.producers, s.starter, i), s'.ws[i], s'.flags[i]);
    forall j: nat | j < c.n
      ensures WorkerOk(c, s', j)
    {
      assert WorkerOk(c, s, j);
    }
  }

  lemma FinishInv(c: Config, s: State, s': State, i: nat)
    requires Inv(c, s) && i < c.n && FinishMove(c, s, s', i)
    ensures AllOk(c, s') && AllHomeRuns(s'.log.executed)
  {
    assert WorkerOk(c, s, i);
    forall j: nat | j < c.n
      ensures WorkerOk(c, s', j)
    {
      assert WorkerOk(c, s, j);
    }
  }

  // ----- Scheduling threads -----

  lemma ControlMoves(c: Config, producers: map<nat, PPc>, starter: SPc, started: bool, p: nat, pc: PPc)
    requires Control(c, producers, starter, started) && ProducerOk(c, pc, started)
    ensures Control(c, producers[p := pc], starter, started)
  {
    var now := producers[p := pc];
    forall p': nat
      ensures ProducerOk(c, Pc(now, p'), started)
    {
      assert ProducerOk(c, Pc(producers, p'), started);
    }
  }

  /** A thread that moves on takes away only its own claim. */
  lemma ClaimsMove(producers: map<nat, PPc>, starter: SPc, p: nat, pc: PPc, i: nat)
    ensures Pc(producers, p) != Pushed(i) && SomePushed(producers, i) ==> SomePushed(producers[p := pc], i)
    ensures Pc(producers, p) != Flagged(i) && SomeFlagged(producers, starter, i) ==> SomeFlagged(producers[p := pc], starter, i)
    ensures pc == Pushed(i) ==> SomePushed(producers[p := pc], i)
    ensures pc == Flagged(i) ==> SomeFlagged(producers[p := pc], starter, i)
  {
    var now := producers[p := pc];
    assert Pc(now, p) == pc;
    if Pc(producers, p) != Pushed(i) && SomePushed(producers, i) {
      var x: nat :| Pc(producers, x) == Pushed(i);
      assert Pc(now, x) == Pushed(i);
    }
    if Pc(producers, p) != Flagged(i) && SomeFlagged(producers, starter, i) && starter != Notify(i) {
      var x: nat :| Pc(producers, x) == Flagged(i);
      assert Pc(now, x) == Flagged(i);
    }
  }

  lemma CallInv(c: Config, s: State, s': State, p: nat, job: Job)
    requires Inv(c, s) && CallMove(c, s, s', p, job)
    ensures Inv(c, s')
  {
    ControlMoves(c, s.producers, s.starter, s.started, p, Read(job, s.started));
    forall j: nat | j < c.n
      ensures WorkerOk(c, s', j)
    {
      assert WorkerOk(c, s, j);
      ClaimsMove(s.producers, s.starter, p, Read(job, s.started), j);
    }
  }

  lemma PushOwn(c: Config, i: nat, w: Worker, initial: seq<Job>, local: seq<Job>, sticky: seq<Job>, job: Job)
    requires Own(c, i, w, initial, local, sticky) && job.target == i
    ensures Own(c, i, w, initial + [job], local, sticky)
    ensures Initialized(w.pc) && !job.sticky ==> Own(c, i, w, initial, local + [job], sticky)
    ensures Initialized(w.pc) && job.sticky ==> Own(c, i, w, initial, local, sticky + [job])
  {
  }

  lemma PushInv(c: Config, s: State, s': State, p: nat)
    requires Inv(c, s) && PushMove(c, s, s', p)
    ensures Inv(c, s')
  {
    var Read(job, started) := Pc(s.producers, p);
    var i := job.target;
    assert ProducerOk(c, Pc(s.producers, p), s.started);
    ControlMoves(c, s.producers, s.starter, s.started, p, Pc(s'.producers, p));
    forall j: nat | j < c.n
      ensures WorkerOk(c, s', j)
    {
      assert WorkerOk(c, s, j);
      ClaimsMove(s.producers, s.starter, p, Pc(s'.producers, p), j);
      if j == i {
        PushOwn(c, i, s.ws[i], s.q.initial[i], s.q.local[i], s.q.sticky[i], job);
      }
    }
  }

  lemma FlagInv(c: Config, s: State, s': State, p: nat)
    requires Inv(c, s) && FlagMove(c, s, s', p)
    ensures Inv(c, s')
  {
    var i := Pc(s.producers, p).i;
    assert ProducerOk(c, Pc(s.producers, p), s.started);
    ControlMoves(c, s.producers, s.starter, s.started, p, Flagged(i));
    forall j: nat | j < c.n
      ensures WorkerOk(c, s', j)
    {
      assert WorkerOk(c, s, j);
      ClaimsMove(s.producers, s.starter, p, Flagged(i), j);
    }
  }

  lemma NotifyInv(c: Config, s: State, s': State, p: nat)
    requires Inv(c, s) && NotifyMove(c, s, s', p)
    ensures Inv(c, s')
  {
    var i := Pc(s.producers, p).i;
    ControlMoves(c, s.producers, s.starter, s.started, p, Idle);
    forall j: nat | j < c.n
      ensures WorkerOk(c, s', j)
    {
      assert WorkerOk(c, s, j);
      ClaimsMove(s.producers, s.starter, p, Idle, j);
      if j == i {
        OthersKeep(c, i, s.ws[i], s.q.initial[i], s.q.local[i], s.q.sticky[i], s.flags[i], SomePushed(s.producers, i), s.q.local[i]);
      }
    }
  }

  // ----- The starter -----

  lemma ControlStarts(c: Config, s: State, s': State)
    requires Sized(c, s) && Control(c, s.producers, s.starter, s.started) && StartMove(c, s, s')
    ensures Control(c, s'.producers, s'.starter, s'.started)
  {
    forall p: nat
      ensures ProducerOk(c, Pc(s'.producers, p), s'.started)
    {
      assert ProducerOk(c, Pc(s.producers, p), s.started);
    }
  }

  lemma StartInv(c: Config, s: State, s': State)
    requires Inv(c, s) && StartMove(c, s, s')
    ensures Inv(c, s')
  {
    ControlStarts(c, s, s');
    forall j: nat | j < c.n
      ensures WorkerOk(c, s', j)
    {
      assert WorkerOk(c, s, j);
      OthersKeep(c, j, s.ws[j], s.q.initial[j], s.q.local[j], s.q.sticky[j], s.flags[j], SomePushed(s.producers, j), s.q.local[j]);
    }
  }

  lemma StepInv(c: Config, s: State, s': State)
    requires Inv(c, s) && Step(c, s, s')
    ensures Inv(c, s')
  {
    if i :| WorkerMoves(c, s, s', i) {
      if BootMove(c, s, s', i) {
        BootInv(c, s, s', i);
      } else if TryMove(c, s, s', i) {
        TryInv(c, s, s', i);
      } else if RoundMove(c, s, s', i) {
        RoundInv(c, s, s', i);
      } else if SleepMove(c, s, s', i) {
        SleepInv(c, s, s', i);
      } else {
        FinishInv(c, s, s', i);
      }
    } else if p :| ProducerMoves(c, s, s', p) {
      if job :| CallMove(c, s, s', p, job) {
        CallInv(c, s, s', p, job);
      } else if PushMove(c, s, s', p) {
        PushInv(c, s, s', p);
      } else if FlagMove(c, s, s', p) {
        FlagInv(c, s, s', p);
      } else {
        NotifyInv(c, s, s', p);
      }
    } else {
      StartInv(c, s, s');
    }
  }
}
