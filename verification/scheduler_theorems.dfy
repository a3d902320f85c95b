/** Task conservation, activation and the fate of early tasks, over every run of the scheduler. */
module SchedulerTheorems {
  import opened Scheduler
  import opened SchedulerProofs

  lemma {:induction false} InvAlways(c: Config, t: seq<State>, k: nat)
    requires Run(c, t) && k < |t|
    ensures Inv(c, t[k])
  {
    if k == 0 {
      InitInv(c, t[0]);
    } else {
      InvAlways(c, t, k - 1);
      assert StepAt(c, t, k - 1);
      StepInv(c, t[k - 1], t[k]);
    }
  }

  // ----- Conservation -----

  lemma {:induction false} CountNone(qs: seq<seq<Job>>, job: Job)
    requires forall i :: 0 <= i < |qs| ==> qs[i] == []
    ensures CountAll(qs, job) == 0
  {
    if qs != [] {
      CountNone(qs[..|qs| - 1], job);
    }
  }

  lemma InitConserved(c: Config, s: State, job: Job)
    requires Init(c, s)
    ensures Conserved(s, job)
  {
    CountNone(s.q.initial, job);
    CountNone(s.q.local, job);
    CountNone(s.q.sticky, job);
    CountNone(HeldBy(s.ws), job);
  }

  lemma BootConserved(c: Config, s: State, s': State, i: nat, job: Job)
    requires Inv(c, s) && i < c.n && BootMove(c, s, s', i) && Conserved(s, job)
    ensures Conserved(s', job)
  {
    assert WorkerOk(c, s, i);
    BusyUpdate(s.ws, i, s'.ws[i], job);
    BootConserves(c, i, s.q, s.ws[i], s'.q, s'.ws[i], job);
  }

  lemma TryConserved(c: Config, s: State, s': State, i: nat, job: Job)
    requires Sized(c, s) && i < c.n && TryMove(c, s, s', i) && Conserved(s, job)
    ensures Conserved(s', job)
  {
    BusyUpdate(s.ws, i, s'.ws[i], job);
    TryConserves(c, i, s.q, s.ws[i], s'.q, s'.ws[i], job);
  }

  lemma HoldsSame(c: Config, w: Worker, f: bool, w': Worker, f': bool)
    requires RoundStep(c, w, w') || SleepStep(w, f, w', f')
    ensures Held(w') == Held(w)
  {
  }

  lemma RoundConserved(c: Config, s: State, s': State, i: nat, job: Job)
    requires Sized(c, s) && i < c.n && RoundMove(c, s, s', i) && Conserved(s, job)
    ensures Conserved(s', job)
  {
    BusyUpdate(s.ws, i, s'.ws[i], job);
    HoldsSame(c, s.ws[i], false, s'.ws[i], false);
  }

  lemma SleepConserved(c: Config, s: State, s': State, i: nat, job: Job)
    requires Sized(c, s) && i < c.n && SleepMove(c, s, s', i) && Conserved(s, job)
    ensures Conserved(s', job)
  {
    BusyUpdate(s.ws, i, s'.ws[i], job);
    HoldsSame(c, s.ws[i], s.flags[i], s'.ws[i], s'.flags[i]);
  }

  lemma FinishConserved(c: Config, s: State, s': State, i: nat, job: Job)
    requires Sized(c, s) && i < c.n && FinishMove(c, s, s', i) && Conserved(s, job)
    ensures Conserved(s', job)
  {
    BusyUpdate(s.ws, i, s'.ws[i], job);
    RanMore(s.log.executed, Done(s.ws[i].pc.job, i), job);
  }

  lemma WorkerConserves(c: Config, s: State, s': State, i: nat, job: Job)
    requires Inv(c, s) && WorkerMoves(c, s, s', i) && Conserved(s, job)
    ensures Conserved(s', job)
  {
    if BootMove(c, s, s', i) {
      BootConserved(c, s, s', i, job);
    } else if TryMove(c, s, s', i) {
      TryConserved(c, s, s', i, job);
    } else if RoundMove(c, s, s', i) {
      RoundConserved(c, s, s', i, job);
    } else if SleepMove(c, s, s', i) {
      SleepConserved(c, s, s', i, job);
    } else {
      FinishConserved(c, s, s', i, job);
    }
  }

  lemma PushConserves(c: Config, s: State, s': State, p: nat, job: Job)
    requires Sized(c, s) && PushMove(c, s, s', p) && Conserved(s, job)
    ensures Conserved(s', job)
  {
    var x := Pc(s.producers, p).job;
    CountAllPush(s.q.initial, x.target, x, job);
    CountAllPush(s.q.local, x.target, x, job);
    CountAllPush(s.q.sticky, x.target, x, job);
    assert s'.log.scheduled[job] == s.log.scheduled[job] + One(x, job);
  }

  lemma NotifyConserves(ws: seq<Worker>, i: nat, job: Job)
    requires i < |ws|
    ensures Busy(ws[i := Notified(ws[i])], job) == Busy(ws, job)
  {
    var w := Notified(ws[i]);
    assert Held(w) == Held(ws[i]);
    BusyUpdate(ws, i, w, job);
  }

  lemma ProducerConserves(c: Config, s: State, s': State, p: nat, job: Job)
    requires Sized(c, s) && ProducerMoves(c, s, s', p) && Conserved(s, job)
    ensures Conserved(s', job)
  {
    if PushMove(c, s, s', p) {
      PushConserves(c, s, s', p, job);
    } else if NotifyMove(c, s, s', p) {
      NotifyConserves(s.ws, Pc(s.producers, p).i, job);
    }
  }

  lemma StartConserves(c: Config, s: State, s': State, job: Job)
    requires Sized(c, s) && StartMove(c, s, s') && Conserved(s, job)
    ensures Conserved(s', job)
  {
    if s.starter.Notify? {
      NotifyConserves(s.ws, s.starter.k, job);
    }
  }

  lemma StepConserves(c: Config, s: State, s': State, job: Job)
    requires Inv(c, s) && Step(c, s, s') && Conserved(s, job)
    ensures Conserved(s', job)
  {
    if i :| WorkerMoves(c, s, s', i) {
      WorkerConserves(c, s, s', i, job);
    } else if p :| ProducerMoves(c, s, s', p) {
      ProducerConserves(c, s, s', p, job);
    } else {
      StartConserves(c, s, s', job);
    }
  }

  lemma {:induction false} ConservedAlways(c: Config, t: seq<State>, k: nat, job: Job)
    requires Run(c, t) && k < |t|
    ensures Conserved(t[k], job)
  {
    if k == 0 {
      InitConserved(c, t[0], job);
    } else {
      ConservedAlways(c, t, k - 1, job);
      InvAlways(c, t, k - 1);
      assert StepAt(c, t, k - 1);
      var s, s' := t[k - 1], t[k];
      StepConserves(c, s, s', job);
    }
  }

  /** In every reachable state a task was scheduled exactly as often as it is found in an initial,
      local or sticky queue, is running, or was executed. */
  lemma TaskConservation(c: Config, t: seq<State>, k: nat, job: Job)
    requires Run(c, t) && k < |t|
    ensures t[k].log.scheduled[job] == Queued(t[k].q, job) + Busy(t[k].ws, job) + Ran(t[k].log.executed, job)
  {
    ConservedAlways(c, t, k, job);
  }

  /** A sticky task runs, and was executed, on its own worker only. */
  lemma StickyStaysHome(c: Config, t: seq<State>, k: nat)
    requires Run(c, t) && k < |t|
    ensures |t[k].ws| == c.n
    ensures forall i: nat :: i < c.n && t[k].ws[i].pc.Running? && t[k].ws[i].pc.job.sticky ==> t[k].ws[i].pc.job.target == i
    ensures forall m :: 0 <= m < |t[k].log.executed| && t[k].log.executed[m].job.sticky ==>
              t[k].log.executed[m].worker == t[k].log.executed[m].job.target
  {
    InvAlways(c, t, k);
    forall i: nat | i < c.n && t[k].ws[i].pc.Running? && t[k].ws[i].pc.job.sticky
      ensures t[k].ws[i].pc.job.target == i
    {
      assert WorkerOk(c, t[k], i);
    }
    forall m | 0 <= m < |t[k].log.executed| && t[k].log.executed[m].job.sticky
      ensures t[k].log.executed[m].worker == t[k].log.executed[m].job.target
    {
      assert RanHome(t[k].log.executed[m]);
    }
  }

  /** `reconstruct()` meets empty queues, and once the scheduler is started it is over. */
  lemma ReconstructDiscardsNothing(c: Config, t: seq<State>, k: nat, i: nat)
    requires Run(c, t) && k < |t| && i < c.n
    ensures Sized(c, t[k])
    ensures t[k].ws[i].pc.Boot? ==> t[k].q.local[i] == [] && t[k].q.sticky[i] == []
    ensures t[k].ws[i].pc.BootSticky? ==> t[k].q.sticky[i] == []
    ensures t[k].started ==> Initialized(t[k].ws[i].pc)
  {
    InvAlways(c, t, k);
    assert WorkerOk(c, t[k], i);
  }

  // ----- Activation -----

  /** A worker asleep in `suspend` over a task has its flag set, or the thread that pushed the task is
      about to set it; and until it is notified, some thread is about to push it there. */
  lemma NoLostActivation(c: Config, t: seq<State>, k: nat, i: nat)
    requires Run(c, t) && k < |t| && i < c.n
    ensures Sized(c, t[k])
    ensures t[k].ws[i].pc.Asleep? && (t[k].q.local[i] != [] || t[k].q.sticky[i] != []) ==>
              t[k].flags[i] || SomePushed(t[k].producers, i)
    ensures t[k].ws[i].pc == Asleep(false) && t[k].flags[i] ==> SomeFlagged(t[k].producers, t[k].starter, i)
    ensures t[k].ws[i].pc == FirstWait(false) && t[k].flags[i] ==> SomeFlagged(t[k].producers, t[k].starter, i)
  {
    InvAlways(c, t, k);
    assert WorkerOk(c, t[k], i);
  }

  // ----- Tasks scheduled before the start -----

  /** The worker has taken its initial tasks for good. */
  predicate Settled(pc: WPc) {
    !pc.Boot? && !pc.BootSticky? && !pc.Drain?
  }

  /** What a step does to the initial tasks of one worker. */
  ghost predicate Grows(c: Config, s: State, s': State, i: nat)
    requires Sized(c, s) && i < c.n
  {
    && Sized(c, s')
    && (Settled(s.ws[i].pc) ==> s.q.initial[i] <= s'.q.initial[i] && Settled(s'.ws[i].pc))
    && (!Settled(s.ws[i].pc) && Settled(s'.ws[i].pc) ==> s'.q.initial[i] == [])
  }

  lemma BootGrows(c: Config, s: State, s': State, j: nat, i: nat)
    requires Sized(c, s) && i < c.n && j < c.n && BootMove(c, s, s', j)
    ensures Grows(c, s, s', i)
  {
  }

  lemma TryGrows(c: Config, s: State, s': State, j: nat, i: nat)
    requires Sized(c, s) && i < c.n && j < c.n && TryMove(c, s, s', j)
    ensures Grows(c, s, s', i)
  {
  }

  lemma LoopGrows(c: Config, s: State, s': State, j: nat, i: nat)
    requires Sized(c, s) && i < c.n && j < c.n && (RoundMove(c, s, s', j) || SleepMove(c, s, s', j) || FinishMove(c, s, s', j))
    ensures Grows(c, s, s', i)
  {
  }

  lemma StartGrows(c: Config, s: State, s': State, i: nat)
    requires Sized(c, s) && i < c.n && StartMove(c, s, s')
    ensures Grows(c, s, s', i)
  {
  }

  lemma ProducerGrows(c: Config, s: State, s': State, p: nat, i: nat)
    requires Sized(c, s) && i < c.n && ProducerMoves(c, s, s', p)
    ensures Grows(c, s, s', i)
  {
  }

  lemma InitialGrows(c: Config, s: State, s': State, i: nat)
    requires Step(c, s, s') && i < c.n
    ensures Grows(c, s, s', i)
  {
    if j :| WorkerMoves(c, s, s', j) {
      if BootMove(c, s, s', j) {
        BootGrows(c, s, s', j, i);
      } else if TryMove(c, s, s', j) {
        TryGrows(c, s, s', j, i);
      } else {
        LoopGrows(c, s, s', j, i);
      }
    } else if p :| ProducerMoves(c, s, s', p) {
      ProducerGrows(c, s, s', p, i);
    } else {
      StartGrows(c, s, s', i);
    }
  }

  lemma GrowsAt(c: Config, t: seq<State>, m: nat, i: nat)
    requires Run(c, t) && m + 1 < |t| && i < c.n
    ensures Sized(c, t[m]) && Grows(c, t[m], t[m + 1], i)
  {
    assert StepAt(c, t, m);
    InitialGrows(c, t[m], t[m + 1], i);
  }

  lemma {:induction false} InitialStays(c: Config, t: seq<State>, k: nat, m: nat, i: nat)
    requires Run(c, t) && k <= m < |t| && i < c.n && Sized(c, t[k]) && Settled(t[k].ws[i].pc)
    ensures Sized(c, t[m]) && t[k].q.initial[i] <= t[m].q.initial[i] && Settled(t[m].ws[i].pc)
    decreases m
  {
    if k < m {
      InitialStays(c, t, k, m - 1, i);
      GrowsAt(c, t, m - 1, i);
    }
  }

  lemma {:induction false} CountAllAtLeast(qs: seq<seq<Job>>, i: nat, job: Job)
    requires i < |qs| && job in qs[i]
    ensures CountAll(qs, job) >= 1
  {
    var m := |qs| - 1;
    if i < m {
      CountAllAtLeast(qs[..m], i, job);
    } else {
      assert job in multiset(qs[i]);
    }
  }

  /** A task that reaches the initial tasks of a worker behind its drain is never run, however long
      the run goes on. */
  lemma StrandedNeverRuns(c: Config, t: seq<State>, k: nat, m: nat, i: nat, job: Job)
    requires Run(c, t) && k <= m < |t| && i < c.n && Sized(c, t[k]) && Settled(t[k].ws[i].pc)
    requires job in t[k].q.initial[i] && t[m].log.scheduled[job] == 1
    ensures Busy(t[m].ws, job) == 0 && Ran(t[m].log.executed, job) == 0
  {
    InitialStays(c, t, k, m, i);
    TaskConservation(c, t, m, job);
    CountAllAtLeast(t[m].q.initial, i, job);
  }

  // ----- What becomes of a task that arrives in time -----

  /** What a step does to the number of times a task was scheduled and is an initial task. */
  ghost predicate Fewer(s: State, s': State, job: Job) {
    && s.log.scheduled[job] <= s'.log.scheduled[job]
    && (s'.log.scheduled[job] == s.log.scheduled[job] ==> CountAll(s'.q.initial, job) <= CountAll(s.q.initial, job))
  }

  lemma BootFewer(c: Config, s: State, s': State, i: nat, job: Job)
    requires Sized(c, s) && i < c.n && BootMove(c, s, s', i)
    ensures Fewer(s, s', job)
  {
    if s.ws[i].pc.Drain? && s.q.initial[i] != [] {
      CountAllPop(s.q.initial, i, job);
    }
  }

  lemma WorkerFewer(c: Config, s: State, s': State, i: nat, job: Job)
    requires Sized(c, s) && WorkerMoves(c, s, s', i)
    ensures Fewer(s, s', job)
  {
    if BootMove(c, s, s', i) {
      BootFewer(c, s, s', i, job);
    } else {
      assert s'.q.initial == s.q.initial && s'.log.scheduled == s.log.scheduled;
    }
  }

  lemma ProducerFewer(c: Config, s: State, s': State, p: nat, job: Job)
    requires Sized(c, s) && ProducerMoves(c, s, s', p)
    ensures Fewer(s, s', job)
  {
    if PushMove(c, s, s', p) {
      var x := Pc(s.producers, p).job;
      CountAllPush(s.q.initial, x.target, x, job);
      assert s'.log.scheduled[job] == s.log.scheduled[job] + One(x, job);
    } else {
      assert s'.q == s.q && s'.log == s.log;
    }
  }

  lemma StepFewer(c: Config, s: State, s': State, job: Job)
    requires Step(c, s, s')
    ensures Fewer(s, s', job)
  {
    if i :| WorkerMoves(c, s, s', i) {
      WorkerFewer(c, s, s', i, job);
    } else if p :| ProducerMoves(c, s, s', p) {
      ProducerFewer(c, s, s', p, job);
    } else {
      assert s'.q == s.q && s'.log == s.log;
    }
  }

  /** A task not scheduled again never comes back to the initial tasks. */
  lemma {:induction false} FewerLater(c: Config, t: seq<State>, k: nat, m: nat, job: Job)
    requires Run(c, t) && k <= m < |t|
    ensures Fewer(t[k], t[m], job)
    decreases m
  {
    if k < m {
      FewerLater(c, t, k, m - 1, job);
      assert StepAt(c, t, m - 1);
      StepFewer(c, t[m - 1], t[m], job);
    }
  }

  /** Between a worker not yet settled and the same one settled lies the step that emptied its initial tasks. */
  lemma {:induction false} SettlingStep(c: Config, t: seq<State>, k: nat, m: nat, i: nat) returns (x: nat)
    requires Run(c, t) && k <= m < |t| && i < c.n && Sized(c, t[k]) && Sized(c, t[m])
    requires !Settled(t[k].ws[i].pc) && Settled(t[m].ws[i].pc)
    ensures k < x <= m && Sized(c, t[x]) && Settled(t[x].ws[i].pc) && t[x].q.initial[i] == []
    decreases m
  {
    GrowsAt(c, t, m - 1, i);
    if Settled(t[m - 1].ws[i].pc) {
      x := SettlingStep(c, t, k, m - 1, i);
    } else {
      x := m;
    }
  }

  lemma {:induction false} CountAbsent(qs: seq<seq<Job>>, job: Job)
    requires forall j :: 0 <= j < |qs| ==> job !in qs[j]
    ensures CountAll(qs, job) == 0
  {
    if qs != [] {
      CountAbsent(qs[..|qs| - 1], job);
    }
  }

  /** With nothing left in its own worker's initial tasks, a task is in nobody's. */
  lemma NowhereInitial(c: Config, s: State, job: Job)
    requires AllOk(c, s) && job.target < c.n && s.q.initial[job.target] == []
    ensures CountAll(s.q.initial, job) == 0
  {
    forall j: nat | j < c.n
      ensures job !in s.q.initial[j]
    {
      assert WorkerOk(c, s, j);
    }
    CountAbsent(s.q.initial, job);
  }

  lemma InTime(c: Config, t: seq<State>, k: nat, x: nat, m: nat, i: nat, job: Job)
    requires Run(c, t) && k < x <= m < |t| && i < c.n && Sized(c, t[k]) && Sized(c, t[x])
    requires job in t[k].q.initial[i] && t[m].log.scheduled[job] == 1 && t[x].q.initial[i] == []
    ensures CountAll(t[m].q.initial, job) == 0
  {
    InvAlways(c, t, k);
    assert WorkerOk(c, t[k], i);
    TaskConservation(c, t, k, job);
    CountAllAtLeast(t[k].q.initial, i, job);
    FewerLater(c, t, k, x, job);
    FewerLater(c, t, x, m, job);
    InvAlways(c, t, x);
    NowhereInitial(c, t[x], job);
  }

  /** The fate of a task scheduled before the start, once its worker has settled: it is still among the
      initial tasks exactly if the worker had already settled when it got there; and if not, it is in
      exactly one place from which tasks are run, or was run. */
  lemma EarlyTaskFate(c: Config, t: seq<State>, k: nat, m: nat, i: nat, job: Job)
    requires Run(c, t) && k <= m < |t| && i < c.n && Sized(c, t[k]) && Sized(c, t[m])
    requires job in t[k].q.initial[i] && t[m].log.scheduled[job] == 1 && Settled(t[m].ws[i].pc)
    ensures job in t[m].q.initial[i] <==> Settled(t[k].ws[i].pc)
    ensures !Settled(t[k].ws[i].pc) ==>
              CountAll(t[m].q.local, job) + CountAll(t[m].q.sticky, job) + Busy(t[m].ws, job) + Ran(t[m].log.executed, job) == 1
  {
    if Settled(t[k].ws[i].pc) {
      InitialStays(c, t, k, m, i);
    } else {
      var x := SettlingStep(c, t, k, m, i);
      InTime(c, t, k, x, m, i, job);
      TaskConservation(c, t, m, job);
      if job in t[m].q.initial[i] {
        CountAllAtLeast(t[m].q.initial, i, job);
      }
    }
  }

  ghost function Initially(c: Config): State {
    var none: seq<seq<Job>> := seq(c.n, _ => []);
    State(Queues(none, none, none), seq(c.n, i requires i >= 0 => Worker(Boot, 0, i, 0)), seq(c.n, _ => false), map[], WaitInit(0), false, Log(multiset{}, []))
  }

  lemma InitiallyIsInit(c: Config)
    ensures Init(c, Initially(c))
  {
  }

  ghost function WithPc(s: State, pc: WPc): State
    requires |s.ws| > 0
  {
    s.(ws := s.ws[0 := s.ws[0].(pc := pc)])
  }

  /** The thread of worker 0 initializes itself while nothing else happens. */
  lemma BootSteps(c: Config)
    requires ValidConfig(c)
    ensures var s0 := Initially(c);
            Step(c, s0, WithPc(s0, BootSticky)) && Step(c, WithPc(s0, BootSticky), WithPc(s0, Drain)) && Step(c, WithPc(s0, Drain), WithPc(s0, Ready))
  {
    var s0 := Initially(c);
    var s1, s2, s3 := WithPc(s0, BootSticky), WithPc(s0, Drain), WithPc(s0, Ready);
    assert s0.q.local[0 := []] == s0.q.local && s0.q.sticky[0 := []] == s0.q.sticky;
    assert BootMove(c, s0, s1, 0) && WorkerMoves(c, s0, s1, 0);
    assert BootMove(c, s1, s2, 0) && WorkerMoves(c, s1, s2, 0);
    assert BootMove(c, s2, s3, 0) && WorkerMoves(c, s2, s3, 0);
  }

  ghost function Calling(s: State, job: Job): State {
    s.(producers := map[0 := Read(job, false)])
  }

  ghost function Scheduled(s: State, job: Job): State
    requires |s.q.initial| > 0
  {
    s.(q := s.q.(initial := Push(s.q.initial, 0, job)), producers := map[0 := Idle], log := Log(multiset{job}, []))
  }

  lemma ScheduleSteps(c: Config, s: State, job: Job)
    requires ValidConfig(c) && Sized(c, s) && s.producers == map[] && !s.started && job.target == 0 && s.log == Log(multiset{}, [])
    ensures Step(c, s, Calling(s, job)) && Step(c, Calling(s, job), Scheduled(s, job))
    ensures Sized(c, Scheduled(s, job)) && job in Scheduled(s, job).q.initial[0]
  {
    var s', s'' := Calling(s, job), Scheduled(s, job);
    assert CallMove(c, s, s', 0, job) && ProducerMoves(c, s, s', 0);
    assert s'.producers[0 := Idle] == s''.producers;
    assert multiset{} + multiset{job} == multiset{job};
    assert PushMove(c, s', s'', 0) && ProducerMoves(c, s', s'', 0);
  }

  lemma RunOn(c: Config, t: seq<State>, s: State)
    requires Run(c, t) && Step(c, t[|t| - 1], s)
    ensures Run(c, t + [s])
  {
    forall k: nat | k + 1 < |t + [s]|
      ensures StepAt(c, t + [s], k)
    {
      if k + 1 < |t| {
        assert StepAt(c, t, k);
      }
    }
  }

  /** Such a task exists for every configuration: `schedule_at` before `start()`, after the worker's
      thread has initialized itself. */
  lemma EarlyTaskIsStranded(c: Config) returns (t: seq<State>, job: Job)
    requires ValidConfig(c)
    ensures Run(c, t)
    ensures var s := t[|t| - 1];
            Sized(c, s) && Settled(s.ws[0].pc) && job in s.q.initial[0] && s.log.scheduled[job] == 1
  {
    job := Job(0, false, 0);
    var s0 := Initially(c);
    var s3 := WithPc(s0, Ready);
    InitiallyIsInit(c);
    BootSteps(c);
    ScheduleSteps(c, s3, job);
    RunOn(c, [s0], WithPc(s0, BootSticky));
    RunOn(c, [s0] + [WithPc(s0, BootSticky)], WithPc(s0, Drain));
    t := [s0] + [WithPc(s0, BootSticky)] + [WithPc(s0, Drain)];
    RunOn(c, t, s3);
    t := t + [s3];
    RunOn(c, t, Calling(s3, job));
    t := t + [Calling(s3, job)];
    RunOn(c, t, Scheduled(s3, job));
    t := t + [Scheduled(s3, job)];
  }
}
