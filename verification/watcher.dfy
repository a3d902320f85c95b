/** The watcher of conditional tasks as a step machine: its thread, any number of threads that
    schedule conditional tasks, and the thread that starts the scheduler. Before `stop()`. */
module Watcher {

  /** A conditional task, by number. */
  type Task = nat

  datatype WPc =
    | Boot                                                // about to reconstruct the queue
    | Ready                                               // about to set `initialized_`
    | FirstTest                                           // about to wait for its first activation
    | FirstWait(notified: bool)
    | Popping(negatives: seq<Task>)                       // in the loop of `process_next`
    | Checking(task: Task, negatives: seq<Task>)          // has popped a task
    | Executing(task: Task, negatives: seq<Task>)         // its condition holds
    | Returning(negatives: seq<Task>)                     // pushing the negatives back
    | Suspending(timed: bool)                             // about to lock `sleep_cv_` in `suspend`
    | Asleep(timed: bool, notified: bool)

  datatype PPc = Idle | Pushed | Flagged

  datatype SPc = WaitInit | Flag | Notify | Started

  datatype Log = Log(scheduled: seq<Task>, executed: seq<Task>, dropped: seq<Task>)

  datatype State = State(q: seq<Task>, pc: WPc, f: bool, producers: map<nat, PPc>, starter: SPc, log: Log)

  ghost predicate Init(s: State) {
    s == State([], Boot, false, map[], WaitInit, Log([], [], []))
  }

  /** `init` and the wait of the thread body. */
  ghost predicate BootMove(s: State, s': State) {
    match s.pc
    case Boot => s' == s.(q := [], pc := Ready, log := s.log.(dropped := s.q))
    case Ready => s' == s.(pc := FirstTest)
    case FirstTest => s' == if s.f then s.(pc := Popping([]), f := false) else s.(pc := FirstWait(false))
    case FirstWait(_) => s' == if s.f then s.(pc := Popping([]), f := false) else s.(pc := FirstWait(false))
    case _ => false
  }

  /** `process_next`: run what can be run, and push back the rest. */
  ghost predicate ProcessMove(s: State, s': State) {
    match s.pc
    case Popping(negatives) =>
      s' == if s.q != [] then s.(q := s.q[1..], pc := Checking(s.q[0], negatives))
            else if negatives == [] then s.(pc := Suspending(false))
            else s.(pc := Returning(negatives))
    case Checking(task, negatives) =>
      s' == s.(pc := Executing(task, negatives)) || s' == s.(pc := Popping(negatives + [task]))
    case Executing(task, negatives) =>
      s' == s.(pc := Popping(negatives), log := s.log.(executed := s.log.executed + [task]))
    case Returning(negatives) =>
      s' == if negatives == [] then s.(pc := Suspending(true))
            else s.(q := s.q + [negatives[0]], pc := Returning(negatives[1..]))
    case _ => false
  }

  /** `suspend`; both waits have a timeout, of 24 hours and of `watcher_interval`. */
  ghost predicate SleepMove(s: State, s': State) {
    match s.pc
    case Suspending(timed) => s' == if s.f then s.(pc := Popping([]), f := false) else s.(pc := Asleep(timed, false))
    case Asleep(timed, _) => s' == s.(pc := Popping([]), f := false) || (!s.f && s' == s.(pc := Asleep(timed, false)))
    case _ => false
  }

  function Notified(pc: WPc): WPc {
    match pc
    case FirstWait(_) => FirstWait(true)
    case Asleep(timed, _) => Asleep(timed, true)
    case _ => pc
  }

  function Pc(producers: map<nat, PPc>, p: nat): PPc {
    if p in producers then producers[p] else Idle
  }

  /** `schedule_conditional`: push, set the flag, notify. */
  ghost predicate ScheduleMove(s: State, s': State, p: nat) {
    match Pc(s.producers, p)
    case Idle =>
      && |s'.log.scheduled| > 0
      && var task := s'.log.scheduled[|s'.log.scheduled| - 1];
      s' == s.(q := s.q + [task], producers := s.producers[p := Pushed], log := s.log.(scheduled := s.log.scheduled + [task]))
    case Pushed => s' == s.(f := true, producers := s.producers[p := Flagged])
    case Flagged => s' == s.(pc := Notified(s.pc), producers := s.producers[p := Idle])
  }

  /** `start()`, as far as the watcher is concerned. */
  ghost predicate StartMove(s: State, s': State) {
    match s.starter
    case WaitInit => !s.pc.Boot? && !s.pc.Ready? && s' == s.(starter := Flag)
    case Flag => s' == s.(f := true, starter := Notify)
    case Notify => s' == s.(pc := Notified(s.pc), starter := Started)
    case Started => false
  }

  ghost predicate Step(s: State, s': State) {
    BootMove(s, s') || ProcessMove(s, s') || SleepMove(s, s') || StartMove(s, s') || exists p :: ScheduleMove(s, s', p)
  }

  ghost predicate StepAt(t: seq<State>, k: nat)
    requires k + 1 < |t|
  {
    Step(t[k], t[k + 1])
  }

  ghost predicate Run(t: seq<State>) {
    |t| > 0 && Init(t[0]) && forall k: nat :: k + 1 < |t| ==> StepAt(t, k)
  }

  // ----- Activation -----

  ghost predicate Some(producers: map<nat, PPc>, pc: PPc) {
    exists p: nat :: Pc(producers, p) == pc
  }

  /** The queue was found empty since the flag was last cleared, and nothing was pushed back. */
  predicate SeenEmpty(pc: WPc) {
    pc == Suspending(false) || pc == Asleep(false, true) || pc == Asleep(false, false)
  }

  ghost predicate Alert(q: seq<Task>, pc: WPc, f: bool, pushed: bool, flagged: bool) {
    && (SeenEmpty(pc) && q != [] ==> f || pushed)
    && (pc == FirstWait(false) || (pc.Asleep? && !pc.notified) ==> !f || flagged)
  }

  ghost predicate AlertIn(s: State) {
    Alert(s.q, s.pc, s.f, Some(s.producers, Pushed), s.starter == Notify || Some(s.producers, Flagged))
  }

  /** A thread that moves on takes away only its own claim. */
  lemma ClaimsMove(producers: map<nat, PPc>, p: nat, pc: PPc, claim: PPc)
    ensures pc == claim ==> Some(producers[p := pc], claim)
    ensures Pc(producers, p) != claim && Some(producers, claim) ==> Some(producers[p := pc], claim)
  {
    var now := producers[p := pc];
    assert Pc(now, p) == pc;
    if Pc(producers, p) != claim && Some(producers, claim) {
      var x: nat :| Pc(producers, x) == claim;
      assert Pc(now, x) == claim;
    }
  }

  lemma StepAlert(s: State, s': State)
    requires AlertIn(s) && Step(s, s')
    ensures AlertIn(s')
  {
    if p :| ScheduleMove(s, s', p) {
      var pc := Pc(s'.producers, p);
      ClaimsMove(s.producers, p, pc, Pushed);
      ClaimsMove(s.producers, p, pc, Flagged);
    }
  }

  lemma {:induction false} AlertAlways(t: seq<State>, k: nat)
    requires Run(t) && k < |t|
    ensures AlertIn(t[k])
  {
    if k > 0 {
      AlertAlways(t, k - 1);
      assert StepAt(t, k - 1);
      StepAlert(t[k - 1], t[k]);
    }
  }

  /** The watcher in its long suspend over a task has its flag set, or the thread that pushed the
      task is about to set it; and until it is notified, some thread is about to. */
  lemma NoLostActivation(t: seq<State>, k: nat)
    requires Run(t) && k < |t|
    ensures t[k].pc.Asleep? && !t[k].pc.timed && t[k].q != [] ==> t[k].f || Some(t[k].producers, Pushed)
    ensures t[k].pc.Asleep? && !t[k].pc.notified && t[k].f ==> t[k].starter == Notify || Some(t[k].producers, Flagged)
  {
    AlertAlways(t, k);
  }

  // ----- Conservation -----

  function One(y: Task, x: Task): nat {
    if x == y then 1 else 0
  }

  ghost function Count(ts: seq<Task>, x: Task): nat {
    if ts == [] then 0 else Count(ts[..|ts| - 1], x) + One(ts[|ts| - 1], x)
  }

  ghost function Holds(pc: WPc): seq<Task> {
    match pc
    case Popping(negatives) => negatives
    case Checking(task, negatives) => negatives + [task]
    case Executing(task, negatives) => negatives + [task]
    case Returning(negatives) => negatives
    case _ => []
  }

  /** Every scheduled task waits, is looked at, was executed, or was dropped; and in one of these only. */
  ghost predicate Conserved(s: State, x: Task) {
    Count(s.log.scheduled, x) == Count(s.q, x) + Count(Holds(s.pc), x) + Count(s.log.executed, x) + Count(s.log.dropped, x)
  }

  lemma CountMore(ts: seq<Task>, y: Task, x: Task)
    ensures Count(ts + [y], x) == Count(ts, x) + One(y, x)
  {
    assert (ts + [y])[..|ts|] == ts;
  }

  lemma {:induction false} CountFirst(ts: seq<Task>, x: Task)
    requires ts != []
    ensures Count(ts, x) == Count(ts[1..], x) + One(ts[0], x)
  {
    var m := |ts| - 1;
    if m > 0 {
      CountFirst(ts[..m], x);
      assert ts[..m][1..] == ts[1..][..m - 1];
    } else {
      assert ts[..0] == ts[1..] == [];
    }
  }

  lemma PopConserves(s: State, s': State, x: Task)
    requires Conserved(s, x) && ProcessMove(s, s') && s.pc.Popping?
    ensures Conserved(s', x)
  {
    if s.q != [] {
      CountFirst(s.q, x);
      CountMore(s.pc.negatives, s.q[0], x);
    }
  }

  lemma CheckConserves(s: State, s': State, x: Task)
    requires Conserved(s, x) && ProcessMove(s, s') && s.pc.Checking?
    ensures Conserved(s', x)
  {
    assert Holds(s'.pc) == Holds(s.pc);
  }

  lemma ExecuteConserves(s: State, s': State, x: Task)
    requires Conserved(s, x) && ProcessMove(s, s') && s.pc.Executing?
    ensures Conserved(s', x)
  {
    var task, negatives := s.pc.task, s.pc.negatives;
    assert Holds(s.pc) == negatives + [task] && Holds(s'.pc) == negatives;
    CountMore(negatives, task, x);
    CountMore(s.log.executed, task, x);
  }

  lemma ReturnConserves(s: State, s': State, x: Task)
    requires Conserved(s, x) && ProcessMove(s, s') && s.pc.Returning?
    ensures Conserved(s', x)
  {
    if s.pc.negatives != [] {
      CountFirst(s.pc.negatives, x);
      CountMore(s.q, s.pc.negatives[0], x);
    }
  }

  ghost predicate NotDroppedYet(s: State) {
    s.pc.Boot? ==> s.log.dropped == []
  }

  lemma ScheduleConserves(s: State, s': State, p: nat, x: Task)
    requires Conserved(s, x) && ScheduleMove(s, s', p)
    ensures Conserved(s', x)
  {
    if Pc(s.producers, p) == Idle {
      var task := s'.log.scheduled[|s'.log.scheduled| - 1];
      CountMore(s.q, task, x);
      CountMore(s.log.scheduled, task, x);
    } else {
      assert Holds(s'.pc) == Holds(s.pc);
    }
  }

  lemma BootConserves(s: State, s': State, x: Task)
    requires Conserved(s, x) && NotDroppedYet(s) && s.pc.Boot? && BootMove(s, s')
    ensures Conserved(s', x)
  {
    assert Holds(s'.pc) == Holds(s.pc) == [];
    assert Count([], x) == 0;
  }

  lemma WaitKeeps(s: State, s': State)
    requires !(s.pc.Boot? && BootMove(s, s')) && (BootMove(s, s') || SleepMove(s, s') || StartMove(s, s'))
    ensures s'.q == s.q && s'.log == s.log && Holds(s'.pc) == Holds(s.pc)
  {
  }

  lemma WaitConserves(s: State, s': State, x: Task)
    requires Conserved(s, x) && !(s.pc.Boot? && BootMove(s, s')) && (BootMove(s, s') || SleepMove(s, s') || StartMove(s, s'))
    ensures Conserved(s', x)
  {
    WaitKeeps(s, s');
  }

  lemma StepConserves(s: State, s': State, x: Task)
    requires Conserved(s, x) && NotDroppedYet(s) && Step(s, s')
    ensures Conserved(s', x) && NotDroppedYet(s')
  {
    if ProcessMove(s, s') {
      if s.pc.Popping? {
        PopConserves(s, s', x);
      } else if s.pc.Returning? {
        ReturnConserves(s, s', x);
      } else if s.pc.Checking? {
        CheckConserves(s, s', x);
      } else {
        ExecuteConserves(s, s', x);
      }
    } else if p :| ScheduleMove(s, s', p) {
      ScheduleConserves(s, s', p, x);
    } else if s.pc.Boot? && BootMove(s, s') {
      BootConserves(s, s', x);
    } else {
      WaitConserves(s, s', x);
    }
  }

  /** In every reachable state a conditional task was scheduled exactly as often as it is queued, in
      the watcher's hands, executed, or dropped. */
  lemma {:induction false} ConditionalConservation(t: seq<State>, k: nat, x: Task)
    requires Run(t) && k < |t|
    ensures Conserved(t[k], x) && NotDroppedYet(t[k])
  {
    if k > 0 {
      ConditionalConservation(t, k - 1, x);
      assert StepAt(t, k - 1);
      StepConserves(t[k - 1], t[k], x);
    }
  }

  lemma DroppedStep(s: State, s': State)
    requires Step(s, s') && !s.pc.Boot?
    ensures s'.log.dropped == s.log.dropped && !s'.pc.Boot?
  {
  }

  lemma {:induction false} DroppedStays(t: seq<State>, k: nat, m: nat)
    requires Run(t) && k <= m < |t| && !t[k].pc.Boot?
    ensures t[m].log.dropped == t[k].log.dropped && !t[m].pc.Boot?
    decreases m
  {
    if k < m {
      DroppedStays(t, k, m - 1);
      assert StepAt(t, m - 1);
      DroppedStep(t[m - 1], t[m]);
    }
  }

  /** Nothing scheduled after the watcher has reconstructed its queue is ever dropped; `start()`
      returns only then. */
  lemma LateTaskIsKept(t: seq<State>, k: nat, m: nat, x: Task)
    requires Run(t) && k <= m < |t| && !t[k].pc.Boot? && Count(t[k].log.scheduled, x) == 0
    ensures Count(t[m].log.dropped, x) == 0
  {
    ConditionalConservation(t, k, x);
    DroppedStays(t, k, m);
  }

  lemma DropIsQueue(s: State, s': State)
    requires Step(s, s') && s.pc.Boot? && !s'.pc.Boot?
    ensures s'.log.dropped == s.q
  {
  }

  lemma NothingDoneStep(s: State, s': State)
    requires Step(s, s') && s'.pc.Boot?
    ensures s.pc.Boot? && s'.log.executed == s.log.executed
  {
  }

  lemma {:induction false} NothingDoneYet(t: seq<State>, k: nat)
    requires Run(t) && k < |t| && t[k].pc.Boot?
    ensures t[k].log.executed == []
  {
    if k > 0 {
      assert StepAt(t, k - 1);
      NothingDoneStep(t[k - 1], t[k]);
      NothingDoneYet(t, k - 1);
    }
  }

  /** Everything scheduled before it is dropped, and never executed. */
  lemma EarlyTaskIsDropped(t: seq<State>, k: nat, m: nat, x: Task)
    requires Run(t) && k + 1 < |t| && k + 1 <= m < |t| && t[k].pc.Boot? && !t[k + 1].pc.Boot?
    requires Count(t[m].log.scheduled, x) == Count(t[k].log.scheduled, x)
    ensures Count(t[m].log.dropped, x) == Count(t[k].log.scheduled, x) && Count(t[m].log.executed, x) == 0
  {
    ConditionalConservation(t, m, x);
    DroppedStays(t, k + 1, m);
    NothingDoneYet(t, k);
    assert StepAt(t, k);
    ConditionalConservation(t, k, x);
    DropIsQueue(t[k], t[k + 1]);
  }

  /** This does happen: a task scheduled before the watcher's thread comes up. */
  lemma EarlyTaskExists() returns (t: seq<State>)
    ensures Run(t) && |t| == 3 && Count(t[2].log.scheduled, 7) == 1 && Count(t[2].log.dropped, 7) == 1
  {
    var s0 := State([], Boot, false, map[], WaitInit, Log([], [], []));
    var s1 := s0.(q := [7], producers := map[0 := Pushed], log := Log([7], [], []));
    var s2 := s1.(q := [], pc := Ready, log := Log([7], [], [7]));
    assert s0.q + [7] == [7] && s0.log.scheduled + [7] == [7];
    assert ScheduleMove(s0, s1, 0);
    t := [s0, s1, s2];
    assert StepAt(t, 0) && StepAt(t, 1);
  }
}
