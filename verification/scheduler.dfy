/** The task scheduler as a step machine: worker threads with their queues, any number of threads
    that schedule tasks, and the thread that starts the scheduler. Before `stop()`, with
    `busy_worker` off. */
module Scheduler {
  import Notifier
  import WorkerChoice

  /** Workers, rounds of retries before stealing (`stealing_wait * thread_count`), `worker_try_count`
      and the ratio of `local_first_notifer`. */
  datatype Config = Config(n: nat, stealing: bool, retries: nat, tryCount: nat, notifications: nat, period: nat)

  ghost predicate ValidConfig(c: Config) {
    c.n > 0 && 0 < c.notifications <= c.period
  }

  /** A task handed to `schedule_at` for worker `target`. */
  datatype Job = Job(id: nat, sticky: bool, target: nat)

  /** A task that was executed, and by which worker. */
  datatype Done = Done(job: Job, worker: nat)

  datatype WPc =
    | Boot                                      // about to reconstruct the local queue
    | BootSticky                                // about to reconstruct the sticky queue
    | Drain                                     // moving initial tasks to its queues
    | Ready                                     // about to set `initialized_`
    | FirstWait(notified: bool)                 // waiting to be activated for the first time
    | Begin(tries: nat)                         // about to call `try_local_and_sticky`
    | First(localFirst: bool, tries: nat)       // about to try the first queue
    | Second(localFirst: bool, tries: nat)      // about to try the other queue
    | Missed(tries: nat)                        // both own queues were found empty
    | Steal(idx: nat, end: nat)                 // about to try the local queue of worker `idx`
    | RoundFailed                               // `process_next` returned false
    | Suspending                                // about to lock `sleep_cv_` in `suspend`
    | Asleep(notified: bool)                    // waiting in `suspend`
    | Running(job: Job)

  /** `misses` is `empty_work_count`, `last` is `last_steal_from`, `current` is the notifier's counter. */
  datatype Worker = Worker(pc: WPc, misses: nat, last: nat, current: nat)

  /** A thread in `schedule_at`. */
  datatype PPc =
    | Idle
    | Read(job: Job, started: bool)             // has read `started_`
    | Pushed(i: nat)                            // has pushed, about to activate worker `i`
    | Flagged(i: nat)                           // has set `activate_requested_`, about to notify

  /** The thread in `start()`. */
  datatype SPc = WaitInit(k: nat) | Flag(k: nat) | Notify(k: nat) | Started

  datatype Queues = Queues(initial: seq<seq<Job>>, local: seq<seq<Job>>, sticky: seq<seq<Job>>)

  datatype Log = Log(scheduled: multiset<Job>, executed: seq<Done>)

  datatype State = State(
    q: Queues,
    ws: seq<Worker>,
    flags: seq<bool>,
    producers: map<nat, PPc>,
    starter: SPc,
    started: bool,
    log: Log)

  ghost predicate Init(c: Config, s: State) {
    && |s.q.initial| == |s.q.local| == |s.q.sticky| == |s.ws| == |s.flags| == c.n
    && (forall i :: 0 <= i < c.n ==> s.q.initial[i] == [] && s.q.local[i] == [] && s.q.sticky[i] == [])
    && (forall i :: 0 <= i < c.n ==> s.ws[i] == Worker(Boot, 0, i, 0))
    && (forall i :: 0 <= i < c.n ==> !s.flags[i])
    && s.producers == map[]
    && s.starter == WaitInit(0)
    && !s.started
    && s.log == Log(multiset{}, [])
  }

  // ----- One worker -----

  function Next(c: Config, i: nat): nat {
    WorkerChoice.Next(i, c.n)
  }

  ghost predicate Shaped(c: Config, q: Queues) {
    |q.initial| == |q.local| == |q.sticky| == c.n
  }

  /** `init`: fresh queues, then the initial tasks. */
  ghost predicate BootStep(c: Config, i: nat, q: Queues, w: Worker, q': Queues, w': Worker)
    requires Shaped(c, q) && i < c.n
  {
    match w.pc
    case Boot => q' == q.(local := q.local[i := []]) && w' == w.(pc := BootSticky)
    case BootSticky => q' == q.(sticky := q.sticky[i := []]) && w' == w.(pc := Drain)
    case Drain =>
      if q.initial[i] == [] then q' == q && w' == w.(pc := Ready)
      else
        var job, rest := q.initial[i][0], q.initial[i][1..];
        && w' == w
        && q' == (if job.sticky then q.(initial := q.initial[i := rest], sticky := q.sticky[i := q.sticky[i] + [job]])
                  else q.(initial := q.initial[i := rest], local := q.local[i := q.local[i] + [job]]))
    case Ready => q' == q && w' == w.(pc := FirstWait(false))
    case _ => false
  }

  /** `suspend`, and the wait of the thread body before its first round. A wait may end by itself;
      only the one in `suspend` has a timeout. */
  ghost predicate SleepStep(w: Worker, f: bool, w': Worker, f': bool) {
    match w.pc
    case FirstWait(_) => if f then w' == w.(pc := Begin(0)) && !f' else w' == w.(pc := FirstWait(false)) && !f'
    case Suspending => if f then w' == w.(pc := Begin(0)) && !f' else w' == w.(pc := Asleep(false)) && !f'
    case Asleep(_) => (w' == w.(pc := Begin(0)) && !f') || (!f && w' == w.(pc := Asleep(false)) && !f')
    case _ => false
  }

  /** `try_process` on the local queue of worker `k` by a worker that goes to `empty` if it fails. */
  ghost predicate TryLocal(c: Config, k: nat, q: Queues, w: Worker, q': Queues, w': Worker, last: nat, empty: WPc)
    requires Shaped(c, q) && k < c.n
  {
    if q.local[k] == [] then q' == q && w' == w.(pc := empty)
    else q' == q.(local := q.local[k := q.local[k][1..]]) && w' == w.(pc := Running(q.local[k][0]), last := last)
  }

  ghost predicate TrySticky(c: Config, i: nat, q: Queues, w: Worker, q': Queues, w': Worker, empty: WPc)
    requires Shaped(c, q) && i < c.n
  {
    if q.sticky[i] == [] then q' == q && w' == w.(pc := empty)
    else q' == q.(sticky := q.sticky[i := q.sticky[i][1..]]) && w' == w.(pc := Running(q.sticky[i][0]))
  }

  /** `try_local_and_sticky` and `steal_and_execute`. */
  ghost predicate TryStep(c: Config, i: nat, q: Queues, w: Worker, q': Queues, w': Worker)
    requires Shaped(c, q) && i < c.n
  {
    match w.pc
    case First(localFirst, tries) =>
      if localFirst then TryLocal(c, i, q, w, q', w', w.last, Second(true, tries))
      else TrySticky(c, i, q, w, q', w', Second(false, tries))
    case Second(localFirst, tries) =>
      if localFirst then TrySticky(c, i, q, w, q', w', Missed(tries))
      else TryLocal(c, i, q, w, q', w', w.last, Missed(tries))
    case Steal(idx, end) =>
      && idx < c.n
      && TryLocal(c, idx, q, w, q', w', idx, if Next(c, idx) == end then RoundFailed else Steal(Next(c, idx), end))
    case _ => false
  }

  /** The rest of `process_next` and of the worker's loop. */
  ghost predicate RoundStep(c: Config, w: Worker, w': Worker) {
    match w.pc
    case Begin(tries) =>
      var (current, notified) := Notifier.Up(c.notifications, c.period, w.current);
      w' == w.(pc := First(notified, tries), current := current)
    case Missed(tries) =>
      if !c.stealing then w' == w.(pc := RoundFailed)
      else if tries < c.retries then w' == w.(pc := Begin(tries + 1))
      else w' == w.(pc := Steal(Next(c, w.last), Next(c, w.last)))
    case RoundFailed =>
      if w.misses + 1 > c.tryCount then w' == w.(pc := Suspending, misses := 0)
      else w' == w.(pc := Begin(0), misses := w.misses + 1)
    case _ => false
  }

  /** The end of a task. */
  ghost predicate FinishStep(i: nat, w: Worker, log: Log, w': Worker, log': Log) {
    && w.pc.Running?
    && log' == log.(executed := log.executed + [Done(w.pc.job, i)])
    && w' == w.(pc := Begin(0), misses := 0)
  }

  ghost predicate Sized(c: Config, s: State) {
    Shaped(c, s.q) && |s.ws| == |s.flags| == c.n
  }

  ghost predicate BootMove(c: Config, s: State, s': State, i: nat)
    requires Sized(c, s) && i < c.n
  {
    && |s'.ws| == c.n && s' == s.(q := s'.q, ws := s.ws[i := s'.ws[i]])
    && BootStep(c, i, s.q, s.ws[i], s'.q, s'.ws[i])
  }

  ghost predicate TryMove(c: Config, s: State, s': State, i: nat)
    requires Sized(c, s) && i < c.n
  {
    && |s'.ws| == c.n && s' == s.(q := s'.q, ws := s.ws[i := s'.ws[i]])
    && TryStep(c, i, s.q, s.ws[i], s'.q, s'.ws[i])
  }

  ghost predicate RoundMove(c: Config, s: State, s': State, i: nat)
    requires Sized(c, s) && i < c.n
  {
    && |s'.ws| == c.n && s' == s.(ws := s.ws[i := s'.ws[i]])
    && RoundStep(c, s.ws[i], s'.ws[i])
  }

  ghost predicate SleepMove(c: Config, s: State, s': State, i: nat)
    requires Sized(c, s) && i < c.n
  {
    && |s'.ws| == c.n && |s'.flags| == c.n && s' == s.(ws := s.ws[i := s'.ws[i]], flags := s.flags[i := s'.flags[i]])
    && SleepStep(s.ws[i], s.flags[i], s'.ws[i], s'.flags[i])
  }

  ghost predicate FinishMove(c: Config, s: State, s': State, i: nat)
    requires Sized(c, s) && i < c.n
  {
    && |s'.ws| == c.n && s' == s.(ws := s.ws[i := s'.ws[i]], log := s'.log)
    && FinishStep(i, s.ws[i], s.log, s'.ws[i], s'.log)
  }

  // ----- Scheduling and starting -----

  function Push(qs: seq<seq<Job>>, i: nat, job: Job): seq<seq<Job>>
    requires i < |qs|
  {
    qs[i := qs[i] + [job]]
  }

  /** `notify_all` on worker `i`. */
  function Notified(w: Worker): Worker {
    match w.pc
    case Asleep(_) => w.(pc := Asleep(true))
    case FirstWait(_) => w.(pc := FirstWait(true))
    case _ => w
  }

  function Pc(producers: map<nat, PPc>, p: nat): PPc {
    if p in producers then producers[p] else Idle
  }

  /** A call of `schedule_at` begins by reading `started_`. */
  ghost predicate CallMove(c: Config, s: State, s': State, p: nat, job: Job) {
    && Pc(s.producers, p) == Idle && job.target < c.n
    && s' == s.(producers := s.producers[p := Read(job, s.started)])
  }

  /** Before the start the task goes to the initial tasks; afterwards to a queue of the worker. */
  ghost predicate PushMove(c: Config, s: State, s': State, p: nat)
    requires Sized(c, s)
  {
    && Pc(s.producers, p).Read?
    && var Read(job, started) := Pc(s.producers, p);
    && job.target < c.n
    && s'.log == s.log.(scheduled := s.log.scheduled + multiset{job})
    && s' == s.(q := s'.q, producers := s'.producers, log := s'.log)
    && if !started then
         s'.q == s.q.(initial := Push(s.q.initial, job.target, job)) && s'.producers == s.producers[p := Idle]
       else
         && s'.producers == s.producers[p := Pushed(job.target)]
         && s'.q == (if job.sticky then s.q.(sticky := Push(s.q.sticky, job.target, job))
                     else s.q.(local := Push(s.q.local, job.target, job)))
  }

  /** The two halves of `activate`. */
  ghost predicate FlagMove(c: Config, s: State, s': State, p: nat)
    requires Sized(c, s)
  {
    && Pc(s.producers, p).Pushed?
    && var i := Pc(s.producers, p).i;
    && i < c.n
    && s' == s.(flags := s.flags[i := true], producers := s.producers[p := Flagged(i)])
  }

  ghost predicate NotifyMove(c: Config, s: State, s': State, p: nat)
    requires Sized(c, s)
  {
    && Pc(s.producers, p).Flagged?
    && var i := Pc(s.producers, p).i;
    && i < c.n
    && s' == s.(ws := s.ws[i := Notified(s.ws[i])], producers := s.producers[p := Idle])
  }

  /** The thread has set `initialized_`. */
  predicate Initialized(pc: WPc) {
    !pc.Boot? && !pc.BootSticky? && !pc.Drain? && !pc.Ready?
  }

  /** `start()`: wait for every thread, activate every thread, then say so. */
  ghost predicate StartMove(c: Config, s: State, s': State)
    requires Sized(c, s)
  {
    match s.starter
    case WaitInit(k) =>
      if k < c.n then Initialized(s.ws[k].pc) && s' == s.(starter := WaitInit(k + 1))
      else s' == s.(starter := Flag(0))
    case Flag(k) =>
      if k < c.n then s' == s.(flags := s.flags[k := true], starter := Notify(k))
      else s' == s.(started := true, starter := Started)
    case Notify(k) => k < c.n && s' == s.(ws := s.ws[k := Notified(s.ws[k])], starter := Flag(k + 1))
    case Started => false
  }

  // ----- Runs -----

  ghost predicate WorkerMoves(c: Config, s: State, s': State, i: nat)
    requires Sized(c, s)
  {
    && i < c.n
    && (BootMove(c, s, s', i) || TryMove(c, s, s', i) || RoundMove(c, s, s', i) || SleepMove(c, s, s', i) || FinishMove(c, s, s', i))
  }

  ghost predicate ProducerMoves(c: Config, s: State, s': State, p: nat)
    requires Sized(c, s)
  {
    (exists job :: CallMove(c, s, s', p, job)) || PushMove(c, s, s', p) || FlagMove(c, s, s', p) || NotifyMove(c, s, s', p)
  }

  ghost predicate Step(c: Config, s: State, s': State) {
    && Sized(c, s)
    && ((exists i :: WorkerMoves(c, s, s', i)) || (exists p :: ProducerMoves(c, s, s', p)) || StartMove(c, s, s'))
  }

  ghost predicate StepAt(c: Config, t: seq<State>, k: nat)
    requires k + 1 < |t|
  {
    Step(c, t[k], t[k + 1])
  }

  /** Every interleaving of the threads. */
  ghost predicate Run(c: Config, t: seq<State>) {
    && ValidConfig(c) && |t| > 0 && Init(c, t[0])
    && forall k: nat :: k + 1 < |t| ==> StepAt(c, t, k)
  }
}
