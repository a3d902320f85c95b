/** The shared-memory byte wire (`simple_wire` with its request and response
    specialisations) as a step machine: one writer, one reader and any number of
    threads that close, terminate or notify.  Every load, store, byte copy, lock,
    sleep and notification is a step of its own. */
module Wire {
  import opened Ring

  // ----- Messages and the stream they form -----

  datatype Kind = Request | Response

  /** Ring capacity, header size `T::size` and which wire this is. */
  datatype Config = Config(cap: nat, hs: nat, kind: Kind)

  ghost predicate ValidConfig(c: Config) {
    4 <= c.hs <= c.cap
  }

  datatype Msg = Msg(header: seq<byte>, payload: seq<byte>)

  /** In every header type the payload length is the last field, four bytes little-endian. */
  function Length(h: seq<byte>): nat
    requires |h| >= 4
  {
    var n := |h| - 4;
    h[n] as int + 0x100 * (h[n + 1] as int) + 0x1_0000 * (h[n + 2] as int) + 0x100_0000 * (h[n + 3] as int)
  }

  /** The four length bytes; for a record of a result set they are the whole header. */
  function LengthHeader(n: nat): (h: seq<byte>)
    ensures |h| == 4
  {
    [n % 256, n / 256 % 256, n / 65536 % 256, n / 16777216 % 256]
  }

  lemma LengthHeaderRead(n: nat)
    requires n < 0x1_0000_0000
    ensures Length(LengthHeader(n)) == n
  {
    var a := n / 256;
    var b := a / 256;
    assert n / 65536 == b && n / 16777216 == b / 256;
  }

  ghost predicate ValidMsg(c: Config, m: Msg) {
    |m.header| == c.hs >= 4 && Length(m.header) == |m.payload|
  }

  function Bytes(m: Msg): seq<byte> {
    m.header + m.payload
  }

  function Stream(ms: seq<Msg>): seq<byte> {
    if ms == [] then [] else Stream(ms[..|ms| - 1]) + Bytes(ms[|ms| - 1])
  }

  // ----- State -----

  datatype Flag = Closed | Terminated | Notified

  /** The flags the reader watches, in the order it loads them. */
  function Watched(k: Kind): seq<Flag> {
    if k == Request then [Terminated, Notified] else [Closed, Terminated]
  }

  /** The flags that make the reader report the end of the session. */
  function EndFlags(k: Kind): set<Flag> {
    if k == Request then {Terminated} else {Closed, Terminated}
  }

  datatype Cond = Full | Empty

  datatype Signal = Close | Terminate | Notify | ForceClose

  function Raises(g: Signal): Flag {
    match g
    case Close => Closed
    case ForceClose => Closed
    case Terminate => Terminated
    case Notify => Notified
  }

  ghost predicate Offered(k: Kind, g: Signal) {
    match g
    case Close => true
    case Terminate => true
    case Notify => k == Request
    case ForceClose => k == Response
  }

  /** The condition variables a signal notifies after raising its flag. */
  function Targets(k: Kind, g: Signal): seq<Cond> {
    match g
    case Close => if k == Request then [Full] else [Full, Empty]
    case ForceClose => [Full]
    case Terminate => [Empty]
    case Notify => [Empty]
  }

  datatype WPc =
    | WIdle
    | WTestRoom
    | WTestClosed
    | WLock
    | WRaise
    | WPredRoom
    | WPredClosed
    | WSleep
    | WAsleep
    | WRelock
    | WLower
    | WUnlock
    | WGate
    | WCopy(done: set<nat>)
    | WPush
    | WTestWait
    | WNotifyLock
    | WNotify
    | WNotifyUnlock

  /** The write in progress: its message and how much of it is pushed. */
  datatype Writer = Writer(pc: WPc, msg: Msg, off: nat)

  datatype RPc =
    | RIdle
    | RLoad(k: nat, seen: set<Flag>)
    | RTestStored(seen: set<Flag>)
    | REnd(seen: set<Flag>)
    | RLock
    | RRaise
    | RPredStored(late: bool)
    | RPredFlag(k: nat, late: bool)
    | RSleep
    | RAsleep
    | RRelock(late: bool)
    | RLower(late: bool)
    | RUnlock(late: bool)
    | RHeader(hdone: map<nat, byte>)
    | RCopy(done: map<nat, byte>)
    | RPop
    | RTestWait
    | RNotifyLock
    | RNotify
    | RNotifyUnlock

  /** The message being read: its header (empty until copied), the payload so far
      and how many of its bytes are popped. */
  datatype Reader = Reader(pc: RPc, hdr: seq<byte>, got: seq<byte>, off: nat)

  datatype SPc = STest | SLock | SNotify | SUnlock

  /** A thread that has raised its flag and still has to notify `todo`. */
  datatype Signaller = Signaller(todo: seq<Cond>, pc: SPc)

  datatype Owner = Free | ByWriter | ByReader | BySignaller(id: nat)

  /** The shared memory. */
  datatype Shared = Shared(
    buf: seq<byte>, pushed: nat, poped: nat,
    waitWrite: bool, waitRead: bool, mutex: Owner, flags: set<Flag>)

  /** History: the messages whose write passed the closed test, how much of the last
      one is published, whether it was abandoned, whether `close` was called, the
      messages read, and for each flag how many messages were published when it went up. */
  datatype Log = Log(
    msgs: seq<Msg>, part: nat, dead: bool, called: bool, recv: seq<Msg>, pubAt: map<Flag, nat>)

  datatype State = State(m: Shared, w: Writer, r: Reader, sigs: map<nat, Signaller>, log: Log)

  function Stored(m: Shared): int {
    m.pushed - m.poped
  }

  function Room(c: Config, m: Shared): int {
    c.cap - Stored(m)
  }

  /** The size of the writer's next chunk. */
  function Need(c: Config, w: Writer): int {
    Min(|Bytes(w.msg)| - w.off, c.cap)
  }

  /** Bytes in front of the payload in the reader's current chunk. */
  function Skip(c: Config, r: Reader): nat {
    if r.off == 0 then c.hs else 0
  }

  function Total(c: Config, r: Reader): int {
    if |r.hdr| >= 4 then c.hs + Length(r.hdr) else c.hs
  }

  /** Payload bytes in the reader's next chunk. */
  function Chunk(c: Config, r: Reader): int {
    if r.off == 0 then Min(Total(c, r) - c.hs, c.cap - c.hs) else Min(Total(c, r) - r.off, c.cap)
  }

  /** What the reader waits for: a header, or the whole next chunk. */
  function Want(c: Config, r: Reader): int {
    if r.hdr == [] then c.hs else Chunk(c, r)
  }

  /** How many messages have had their first chunk published. */
  function Published(l: Log): nat {
    if l.msgs != [] && l.part == 0 then |l.msgs| - 1 else |l.msgs|
  }

  // ----- Steps -----

  ghost predicate Init(c: Config, s: State) {
    && |s.m.buf| == c.cap
    && s.m == Shared(s.m.buf, 0, 0, false, false, Free, {})
    && s.w.pc == WIdle && s.r == Reader(RIdle, [], [], 0) && s.sigs == map[]
    && s.log == Log([], 0, false, false, [], map[])
  }

  function WGoto(s: State, pc: WPc): State {
    s.(w := s.w.(pc := pc))
  }

  function RGoto(s: State, pc: RPc): State {
    s.(r := s.r.(pc := pc))
  }

  function Mutex(s: State, o: Owner): State {
    s.(m := s.m.(mutex := o))
  }

  /** `notify_one`: the one thread that may sleep on `cond` wakes if it does. */
  function Wake(s: State, cond: Cond): State {
    match cond
    case Full => if s.w.pc == WAsleep then WGoto(s, WRelock) else s
    case Empty => if s.r.pc == RAsleep then RGoto(s, RRelock(false)) else s
  }

  /** After a chunk: the next chunk, or back to the caller. */
  function WNext(s: State): State {
    WGoto(s, if s.w.off < |Bytes(s.w.msg)| then WTestRoom else WIdle)
  }

  function RNext(c: Config, s: State): State {
    if s.r.off < Total(c, s.r) then RGoto(s, RLock)
    else s.(r := Reader(RIdle, [], [], 0), log := s.log.(recv := s.log.recv + [Msg(s.r.hdr, s.r.got)]))
  }

  /** `wait_to_write`. */
  ghost predicate WriterWaits(c: Config, s: State, s': State) {
    match s.w.pc
    case WLock =>
      s.m.mutex == Free && s' == Mutex(WGoto(s, WRaise), ByWriter)
    case WRaise =>
      s' == WGoto(s, WPredRoom).(m := s.m.(waitWrite := true))
    case WPredRoom =>
      s' == WGoto(s, if Room(c, s.m) >= Need(c, s.w) then WLower else WPredClosed)
    case WPredClosed =>
      s' == WGoto(s, if Closed in s.m.flags then WLower else WSleep)
    case WSleep =>
      s' == Mutex(WGoto(s, WAsleep), Free)
    case WAsleep => // spurious wakeup
      s' == WGoto(s, WRelock)
    case WRelock =>
      s.m.mutex == Free && s' == Mutex(WGoto(s, WPredRoom), ByWriter)
    case WLower =>
      s' == WGoto(s, WUnlock).(m := s.m.(waitWrite := false))
    case WUnlock =>
      s' == Mutex(WGoto(s, WGate), Free)
    case _ => false
  }

  /** The tests in front of a chunk in `write`. */
  ghost predicate WriterTests(c: Config, s: State, s': State) {
    match s.w.pc
    case WIdle =>
      exists m :: ValidMsg(c, m) && s' == s.(w := Writer(WTestRoom, m, 0))
    case WTestRoom =>
      s' == WGoto(s, if Need(c, s.w) > Room(c, s.m) then WTestClosed else WGate)
    case WTestClosed =>
      s' == WGoto(s, if Closed in s.m.flags then WGate else WLock)
    case WGate =>
      if Closed in s.m.flags then
        s' == WGoto(s, WIdle).(log := s.log.(dead := s.log.dead || s.w.off > 0))
      else if s.w.off == 0 then
        s' == WGoto(s, WCopy({})).(log := s.log.(msgs := s.log.msgs + [s.w.msg], part := 0))
      else
        s' == WGoto(s, WCopy({}))
    case _ => false
  }

  /** `write_in_buffer`, byte by byte in any order. */
  ghost predicate WriterCopies(c: Config, s: State, s': State)
    requires |s.m.buf| > 0
  {
    && s.w.pc.WCopy?
    && var done := s.w.pc.done;
       if forall k: nat :: k < Need(c, s.w) ==> k in done then
         s' == WGoto(s, WPush)
       else
         exists k: nat :: k < Need(c, s.w) && k !in done && s.w.off + k < |Bytes(s.w.msg)|
           && s' == WGoto(s, WCopy(done + {k})).(m := s.m.(buf := Put(s.m.buf, s.m.pushed + k, Bytes(s.w.msg)[s.w.off + k])))
  }

  /** Advancing `pushed_` and notifying the reader. */
  ghost predicate WriterPublishes(c: Config, s: State, s': State) {
    match s.w.pc
    case WPush =>
      Need(c, s.w) >= 0 && var n: nat := Need(c, s.w);
      s' == s.(m := s.m.(pushed := s.m.pushed + n), w := Writer(WTestWait, s.w.msg, s.w.off + n),
               log := s.log.(part := s.log.part + n))
    case WTestWait =>
      s' == if s.m.waitRead then WGoto(s, WNotifyLock) else WNext(s)
    case WNotifyLock =>
      s.m.mutex == Free && s' == Mutex(WGoto(s, WNotify), ByWriter)
    case WNotify =>
      s' == WGoto(Wake(s, Empty), WNotifyUnlock)
    case WNotifyUnlock =>
      s' == Mutex(WNext(s), Free)
    case _ => false
  }

  /** `peep` and `await` outside their wait: flags first, then the stored bytes. */
  ghost predicate ReaderLooks(c: Config, s: State, s': State) {
    match s.r.pc
    case RIdle =>
      s' == RGoto(s, RLoad(0, {}))
    case RLoad(k, seen) =>
      if k < |Watched(c.kind)| then
        s' == RGoto(s, RLoad(k + 1, if Watched(c.kind)[k] in s.m.flags then seen + {Watched(c.kind)[k]} else seen))
      else
        s' == RGoto(s, RTestStored(seen))
    case RTestStored(seen) =>
      s' == RGoto(s,
                  if Stored(s.m) >= c.hs then RHeader(map[])
                  else if seen * EndFlags(c.kind) != {} then REnd(seen)
                  else if Notified in seen then RIdle
                  else RLock)
    case REnd(seen) =>
      s' == RGoto(s, RIdle).(m := s.m.(flags := if c.kind == Request then s.m.flags - {Terminated} else s.m.flags))
    case _ => false
  }

  /** The waits in `peep`, `await` and the chunk loop of `read`. */
  ghost predicate ReaderWaits(c: Config, s: State, s': State) {
    match s.r.pc
    case RLock =>
      s.m.mutex == Free && s' == Mutex(RGoto(s, RRaise), ByReader)
    case RRaise =>
      s' == RGoto(s, RPredStored(false)).(m := s.m.(waitRead := true))
    case RPredStored(late) =>
      s' == RGoto(s,
                  if Stored(s.m) >= Want(c, s.r) then RLower(false)
                  else if s.r.hdr == [] then RPredFlag(0, late)
                  else RSleep)
    case RPredFlag(k, late) =>
      s' == RGoto(s,
                  if k >= |Watched(c.kind)| then (if late then RLower(true) else RSleep)
                  else if Watched(c.kind)[k] in s.m.flags then RLower(false)
                  else RPredFlag(k + 1, late))
    case RSleep =>
      s' == Mutex(RGoto(s, RAsleep), Free)
    case RAsleep => // spurious wakeup; only the wait for a header has a time limit
      || s' == RGoto(s, RRelock(false))
      || (s.r.hdr == [] && s' == RGoto(s, RRelock(true)))
    case RRelock(late) =>
      s.m.mutex == Free && s' == Mutex(RGoto(s, RPredStored(late)), ByReader)
    case RLower(late) =>
      s' == RGoto(s, RUnlock(late)).(m := s.m.(waitRead := false))
    case RUnlock(late) =>
      s' == Mutex(RGoto(s, if late then RIdle else if s.r.hdr == [] then RLoad(0, {}) else RCopy(map[])), Free)
    case _ => false
  }

  /** The bytes collected for positions `0..n`. */
  function Collect(done: map<nat, byte>, n: nat): (bs: seq<byte>)
    ensures |bs| == n
    ensures forall k: nat :: k < n && k in done ==> bs[k] == done[k]
  {
    seq(n, k requires 0 <= k < n => if k in done then done[k] else 0)
  }

  /** `copy_header` and `read_from_buffer`, byte by byte in any order. */
  ghost predicate ReaderCopies(c: Config, s: State, s': State)
    requires |s.m.buf| > 0
  {
    match s.r.pc
    case RHeader(done) =>
      if forall k: nat :: k < c.hs ==> k in done then
        s' == s.(r := s.r.(pc := RCopy(map[]), hdr := Collect(done, c.hs)))
      else
        exists k: nat :: k < c.hs && k !in done
          && s' == RGoto(s, RHeader(done[k := At(s.m.buf, s.m.poped + k)]))
    case RCopy(done) =>
      Chunk(c, s.r) >= 0 && var n: nat := Chunk(c, s.r);
      if forall k: nat :: k < n ==> k in done then
        s' == s.(r := s.r.(pc := RPop, got := s.r.got + Collect(done, n)))
      else
        exists k: nat :: k < n && k !in done
          && s' == RGoto(s, RCopy(done[k := At(s.m.buf, s.m.poped + Skip(c, s.r) + k)]))
    case _ => false
  }

  /** Advancing `poped_` (in `read` or `dispose`) and notifying the writer. */
  ghost predicate ReaderReleases(c: Config, s: State, s': State) {
    match s.r.pc
    case RPop =>
      Chunk(c, s.r) >= 0 && var n: nat := Skip(c, s.r) + Chunk(c, s.r);
      s' == s.(m := s.m.(poped := s.m.poped + n), r := s.r.(pc := RTestWait, off := s.r.off + n))
    case RTestWait =>
      s' == if s.m.waitWrite then RGoto(s, RNotifyLock) else RNext(c, s)
    case RNotifyLock =>
      s.m.mutex == Free && s' == Mutex(RGoto(s, RNotify), ByReader)
    case RNotify =>
      s' == RGoto(Wake(s, Full), RNotifyUnlock)
    case RNotifyUnlock =>
      s' == Mutex(RNext(c, s), Free)
    case _ => false
  }

  /** A new thread raises the flag of signal `g`. */
  ghost predicate RaiseStep(c: Config, s: State, s': State, id: nat, g: Signal) {
    && id !in s.sigs
    && Offered(c.kind, g)
    && s' == s.(m := s.m.(flags := s.m.flags + {Raises(g)}),
                sigs := s.sigs[id := Signaller(Targets(c.kind, g), STest)],
                log := s.log.(called := s.log.called || g == Close,
                              pubAt := if Raises(g) in s.m.flags then s.log.pubAt
                                       else s.log.pubAt[Raises(g) := Published(s.log)]))
  }

  function SGoto(s: State, id: nat, pc: SPc): State
    requires id in s.sigs
  {
    s.(sigs := s.sigs[id := s.sigs[id].(pc := pc)])
  }

  /** The signaller is done with its first target. */
  function SNext(s: State, id: nat): State
    requires id in s.sigs && s.sigs[id].todo != []
  {
    if |s.sigs[id].todo| == 1 then s.(sigs := s.sigs - {id})
    else s.(sigs := s.sigs[id := Signaller(s.sigs[id].todo[1..], STest)])
  }

  ghost predicate SignalStep(c: Config, s: State, s': State, id: nat) {
    && id in s.sigs && s.sigs[id].todo != []
    && var cond := s.sigs[id].todo[0];
       match s.sigs[id].pc
       case STest =>
         s' == if (if cond == Full then s.m.waitWrite else s.m.waitRead) then SGoto(s, id, SLock) else SNext(s, id)
       case SLock =>
         s.m.mutex == Free && s' == Mutex(SGoto(s, id, SNotify), BySignaller(id))
       case SNotify =>
         s' == SGoto(Wake(s, cond), id, SUnlock)
       case SUnlock =>
         s' == Mutex(SNext(s, id), Free)
  }

  ghost predicate WriterStep(c: Config, s: State, s': State)
    requires |s.m.buf| > 0
  {
    WriterTests(c, s, s') || WriterWaits(c, s, s') || WriterCopies(c, s, s') || WriterPublishes(c, s, s')
  }

  ghost predicate ReaderStep(c: Config, s: State, s': State)
    requires |s.m.buf| > 0
  {
    ReaderLooks(c, s, s') || ReaderWaits(c, s, s') || ReaderCopies(c, s, s') || ReaderReleases(c, s, s')
  }

  ghost predicate Step(c: Config, s: State, s': State) {
    && |s.m.buf| > 0
    && (|| WriterStep(c, s, s')
        || ReaderStep(c, s, s')
        || (exists id, g :: RaiseStep(c, s, s', id, g))
        || (exists id :: SignalStep(c, s, s', id)))
  }

  ghost predicate StepAt(c: Config, t: seq<State>, i: nat) {
    i + 1 < |t| && Step(c, t[i], t[i + 1])
  }

  /** A finite run from an initial state. */
  ghost predicate Run(c: Config, t: seq<State>) {
    |t| > 0 && Init(c, t[0]) && forall i: nat :: i + 1 < |t| ==> StepAt(c, t, i)
  }
}
