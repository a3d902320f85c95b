/** The result-set wire: records written piece by piece, published by `flush`, and shown to the
    client in place as one or two pieces. One writer (server) and one client; every load, store,
    byte copy, lock, sleep and notification is a step. */
module RecordRing {
  import opened Ring
  import opened Wire
  import opened WireData

  /** Capacity of a ring whose record lengths fit the 32-bit header. */
  ghost predicate ValidCap(cap: nat) {
    4 <= cap < 0x1_0000_0000
  }

  ghost predicate ValidRecs(recs: seq<Msg>) {
    forall i :: 0 <= i < |recs| ==>
      |recs[i].header| == 4 && Length(recs[i].header) == |recs[i].payload| > 0
  }

  // ----- State -----

  datatype XPc =
    | XIdle
    | XTest
    | XLock
    | XRaise
    | XPredRoom
    | XPredClosed
    | XSleep
    | XAsleep
    | XRelock
    | XLower
    | XUnlock
    | XReserve
    | XCopy(done: set<nat>)
    | XPush
    | XHeader(done: set<nat>)
    | XPublish

  /** The server: the bytes being written, and whether a record is open. */
  datatype Server = Server(pc: XPc, data: seq<byte>, continued: bool)

  /** What `get_chunk` returns: two buffer offsets with their lengths. */
  datatype Pieces = Pieces(a1: int, n1: int, a2: int, n2: int)

  datatype YPc =
    | YIdle
    | YHeader(hdone: map<nat, byte>)
    | YSplit
    | YRead(p: Pieces, done: map<nat, byte>)
    | YPop
    | YTestWait
    | YNotifyLock
    | YNotify
    | YNotifyUnlock

  datatype Client = Client(pc: YPc, hdr: seq<byte>, got: seq<byte>)

  datatype Holder = NoOne | TheServer | TheClient

  /** `recs`, `cur` and `read` are history: the flushed records, the bytes written to the open
      record, and the records the client disposed of. */
  datatype RingState = RingState(
    buf: seq<byte>, pushed: nat, valid: nat, poped: nat, closed: bool, waitWrite: bool, mutex: Holder,
    x: Server, y: Client,
    recs: seq<Msg>, cur: seq<byte>, read: seq<Msg>)

  function RoomLeft(cap: nat, s: RingState): int {
    cap - (s.pushed - s.poped)
  }

  /** What the server needs next: a header slot, or room for its bytes. */
  function Wants(x: Server): nat {
    if x.continued then |x.data| else 4
  }

  /** A wire just acquired: for the first time, or again after all its records were disposed of. Its
      positions then go on where they were, and its buffer may be any. */
  ghost predicate RingInit(cap: nat, s: RingState) {
    && |s.buf| == cap
    && ValidRecs(s.recs) && s.read == s.recs && s.cur == []
    && s.pushed == s.valid == s.poped == |Stream(s.recs)| && !s.closed && !s.waitWrite && s.mutex == NoOne
    && s.x == Server(XIdle, [], false) && s.y == Client(YIdle, [], [])
  }

  function XGoto(s: RingState, pc: XPc): RingState {
    s.(x := s.x.(pc := pc))
  }

  function YGoto(s: RingState, pc: YPc): RingState {
    s.(y := s.y.(pc := pc))
  }

  /** With room seen, or released because the client has closed, the server goes ahead. */
  function Ahead(s: RingState): RingState {
    XGoto(s, if s.x.continued then XCopy({}) else XReserve)
  }

  /** `wait_to_resultset_write`. */
  ghost predicate ServerWaits(cap: nat, s: RingState, s': RingState) {
    match s.x.pc
    case XLock =>
      s.mutex == NoOne && s' == XGoto(s, XRaise).(mutex := TheServer)
    case XRaise =>
      s' == XGoto(s, XPredRoom).(waitWrite := true)
    case XPredRoom =>
      s' == XGoto(s, if RoomLeft(cap, s) >= Wants(s.x) then XLower else XPredClosed)
    case XPredClosed =>
      s' == XGoto(s, if s.closed then XLower else XSleep)
    case XSleep =>
      s' == XGoto(s, XAsleep).(mutex := NoOne)
    case XAsleep => // spurious wakeup
      s' == XGoto(s, XRelock)
    case XRelock =>
      s.mutex == NoOne && s' == XGoto(s, XPredRoom).(mutex := TheServer)
    case XLower =>
      s' == XGoto(s, XUnlock).(waitWrite := false)
    case XUnlock =>
      s' == Ahead(s).(mutex := NoOne)
    case _ => false
  }

  /** The start of `write` or `flush`, and `brand_new`. */
  ghost predicate ServerOpens(cap: nat, s: RingState, s': RingState) {
    match s.x.pc
    case XIdle =>
      || (s.closed && s' == s)
      || (exists data: seq<byte> :: data != [] && !s.closed && s' == s.(x := s.x.(pc := XTest, data := data)))
      || (s.x.continued && s' == XGoto(s, XHeader({})))
    case XTest =>
      s' == if Wants(s.x) > RoomLeft(cap, s) then XGoto(s, XLock) else Ahead(s)
    case XReserve =>
      s' == s.(pushed := s.pushed + 4, x := s.x.(pc := XTest, continued := true))
    case _ => false
  }

  /** The copy in `write`. */
  ghost predicate ServerCopies(s: RingState, s': RingState)
    requires |s.buf| > 0
  {
    match s.x.pc
    case XCopy(done) =>
      if forall k: nat :: k < |s.x.data| ==> k in done then
        s' == XGoto(s, XPush)
      else
        exists k: nat :: k < |s.x.data| && k !in done
          && s' == XGoto(s, XCopy(done + {k})).(buf := Put(s.buf, s.pushed + k, s.x.data[k]))
    case XPush =>
      s' == XGoto(s, XIdle).(pushed := s.pushed + |s.x.data|, cur := s.cur + s.x.data)
    case _ => false
  }

  /** `flush`: the header into its reserved slot, then `pushed_valid_`. */
  ghost predicate ServerFlushes(s: RingState, s': RingState)
    requires |s.buf| > 0
  {
    match s.x.pc
    case XHeader(done) =>
      s.pushed >= s.valid + 4 && var h := LengthHeader(s.pushed - (s.valid + 4));
      if forall k: nat :: k < 4 ==> k in done then
        s' == XGoto(s, XPublish)
      else
        exists k: nat :: k < 4 && k !in done
          && s' == XGoto(s, XHeader(done + {k})).(buf := Put(s.buf, s.valid + k, h[k]))
    case XPublish =>
      s.pushed >= s.valid + 4 &&
      s' == s.(valid := s.pushed, x := s.x.(pc := XIdle, continued := false),
               recs := s.recs + [Msg(LengthHeader(s.pushed - (s.valid + 4)), s.cur)], cur := [])
    case _ => false
  }

  /** `get_chunk`: one piece if the record ends on the page it starts on, else split at the page
      of the last published byte. */
  function Split(cap: nat, poped: nat, len: int, valid: nat): Pieces
    requires cap > 0
  {
    var s := poped + 4;
    if s / cap == (s + len - 1) / cap then
      Pieces(s % cap, len, 0, 0)
    else
      var first := valid / cap * cap - s;
      Pieces(s % cap, first, (s + first) % cap, len - first)
  }

  function Address(p: Pieces, k: int): int {
    if k < p.n1 then p.a1 + k else p.a2 + (k - p.n1)
  }

  /** `has_record` and `copy_header`; or `set_closed`. */
  ghost predicate ClientLooks(s: RingState, s': RingState)
    requires |s.buf| > 0
  {
    match s.y.pc
    case YIdle =>
      || (s.valid > s.poped && !s.closed && s' == YGoto(s, YHeader(map[])))
      || s' == YGoto(s, YTestWait).(closed := true)
    case YHeader(done) =>
      if forall k: nat :: k < 4 ==> k in done then
        s' == s.(y := Client(YSplit, Collect(done, 4), []))
      else
        exists k: nat :: k < 4 && k !in done
          && s' == YGoto(s, YHeader(done[k := At(s.buf, s.poped + k)]))
    case _ => false
  }

  /** The pieces, reading through them, and `dispose`. */
  ghost predicate ClientReads(cap: nat, s: RingState, s': RingState)
    requires cap > 0
  {
    match s.y.pc
    case YSplit =>
      |s.y.hdr| == 4 && s' == YGoto(s, YRead(Split(cap, s.poped, Length(s.y.hdr), s.valid), map[]))
    case YRead(p, done) =>
      |s.y.hdr| == 4 && var n := Length(s.y.hdr);
      if forall k: nat :: k < n ==> k in done then
        s' == s.(y := Client(YPop, s.y.hdr, Collect(done, n)))
      else
        exists k: nat :: k < n && k !in done && 0 <= Address(p, k) < |s.buf|
          && s' == YGoto(s, YRead(p, done[k := s.buf[Address(p, k)]]))
    case YPop =>
      |s.y.hdr| == 4 &&
      s' == s.(poped := s.poped + Length(s.y.hdr) + 4, read := s.read + [Msg(s.y.hdr, s.y.got)],
               y := Client(YTestWait, [], []))
    case _ => false
  }

  function WakeServer(s: RingState): RingState {
    if s.x.pc == XAsleep then XGoto(s, XRelock) else s
  }

  /** Notifying the server after `dispose` or `set_closed`. */
  ghost predicate ClientNotifies(s: RingState, s': RingState) {
    match s.y.pc
    case YTestWait =>
      s' == YGoto(s, if s.waitWrite then YNotifyLock else YIdle)
    case YNotifyLock =>
      s.mutex == NoOne && s' == YGoto(s, YNotify).(mutex := TheClient)
    case YNotify =>
      s' == YGoto(WakeServer(s), YNotifyUnlock)
    case YNotifyUnlock =>
      s' == YGoto(s, YIdle).(mutex := NoOne)
    case _ => false
  }

  ghost predicate RingStep(cap: nat, s: RingState, s': RingState) {
    && |s.buf| > 0 && cap > 0
    && (|| ServerWaits(cap, s, s') || ServerOpens(cap, s, s') || ServerCopies(s, s') || ServerFlushes(s, s')
        || ClientLooks(s, s') || ClientReads(cap, s, s') || ClientNotifies(s, s'))
  }

  ghost predicate RingStepAt(cap: nat, t: seq<RingState>, i: nat) {
    i + 1 < |t| && RingStep(cap, t[i], t[i + 1])
  }

  ghost predicate RingRun(cap: nat, t: seq<RingState>) {
    |t| > 0 && RingInit(cap, t[0]) && forall i: nat :: i + 1 < |t| ==> RingStepAt(cap, t, i)
  }

  // ----- Invariant: before the client closes -----

  ghost predicate Counts(recs: seq<Msg>, read: seq<Msg>, cur: seq<byte>, continued: bool, pushed: nat, valid: nat, poped: nat) {
    && ValidRecs(recs) && valid == |Stream(recs)|
    && Place(recs, read, 0, poped)
    && pushed == valid + (if continued then 4 + |cur| else 0)
    && (!continued ==> cur == [])
  }

  ghost predicate ServerInv(cap: nat, x: Server, cur: seq<byte>, pushed: nat, poped: nat) {
    && pushed <= poped + cap
    && (x.pc.XReserve? || x.pc.XCopy? || x.pc.XPush? || x.pc.XLower? || x.pc.XUnlock? ==>
          pushed + Wants(x) <= poped + cap)
    && (x.pc.XReserve? ==> !x.continued)
    && (x.pc.XCopy? || x.pc.XPush? || x.pc.XHeader? || x.pc.XPublish? ==> x.continued)
    && (!x.pc.XIdle? && !x.pc.XHeader? && !x.pc.XPublish? ==> x.data != [])
    && (x.continued && (x.pc.XIdle? || x.pc.XHeader? || x.pc.XPublish?) ==> cur != [])
  }

  /** Positions `at..` hold the bytes of `bs` picked out by `done`. */
  ghost predicate Has(buf: seq<byte>, at: nat, bs: seq<byte>, done: set<nat>) {
    |buf| > 0 && forall k: nat :: k in done && k < |bs| ==> At(buf, at + k) == bs[k]
  }

  ghost predicate HasAll(buf: seq<byte>, at: nat, bs: seq<byte>) {
    |buf| > 0 && forall i: nat :: at <= i < at + |bs| ==> At(buf, i) == bs[i - at]
  }

  ghost predicate RingBufInv(cap: nat, x: Server, recs: seq<Msg>, cur: seq<byte>, buf: seq<byte>, pushed: nat, valid: nat, poped: nat) {
    && |buf| == cap
    && HoldsMsgs(buf, recs, poped, valid)
    && (x.continued ==> HasAll(buf, valid + 4, cur))
    && (x.pc.XCopy? ==> Has(buf, pushed, x.data, x.pc.done))
    && (x.pc.XPush? ==> HasAll(buf, pushed, x.data))
    && (x.pc.XHeader? ==> Has(buf, valid, LengthHeader(|cur|), x.pc.done))
    && (x.pc.XPublish? ==> HasAll(buf, valid, LengthHeader(|cur|)))
  }

  /** The pieces lie in the buffer and give every byte of the record its address. */
  ghost predicate PiecesFit(cap: nat, p: Pieces, poped: nat, n: nat) {
    && cap > 0 && 0 <= p.n1 && 0 <= p.n2 && p.n1 + p.n2 == n
    && 0 <= p.a1 && p.a1 + p.n1 <= cap && 0 <= p.a2 && p.a2 + p.n2 <= cap
    && forall k: nat :: k < n ==> Address(p, k) == (poped + 4 + k) % cap
  }

  ghost predicate ClientInv(cap: nat, y: Client, recs: seq<Msg>, read: seq<Msg>, valid: nat, poped: nat) {
    var i := |read|;
    && (y.pc.YHeader? ==> HeaderBytes(recs, i, y.pc.hdone))
    && (y.pc.YSplit? || y.pc.YRead? || y.pc.YPop? ==> i < |recs| && y.hdr == recs[i].header)
    && (y.pc.YRead? ==> PiecesFit(cap, y.pc.p, poped, |recs[i].payload|) && PayloadBytes(recs, i, 0, y.pc.done))
    && (y.pc.YPop? ==> y.got == recs[i].payload)
  }

  ghost predicate RingInv(cap: nat, s: RingState) {
    && Counts(s.recs, s.read, s.cur, s.x.continued, s.pushed, s.valid, s.poped)
    && ServerInv(cap, s.x, s.cur, s.pushed, s.poped)
    && RingBufInv(cap, s.x, s.recs, s.cur, s.buf, s.pushed, s.valid, s.poped)
    && ClientInv(cap, s.y, s.recs, s.read, s.valid, s.poped)
  }
}
