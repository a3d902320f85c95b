/** What a wire carries: in every reachable state the reader has read exactly a
    prefix of the messages written, and both sides cut messages at the same places. */
module WireData {
  import opened Ring
  import opened Wire

  // ----- Positions in the stream -----

  lemma StreamGrows(ms: seq<Msg>, i: nat, j: nat)
    requires i <= j <= |ms|
    ensures |Stream(ms[..i])| <= |Stream(ms[..j])|
    decreases j
  {
    if i < j {
      assert ms[..j][..j - 1] == ms[..j - 1];
      StreamGrows(ms, i, j - 1);
    }
  }

  /** Byte `k` of message `i` sits `k` bytes after the messages in front of it. */
  lemma {:induction false} StreamAt(ms: seq<Msg>, i: nat, k: nat)
    requires i < |ms| && k < |Bytes(ms[i])|
    ensures |Stream(ms[..i])| + k < |Stream(ms)|
    ensures Stream(ms)[|Stream(ms[..i])| + k] == Bytes(ms[i])[k]
    ensures |Stream(ms[..i + 1])| == |Stream(ms[..i])| + |Bytes(ms[i])|
  {
    assert ms[..i + 1][..i] == ms[..i];
    if i < |ms| - 1 {
      var front := ms[..|ms| - 1];
      assert front[..i] == ms[..i];
      StreamAt(front, i, k);
    }
  }

  /** A place between two chunks of a message of `total` bytes: a multiple of the
      capacity, or its end. */
  ghost predicate Cut(cap: nat, off: nat, total: nat)
    decreases off
  {
    off <= total && (off == 0 || off == total || (0 < cap <= off && Cut(cap, off - cap, total - cap)))
  }

  lemma {:induction false} CutNext(cap: nat, off: nat, total: nat)
    requires cap > 0 && Cut(cap, off, total)
    ensures Cut(cap, off + Min(total - off, cap), total)
    decreases off
  {
    if off == 0 {
      assert total >= cap ==> Cut(cap, 0, total - cap);
    } else if off < total {
      CutNext(cap, off - cap, total - cap);
    }
  }

  /** Between two cuts lies at least one whole chunk. */
  lemma {:induction false} CutGap(cap: nat, a: nat, b: nat, total: nat)
    requires cap > 0 && Cut(cap, a, total) && Cut(cap, b, total) && a < b
    ensures a + Min(total - a, cap) <= b
    decreases a
  {
    if a > 0 && b < total {
      CutGap(cap, a - cap, b - cap, total - cap);
    }
  }

  // ----- Invariant -----

  ghost predicate ValidMsgs(c: Config, ms: seq<Msg>) {
    forall i :: 0 <= i < |ms| ==> ValidMsg(c, ms[i])
  }

  /** The published bytes end at a cut of the last message. */
  ghost predicate Ends(c: Config, ms: seq<Msg>, part: nat, pushed: nat) {
    if ms == [] then pushed == 0 && part == 0 else
      && pushed == |Stream(ms[..|ms| - 1])| + part
      && Cut(c.cap, part, |Bytes(ms[|ms| - 1])|)
  }

  ghost predicate AllOut(ms: seq<Msg>, pushed: nat) {
    pushed == |Stream(ms)|
  }

  ghost predicate LogInv(c: Config, ms: seq<Msg>, part: nat, dead: bool, pushed: nat, flags: set<Flag>) {
    ValidMsgs(c, ms) && Ends(c, ms, part, pushed) && (dead ==> Closed in flags)
  }

  ghost predicate InProgress(w: Writer) {
    !w.pc.WIdle? && (w.off > 0 || w.pc.WCopy? || w.pc.WPush?)
  }

  ghost predicate Notifying(w: Writer) {
    w.pc.WTestWait? || w.pc.WNotifyLock? || w.pc.WNotify? || w.pc.WNotifyUnlock?
  }

  ghost predicate Writing(c: Config, msg: Msg, off: nat) {
    ValidMsg(c, msg) && Cut(c.cap, off, |Bytes(msg)|)
  }

  ghost predicate WriterInv(c: Config, w: Writer, ms: seq<Msg>, part: nat, dead: bool, pushed: nat) {
    && (!w.pc.WIdle? ==> Writing(c, w.msg, w.off))
    && (!w.pc.WIdle? && !Notifying(w) ==> w.off < |Bytes(w.msg)|)
    && (InProgress(w) ==> !dead && ms != [] && w.msg == ms[|ms| - 1] && w.off == part)
    && (!InProgress(w) && !dead ==> AllOut(ms, pushed))
  }

  ghost predicate RoomInv(c: Config, w: Writer, pushed: nat, poped: nat, flags: set<Flag>) {
    && poped <= pushed <= poped + c.cap
    && (w.pc.WLower? || w.pc.WUnlock? || w.pc.WGate? ==> pushed + Need(c, w) <= poped + c.cap || Closed in flags)
    && (w.pc.WCopy? || w.pc.WPush? ==> pushed + Need(c, w) <= poped + c.cap)
  }

  ghost predicate HoldsMsgs(buf: seq<byte>, ms: seq<Msg>, lo: nat, hi: nat) {
    |buf| > 0 && Holds(buf, Stream(ms), lo, hi)
  }

  /** The bytes of `msg` from `off` that were copied lie behind position `at`. */
  ghost predicate Copied(buf: seq<byte>, at: nat, msg: Msg, off: nat, n: int, done: set<nat>) {
    |buf| > 0 && forall k: nat :: k in done && k < n && off + k < |Bytes(msg)| ==> At(buf, at + k) == Bytes(msg)[off + k]
  }

  /** All of the writer's chunk is copied. */
  ghost predicate CopiedAll(buf: seq<byte>, at: nat, msg: Msg, off: nat, n: int) {
    |buf| > 0 && forall i: nat :: at <= i < at + n && off + (i - at) < |Bytes(msg)| ==> At(buf, i) == Bytes(msg)[off + (i - at)]
  }

  /** The ring holds the published bytes not yet popped, then what is copied so far. */
  ghost predicate BufInv(c: Config, w: Writer, ms: seq<Msg>, buf: seq<byte>, pushed: nat, poped: nat) {
    && |buf| == c.cap
    && HoldsMsgs(buf, ms, poped, pushed)
    && (w.pc.WCopy? ==> Copied(buf, pushed, w.msg, w.off, Need(c, w), w.pc.done))
    && (w.pc.WPush? ==> CopiedAll(buf, pushed, w.msg, w.off, Need(c, w)))
  }

  /** The reader has read `recv` and popped `off` bytes of the message after. */
  ghost predicate Place(ms: seq<Msg>, recv: seq<Msg>, off: nat, poped: nat) {
    recv <= ms && poped == |Stream(recv)| + off
  }

  /** Payload bytes the reader has taken over. */
  ghost function Taken(c: Config, r: Reader): int {
    (if r.off == 0 then 0 else r.off - c.hs) + (if r.pc.RPop? then Chunk(c, r) else 0)
  }

  /** The header and payload so far are those of message `i`. */
  ghost predicate Reading(c: Config, ms: seq<Msg>, i: nat, hdr: seq<byte>, got: seq<byte>, off: nat, taken: int) {
    && i < |ms|
    && hdr == ms[i].header
    && Cut(c.cap, off, |Bytes(ms[i])|)
    && 0 <= taken <= |ms[i].payload|
    && got == ms[i].payload[..taken]
  }

  ghost predicate HeaderBytes(ms: seq<Msg>, i: nat, done: map<nat, byte>) {
    i < |ms| && forall k: nat :: k in done && k < |ms[i].header| ==> done[k] == ms[i].header[k]
  }

  ghost predicate PayloadBytes(ms: seq<Msg>, i: nat, from: int, done: map<nat, byte>) {
    i < |ms| && forall k: nat :: k in done && 0 <= from + k < |ms[i].payload| ==> done[k] == ms[i].payload[from + k]
  }

  ghost predicate ReaderNotifying(pc: RPc) {
    pc.RTestWait? || pc.RNotifyLock? || pc.RNotify? || pc.RNotifyUnlock?
  }

  ghost predicate ChunkPcInv(c: Config, r: Reader, stored: int) {
    var pc := r.pc;
    && !pc.RIdle? && !pc.RLoad? && !pc.RTestStored? && !pc.REnd? && !pc.RHeader? && !pc.RPredFlag?
    && (pc.RCopy? || pc.RPop? ==> stored >= Skip(c, r) + Chunk(c, r))
    && (!pc.RCopy? && !pc.RPop? ==> r.off > 0)
    && (!ReaderNotifying(pc) ==> r.off < Total(c, r))
    && (pc.RPredStored? || pc.RRelock? || pc.RLower? || pc.RUnlock? ==> !pc.late)
    && (pc.RLower? || pc.RUnlock? ==> stored >= Chunk(c, r))
  }

  /** Whether the reader has a header, and what it has seen stored, at each place of its program. */
  ghost predicate PcInv(c: Config, r: Reader, stored: int) {
    if r.hdr == [] then
      && r.off == 0 && r.got == []
      && !r.pc.RCopy? && !r.pc.RPop? && !ReaderNotifying(r.pc)
      && (r.pc.RHeader? ==> stored > 0)
    else
      ChunkPcInv(c, r, stored)
  }

  ghost predicate ReaderInv(c: Config, r: Reader, ms: seq<Msg>, recv: seq<Msg>, poped: nat) {
    var i := |recv|;
    && Place(ms, recv, r.off, poped)
    && (r.pc.RHeader? ==> HeaderBytes(ms, i, r.pc.hdone))
    && (r.hdr != [] ==> Reading(c, ms, i, r.hdr, r.got, r.off, Taken(c, r)))
    && (r.pc.RCopy? ==> PayloadBytes(ms, i, Taken(c, r), r.pc.done))
  }

  ghost predicate DataInv(c: Config, s: State) {
    && ValidConfig(c)
    && LogInv(c, s.log.msgs, s.log.part, s.log.dead, s.m.pushed, s.m.flags)
    && WriterInv(c, s.w, s.log.msgs, s.log.part, s.log.dead, s.m.pushed)
    && RoomInv(c, s.w, s.m.pushed, s.m.poped, s.m.flags)
    && BufInv(c, s.w, s.log.msgs, s.m.buf, s.m.pushed, s.m.poped)
    && PcInv(c, s.r, s.m.pushed - s.m.poped)
    && ReaderInv(c, s.r, s.log.msgs, s.log.recv, s.m.poped)
  }

  // ----- Writer steps -----

  /** Everything but locks, wait flags and the writer's program counter is as before. */
  ghost predicate OnlyWriterPc(s: State, s': State) {
    && s'.m.buf == s.m.buf && s'.m.pushed == s.m.pushed && s'.m.poped == s.m.poped && s'.m.flags == s.m.flags
    && s'.w.msg == s.w.msg && s'.w.off == s.w.off && s'.r == s.r && s'.log == s.log
  }

  ghost predicate Before(pc: WPc) {
    !pc.WIdle? && !pc.WCopy? && !pc.WPush? && !pc.WTestWait? && !pc.WNotifyLock? && !pc.WNotify? && !pc.WNotifyUnlock?
  }

  lemma WriterWaitsFrame(c: Config, s: State, s': State)
    requires WriterWaits(c, s, s')
    ensures OnlyWriterPc(s, s') && Before(s.w.pc) && Before(s'.w.pc)
  {
  }

  lemma WriterWaitsRoom(c: Config, s: State, s': State)
    requires WriterWaits(c, s, s') && RoomInv(c, s.w, s.m.pushed, s.m.poped, s.m.flags)
    ensures RoomInv(c, s'.w, s'.m.pushed, s'.m.poped, s'.m.flags)
  {
  }

  lemma DataWriterWaits(c: Config, s: State, s': State)
    requires DataInv(c, s) && WriterWaits(c, s, s')
    ensures DataInv(c, s')
  {
    WriterWaitsFrame(c, s, s');
    WriterWaitsRoom(c, s, s');
  }

  lemma StreamAppend(ms: seq<Msg>, m: Msg)
    ensures Stream(ms + [m]) == Stream(ms) + Bytes(m)
  {
    assert (ms + [m])[..|ms|] == ms;
  }

  lemma WriterTestsPc(c: Config, s: State, s': State)
    requires DataInv(c, s) && WriterTests(c, s, s') && (s.w.pc.WTestRoom? || s.w.pc.WTestClosed?)
    ensures DataInv(c, s')
  {
    assert OnlyWriterPc(s, s') && Before(s.w.pc) && Before(s'.w.pc);
  }

  /** A message whose write passes the closed test joins the stream. */
  lemma WriterCommits(c: Config, s: State, s': State)
    requires DataInv(c, s) && WriterTests(c, s, s')
    requires s.w.pc.WGate? && Closed !in s.m.flags && s.w.off == 0
    ensures DataInv(c, s')
  {
    StreamAppend(s.log.msgs, s.w.msg);
    assert s'.log.msgs[..|s.log.msgs|] == s.log.msgs;
    assert ValidMsgs(c, s'.log.msgs);
    assert Ends(c, s'.log.msgs, 0, s.m.pushed);
    assert HoldsMsgs(s.m.buf, s'.log.msgs, s.m.poped, s.m.pushed);
  }

  lemma WriterStarts(c: Config, s: State, s': State)
    requires DataInv(c, s) && WriterTests(c, s, s') && s.w.pc.WIdle?
    ensures DataInv(c, s')
  {
    assert s'.m == s.m && s'.r == s.r && s'.log == s.log;
  }

  lemma WriterGoesOn(c: Config, s: State, s': State)
    requires DataInv(c, s) && WriterTests(c, s, s') && s.w.pc.WGate? && (Closed in s.m.flags || s.w.off > 0)
    ensures DataInv(c, s')
  {
    assert s'.m == s.m && s'.r == s.r && s'.log == s.log.(dead := s'.log.dead);
  }

  lemma DataWriterTests(c: Config, s: State, s': State)
    requires DataInv(c, s) && WriterTests(c, s, s')
    ensures DataInv(c, s')
  {
    if s.w.pc.WTestRoom? || s.w.pc.WTestClosed? {
      WriterTestsPc(c, s, s');
    } else if s.w.pc.WIdle? {
      WriterStarts(c, s, s');
    } else if Closed !in s.m.flags && s.w.off == 0 {
      WriterCommits(c, s, s');
    } else {
      WriterGoesOn(c, s, s');
    }
  }

  /** Copying one more byte into free room keeps everything published and copied so far. */
  lemma CopyOne(buf: seq<byte>, ms: seq<Msg>, poped: nat, pushed: nat, msg: Msg, off: nat, n: nat, done: set<nat>, k: nat)
    requires HoldsMsgs(buf, ms, poped, pushed) && Copied(buf, pushed, msg, off, n, done)
    requires poped <= pushed && pushed + n <= poped + |buf| && k < n && off + k < |Bytes(msg)|
    ensures var buf' := Put(buf, pushed + k, Bytes(msg)[off + k]);
            HoldsMsgs(buf', ms, poped, pushed) && Copied(buf', pushed, msg, off, n, done + {k})
  {
    PutKeeps(buf, pushed + k, Bytes(msg)[off + k], poped, pushed + n);
  }

  lemma CopyDone(buf: seq<byte>, at: nat, msg: Msg, off: nat, n: int, done: set<nat>)
    requires Copied(buf, at, msg, off, n, done) && forall k: nat :: k < n ==> k in done
    ensures CopiedAll(buf, at, msg, off, n)
  {
    forall i: nat | at <= i < at + n && off + (i - at) < |Bytes(msg)|
      ensures At(buf, i) == Bytes(msg)[off + (i - at)]
    {
      var k: nat := i - at;
      assert k in done && At(buf, at + k) == Bytes(msg)[off + k];
    }
  }

  lemma WriterCopiesByte(c: Config, s: State, s': State, k: nat)
    requires DataInv(c, s) && s.w.pc.WCopy? && k < Need(c, s.w) && s.w.off + k < |Bytes(s.w.msg)|
    requires s' == WGoto(s, WCopy(s.w.pc.done + {k})).(
                     m := s.m.(buf := Put(s.m.buf, s.m.pushed + k, Bytes(s.w.msg)[s.w.off + k])))
    ensures DataInv(c, s')
  {
    CopyOne(s.m.buf, s.log.msgs, s.m.poped, s.m.pushed, s.w.msg, s.w.off, Need(c, s.w), s.w.pc.done, k);
  }

  lemma WriterCopiesDone(c: Config, s: State, s': State)
    requires DataInv(c, s) && s.w.pc.WCopy? && (forall k: nat :: k < Need(c, s.w) ==> k in s.w.pc.done)
    requires s' == WGoto(s, WPush)
    ensures DataInv(c, s')
  {
    CopyDone(s.m.buf, s.m.pushed, s.w.msg, s.w.off, Need(c, s.w), s.w.pc.done);
  }

  lemma DataWriterCopies(c: Config, s: State, s': State)
    requires DataInv(c, s) && |s.m.buf| > 0 && WriterCopies(c, s, s')
    ensures DataInv(c, s')
  {
    if s'.w.pc == WPush {
      WriterCopiesDone(c, s, s');
    } else {
      var k: nat :| k < Need(c, s.w) && k !in s.w.pc.done && s.w.off + k < |Bytes(s.w.msg)|
        && s' == WGoto(s, WCopy(s.w.pc.done + {k})).(m := s.m.(buf := Put(s.m.buf, s.m.pushed + k, Bytes(s.w.msg)[s.w.off + k])));
      WriterCopiesByte(c, s, s', k);
    }
  }

  /** The chunk just copied is the next piece of the stream. */
  lemma PushHolds(buf: seq<byte>, ms: seq<Msg>, part: nat, poped: nat, pushed: nat, n: nat)
    requires ms != [] && pushed == |Stream(ms[..|ms| - 1])| + part && part + n <= |Bytes(ms[|ms| - 1])|
    requires HoldsMsgs(buf, ms, poped, pushed) && CopiedAll(buf, pushed, ms[|ms| - 1], part, n)
    ensures HoldsMsgs(buf, ms, poped, pushed + n)
  {
    assert Stream(ms) == Stream(ms[..|ms| - 1]) + Bytes(ms[|ms| - 1]);
  }

  lemma PushEnds(c: Config, s: State, n: nat)
    requires DataInv(c, s) && s.w.pc.WPush? && n == Need(c, s.w)
    ensures HoldsMsgs(s.m.buf, s.log.msgs, s.m.poped, s.m.pushed + n)
    ensures Ends(c, s.log.msgs, s.log.part + n, s.m.pushed + n) && Writing(c, s.w.msg, s.w.off + n)
  {
    PushHolds(s.m.buf, s.log.msgs, s.log.part, s.m.poped, s.m.pushed, n);
    CutNext(c.cap, s.w.off, |Bytes(s.w.msg)|);
  }

  /** More stored bytes never hurt the reader. */
  lemma MoreStored(c: Config, r: Reader, stored: int, more: int)
    requires PcInv(c, r, stored) && stored <= more
    ensures PcInv(c, r, more)
  {
  }

  lemma WriterPushed(c: Config, s: State, s': State, n: nat)
    requires DataInv(c, s) && WriterPublishes(c, s, s') && s.w.pc.WPush? && n == Need(c, s.w)
    requires Writing(c, s.w.msg, s.w.off + n)
    ensures s'.m.pushed == s.m.pushed + n && WriterInv(c, s'.w, s'.log.msgs, s'.log.part, s'.log.dead, s'.m.pushed)
    ensures RoomInv(c, s'.w, s'.m.pushed, s'.m.poped, s'.m.flags)
  {
  }

  lemma WriterPushes(c: Config, s: State, s': State)
    requires DataInv(c, s) && WriterPublishes(c, s, s') && s.w.pc.WPush?
    ensures DataInv(c, s')
  {
    var n: nat := Need(c, s.w);
    PushEnds(c, s, n);
    WriterPushed(c, s, s', n);
    MoreStored(c, s.r, s.m.pushed - s.m.poped, s.m.pushed + n - s.m.poped);
    assert s'.log == s.log.(part := s.log.part + n) && s'.r == s.r;
  }

  /** Waking the reader is of no consequence for the data. */
  lemma ReaderWoken(c: Config, s: State, s': State)
    requires DataInv(c, s) && s' == Wake(s, Empty)
    ensures DataInv(c, s')
  {
    if s.r.pc == RAsleep {
      assert Taken(c, s'.r) == Taken(c, s.r);
      assert PcInv(c, s'.r, s'.m.pushed - s'.m.poped);
    }
  }

  /** After a chunk the writer goes on, or the whole message is out. */
  lemma WriterNext(c: Config, s: State, pc: WPc)
    requires DataInv(c, s) && Notifying(s.w)
    requires Notifying(s.w.(pc := pc)) || pc == if s.w.off < |Bytes(s.w.msg)| then WTestRoom else WIdle
    ensures DataInv(c, WGoto(s, pc))
  {
    if s.w.off == |Bytes(s.w.msg)| {
      assert Stream(s.log.msgs) == Stream(s.log.msgs[..|s.log.msgs| - 1]) + Bytes(s.w.msg);
    }
  }

  lemma DataMutex(c: Config, s: State, o: Owner)
    requires DataInv(c, s)
    ensures DataInv(c, Mutex(s, o))
  {
  }

  lemma WriterWakesReader(c: Config, s: State)
    requires DataInv(c, s) && s.w.pc.WNotify?
    ensures DataInv(c, WGoto(Wake(s, Empty), WNotifyUnlock))
  {
    ReaderWoken(c, s, Wake(s, Empty));
    WriterNext(c, Wake(s, Empty), WNotifyUnlock);
  }

  lemma DataWriterPublishes(c: Config, s: State, s': State)
    requires DataInv(c, s) && WriterPublishes(c, s, s')
    ensures DataInv(c, s')
  {
    if s.w.pc.WPush? {
      WriterPushes(c, s, s');
    } else if s.w.pc.WNotify? {
      WriterWakesReader(c, s);
    } else {
      WriterNext(c, s, s'.w.pc);
      DataMutex(c, WGoto(s, s'.w.pc), s'.m.mutex);
    }
  }

  // ----- Reader steps -----

  /** Positions at cuts: if anything lies between them, so does a whole chunk. */
  lemma WholeChunk(c: Config, ms: seq<Msg>, recv: seq<Msg>, off: nat, poped: nat, part: nat, pushed: nat)
    requires ValidConfig(c) && ValidMsgs(c, ms) && Ends(c, ms, part, pushed) && Place(ms, recv, off, poped)
    requires if |recv| < |ms| then Cut(c.cap, off, |Bytes(ms[|recv|])|) && off < |Bytes(ms[|recv|])| else off == 0
    requires pushed > poped
    ensures |recv| < |ms| && poped + Min(|Bytes(ms[|recv|])| - off, c.cap) <= pushed
  {
    var i, last := |recv|, |ms| - 1;
    assert recv == ms[..i];
    assert Stream(ms) == Stream(ms[..last]) + Bytes(ms[last]);
    assert i == |ms| ==> recv == ms;
    StreamAt(ms, i, 0);
    if i < last {
      StreamGrows(ms, i + 1, last);
    } else {
      CutGap(c.cap, off, part, |Bytes(ms[i])|);
    }
  }

  /** If anything is stored, so is the whole of the reader's next chunk. */
  lemma NextChunkStored(c: Config, s: State)
    requires DataInv(c, s) && s.m.pushed > s.m.poped
    requires s.r.hdr == [] || s.r.off < Total(c, s.r)
    ensures var i := |s.log.recv|;
            && i < |s.log.msgs| && ValidMsg(c, s.log.msgs[i])
            && s.m.poped + Min(|Bytes(s.log.msgs[i])| - s.r.off, c.cap) <= s.m.pushed
  {
    if |s.log.recv| < |s.log.msgs| {
      assert ValidMsg(c, s.log.msgs[|s.log.recv|]);
    }
    WholeChunk(c, s.log.msgs, s.log.recv, s.r.off, s.m.poped, s.log.part, s.m.pushed);
  }

  /** Everything but locks, wait flags, termination and the reader's program counter is as before. */
  ghost predicate OnlyReaderPc(s: State, s': State) {
    && s'.m.buf == s.m.buf && s'.m.pushed == s.m.pushed && s'.m.poped == s.m.poped
    && (Closed in s.m.flags ==> Closed in s'.m.flags)
    && s'.r.(pc := s.r.pc) == s.r && s'.w == s.w && s'.log == s.log
  }

  lemma LooksFrame(c: Config, s: State, s': State)
    requires ReaderLooks(c, s, s') && PcInv(c, s.r, s.m.pushed - s.m.poped) && ValidConfig(c)
    ensures OnlyReaderPc(s, s') && s.r.hdr == [] && PcInv(c, s'.r, s'.m.pushed - s'.m.poped)
    ensures s'.r.pc.RHeader? ==> s'.r.pc.hdone == map[] && s.m.pushed > s.m.poped
  {
  }

  lemma DataReaderLooks(c: Config, s: State, s': State)
    requires DataInv(c, s) && ReaderLooks(c, s, s')
    ensures DataInv(c, s')
  {
    LooksFrame(c, s, s');
    if s'.r.pc.RHeader? {
      NextChunkStored(c, s);
    }
  }

  lemma ReaderWaitsFrame(c: Config, s: State, s': State)
    requires ReaderWaits(c, s, s')
    ensures OnlyReaderPc(s, s') && !s.r.pc.RPop? && !s'.r.pc.RPop? && !s'.r.pc.RHeader?
    ensures s'.r.pc.RCopy? ==> s'.r.pc.done == map[] && s.r.hdr != []
  {
  }

  lemma HeaderWaitPc(c: Config, s: State, s': State)
    requires ReaderWaits(c, s, s') && PcInv(c, s.r, s.m.pushed - s.m.poped) && s.r.hdr == []
    ensures PcInv(c, s'.r, s'.m.pushed - s'.m.poped)
  {
  }

  lemma ChunkWaitPc(c: Config, s: State, s': State)
    requires ReaderWaits(c, s, s') && PcInv(c, s.r, s.m.pushed - s.m.poped) && s.r.hdr != []
    ensures PcInv(c, s'.r, s'.m.pushed - s'.m.poped)
  {
    assert s'.r.hdr == s.r.hdr && s'.r.off == s.r.off;
  }

  lemma DataReaderWaits(c: Config, s: State, s': State)
    requires DataInv(c, s) && ReaderWaits(c, s, s')
    ensures DataInv(c, s')
  {
    ReaderWaitsFrame(c, s, s');
    if s.r.hdr == [] { HeaderWaitPc(c, s, s'); } else { ChunkWaitPc(c, s, s'); }
    assert Taken(c, s'.r) == Taken(c, s.r);
  }

  /** What the ring holds at the reader's place is the message it is at. */
  lemma ReadByte(buf: seq<byte>, ms: seq<Msg>, recv: seq<Msg>, off: nat, poped: nat, pushed: nat, k: nat)
    requires HoldsMsgs(buf, ms, poped, pushed) && Place(ms, recv, off, poped) && |recv| < |ms|
    requires poped + k < pushed && off + k < |Bytes(ms[|recv|])|
    ensures At(buf, poped + k) == Bytes(ms[|recv|])[off + k]
  {
    assert recv == ms[..|recv|];
    StreamAt(ms, |recv|, off + k);
  }

  lemma ReaderHeaderByte(c: Config, s: State, s': State, k: nat)
    requires DataInv(c, s) && s.r.pc.RHeader? && k < c.hs
    requires s' == RGoto(s, RHeader(s.r.pc.hdone[k := At(s.m.buf, s.m.poped + k)]))
    ensures DataInv(c, s')
  {
    NextChunkStored(c, s);
    ReadByte(s.m.buf, s.log.msgs, s.log.recv, 0, s.m.poped, s.m.pushed, k);
  }

  lemma ReaderHeaderDone(c: Config, s: State, s': State)
    requires DataInv(c, s) && s.r.pc.RHeader? && (forall k: nat :: k < c.hs ==> k in s.r.pc.hdone)
    requires s' == s.(r := s.r.(pc := RCopy(map[]), hdr := Collect(s.r.pc.hdone, c.hs)))
    ensures DataInv(c, s')
  {
    NextChunkStored(c, s);
    var m := s.log.msgs[|s.log.recv|];
    assert s'.r.hdr == m.header;
    assert Reading(c, s.log.msgs, |s.log.recv|, s'.r.hdr, [], 0, 0);
  }

  lemma PayloadByte(c: Config, m: Shared, ms: seq<Msg>, recv: seq<Msg>, r: Reader, k: nat)
    requires ValidConfig(c) && ValidMsgs(c, ms) && HoldsMsgs(m.buf, ms, m.poped, m.pushed)
    requires Place(ms, recv, r.off, m.poped) && r.hdr != []
    requires Reading(c, ms, |recv|, r.hdr, r.got, r.off, Taken(c, r))
    requires r.pc.RCopy? && PcInv(c, r, m.pushed - m.poped) && k < Chunk(c, r)
    ensures 0 <= Taken(c, r) + k < |ms[|recv|].payload|
    ensures At(m.buf, m.poped + Skip(c, r) + k) == ms[|recv|].payload[Taken(c, r) + k]
  {
    assert ValidMsg(c, ms[|recv|]);
    ReadByte(m.buf, ms, recv, r.off, m.poped, m.pushed, Skip(c, r) + k);
  }

  lemma ReaderPayloadByte(c: Config, s: State, s': State, k: nat)
    requires DataInv(c, s) && s.r.pc.RCopy? && k < Chunk(c, s.r)
    requires s' == RGoto(s, RCopy(s.r.pc.done[k := At(s.m.buf, s.m.poped + Skip(c, s.r) + k)]))
    ensures DataInv(c, s')
  {
    PayloadByte(c, s.m, s.log.msgs, s.log.recv, s.r, k);
    assert Taken(c, s'.r) == Taken(c, s.r);
    assert PayloadBytes(s.log.msgs, |s.log.recv|, Taken(c, s.r), s'.r.pc.done);
  }

  lemma ReaderPayloadDone(c: Config, s: State, s': State, n: nat)
    requires DataInv(c, s) && s.r.pc.RCopy? && n == Chunk(c, s.r) && (forall k: nat :: k < n ==> k in s.r.pc.done)
    requires s' == s.(r := s.r.(pc := RPop, got := s.r.got + Collect(s.r.pc.done, n)))
    ensures DataInv(c, s')
  {
    var m := s.log.msgs[|s.log.recv|];
    assert ValidMsg(c, m);
    var from := Taken(c, s.r);
    assert Taken(c, s'.r) == from + n;
    assert m.payload[..from + n] == m.payload[..from] + m.payload[from..from + n];
    assert Collect(s.r.pc.done, n) == m.payload[from..from + n];
  }

  lemma DataReaderCopies(c: Config, s: State, s': State)
    requires DataInv(c, s) && |s.m.buf| > 0 && ReaderCopies(c, s, s')
    ensures DataInv(c, s')
  {
    if s.r.pc.RHeader? {
      if s'.r.pc.RCopy? {
        ReaderHeaderDone(c, s, s');
      } else {
        var k: nat :| k < c.hs && k !in s.r.pc.hdone
          && s' == RGoto(s, RHeader(s.r.pc.hdone[k := At(s.m.buf, s.m.poped + k)]));
        ReaderHeaderByte(c, s, s', k);
      }
    } else {
      var n: nat := Chunk(c, s.r);
      if s'.r.pc.RPop? {
        ReaderPayloadDone(c, s, s', n);
      } else {
        var k: nat :| k < n && k !in s.r.pc.done
          && s' == RGoto(s, RCopy(s.r.pc.done[k := At(s.m.buf, s.m.poped + Skip(c, s.r) + k)]));
        ReaderPayloadByte(c, s, s', k);
      }
    }
  }

  lemma ReaderPops(c: Config, s: State, s': State)
    requires DataInv(c, s) && ReaderReleases(c, s, s') && s.r.pc.RPop?
    ensures DataInv(c, s')
  {
    var m := s.log.msgs[|s.log.recv|];
    assert ValidMsg(c, m);
    CutNext(c.cap, s.r.off, |Bytes(m)|);
    assert Taken(c, s'.r) == Taken(c, s.r);
    assert s'.w == s.w && s'.log == s.log;
  }

  /** Waking the writer is of no consequence for the data. */
  lemma WriterWoken(c: Config, s: State)
    requires DataInv(c, s)
    ensures DataInv(c, Wake(s, Full))
  {
  }

  /** With the last cut reached, what was read is the message. */
  lemma WholeMessage(c: Config, ms: seq<Msg>, recv: seq<Msg>, r: Reader, poped: nat)
    requires ValidConfig(c) && ValidMsgs(c, ms) && Place(ms, recv, r.off, poped)
    requires Reading(c, ms, |recv|, r.hdr, r.got, r.off, Taken(c, r))
    requires r.off >= Total(c, r) && !r.pc.RPop?
    ensures Place(ms, recv + [Msg(r.hdr, r.got)], 0, poped)
  {
    var m := ms[|recv|];
    assert ValidMsg(c, m);
    assert Msg(r.hdr, r.got) == m;
    StreamAppend(recv, m);
  }

  /** A reader between messages. */
  lemma ReaderRests(c: Config, ms: seq<Msg>, recv: seq<Msg>, poped: nat, stored: int)
    requires Place(ms, recv, 0, poped)
    ensures var r := Reader(RIdle, [], [], 0);
            PcInv(c, r, stored) && ReaderInv(c, r, ms, recv, poped)
  {
  }

  lemma ReaderFinishes(c: Config, s: State, s': State)
    requires DataInv(c, s) && (s.r.pc.RTestWait? || s.r.pc.RNotifyUnlock?) && s.r.off >= Total(c, s.r) && s' == RNext(c, s)
    ensures DataInv(c, s')
  {
    WholeMessage(c, s.log.msgs, s.log.recv, s.r, s.m.poped);
    ReaderRests(c, s.log.msgs, s'.log.recv, s.m.poped, s.m.pushed - s.m.poped);
  }

  lemma ReaderGoesOn(c: Config, s: State, s': State)
    requires DataInv(c, s) && (s.r.pc.RTestWait? || s.r.pc.RNotifyUnlock?) && s.r.off < Total(c, s.r) && s' == RGoto(s, RLock)
    ensures DataInv(c, s')
  {
    assert Taken(c, s'.r) == Taken(c, s.r);
  }

  lemma ReaderDelivers(c: Config, s: State)
    requires DataInv(c, s) && (s.r.pc.RTestWait? || s.r.pc.RNotifyUnlock?)
    ensures DataInv(c, RNext(c, s))
  {
    if s.r.off >= Total(c, s.r) {
      ReaderFinishes(c, s, RNext(c, s));
    } else {
      ReaderGoesOn(c, s, RNext(c, s));
    }
  }

  lemma ReaderNotifyPc(c: Config, s: State, pc: RPc)
    requires DataInv(c, s) && ReaderNotifying(s.r.pc) && ReaderNotifying(pc)
    ensures DataInv(c, RGoto(s, pc))
  {
    assert Taken(c, RGoto(s, pc).r) == Taken(c, s.r);
  }

  lemma DataReaderReleases(c: Config, s: State, s': State)
    requires DataInv(c, s) && ReaderReleases(c, s, s')
    ensures DataInv(c, s')
  {
    if s.r.pc.RPop? {
      ReaderPops(c, s, s');
    } else if s.r.pc.RNotify? {
      WriterWoken(c, s);
      ReaderNotifyPc(c, Wake(s, Full), RNotifyUnlock);
    } else if ReaderNotifying(s'.r.pc) {
      ReaderNotifyPc(c, s, s'.r.pc);
      DataMutex(c, RGoto(s, s'.r.pc), s'.m.mutex);
    } else {
      ReaderDelivers(c, s);
      DataMutex(c, RNext(c, s), s'.m.mutex);
    }
  }

  // ----- All steps -----

  lemma DataRaiseStep(c: Config, s: State, s': State, id: nat, g: Signal)
    requires DataInv(c, s) && RaiseStep(c, s, s', id, g)
    ensures DataInv(c, s')
  {
  }

  ghost function Notified(s: State, id: nat): State {
    if id in s.sigs && s.sigs[id].todo != [] && s.sigs[id].pc.SNotify? then Wake(s, s.sigs[id].todo[0]) else s
  }

  lemma SignalFrame(c: Config, s: State, s': State, id: nat)
    requires SignalStep(c, s, s', id)
    ensures s' == Mutex(Notified(s, id), s'.m.mutex).(sigs := s'.sigs)
  {
  }

  lemma DataSigs(c: Config, s: State, sigs: map<nat, Signaller>)
    requires DataInv(c, s)
    ensures DataInv(c, s.(sigs := sigs))
  {
  }

  lemma DataSignalStep(c: Config, s: State, s': State, id: nat)
    requires DataInv(c, s) && SignalStep(c, s, s', id)
    ensures DataInv(c, s')
  {
    SignalFrame(c, s, s', id);
    WriterWoken(c, s);
    ReaderWoken(c, s, Wake(s, Empty));
    DataMutex(c, Notified(s, id), s'.m.mutex);
    DataSigs(c, Mutex(Notified(s, id), s'.m.mutex), s'.sigs);
  }

  lemma DataStep(c: Config, s: State, s': State)
    requires DataInv(c, s) && Step(c, s, s')
    ensures DataInv(c, s')
  {
    if WriterTests(c, s, s') {
      DataWriterTests(c, s, s');
    } else if WriterWaits(c, s, s') {
      DataWriterWaits(c, s, s');
    } else if WriterCopies(c, s, s') {
      DataWriterCopies(c, s, s');
    } else if WriterPublishes(c, s, s') {
      DataWriterPublishes(c, s, s');
    } else if ReaderLooks(c, s, s') {
      DataReaderLooks(c, s, s');
    } else if ReaderWaits(c, s, s') {
      DataReaderWaits(c, s, s');
    } else if ReaderCopies(c, s, s') {
      DataReaderCopies(c, s, s');
    } else if ReaderReleases(c, s, s') {
      DataReaderReleases(c, s, s');
    } else if id, g :| RaiseStep(c, s, s', id, g) {
      DataRaiseStep(c, s, s', id, g);
    } else {
      var id :| SignalStep(c, s, s', id);
      DataSignalStep(c, s, s', id);
    }
  }

  lemma DataInit(c: Config, s: State)
    requires ValidConfig(c) && Init(c, s)
    ensures DataInv(c, s)
  {
  }

  lemma {:induction false} DataAlways(c: Config, t: seq<State>, i: nat)
    requires ValidConfig(c) && Run(c, t) && i < |t|
    ensures DataInv(c, t[i])
  {
    if i == 0 {
      DataInit(c, t[0]);
    } else {
      DataAlways(c, t, i - 1);
      assert StepAt(c, t, i - 1);
      DataStep(c, t[i - 1], t[i]);
    }
  }
}
