/** How the client of a result set waits for records on any number of wires (`active_wire`) while
    their servers flush records and one thread marks the end (`set_eor`). Each load, store, lock,
    sleep and notification is a step. */
module RecordArrival {

  datatype NotifyPc = NIdle | NLock | NNotify | NUnlock

  datatype CPc =
    | CIdle
    | CScan(j: nat)
    | CFound(w: nat)
    | CLock
    | CPredEor(late: bool)
    | CPredScan(j: nat, eor: bool, late: bool)
    | CSleep
    | CAsleep
    | CRelock(late: bool)
    | CUnlockFound(w: nat)
    | CUnlockEnd
    | CUnlockLate
    | CTestEor
    | CNull

  datatype Holder = NoOne | TheClient | Wire(j: nat) | TheEnder

  /** Per wire: how much is flushed, how much disposed of, and its server's place in `flush`.
      `atEor` is history: what was flushed when the end was first marked. */
  datatype Arrivals = Arrivals(
    flushed: seq<nat>, taken: seq<nat>, servers: seq<NotifyPc>,
    eor: bool, ender: NotifyPc, mutex: Holder, c: CPc, atEor: seq<nat>)

  ghost predicate ArrivalsInit(n: nat, s: Arrivals) {
    && |s.flushed| == |s.taken| == |s.servers| == n
    && (forall j :: 0 <= j < n ==> s.flushed[j] == s.taken[j] && s.servers[j] == NIdle)
    && !s.eor && s.ender == NIdle && s.mutex == NoOne && s.c == CIdle && s.atEor == s.flushed
  }

  ghost predicate SameSize(n: nat, s: Arrivals) {
    |s.flushed| == |s.taken| == |s.servers| == |s.atEor| == n
  }

  function WakeClient(s: Arrivals): Arrivals {
    if s.c == CAsleep then s.(c := CRelock(false)) else s
  }

  /** `flush` on wire `j`: publish, then `notify_record_arrival`. */
  ghost predicate ServerStep(s: Arrivals, s': Arrivals, j: nat)
    requires j < |s.flushed| && j < |s.servers|
  {
    match s.servers[j]
    case NIdle =>
      && j < |s'.flushed| && s'.flushed[j] > s.flushed[j]
      && s' == s.(flushed := s.flushed[j := s'.flushed[j]], servers := s.servers[j := NLock])
    case NLock =>
      s.mutex == NoOne && s' == s.(mutex := Wire(j), servers := s.servers[j := NNotify])
    case NNotify =>
      s' == WakeClient(s).(servers := s.servers[j := NUnlock])
    case NUnlock =>
      s' == s.(mutex := NoOne, servers := s.servers[j := NIdle])
  }

  /** `set_eor`. */
  ghost predicate EnderStep(s: Arrivals, s': Arrivals) {
    match s.ender
    case NIdle =>
      s' == s.(eor := true, ender := NLock, atEor := if s.eor then s.atEor else s.flushed)
    case NLock =>
      s.mutex == NoOne && s' == s.(mutex := TheEnder, ender := NNotify)
    case NNotify =>
      s' == WakeClient(s).(ender := NUnlock)
    case NUnlock =>
      s' == s.(mutex := NoOne, ender := NIdle)
  }

  /** `active_wire`, and disposing of what it found. */
  ghost predicate ClientStep(n: nat, s: Arrivals, s': Arrivals)
    requires SameSize(n, s)
  {
    match s.c
    case CIdle =>
      s' == s.(c := CScan(0))
    case CScan(j) =>
      s' == s.(c := if j >= n then CLock else if s.flushed[j] > s.taken[j] then CFound(j) else CScan(j + 1))
    case CFound(w) =>
      && w < n && w < |s'.taken| && s.taken[w] < s'.taken[w] <= s.flushed[w]
      && s' == s.(taken := s.taken[w := s'.taken[w]], c := CIdle)
    case CLock =>
      s.mutex == NoOne && s' == s.(mutex := TheClient, c := CPredEor(false))
    case CPredEor(late) =>
      s' == s.(c := CPredScan(0, s.eor, late))
    case CPredScan(j, eor, late) =>
      s' == s.(c := if j < n then (if s.flushed[j] > s.taken[j] then CUnlockFound(j) else CPredScan(j + 1, eor, late))
                    else if eor then CUnlockEnd
                    else if late then CUnlockLate
                    else CSleep)
    case CSleep =>
      s' == s.(mutex := NoOne, c := CAsleep)
    case CAsleep => // spurious wakeup or time limit
      s' == s.(c := CRelock(false)) || s' == s.(c := CRelock(true))
    case CRelock(late) =>
      s.mutex == NoOne && s' == s.(mutex := TheClient, c := CPredEor(late))
    case CUnlockFound(w) =>
      s' == s.(mutex := NoOne, c := CFound(w))
    case CUnlockEnd =>
      s' == s.(mutex := NoOne, c := CTestEor)
    case CUnlockLate =>
      s' == s.(mutex := NoOne, c := CIdle)
    case CTestEor =>
      s' == s.(c := if s.eor then CNull else CIdle)
    case CNull =>
      s' == s.(c := CIdle)
  }

  ghost predicate ArrivalStep(n: nat, s: Arrivals, s': Arrivals) {
    && SameSize(n, s)
    && (ClientStep(n, s, s') || EnderStep(s, s') || exists j: nat :: j < n && ServerStep(s, s', j))
  }

  ghost predicate ArrivalStepAt(n: nat, t: seq<Arrivals>, i: nat) {
    i + 1 < |t| && ArrivalStep(n, t[i], t[i + 1])
  }

  ghost predicate ArrivalRun(n: nat, t: seq<Arrivals>) {
    |t| > 0 && ArrivalsInit(n, t[0]) && forall i: nat :: i + 1 < |t| ==> ArrivalStepAt(n, t, i)
  }

  // ----- Invariant -----

  ghost predicate InLock(pc: NotifyPc) {
    pc == NNotify || pc == NUnlock
  }

  ghost predicate ClientHolds(c: CPc) {
    c.CPredEor? || c.CPredScan? || c.CSleep? || c.CUnlockFound? || c.CUnlockEnd? || c.CUnlockLate?
  }

  ghost predicate HoldersInv(n: nat, s: Arrivals)
    requires SameSize(n, s)
  {
    && (s.mutex == TheClient <==> ClientHolds(s.c))
    && (s.mutex == TheEnder <==> InLock(s.ender))
    && (forall j :: 0 <= j < n ==> (s.mutex == Wire(j) <==> InLock(s.servers[j])))
  }

  /** How many wires the client has found empty since it last loaded the end mark. */
  ghost function Seen(n: nat, c: CPc): nat {
    match c
    case CPredScan(j, _, _) => j
    case CSleep => n
    case CAsleep => n
    case CUnlockEnd => n
    case CTestEor => n
    case CNull => n
    case _ => 0
  }

  ghost predicate WillNotify(pc: NotifyPc) {
    pc == NLock || pc == NNotify
  }

  ghost predicate MayHaveMissed(c: CPc) {
    c.CPredScan? || c.CSleep? || c.CAsleep?
  }

  /** What arrived on a wire after the client looked at it is about to be announced. */
  ghost predicate Announced(n: nat, s: Arrivals)
    requires SameSize(n, s)
  {
    && (MayHaveMissed(s.c) ==>
          forall j :: 0 <= j < n && j < Seen(n, s.c) && s.flushed[j] > s.taken[j] ==> WillNotify(s.servers[j]))
    && (s.c.CSleep? || s.c.CAsleep? || (s.c.CPredScan? && !s.c.eor) ==> s.eor ==> WillNotify(s.ender))
  }

  /** The client saw the end mark before it looked. */
  ghost predicate SawEnd(c: CPc) {
    (c.CPredScan? && c.eor) || c.CUnlockEnd? || c.CTestEor? || c.CNull?
  }

  ghost predicate Drained(n: nat, s: Arrivals)
    requires SameSize(n, s)
  {
    && (forall j :: 0 <= j < n ==> s.taken[j] <= s.flushed[j])
    && (s.eor ==> forall j :: 0 <= j < n ==> s.atEor[j] <= s.flushed[j])
    && (SawEnd(s.c) ==> s.eor)
    && (SawEnd(s.c) ==> forall j :: 0 <= j < n && j < Seen(n, s.c) ==> s.atEor[j] <= s.taken[j])
  }

  ghost predicate ArrivalInv(n: nat, s: Arrivals) {
    SameSize(n, s) && HoldersInv(n, s) && Announced(n, s) && Drained(n, s)
  }

  lemma ClientKeepsHolders(n: nat, s: Arrivals, s': Arrivals)
    requires SameSize(n, s) && HoldersInv(n, s) && ClientStep(n, s, s')
    ensures SameSize(n, s') && HoldersInv(n, s')
  {
    assert s' == s.(taken := s'.taken, mutex := s'.mutex, c := s'.c);
  }

  lemma ClientKeepsDrained(n: nat, s: Arrivals, s': Arrivals)
    requires SameSize(n, s) && Drained(n, s) && ClientStep(n, s, s')
    ensures SameSize(n, s') && Drained(n, s')
  {
    assert s' == s.(taken := s'.taken, mutex := s'.mutex, c := s'.c);
  }

  lemma ClientKeeps(n: nat, s: Arrivals, s': Arrivals)
    requires ArrivalInv(n, s) && ClientStep(n, s, s')
    ensures ArrivalInv(n, s')
  {
    ClientKeepsHolders(n, s, s');
    ClientKeepsDrained(n, s, s');
  }

  lemma EnderKeeps(n: nat, s: Arrivals, s': Arrivals)
    requires ArrivalInv(n, s) && EnderStep(s, s')
    ensures ArrivalInv(n, s')
  {
  }

  lemma ServerKeeps(n: nat, s: Arrivals, s': Arrivals, j: nat)
    requires ArrivalInv(n, s) && j < n && ServerStep(s, s', j)
    ensures ArrivalInv(n, s')
  {
  }

  lemma ArrivalKeeps(n: nat, s: Arrivals, s': Arrivals)
    requires ArrivalInv(n, s) && ArrivalStep(n, s, s')
    ensures ArrivalInv(n, s')
  {
    if ClientStep(n, s, s') {
      ClientKeeps(n, s, s');
    } else if EnderStep(s, s') {
      EnderKeeps(n, s, s');
    } else {
      var j: nat :| j < n && ServerStep(s, s', j);
      ServerKeeps(n, s, s', j);
    }
  }

  lemma {:induction false} ArrivalAlways(n: nat, t: seq<Arrivals>, i: nat)
    requires ArrivalRun(n, t) && i < |t|
    ensures ArrivalInv(n, t[i])
  {
    if i > 0 {
      ArrivalAlways(n, t, i - 1);
      assert ArrivalStepAt(n, t, i - 1);
      ArrivalKeeps(n, t[i - 1], t[i]);
    }
  }

  // ----- Theorems: every run -----

  /** A client asleep although a record or the end has arrived is about to be notified. */
  lemma ClientWakeupNotLost(n: nat, t: seq<Arrivals>, i: nat)
    requires ArrivalRun(n, t) && i < |t| && t[i].c == CAsleep
    ensures SameSize(n, t[i])
    ensures t[i].eor ==> WillNotify(t[i].ender)
    ensures forall j :: 0 <= j < n && t[i].flushed[j] > t[i].taken[j] ==> WillNotify(t[i].servers[j])
  {
    ArrivalAlways(n, t, i);
  }

  lemma {:induction false} FlushedAtEor(n: nat, t: seq<Arrivals>, j: nat, i: nat)
    requires ArrivalRun(n, t) && j < i < |t| && !t[j].eor && t[j + 1].eor
    ensures t[i].eor && t[i].atEor == t[j].flushed
  {
    assert ArrivalStepAt(n, t, i - 1);
    if i - 1 > j {
      FlushedAtEor(n, t, j, i - 1);
    }
  }

  /** `active_wire` returns no wire only after everything flushed before the end was marked has been
      disposed of, on every wire. */
  lemma NullOnlyAfterDraining(n: nat, t: seq<Arrivals>, j: nat, i: nat)
    requires ArrivalRun(n, t) && j < i < |t| && !t[j].eor && t[j + 1].eor
    requires t[i].c == CNull
    ensures |t[j].flushed| == |t[i].taken| == n
    ensures forall w :: 0 <= w < n ==> t[i].taken[w] >= t[j].flushed[w]
  {
    ArrivalAlways(n, t, i);
    ArrivalAlways(n, t, j);
    FlushedAtEor(n, t, j, i);
  }

  /** It never returns no wire unless the end was marked. */
  lemma NullOnlyAtEnd(n: nat, t: seq<Arrivals>, i: nat)
    requires ArrivalRun(n, t) && i < |t| && t[i].c == CNull
    ensures t[i].eor
  {
    ArrivalAlways(n, t, i);
  }
}
