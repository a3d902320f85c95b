/** The connection-slot allocator (`connection_queue` and its `index_queue`s): slots wait in a ring
    of free slots, part of which is set aside for administrators. Every method below is one critical
    section or one atomic update of the source, so what each keeps holds of every interleaving. */
module ConnectionQueue {
  import opened Wrappers
  import opened Ring

  const ADMIN_BIT: nat := 0x8000_0000_0000_0000
  const MAX_SLOTS: nat := 0xffff_ffff

  function SetAdmin(slot: nat): nat {
    if slot < ADMIN_BIT then slot + ADMIN_BIT else slot
  }

  function ResetAdmin(sid: nat): nat {
    if sid < ADMIN_BIT then sid else sid - ADMIN_BIT
  }

  predicate IsAdmin(sid: nat) {
    sid >= ADMIN_BIT
  }

  lemma MarkedSlot(slot: nat)
    requires slot < ADMIN_BIT
    ensures IsAdmin(SetAdmin(slot)) && ResetAdmin(SetAdmin(slot)) == slot
  {
  }

  // ----- A counter of eight bits -----

  function Up(u: nat): nat {
    if u == 255 then 0 else u + 1
  }

  function Down(u: nat): nat {
    if u == 0 then 255 else u - 1
  }

  /** What the counter shows of a number: the number modulo 256. */
  function Wrapped(m: nat): (u: nat)
    ensures u < 256
  {
    if m < 256 then m else Wrapped(m - 256)
  }

  lemma {:induction false} WrappedIs(m: nat)
    ensures Wrapped(m) == m % 256
  {
    if m >= 256 {
      WrappedIs(m - 256);
    }
  }

  lemma WrappedUp(m: nat)
    ensures Wrapped(m + 1) == Up(Wrapped(m)) && Wrapped(m) == Down(Wrapped(m + 1))
  {
    WrappedIs(m);
    WrappedIs(m + 1);
  }

  // ----- Where the slots are -----

  /** A slot is free, or out: on its way, waiting to be accepted, or connected. */
  datatype Stage = Moving | Waiting | Connected
  datatype Place = Free | Out(admin: bool, stage: Stage)

  datatype Class = Frees | Normals | Admins | Waitings

  predicate In(p: Place, c: Class) {
    match c
    case Frees => p.Free?
    case Normals => p.Out? && !p.admin
    case Admins => p.Out? && p.admin
    case Waitings => p.Out? && p.stage == Waiting
  }

  function Count(ps: seq<Place>, c: Class): nat {
    if ps == [] then 0 else Count(ps[..|ps| - 1], c) + (if In(ps[|ps| - 1], c) then 1 else 0)
  }

  lemma {:induction false} CountMoves(ps: seq<Place>, i: nat, p: Place, c: Class)
    requires i < |ps|
    ensures Count(ps[i := p], c) == Count(ps, c) + (if In(p, c) then 1 else 0) - (if In(ps[i], c) then 1 else 0)
  {
    var front := ps[..|ps| - 1];
    if i < |ps| - 1 {
      assert ps[i := p][..|ps| - 1] == front[i := p];
      CountMoves(front, i, p, c);
    } else {
      assert ps[i := p][..|ps| - 1] == front;
    }
  }

  /** Every slot is free, out for a normal client, or out for an administrator. */
  lemma {:induction false} CountsAddUp(ps: seq<Place>)
    ensures Count(ps, Frees) + Count(ps, Normals) + Count(ps, Admins) == |ps|
  {
    if ps != [] {
      CountsAddUp(ps[..|ps| - 1]);
    }
  }

  lemma {:induction false} CountAtMost(ps: seq<Place>, c: Class)
    ensures Count(ps, c) <= |ps|
  {
    if ps != [] {
      CountAtMost(ps[..|ps| - 1], c);
    }
  }

  lemma {:induction false} CountBelow(ps: seq<Place>, i: nat, c: Class)
    requires i < |ps| && !In(ps[i], c)
    ensures Count(ps, c) < |ps|
  {
    CountAtMost(ps[..|ps| - 1], c);
    if i < |ps| - 1 {
      CountBelow(ps[..|ps| - 1], i, c);
    }
  }

  lemma {:induction false} AllFree(n: nat, ps: seq<Place>)
    requires |ps| == n && forall i :: 0 <= i < n ==> ps[i] == Free
    ensures Count(ps, Frees) == n && Count(ps, Normals) == 0 && Count(ps, Admins) == 0 && Count(ps, Waitings) == 0
  {
    if n > 0 {
      AllFree(n - 1, ps[..n - 1]);
    }
  }

  // ----- One ring of slots -----

  /** The cell of position `i`: turn by turn around the ring. */
  function Cell(queue: seq<nat>, i: nat): nat
    requires |queue| > 0
  {
    if i < |queue| then queue[i] else Cell(queue, i - |queue|)
  }

  lemma {:induction false} CellIs(queue: seq<nat>, i: nat)
    requires |queue| > 0
    ensures Cell(queue, i) == queue[i % |queue|]
  {
    if i >= |queue| {
      CellIs(queue, i - |queue|);
      DivModUnique(i, |queue|, (i - |queue|) / |queue| + 1, (i - |queue|) % |queue|);
    } else {
      DivModUnique(i, |queue|, 0, i);
    }
  }

  /** The entries from position `lo` up to `hi`. */
  function Entries(queue: seq<nat>, lo: nat, hi: nat): (r: seq<nat>)
    requires |queue| > 0 && lo <= hi
    ensures |r| == hi - lo
    ensures forall k: nat :: k < hi - lo ==> r[k] == Cell(queue, lo + k)
  {
    seq<nat>(hi - lo, k requires 0 <= k < hi - lo => Cell(queue, lo + k))
  }

  lemma CellKept(queue: seq<nat>, i: nat, j: nat, x: nat)
    requires |queue| > 0 && i != j && i < j + |queue| && j < i + |queue|
    ensures Cell(queue[j % |queue| := x], i) == Cell(queue, i)
  {
    CellsDiffer(i, j, |queue|);
    CellIs(queue, i);
    CellIs(queue[j % |queue| := x], i);
  }

  lemma EntriesPush(queue: seq<nat>, lo: nat, hi: nat, x: nat)
    requires |queue| > 0 && lo <= hi < lo + |queue|
    ensures Entries(queue[hi % |queue| := x], lo, hi + 1) == Entries(queue, lo, hi) + [x]
  {
    var queue' := queue[hi % |queue| := x];
    var r, r' := Entries(queue, lo, hi), Entries(queue', lo, hi + 1);
    CellIs(queue', hi);
    forall k: nat | k < hi - lo
      ensures r'[k] == r[k]
    {
      CellKept(queue, lo + k, hi, x);
    }
  }

  lemma EntriesPop(queue: seq<nat>, lo: nat, hi: nat)
    requires |queue| > 0 && lo < hi
    ensures Cell(queue, lo) == Entries(queue, lo, hi)[0]
    ensures Entries(queue, lo + 1, hi) == Entries(queue, lo, hi)[1..]
  {
    var r, r' := Entries(queue, lo, hi), Entries(queue, lo + 1, hi);
    forall k: nat | k < hi - lo - 1
      ensures r'[k] == r[k + 1]
    {
      assert lo + 1 + k == lo + (k + 1);
    }
  }

  lemma EntriesFilled(queue: seq<nat>)
    requires |queue| > 0 && forall k :: 0 <= k < |queue| ==> queue[k] == k
    ensures Entries(queue, 0, |queue|) == seq(|queue|, i => i)
  {
    forall k: nat | k < |queue|
      ensures Entries(queue, 0, |queue|)[k] == k
    {
      assert Cell(queue, k) == queue[k];
    }
  }

  class IndexQueue {
    var queue: seq<nat>
    var pushed: nat
    var poped: nat
    /** Eight bits wide in the source: it wraps around. */
    var adminSlotsInUse: nat

    /** A ring with `extra` entries beyond `pushed` has not overflowed. */
    ghost predicate Valid(extra: nat)
      reads this
    {
      0 < |queue| && poped <= pushed + extra <= poped + |queue|
    }

    ghost function Content(extra: nat): seq<nat>
      requires Valid(extra)
      reads this
    {
      Entries(queue, poped, pushed + extra)
    }

    constructor (size: nat)
      requires size > 0
      ensures Valid(0) && Content(0) == [] && |queue| == size && adminSlotsInUse == 0 && pushed == poped == 0
    {
      queue, pushed, poped, adminSlotsInUse := seq(size, _ => 0), 0, 0, 0;
    }

    /** `fill`: every slot, the last `adminSlots` of them beyond `pushed`. */
    method Fill(adminSlots: nat)
      requires Valid(0) && poped == 0 && adminSlots <= |queue|
      modifies this
      ensures Valid(adminSlots) && |queue| == old(|queue|) && pushed == |queue| - adminSlots && poped == 0
      ensures adminSlotsInUse == old(adminSlotsInUse)
      ensures Content(adminSlots) == seq(|queue|, i => i) && forall k :: 0 <= k < |queue| ==> queue[k] == k
    {
      var i := 0;
      while i < |queue|
        invariant 0 <= i <= |queue| == old(|queue|) && forall k :: 0 <= k < i ==> queue[k] == k
        invariant poped == 0 && adminSlotsInUse == old(adminSlotsInUse)
      {
        queue := queue[i := i];
        i := i + 1;
      }
      EntriesFilled(queue);
      pushed := |queue| - adminSlots;
    }

    /** `push`: an administrator's slot given back loses its mark. */
    method Push(sid: nat, adminSlots: nat)
      requires Valid(adminSlots) && |Content(adminSlots)| < |queue|
      modifies this
      ensures Valid(adminSlots) && |queue| == old(|queue|) && pushed == old(pushed) + 1
      ensures forall k :: 0 <= k < |queue| ==>
                queue[k] == old(queue)[k] || queue[k] == if adminSlots > 0 && IsAdmin(sid) then ResetAdmin(sid) else sid
      ensures var returned := adminSlots > 0 && IsAdmin(sid);
              && Content(adminSlots) == old(Content(adminSlots)) + [if returned then ResetAdmin(sid) else sid]
              && adminSlotsInUse == if returned then Down(old(adminSlotsInUse)) else old(adminSlotsInUse)
    {
      var at := pushed + adminSlots;
      if adminSlots > 0 && IsAdmin(sid) {
        EntriesPush(queue, poped, at, ResetAdmin(sid));
        queue := queue[at % |queue| := ResetAdmin(sid)];
        adminSlotsInUse := Down(adminSlotsInUse);
        pushed := pushed + 1;
      } else {
        EntriesPush(queue, poped, at, sid);
        queue := queue[at % |queue| := sid];
        pushed := pushed + 1;
      }
    }

    /** `try_pop` for a normal request. The guard counts the administrators' slots in use, not the
        entries: with none left it may still pass, and the ring runs over its end. */
    method TryPop(ghost adminSlots: nat) returns (sid: Option<nat>)
      requires Valid(adminSlots)
      modifies this`poped
      ensures sid.Some? <==> old(poped) < pushed + adminSlotsInUse
      ensures sid.None? ==> poped == old(poped)
      ensures sid.Some? ==> poped == old(poped) + 1 && sid.value == Cell(queue, old(poped))
      ensures sid.Some? && old(Content(adminSlots)) == [] ==> !Valid(adminSlots)
      ensures old(Content(adminSlots)) != [] || sid.None? ==> Valid(adminSlots)
      ensures sid.Some? && old(Content(adminSlots)) != [] ==>
                sid.value == old(Content(adminSlots))[0] && Content(adminSlots) == old(Content(adminSlots))[1..]
    {
      if pushed + adminSlotsInUse <= poped {
        return None;
      }
      if poped < pushed + adminSlots {
        EntriesPop(queue, poped, pushed + adminSlots);
      }
      CellIs(queue, poped);
      sid := Some(queue[poped % |queue|]);
      poped := poped + 1;
    }

    /** `try_pop` for an administrator's request; the difference in its guard does not wrap around. */
    method TryPopAdmin(adminSlots: nat) returns (sid: Option<nat>)
      requires Valid(adminSlots) && adminSlotsInUse <= pushed + adminSlots
      modifies this`poped, this`adminSlotsInUse
      ensures Valid(adminSlots)
      ensures sid.Some? <==> old(poped) < pushed + (adminSlots - old(adminSlotsInUse))
      ensures sid.None? ==> poped == old(poped) && adminSlotsInUse == old(adminSlotsInUse)
      ensures sid.Some? ==>
                && adminSlotsInUse == Up(old(adminSlotsInUse))
                && old(Content(adminSlots)) != [] && sid.value == SetAdmin(old(Content(adminSlots))[0])
                && Content(adminSlots) == old(Content(adminSlots))[1..]
    {
      if pushed + (adminSlots - adminSlotsInUse) <= poped {
        return None;
      }
      EntriesPop(queue, poped, pushed + adminSlots);
      CellIs(queue, poped);
      sid := Some(SetAdmin(queue[poped % |queue|]));
      poped := poped + 1;
      adminSlotsInUse := Up(adminSlotsInUse);
    }

    /** `front`. */
    method Front() returns (sid: nat)
      requires Valid(0) && Content(0) != []
      ensures sid == Content(0)[0]
    {
      EntriesPop(queue, poped, pushed);
      CellIs(queue, poped);
      sid := queue[poped % |queue|];
    }

    /** `pop`. */
    method Pop()
      requires Valid(0) && Content(0) != []
      modifies this`poped
      ensures Valid(0) && Content(0) == old(Content(0))[1..]
    {
      EntriesPop(queue, poped, pushed);
      poped := poped + 1;
    }
  }

  // ----- The allocator -----

  /** The ring holds each free slot exactly once. */
  ghost predicate HoldsFree(free: seq<nat>, ps: seq<Place>) {
    && (forall i :: 0 <= i < |free| ==> free[i] < |ps| && ps[free[i]] == Free)
    && (forall i, j :: 0 <= i < j < |free| ==> free[i] != free[j])
    && (forall s :: 0 <= s < |ps| && ps[s] == Free ==> s in free)
  }

  function SidOf(slot: nat, admin: bool): nat {
    if admin then SetAdmin(slot) else slot
  }

  /** The ring holds each waiting slot exactly once, marked if it is an administrator's. */
  ghost predicate HoldsWaiting(waiting: seq<nat>, ps: seq<Place>) {
    && (forall i :: 0 <= i < |waiting| ==>
          ResetAdmin(waiting[i]) < |ps| && ps[ResetAdmin(waiting[i])] == Out(IsAdmin(waiting[i]), Waiting))
    && (forall i, j :: 0 <= i < j < |waiting| ==> ResetAdmin(waiting[i]) != ResetAdmin(waiting[j]))
    && (forall s :: 0 <= s < |ps| && ps[s].Out? && ps[s].stage == Waiting ==> SidOf(s, ps[s].admin) in waiting)
  }

  lemma FreeTaken(free: seq<nat>, ps: seq<Place>, admin: bool)
    requires HoldsFree(free, ps) && free != []
    ensures HoldsFree(free[1..], ps[free[0] := Out(admin, Moving)])
  {
    var ps' := ps[free[0] := Out(admin, Moving)];
    forall s | 0 <= s < |ps'| && ps'[s] == Free
      ensures s in free[1..]
    {
      assert s in free;
    }
  }

  lemma FreeGiven(free: seq<nat>, ps: seq<Place>, slot: nat)
    requires HoldsFree(free, ps) && slot < |ps| && ps[slot].Out?
    ensures HoldsFree(free + [slot], ps[slot := Free])
  {
  }

  lemma WaitingJoins(waiting: seq<nat>, ps: seq<Place>, sid: nat)
    requires HoldsWaiting(waiting, ps) && ResetAdmin(sid) < |ps| <= ADMIN_BIT && ps[ResetAdmin(sid)] == Out(IsAdmin(sid), Moving)
    ensures HoldsWaiting(waiting + [sid], ps[ResetAdmin(sid) := Out(IsAdmin(sid), Waiting)])
  {
    var slot := ResetAdmin(sid);
    var ps' := ps[slot := Out(IsAdmin(sid), Waiting)];
    forall s | 0 <= s < |ps'| && ps'[s].Out? && ps'[s].stage == Waiting
      ensures SidOf(s, ps'[s].admin) in waiting + [sid]
    {
      if s == slot {
        assert SidOf(slot, IsAdmin(sid)) == sid && (waiting + [sid])[|waiting|] == sid;
      }
    }
  }

  lemma WaitingLeaves(waiting: seq<nat>, ps: seq<Place>, stage: Stage)
    requires HoldsWaiting(waiting, ps) && waiting != [] && stage != Waiting && |ps| <= ADMIN_BIT
    ensures var sid := waiting[0];
            HoldsWaiting(waiting[1..], ps[ResetAdmin(sid) := Out(IsAdmin(sid), stage)])
  {
    var slot := ResetAdmin(waiting[0]);
    var ps' := ps[slot := Out(IsAdmin(waiting[0]), stage)];
    forall s | 0 <= s < |ps'| && ps'[s].Out? && ps'[s].stage == Waiting
      ensures SidOf(s, ps'[s].admin) in waiting[1..]
    {
      assert SidOf(s, ps[s].admin) in waiting && ResetAdmin(SidOf(s, ps[s].admin)) == s;
    }
  }

  /** A slot that stays out does not matter to the free ring. */
  lemma FreeKept(free: seq<nat>, ps: seq<Place>, slot: nat, p: Place)
    requires HoldsFree(free, ps) && slot < |ps| && ps[slot].Out? && p.Out?
    ensures HoldsFree(free, ps[slot := p])
  {
  }

  /** A slot that neither was nor will be waiting does not matter to the requested queue. */
  lemma WaitingKept(waiting: seq<nat>, ps: seq<Place>, slot: nat, p: Place)
    requires HoldsWaiting(waiting, ps) && slot < |ps| && !In(ps[slot], Waitings) && !In(p, Waitings)
    ensures HoldsWaiting(waiting, ps[slot := p])
  {
    var ps' := ps[slot := p];
    forall i | 0 <= i < |waiting|
      ensures ResetAdmin(waiting[i]) < |ps'| && ps'[ResetAdmin(waiting[i])] == Out(IsAdmin(waiting[i]), Waiting)
    {
      assert ResetAdmin(waiting[i]) != slot;
    }
  }

  lemma {:induction false} NoneFree(ps: seq<Place>, i: nat)
    requires i < |ps| && Count(ps, Frees) == 0
    ensures ps[i].Out?
  {
    if i < |ps| - 1 {
      NoneFree(ps[..|ps| - 1], i);
    }
  }

  // ----- Free ring and requested queue together -----

  /** What the counter of administrators' slots in use shows. */
  ghost function InUse(ps: seq<Place>): nat {
    Wrapped(Count(ps, Admins))
  }

  /** The rings hold exactly the free and the waiting slots, each once. */
  ghost predicate Sides(free: seq<nat>, waiting: seq<nat>, ps: seq<Place>) {
    && HoldsFree(free, ps) && |free| == Count(ps, Frees)
    && HoldsWaiting(waiting, ps) && |waiting| == Count(ps, Waitings)
  }

  /** The first free slot is taken. */
  lemma SlotTaken(free: seq<nat>, waiting: seq<nat>, ps: seq<Place>, admin: bool)
    requires Sides(free, waiting, ps) && free != []
    ensures free[0] < |ps| && ps[free[0]] == Free
    ensures var ps' := ps[free[0] := Out(admin, Moving)];
            && Sides(free[1..], waiting, ps')
            && Count(ps', Admins) == Count(ps, Admins) + (if admin then 1 else 0)
            && Count(ps', Normals) == Count(ps, Normals) + (if admin then 0 else 1)
            && InUse(ps') == if admin then Up(InUse(ps)) else InUse(ps)
  {
    var slot, p := free[0], Out(admin, Moving);
    WrappedUp(Count(ps, Admins));
    FreeTaken(free, ps, admin);
    WaitingKept(waiting, ps, slot, p);
    CountMoves(ps, slot, p, Frees);
    CountMoves(ps, slot, p, Normals);
    CountMoves(ps, slot, p, Admins);
    CountMoves(ps, slot, p, Waitings);
  }

  /** A slot on its way joins the requested queue. */
  lemma SlotSubmitted(free: seq<nat>, waiting: seq<nat>, ps: seq<Place>, sid: nat)
    requires Sides(free, waiting, ps) && ResetAdmin(sid) < |ps| <= ADMIN_BIT && ps[ResetAdmin(sid)] == Out(IsAdmin(sid), Moving)
    ensures var ps' := ps[ResetAdmin(sid) := Out(IsAdmin(sid), Waiting)];
            Sides(free, waiting + [sid], ps') && Count(ps', Admins) == Count(ps, Admins) && Count(ps', Normals) == Count(ps, Normals)
    ensures |waiting| < |ps|
  {
    var slot, p := ResetAdmin(sid), Out(IsAdmin(sid), Waiting);
    CountBelow(ps, slot, Waitings);
    WaitingJoins(waiting, ps, sid);
    FreeKept(free, ps, slot, p);
    CountMoves(ps, slot, p, Frees);
    CountMoves(ps, slot, p, Normals);
    CountMoves(ps, slot, p, Admins);
    CountMoves(ps, slot, p, Waitings);
  }

  /** The request in front leaves the queue. */
  lemma SlotAnswered(free: seq<nat>, waiting: seq<nat>, ps: seq<Place>, stage: Stage)
    requires Sides(free, waiting, ps) && waiting != [] && stage != Waiting && |ps| <= ADMIN_BIT
    ensures var slot, admin := ResetAdmin(waiting[0]), IsAdmin(waiting[0]);
            && slot < |ps| && ps[slot] == Out(admin, Waiting)
            && Sides(free, waiting[1..], ps[slot := Out(admin, stage)])
            && Count(ps[slot := Out(admin, stage)], Admins) == Count(ps, Admins)
  {
    var slot, p := ResetAdmin(waiting[0]), Out(IsAdmin(waiting[0]), stage);
    WaitingLeaves(waiting, ps, stage);
    FreeKept(free, ps, slot, p);
    CountMoves(ps, slot, p, Frees);
    CountMoves(ps, slot, p, Admins);
    CountMoves(ps, slot, p, Waitings);
  }

  /** A slot that is out and not waiting becomes free. */
  lemma SlotGiven(free: seq<nat>, waiting: seq<nat>, ps: seq<Place>, slot: nat)
    requires Sides(free, waiting, ps) && slot < |ps| && ps[slot].Out? && ps[slot].stage != Waiting
    ensures var ps' := ps[slot := Free];
            Sides(free + [slot], waiting, ps') && Count(ps', Admins) == Count(ps, Admins) - (if ps[slot].admin then 1 else 0)
    ensures InUse(ps[slot := Free]) == if ps[slot].admin then Down(InUse(ps)) else InUse(ps)
    ensures |free| < |ps|
  {
    CountBelow(ps, slot, Frees);
    if ps[slot].admin {
      WrappedUp(Count(ps[slot := Free], Admins));
    }
    FreeGiven(free, ps, slot);
    WaitingKept(waiting, ps, slot, Free);
    CountMoves(ps, slot, Free, Frees);
    CountMoves(ps, slot, Free, Admins);
    CountMoves(ps, slot, Free, Waitings);
  }

  /** Every cell of a ring, used or not, is the number of a slot. */
  ghost predicate AllSlots(queue: seq<nat>, n: nat) {
    forall k :: 0 <= k < |queue| ==> queue[k] < n
  }

  class Allocator {
    const n: nat
    const adminSlots: nat
    const free: IndexQueue
    const requested: IndexQueue
    ghost var places: seq<Place>

    /** Each slot is in exactly one place, and the free ring and the requested queue hold exactly the
        slots that are there. */
    ghost predicate Conserved()
      reads this, free, requested
    {
      && free != requested && |places| == n + adminSlots <= MAX_SLOTS && adminSlots <= 255
      && |free.queue| == |requested.queue| == n + adminSlots
      && free.Valid(adminSlots) && requested.Valid(0) && n <= free.pushed && AllSlots(free.queue, n + adminSlots)
      && Sides(free.Content(adminSlots), requested.Content(0), places)
      && free.adminSlotsInUse == InUse(places)
    }

    /** And no more administrators are out than slots set aside. */
    ghost predicate Valid()
      reads this, free, requested
    {
      Conserved() && Count(places, Admins) <= adminSlots
    }

    /** Slot `slot` alone changes its place. */
    twostate predicate Moves(slot: nat, from: Place, to: Place)
      reads this
    {
      slot < |old(places)| && old(places)[slot] == from && places == old(places)[slot := to]
    }

    constructor (n: nat, adminSlots: nat)
      requires 0 < n + adminSlots <= MAX_SLOTS && adminSlots <= 255
      ensures Valid() && this.n == n && this.adminSlots == adminSlots
      ensures Count(places, Frees) == n + adminSlots && Count(places, Normals) == Count(places, Admins) == 0
      ensures fresh(free) && fresh(requested)
    {
      this.n, this.adminSlots := n, adminSlots;
      free := new IndexQueue(n + adminSlots);
      requested := new IndexQueue(n + adminSlots);
      places := seq(n + adminSlots, _ => Free);
      new;
      free.Fill(adminSlots);
      AllFree(n + adminSlots, places);
      forall s | 0 <= s < |places|
        ensures s in free.Content(adminSlots)
      {
        assert free.Content(adminSlots)[s] == s;
      }
    }

    /** The number of slots a class has out is what the free ring lacks. */
    lemma FreeCount()
      requires Conserved()
      ensures free.pushed + adminSlots - free.poped == Count(places, Frees)
      ensures Count(places, Frees) == n + adminSlots - Count(places, Normals) - Count(places, Admins)
      ensures free.adminSlotsInUse <= free.pushed + adminSlots
      ensures free.poped < free.pushed + free.adminSlotsInUse <==>
              Count(places, Normals) + Count(places, Admins) < n + InUse(places)
      ensures free.poped < free.pushed + (adminSlots - free.adminSlotsInUse) <==>
              Count(places, Normals) + Count(places, Admins) + InUse(places) < n + adminSlots
    {
      CountsAddUp(places);
    }

    /** First half of `request`. Up to 255 administrators it succeeds exactly when fewer than `n` normal
        slots are out; with more, the counter has lost a multiple of 256. While the counter shows no more
        than the slots set aside it takes a free slot; beyond that, with no slot free, it hands out
        one that is out already. */
    method TakeNormal() returns (sid: Option<nat>)
      requires Conserved()
      modifies this, free
      ensures sid.Some? <==> Count(old(places), Normals) + Count(old(places), Admins) < n + InUse(old(places))
      ensures old(Valid()) ==> Valid()
      ensures sid.None? ==> Conserved() && places == old(places)
      ensures sid.Some? && InUse(old(places)) <= adminSlots ==> Count(old(places), Frees) > 0
      ensures sid.Some? && Count(old(places), Frees) > 0 ==> Conserved() && Moves(sid.value, Free, Out(false, Moving))
      ensures sid.Some? && Count(old(places), Frees) > 0 ==>
                Count(places, Normals) == Count(old(places), Normals) + 1 && Count(places, Admins) == Count(old(places), Admins)
      ensures sid.Some? && Count(old(places), Frees) == 0 ==>
                !Conserved() && places == old(places) && sid.value < |places| && places[sid.value].Out?
    {
      FreeCount();
      ghost var content := free.Content(adminSlots);
      sid := free.TryPop(adminSlots);
      if sid.Some? && content != [] {
        SlotTaken(content, requested.Content(0), places, false);
        places := places[sid.value := Out(false, Moving)];
      } else if sid.Some? {
        CellIs(free.queue, free.poped - 1);
        NoneFree(places, sid.value);
      }
    }

    /** First half of `request_admin`. */
    method TakeAdmin() returns (sid: Option<nat>)
      requires Conserved()
      modifies this, free
      ensures Conserved()
      ensures sid.Some? <==> Count(old(places), Normals) + Count(old(places), Admins) + InUse(old(places)) < n + adminSlots
      ensures sid.None? ==> places == old(places)
      ensures sid.Some? ==> IsAdmin(sid.value) && Moves(ResetAdmin(sid.value), Free, Out(true, Moving))
      ensures sid.Some? ==>
                Count(places, Admins) == Count(old(places), Admins) + 1 && Count(places, Normals) == Count(old(places), Normals)
    {
      FreeCount();
      ghost var content := free.Content(adminSlots);
      sid := free.TryPopAdmin(adminSlots);
      if sid.Some? {
        ghost var slot := content[0];
        SlotTaken(content, requested.Content(0), places, true);
        MarkedSlot(slot);
        places := places[slot := Out(true, Moving)];
      }
    }

    /** Second half of `request` and `request_admin`: the requested queue has room. */
    method Submit(sid: nat)
      requires Conserved() && ResetAdmin(sid) < |places| && places[ResetAdmin(sid)] == Out(IsAdmin(sid), Moving)
      modifies this, requested
      ensures Conserved() && Moves(ResetAdmin(sid), Out(IsAdmin(sid), Moving), Out(IsAdmin(sid), Waiting))
      ensures Count(places, Admins) == Count(old(places), Admins) && Count(places, Normals) == Count(old(places), Normals)
    {
      var slot := ResetAdmin(sid);
      SlotSubmitted(free.Content(adminSlots), requested.Content(0), places, sid);
      requested.Push(sid, 0);
      places := places[slot := Out(IsAdmin(sid), Waiting)];
    }

    /** `accept` of the request in front. */
    method Accept(sid: nat)
      requires Conserved() && requested.Content(0) != [] && sid == requested.Content(0)[0]
      modifies this, requested
      ensures Conserved() && Moves(ResetAdmin(sid), Out(IsAdmin(sid), Waiting), Out(IsAdmin(sid), Connected))
      ensures Count(places, Admins) == Count(old(places), Admins)
    {
      SlotAnswered(free.Content(adminSlots), requested.Content(0), places, Connected);
      requested.Pop();
      places := places[ResetAdmin(sid) := Out(IsAdmin(sid), Connected)];
    }

    /** First half of `reject` of the request in front. */
    method TakeRejected(sid: nat)
      requires Conserved() && requested.Content(0) != [] && sid == requested.Content(0)[0]
      modifies this, requested
      ensures Conserved() && Moves(ResetAdmin(sid), Out(IsAdmin(sid), Waiting), Out(IsAdmin(sid), Moving))
      ensures Count(places, Admins) == Count(old(places), Admins)
    {
      SlotAnswered(free.Content(adminSlots), requested.Content(0), places, Moving);
      requested.Pop();
      places := places[ResetAdmin(sid) := Out(IsAdmin(sid), Moving)];
    }

    /** `disconnect`, and the second half of `reject`: the free ring has room. With no slots set aside an
        administrator's slot comes back with its mark, which is no slot. */
    method GiveBack(sid: nat)
      requires Conserved() && ResetAdmin(sid) < |places|
      requires places[ResetAdmin(sid)] == Out(IsAdmin(sid), Connected) || places[ResetAdmin(sid)] == Out(IsAdmin(sid), Moving)
      modifies this, free
      ensures Moves(ResetAdmin(sid), old(places)[ResetAdmin(sid)], Free)
      ensures Conserved() <==> !(IsAdmin(sid) && adminSlots == 0)
      ensures Count(places, Admins) == Count(old(places), Admins) - (if IsAdmin(sid) then 1 else 0)
    {
      var slot := ResetAdmin(sid);
      ghost var content := free.Content(adminSlots);
      SlotGiven(content, requested.Content(0), places, slot);
      free.Push(sid, adminSlots);
      places := places[slot := Free];
      if IsAdmin(sid) && adminSlots == 0 {
        assert free.Content(adminSlots)[|content|] == sid;
      }
    }

    /** `request` as a whole, as long as there is a slot it may take. */
    method Request() returns (sid: Option<nat>)
      requires Conserved() && (InUse(places) <= adminSlots || Count(places, Frees) > 0)
      modifies this, free, requested
      ensures Conserved() && Count(places, Admins) == Count(old(places), Admins)
      ensures sid.Some? <==> Count(old(places), Normals) + Count(old(places), Admins) < n + InUse(old(places))
      ensures sid.None? ==> places == old(places)
      ensures sid.Some? ==> Moves(sid.value, Free, Out(false, Waiting)) && Count(places, Normals) == Count(old(places), Normals) + 1
    {
      sid := TakeNormal();
      if sid.Some? {
        Submit(sid.value);
        assert places == old(places)[sid.value := Out(false, Waiting)];
      }
    }

    /** `request_admin` as a whole. */
    method RequestAdmin() returns (sid: Option<nat>)
      requires Conserved()
      modifies this, free, requested
      ensures Conserved() && Count(places, Normals) == Count(old(places), Normals)
      ensures sid.Some? <==> Count(old(places), Normals) + Count(old(places), Admins) + InUse(old(places)) < n + adminSlots
      ensures sid.None? ==> places == old(places)
      ensures sid.Some? ==> IsAdmin(sid.value) && Moves(ResetAdmin(sid.value), Free, Out(true, Waiting))
      ensures sid.Some? ==> Count(places, Admins) == Count(old(places), Admins) + 1
    {
      sid := TakeAdmin();
      if sid.Some? {
        Submit(sid.value);
        assert places == old(places)[ResetAdmin(sid.value) := Out(true, Waiting)];
      }
    }

    /** `reject` as a whole. */
    method Reject(sid: nat)
      requires Conserved() && requested.Content(0) != [] && sid == requested.Content(0)[0]
      modifies this, free, requested
      ensures Moves(ResetAdmin(sid), Out(IsAdmin(sid), Waiting), Free)
      ensures Conserved() <==> !(IsAdmin(sid) && adminSlots == 0)
    {
      TakeRejected(sid);
      GiveBack(sid);
      assert places == old(places)[ResetAdmin(sid) := Free];
    }
  }

  // ----- Administrators -----

  /** The guard of `request_admin` is not "an administrator slot is free": with one normal slot and
      two set aside, the second administrator is refused once the normal slot is out. */
  method AdminRefusedThoughSlotFree() returns (q: Allocator, second: Option<nat>)
    ensures second.None?
    ensures q.Valid() && Count(q.places, Admins) < q.adminSlots && Count(q.places, Frees) == 1
  {
    q := new Allocator(1, 2);
    var first := q.Request();
    var admin := q.RequestAdmin();
    q.FreeCount();
    second := q.RequestAdmin();
  }

  /** With the counter above the slots set aside, normal requests alone end with one that hands out a
      slot that is out already. */
  method TooManyAdmins(q: Allocator) returns (sid: nat)
    requires q.Conserved() && InUse(q.places) > q.adminSlots
    modifies q, q.free, q.requested
    ensures !q.Conserved() && sid < |q.places| && q.places[sid].Out?
  {
    q.FreeCount();
    while q.free.poped < q.free.pushed + q.adminSlots
      invariant q.Conserved() && InUse(q.places) > q.adminSlots
      decreases Count(q.places, Frees)
    {
      q.FreeCount();
      var taken := q.Request();
      q.FreeCount();
    }
    q.FreeCount();
    var last := q.TakeNormal();
    sid := last.value;
  }

  /** With the counter within them, normal requests alone never do, however many. */
  method NormalRequestsAreSafe(q: Allocator, requests: nat)
    requires q.Conserved() && InUse(q.places) <= q.adminSlots
    modifies q, q.free, q.requested
    ensures q.Conserved() && Count(q.places, Admins) == Count(old(q.places), Admins)
  {
    for i := 0 to requests
      invariant q.Conserved() && Count(q.places, Admins) == Count(old(q.places), Admins)
    {
      var taken := q.Request();
    }
  }

  /** The counter does get there: with three normal slots and one set aside, two administrators pass the guard. */
  method TwoAdminsForOneSlot() returns (q: Allocator, sid: nat)
    ensures q.n == 3 && q.adminSlots == 1 && !q.Conserved() && sid < |q.places| && q.places[sid].Out?
  {
    q := new Allocator(3, 1);
    var first := q.RequestAdmin();
    var second := q.RequestAdmin();
    sid := TooManyAdmins(q);
  }

  /** 520 normal slots and one set aside, with `admins` administrators let in. */
  method ManyAdmins(admins: nat) returns (q: Allocator)
    requires admins <= 262
    ensures fresh(q) && fresh(q.free) && fresh(q.requested) && q.n == 520 && q.adminSlots == 1
    ensures q.Conserved() && Count(q.places, Admins) == admins && Count(q.places, Normals) == 0
  {
    q := new Allocator(520, 1);
    for i := 0 to admins
      invariant fresh(q) && fresh(q.free) && fresh(q.requested) && q.n == 520 && q.adminSlots == 1
      invariant q.Conserved() && Count(q.places, Admins) == i && Count(q.places, Normals) == 0
    {
      var sid := q.RequestAdmin();
    }
  }

  /** The counter wraps: with 261 administrators out it shows 5, and one more passes the guard, although
      twice the administrators exceed all slots. */
  method CounterLetsAdminIn() returns (q: Allocator, sid: Option<nat>)
    ensures sid.Some? && q.n + q.adminSlots == 521 && Count(q.places, Admins) == 262 && Count(q.places, Normals) == 0
  {
    q := ManyAdmins(261);
    sid := q.RequestAdmin();
  }

  /** And with 256 out it shows none: normal requests stop after 264, with fewer than `n` normal slots
      out and one slot free. */
  method CounterKeepsNormalOut() returns (q: Allocator, sid: Option<nat>)
    ensures sid.None? && Count(q.places, Admins) == 256 && Count(q.places, Normals) == 264 < q.n && Count(q.places, Frees) == 1
  {
    q := ManyAdmins(256);
    for i := 0 to 264
      invariant fresh(q) && fresh(q.free) && fresh(q.requested) && q.n == 520 && q.adminSlots == 1
      invariant q.Conserved() && Count(q.places, Admins) == 256 && Count(q.places, Normals) == i
    {
      var taken := q.Request();
    }
    q.FreeCount();
    sid := q.Request();
  }
}
