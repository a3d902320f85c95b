/** The cyclic searches over workers: for a suspended worker to give a task to, and for a queue to
    steal from. */
module WorkerChoice {

  function Next(i: nat, n: nat): nat {
    if i == n - 1 then 0 else i + 1
  }

  /** The worker reached from `base` in `d` steps. */
  function Nth(base: nat, d: nat, n: nat): nat {
    if d == 0 then base else Next(Nth(base, d - 1, n), n)
  }

  lemma {:induction false} NthIs(base: nat, d: nat, n: nat)
    requires base < n && d <= n
    ensures Nth(base, d, n) == if base + d < n then base + d else base + d - n
  {
    if d > 0 {
      NthIs(base, d - 1, n);
    }
  }

  /** `n` steps visit every worker exactly once and end where they began. */
  lemma CycleVisitsAll(base: nat, n: nat, k: nat)
    requires base < n && k < n
    ensures Nth(base, n, n) == base
    ensures var d := if k >= base then k - base else k + n - base;
            d < n && Nth(base, d, n) == k && forall e: nat :: e < n && Nth(base, e, n) == k ==> e == d
  {
    NthIs(base, n, n);
    var d := if k >= base then k - base else k + n - base;
    NthIs(base, d, n);
    forall e: nat | e < n && Nth(base, e, n) == k
      ensures e == d
    {
      NthIs(base, e, n);
    }
  }

  /** Worker `base + d` of the cycle as it is at look number `d`: what is looked at may change between looks. */
  predicate SeenAt(looks: seq<seq<bool>>, base: nat, d: nat)
    requires base < |looks| && d < |looks| && forall e :: 0 <= e < |looks| ==> |looks[e]| == |looks|
  {
    NthIs(base, d, |looks|);
    looks[d][Nth(base, d, |looks|)]
  }

  ghost predicate Square(looks: seq<seq<bool>>) {
    forall e :: 0 <= e < |looks| ==> |looks[e]| == |looks|
  }

  /** None of the first `d` looks found anything. */
  ghost predicate NoneOf(looks: seq<seq<bool>>, base: nat, d: nat)
    requires base < |looks| && d <= |looks| && Square(looks)
  {
    forall e: nat :: e < d ==> !SeenAt(looks, base, e)
  }

  /** `cur` is where the first look that found something was. */
  ghost predicate FirstFound(looks: seq<seq<bool>>, base: nat, cur: nat)
    requires base < |looks| && Square(looks)
  {
    exists d: nat :: d < |looks| && cur == Nth(base, d, |looks|) && SeenAt(looks, base, d) && NoneOf(looks, base, d)
  }

  /** The cycle is left only after as many looks as there are workers. */
  lemma GoOn(base: nat, d: nat, n: nat)
    requires base < n && d < n
    ensures Nth(base, d, n) < n && Nth(base, d + 1, n) < n && (Nth(base, d + 1, n) == base <==> d + 1 == n)
  {
    NthIs(base, d, n);
    NthIs(base, d + 1, n);
  }

  /** With nothing changing, a search that finds nothing means that there is nothing. */
  lemma NoneAtAll(wanted: seq<bool>, looks: seq<seq<bool>>, base: nat)
    requires |looks| == |wanted| && (forall e :: 0 <= e < |looks| ==> looks[e] == wanted) && base < |wanted|
    requires NoneOf(looks, base, |looks|)
    ensures forall k :: 0 <= k < |wanted| ==> !wanted[k]
  {
    forall k | 0 <= k < |wanted|
      ensures !wanted[k]
    {
      CycleVisitsAll(base, |wanted|, k);
      var d: nat := if k >= base then k - base else k + |wanted| - base;
      assert !SeenAt(looks, base, d);
    }
  }

  /** The search of `select_worker`, where `suspended[d]` is which workers are suspended at its look number
      `d`: the first one found suspended after `index` in cyclic order, or the one right after it if
      none is. */
  method SelectWorker(suspended: seq<seq<bool>>, index: nat) returns (cur: nat)
    requires index < |suspended| && Square(suspended)
    ensures if NoneOf(suspended, Next(index, |suspended|), |suspended|) then cur == Next(index, |suspended|)
            else FirstFound(suspended, Next(index, |suspended|), cur)
  {
    var n := |suspended|;
    var base := Next(index, n);
    cur := base;
    var d := 0;
    while true
      invariant 0 <= d < n && cur == Nth(base, d, n) < n && NoneOf(suspended, base, d)
      decreases n - d
    {
      if suspended[d][cur] {
        assert SeenAt(suspended, base, d);
        return;
      }
      GoOn(base, d, n);
      cur := Next(cur, n);
      d := d + 1;
      if cur == base {
        return;
      }
    }
  }

  /** The search of `steal_and_execute`, where `filled[d]` is which queues hold tasks at its look number `d`: the first
      one found non-empty after `last` in cyclic order; it fails exactly if none was. */
  method FindVictim(filled: seq<seq<bool>>, last: nat) returns (found: bool, idx: nat)
    requires last < |filled| && Square(filled)
    ensures found <==> !NoneOf(filled, Next(last, |filled|), |filled|)
    ensures found ==> FirstFound(filled, Next(last, |filled|), idx)
  {
    var n := |filled|;
    var end := Next(last, n);
    idx := end;
    var d := 0;
    while true
      invariant 0 <= d < n && idx == Nth(end, d, n) < n && NoneOf(filled, end, d)
      decreases n - d
    {
      if filled[d][idx] {
        assert SeenAt(filled, end, d);
        return true, idx;
      }
      GoOn(end, d, n);
      idx := Next(idx, n);
      d := d + 1;
      if idx == end {
        return false, idx;
      }
    }
  }
}
