/** The periodic notifier and the fairness it gives `try_local_and_sticky`. */
module Notifier {

  // ----- The counter as a sequence of calls -----

  /** One call: the new counter, and whether it notifies. */
  function Up(n: nat, p: nat, current: nat): (nat, bool) {
    if current + n >= p then (current + n - p, true) else (current + n, false)
  }

  /** The counter after `k` calls from a fresh start. */
  function Counter(n: nat, p: nat, k: nat): nat
    requires n <= p && 0 < p
  {
    if k == 0 then 0 else Up(n, p, Counter(n, p, k - 1)).0
  }

  /** How many of the calls `from`, `from + 1`, ..., before `to` notify. */
  function Notifications(n: nat, p: nat, from: nat, until: nat): nat
    requires n <= p && 0 < p && from <= until
    decreases until
  {
    if from == until then 0
    else Notifications(n, p, from, until - 1) + (if Up(n, p, Counter(n, p, until - 1)).1 then 1 else 0)
  }

  lemma CallArithmetic(n: nat, p: nat, k: nat, a: nat, before: nat, x: nat)
    requires x + p * before == a + n * k
    ensures x + n + p * before == a + n * (k + 1) && x + n - p + p * (before + 1) == a + n * (k + 1)
  {
    assert n * (k + 1) == n * k + n;
    assert p * (before + 1) == p * before + p;
  }

  /** Together with the notifications, the counter accounts for every call. */
  lemma {:induction false} Accounts(n: nat, p: nat, from: nat, until: nat)
    requires 0 < n <= p && from <= until
    ensures Counter(n, p, until) + p * Notifications(n, p, from, until) == Counter(n, p, from) + n * (until - from)
    decreases until
  {
    if from < until {
      Accounts(n, p, from, until - 1);
      CallArithmetic(n, p, until - 1 - from, Counter(n, p, from), Notifications(n, p, from, until - 1), Counter(n, p, until - 1));
    }
  }

  lemma {:induction false} CounterBelow(n: nat, p: nat, k: nat)
    requires 0 < n <= p
    ensures Counter(n, p, k) < p
  {
    if k > 0 {
      CounterBelow(n, p, k - 1);
    }
  }

  lemma FloorArithmetic(n: nat, p: nat, k: nat, q: nat, r: nat)
    requires 0 < p && r < p && r + p * q == n * k
    ensures k * n / p == q && k * n % p == r
  {
    var x := k * n;
    var d: int := x / p - q;
    assert p * d == r - x % p;
    assert d >= 1 ==> p * d >= p;
    assert d <= -1 ==> p * d <= -1 * p;
  }

  /** After `k` calls the notifier has notified exactly `floor(k * n / p)` times. */
  lemma FloorLaw(n: nat, p: nat, k: nat)
    requires 0 < n <= p
    ensures Notifications(n, p, 0, k) == k * n / p && Counter(n, p, k) == k * n % p
  {
    Accounts(n, p, 0, k);
    CounterBelow(n, p, k);
    FloorArithmetic(n, p, k, Notifications(n, p, 0, k), Counter(n, p, k));
  }

  lemma PeriodArithmetic(n: nat, p: nat, a: nat, b: nat, m: nat)
    requires a < p && b < p && b + p * m == a + n * p
    ensures m == n
  {
    var d: int := m - n;
    assert p * d == a - b;
    assert d >= 1 ==> p * d >= p;
    assert d <= -1 ==> p * d <= -1 * p;
  }

  /** Any `p` consecutive calls notify exactly `n` times. */
  lemma EveryPeriod(n: nat, p: nat, from: nat)
    requires 0 < n <= p
    ensures Notifications(n, p, from, from + p) == n
  {
    Accounts(n, p, from, from + p);
    CounterBelow(n, p, from);
    CounterBelow(n, p, from + p);
    PeriodArithmetic(n, p, Counter(n, p, from), Counter(n, p, from + p), Notifications(n, p, from, from + p));
  }

  // ----- The object -----

  class PeriodicNotifier {
    var notifications: nat
    var period: nat
    var current: nat
    /** The calls since `init`. */
    ghost var calls: nat

    ghost predicate Valid()
      reads this
    {
      0 < notifications <= period && current == Counter(notifications, period, calls)
    }

    constructor (notifications: nat, period: nat)
      requires 0 < notifications <= period
      ensures Valid() && this.notifications == notifications && this.period == period && calls == 0
    {
      this.notifications, this.period, current, calls := notifications, period, 0, 0;
    }

    method Init(notifications: nat, period: nat)
      requires 0 < notifications <= period
      modifies this
      ensures Valid() && this.notifications == notifications && this.period == period && calls == 0
    {
      this.notifications, this.period, current, calls := notifications, period, 0, 0;
    }

    /** Notifies exactly when the floor of `calls * notifications / period` goes up. */
    method CountUp() returns (notified: bool)
      requires Valid()
      modifies this
      ensures Valid() && notifications == old(notifications) && period == old(period) && calls == old(calls) + 1
      ensures notified <==> calls * notifications / period == old(calls) * notifications / period + 1
      ensures !notified <==> calls * notifications / period == old(calls) * notifications / period
    {
      FloorLaw(notifications, period, calls);
      FloorLaw(notifications, period, calls + 1);
      current := current + notifications;
      if current >= period {
        current := current - period;
        notified := true;
      } else {
        notified := false;
      }
      calls := calls + 1;
    }
  }

  // ----- Fairness of `try_local_and_sticky` -----

  datatype Ran<T> = Local(task: T) | Sticky(task: T) | Nothing

  /** What one call runs, and what it leaves in the queues. */
  function TryLocalAndSticky<T>(notified: bool, q: seq<T>, sq: seq<T>): (Ran<T>, seq<T>, seq<T>) {
    if notified && q != [] then (Local(q[0]), q[1..], sq)
    else if sq != [] then (Sticky(sq[0]), q, sq[1..])
    else if q != [] then (Local(q[0]), q[1..], sq)
    else (Nothing, q, sq)
  }

  class Queues<T(!new, 0)> {
    var local: seq<T>
    var sticky: seq<T>

    constructor ()
    {
      local, sticky := [], [];
    }

    /** `try_process` on the local queue. */
    method TryLocal() returns (ok: bool, task: T)
      modifies this
      ensures ok <==> old(local) != []
      ensures ok ==> task == old(local)[0] && local == old(local)[1..]
      ensures !ok ==> local == old(local)
      ensures sticky == old(sticky)
    {
      ok := local != [];
      if ok {
        task, local := local[0], local[1..];
      } else {
        task := *;
      }
    }

    /** `try_process` on the sticky queue. */
    method TrySticky() returns (ok: bool, task: T)
      modifies this
      ensures ok <==> old(sticky) != []
      ensures ok ==> task == old(sticky)[0] && sticky == old(sticky)[1..]
      ensures !ok ==> sticky == old(sticky)
      ensures local == old(local)
    {
      ok := sticky != [];
      if ok {
        task, sticky := sticky[0], sticky[1..];
      } else {
        task := *;
      }
    }

    /** `try_local_and_sticky`: call number `calls` looks at the local queue first exactly when it notifies. */
    method TryBoth(notifier: PeriodicNotifier) returns (ran: Ran<T>)
      requires notifier.Valid()
      modifies this, notifier
      ensures notifier.Valid() && notifier.calls == old(notifier.calls) + 1
      ensures notifier.notifications == old(notifier.notifications) && notifier.period == old(notifier.period)
      ensures var notified := Up(notifier.notifications, notifier.period, old(notifier.current)).1;
              (ran, local, sticky) == TryLocalAndSticky(notified, old(local), old(sticky))
    {
      var task;
      var ok;
      FloorLaw(notifier.notifications, notifier.period, notifier.calls);
      FloorLaw(notifier.notifications, notifier.period, notifier.calls + 1);
      var notified := notifier.CountUp();
      if !notified {
        ok, task := TrySticky();
        if ok {
          return Sticky(task);
        }
        ok, task := TryLocal();
        if ok {
          return Local(task);
        }
      } else {
        ok, task := TryLocal();
        if ok {
          return Local(task);
        }
        ok, task := TrySticky();
        if ok {
          return Sticky(task);
        }
      }
      ran := Nothing;
    }
  }

  /** What the calls `from`, `from + 1`, ... run when call number `from + i` finds the queues `qs[i]` and `sqs[i]`. */
  function Runs<T>(n: nat, p: nat, from: nat, qs: seq<seq<T>>, sqs: seq<seq<T>>): (r: seq<Ran<T>>)
    requires n <= p && 0 < p && |qs| == |sqs|
    ensures |r| == |qs|
  {
    seq(|qs|, i requires 0 <= i < |qs| => TryLocalAndSticky(Up(n, p, Counter(n, p, from + i)).1, qs[i], sqs[i]).0)
  }

  function Locals<T>(rs: seq<Ran<T>>): nat {
    if rs == [] then 0 else Locals(rs[..|rs| - 1]) + (if rs[|rs| - 1].Local? then 1 else 0)
  }

  lemma {:induction false} LocalsAreNotified<T>(n: nat, p: nat, from: nat, qs: seq<seq<T>>, sqs: seq<seq<T>>)
    requires 0 < n <= p && |qs| == |sqs|
    requires forall i :: 0 <= i < |qs| ==> qs[i] != [] && sqs[i] != []
    ensures Locals(Runs(n, p, from, qs, sqs)) == Notifications(n, p, from, from + |qs|)
    decreases |qs|
  {
    if qs != [] {
      var m := |qs| - 1;
      LocalsAreNotified(n, p, from, qs[..m], sqs[..m]);
      assert Runs(n, p, from, qs, sqs)[..m] == Runs(n, p, from, qs[..m], sqs[..m]);
    }
  }

  /** With both queues kept non-empty, whatever they hold, exactly `n` of any `p` consecutive calls
      run a local task. */
  lemma Fairness<T>(n: nat, p: nat, from: nat, qs: seq<seq<T>>, sqs: seq<seq<T>>)
    requires 0 < n <= p && |qs| == |sqs| == p
    requires forall i :: 0 <= i < p ==> qs[i] != [] && sqs[i] != []
    ensures Locals(Runs(n, p, from, qs, sqs)) == n
  {
    LocalsAreNotified(n, p, from, qs, sqs);
    EveryPeriod(n, p, from);
  }
}
