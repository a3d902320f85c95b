/** Bytes, stream positions and the ring buffer they are mapped onto. */
module Ring {

  type byte = b: int | 0 <= b < 256

  /** The byte a ring holds for stream position `i`. */
  function At(buf: seq<byte>, i: nat): byte
    requires |buf| > 0
  {
    buf[i % |buf|]
  }

  /** The ring after byte `b` is stored for stream position `i`. */
  function Put(buf: seq<byte>, i: nat, b: byte): (r: seq<byte>)
    requires |buf| > 0
    ensures |r| == |buf|
  {
    buf[i % |buf| := b]
  }

  /** The ring holds positions `lo..hi` of `stream`. */
  ghost predicate Holds(buf: seq<byte>, stream: seq<byte>, lo: nat, hi: nat)
    requires |buf| > 0
  {
    hi <= |stream| && forall i: nat :: lo <= i < hi ==> At(buf, i) == stream[i]
  }

  function Min(a: int, b: int): int {
    if a > b then b else a
  }

  /** Two different positions less than one turn apart use different cells. */
  lemma CellsDiffer(a: nat, b: nat, cap: nat)
    requires cap > 0
    requires a != b && a < b + cap && b < a + cap
    ensures a % cap != b % cap
  {
    var q: int := a / cap - b / cap;
    assert a - b == cap * q + (a % cap - b % cap);
    if q > 0 {
      assert cap * q >= cap;
    } else if q < 0 {
      assert cap * q <= -1 * cap;
    }
  }

  /** Storing at position `i` leaves every other position within one turn alone. */
  lemma PutKeeps(buf: seq<byte>, i: nat, b: byte, lo: nat, hi: nat)
    requires |buf| > 0
    requires i < lo + |buf| && hi <= i + |buf|
    ensures At(Put(buf, i, b), i) == b
    ensures forall j: nat :: lo <= j < hi && j != i ==> At(Put(buf, i, b), j) == At(buf, j)
  {
    forall j: nat | lo <= j < hi && j != i
      ensures At(Put(buf, i, b), j) == At(buf, j)
    {
      CellsDiffer(i, j, |buf|);
    }
  }

  lemma DivModUnique(x: nat, cap: nat, q: nat, r: nat)
    requires cap > 0 && r < cap && x == cap * q + r
    ensures x / cap == q && x % cap == r
  {
    var d: int := x / cap - q;
    assert cap * d == r - x % cap;
    assert d >= 1 ==> cap * d >= cap;
    assert d <= -1 ==> cap * d <= -1 * cap;
  }

  /** The cell of position `n + k`, without the modulus. */
  lemma OffsetCell(n: nat, k: nat, cap: nat)
    requires 0 <= k < cap
    ensures (n + k) % cap == if n % cap + k < cap then n % cap + k else n % cap + k - cap
  {
    var r := if n % cap + k < cap then n % cap + k else n % cap + k - cap;
    var q := if n % cap + k < cap then n / cap else n / cap + 1;
    assert n + k == cap * q + r;
    DivModUnique(n + k, cap, q, r);
  }
}
