/** Octet strings as numbers. */
module Octets {
  import opened Ring
  import opened Base128v

  function P256(k: nat): nat {
    if k == 0 then 1 else 256 * P256(k - 1)
  }

  lemma {:induction false} P256Positive(k: nat)
    ensures P256(k) > 0
  {
    if k > 0 {
      P256Positive(k - 1);
    }
  }

  lemma {:induction false} P256Add(a: nat, b: nat)
    ensures P256(a + b) == P256(a) * P256(b)
  {
    if a > 0 {
      P256Add(a - 1, b);
      assert P256(a) * P256(b) == 256 * (P256(a - 1) * P256(b));
    }
  }

  lemma P256IsWord()
    ensures P256(8) == TWO64 && 128 * P256(7) == TWO63 && P256(16) == TWO64 * TWO64
  {
    assert P256(4) == 0x1_0000_0000;
    P256Add(4, 4);
    P256Add(8, 8);
    assert P256(8) == 256 * P256(7);
  }

  /** Octet `j` of `n`, counted from the low end: `(n >> (8 * j)) & 0xff`. */
  function Octet(n: nat, j: nat): byte
    decreases j
  {
    if j == 0 then n % 256 else Octet(n / 256, j - 1)
  }

  /** The low `k` octets of `n`, high end first. */
  function BigEndian(n: nat, k: nat): (bs: seq<byte>)
    ensures |bs| == k
    decreases k
  {
    if k == 0 then [] else BigEndian(n / 256, k - 1) + [n % 256]
  }

  function Number(bs: seq<byte>): nat {
    if bs == [] then 0 else 256 * Number(bs[..|bs| - 1]) + bs[|bs| - 1]
  }

  lemma {:induction false} BigEndianAt(n: nat, k: nat, j: nat)
    requires j < k
    ensures BigEndian(n, k)[k - 1 - j] == Octet(n, j)
    decreases k
  {
    if j > 0 {
      BigEndianAt(n / 256, k - 1, j - 1);
    }
  }

  lemma {:induction false} NumberBelow(bs: seq<byte>)
    ensures Number(bs) < P256(|bs|)
  {
    if bs != [] {
      NumberBelow(bs[..|bs| - 1]);
    }
  }

  /** The octets of a number that fits denote it. */
  lemma {:induction false} NumberOfBigEndian(n: nat, k: nat)
    requires n < P256(k)
    ensures Number(BigEndian(n, k)) == n
  {
    if k > 0 {
      NumberOfBigEndian(n / 256, k - 1);
      assert BigEndian(n, k)[..k - 1] == BigEndian(n / 256, k - 1);
    }
  }

  /** Only the low octets of a number matter. */
  lemma {:induction false} BigEndianLow(n: nat, hi: nat, k: nat)
    ensures BigEndian(hi * P256(k) + n, k) == BigEndian(n, k)
  {
    if k > 0 {
      var x := hi * P256(k - 1);
      assert hi * P256(k) == 256 * x;
      assert (256 * x + n) / 256 == x + n / 256 && (256 * x + n) % 256 == n % 256;
      BigEndianLow(n / 256, hi, k - 1);
    }
  }

  lemma {:induction false} NumberConcat(a: seq<byte>, b: seq<byte>)
    ensures Number(a + b) == Number(a) * P256(|b|) + Number(b)
  {
    if b == [] {
      assert a + b == a;
    } else {
      var b' := b[..|b| - 1];
      assert (a + b)[..|a + b| - 1] == a + b';
      NumberConcat(a, b');
      assert Number(a) * P256(|b|) == 256 * (Number(a) * P256(|b'|));
    }
  }

  /** The top bit says whether the number reaches half of its range. */
  lemma {:induction false} TopBit(bs: seq<byte>)
    requires bs != []
    ensures bs[0] >= 128 <==> Number(bs) >= 128 * P256(|bs| - 1)
  {
    var front := bs[..|bs| - 1];
    if front == [] {
      assert Number(front) == 0 && P256(0) == 1;
    } else {
      TopBit(front);
      assert front[0] == bs[0];
    }
  }

  /** Octets of a two-word number. */
  lemma {:induction false} OctetOfWords(hi: nat, lo: nat, m: nat, j: nat)
    requires lo < P256(m)
    ensures Octet(hi * P256(m) + lo, j) == if j < m then Octet(lo, j) else Octet(hi, j - m)
    decreases m
  {
    if m == 0 {
      assert hi * P256(m) + lo == hi;
    } else {
      var x := hi * P256(m - 1);
      assert hi * P256(m) == 256 * x;
      assert (256 * x + lo) / 256 == x + lo / 256 && (256 * x + lo) % 256 == lo % 256;
      if j > 0 {
        OctetOfWords(hi, lo / 256, m - 1, j - 1);
      }
    }
  }

  /** The top octet bounds the number. */
  lemma {:induction false} TopOctet(n: nat, m: nat)
    requires n < P256(m + 1)
    ensures Octet(n, m) * P256(m) <= n < (Octet(n, m) + 1) * P256(m)
    decreases m
  {
    if m > 0 {
      TopOctet(n / 256, m - 1);
      var o, p := Octet(n, m), P256(m - 1);
      assert o * P256(m) == 256 * (o * p) && (o + 1) * P256(m) == 256 * ((o + 1) * p);
    }
  }

  /** Complementing a number complements its octets. */
  lemma {:induction false} OctetOfComplement(n: nat, k: nat, j: nat)
    requires n < P256(k) && j < k
    ensures Octet(P256(k) - 1 - n, j) == 255 - Octet(n, j)
    decreases j
  {
    var p := P256(k - 1);
    assert (256 * p - 1 - n) / 256 == p - 1 - n / 256 && (256 * p - 1 - n) % 256 == 255 - n % 256;
    if j > 0 {
      OctetOfComplement(n / 256, k - 1, j - 1);
    }
  }
}
