/** Number theory used by the clearance circuit: remainders, primes and little-endian bits. */
module Arithmetic {

  /** The number of 64-bit values. */
  const U64: int := 0x1_0000_0000_0000_0000

  /** The only multiple of m strictly between -m and m is zero. */
  lemma MultipleInRange(d: int, m: int)
    requires m > 0 && -m < d * m < m
    ensures d == 0
  {
  }

  /** Remainders are unique. */
  lemma RemainderUnique(a: int, m: int, k: int, t: int)
    requires m > 0 && 0 <= t < m && a == k * m + t
    ensures a % m == t
  {
    var d := a / m - k;
    assert d * m == t - a % m by {
      assert a == (a / m) * m + a % m;
      assert d * m == (a / m) * m - k * m;
    }
    MultipleInRange(d, m);
  }

  lemma Multiple(k: int, m: int)
    requires m > 0
    ensures (k * m) % m == 0
  {
    RemainderUnique(k * m, m, k, 0);
  }

  /** Congruence is equality of remainders. */
  lemma Congruent(a: int, b: int, m: int)
    requires m > 0
    ensures (a - b) % m == 0 <==> a % m == b % m
  {
    var d := a / m - b / m;
    assert a - b == d * m + (a % m - b % m) by {
      assert a == (a / m) * m + a % m && b == (b / m) * m + b % m;
      assert d * m == (a / m) * m - (b / m) * m;
    }
    if a % m >= b % m {
      RemainderUnique(a - b, m, d, a % m - b % m);
    } else {
      assert a - b == (d - 1) * m + (m + a % m - b % m);
      RemainderUnique(a - b, m, d - 1, m + a % m - b % m);
    }
  }

  /** A factor may be reduced before a product is. */
  lemma ModProduct(a: int, b: int, m: int)
    requires m > 0
    ensures ((a % m) * b) % m == (a * b) % m
    ensures (a * (b % m)) % m == (a * b) % m
  {
    assert a == (a / m) * m + a % m && b == (b / m) * m + b % m;
    assert a * b - (a % m) * b == ((a / m) * b) * m;
    assert a * b - a * (b % m) == ((b / m) * a) * m;
    Multiple((a / m) * b, m);
    Multiple((b / m) * a, m);
    Congruent(a * b, (a % m) * b, m);
    Congruent(a * b, a * (b % m), m);
  }

  ghost predicate Prime(p: int) {
    p > 1 && forall d :: 1 < d < p ==> p % d != 0
  }

  /** Modular inverses below a prime, by the descent a -> p mod a. */
  lemma Inverse(a: int, p: int) returns (x: int, k: int)
    requires Prime(p) && 0 < a < p
    ensures a * x == 1 + k * p
    decreases a
  {
    if a == 1 {
      x, k := 1, 0;
    } else {
      var q, t := p / a, p % a;
      var y, j := Inverse(t, p);
      x, k := -q * y, j - y;
      calc {
        a * x;
        -(a * q) * y;
        { assert a * q == p - t; }
        -(p - t) * y;
        t * y - p * y;
        1 + j * p - y * p;
        1 + k * p;
      }
    }
  }

  /** Euclid's lemma. */
  lemma Euclid(a: int, b: int, p: int)
    requires Prime(p) && (a * b) % p == 0
    ensures a % p == 0 || b % p == 0
  {
    if a % p != 0 {
      var x, k := Inverse(a % p, p);
      ModProduct(a, b, p);
      Cancel(a % p, x, k, b, ((a % p) * b) / p, p);
    }
  }

  lemma Cancel(a: int, x: int, k: int, b: int, q: int, p: int)
    requires p > 0 && a * x == 1 + k * p && a * b == q * p
    ensures b % p == 0
  {
    calc {
      b;
      (a * x - k * p) * b;
      (a * b) * x - (k * b) * p;
      (q * x - k * b) * p;
    }
    Multiple(q * x - k * b, p);
  }

  /** There are no zero divisors modulo a prime. */
  lemma ProductZero(a: int, b: int, p: int)
    requires Prime(p)
    ensures (a * b) % p == 0 <==> a % p == 0 || b % p == 0
  {
    if a % p == 0 {
      Multiple((a / p) * b, p);
      assert a * b == ((a / p) * b) * p by { assert a == (a / p) * p; }
    } else if b % p == 0 {
      Multiple(a * (b / p), p);
      assert a * b == (a * (b / p)) * p by { assert b == (b / p) * p; }
    } else if (a * b) % p == 0 {
      Euclid(a, b, p);
    }
  }

  /** Only 0 and 1 are idempotent modulo a prime. */
  lemma BooleanRoots(b: int, p: int)
    requires Prime(p) && 0 <= b < p
    ensures ((1 - b) * b) % p == 0 <==> b == 0 || b == 1
  {
    if b > 1 {
      RemainderUnique(1 - b, p, -1, p + 1 - b);
      RemainderUnique(b, p, 0, b);
      if ((1 - b) * b) % p == 0 {
        Euclid(1 - b, b, p);
      }
    } else {
      assert (1 - b) * b == 0;
    }
  }

  function Pow2(n: nat): (v: nat)
    ensures v > 0
  {
    if n == 0 then 1 else 2 * Pow2(n - 1)
  }

  lemma {:induction false} Pow2Sum(a: nat, b: nat)
    ensures Pow2(a + b) == Pow2(a) * Pow2(b)
  {
    if a > 0 { Pow2Sum(a - 1, b); }
  }

  lemma Pow2Is64()
    ensures Pow2(64) == U64
  {
    assert Pow2(8) == 256;
    Pow2Sum(8, 8);
    Pow2Sum(16, 16);
    Pow2Sum(32, 32);
  }

  predicate Bits(s: seq<int>) {
    forall i :: 0 <= i < |s| ==> s[i] == 0 || s[i] == 1
  }

  /** The number whose little-endian digits start at position k of s. */
  function High(s: seq<int>, k: nat): (v: int)
    requires k <= |s|
    decreases |s| - k
  {
    if k == |s| then 0 else s[k] + 2 * High(s, k + 1)
  }

  function BitsToNat(s: seq<int>): (v: int) { High(s, 0) }

  /** The n little-endian bits of v. */
  function ToBits(v: nat, n: nat): (s: seq<int>)
    ensures |s| == n && Bits(s)
    decreases n
  {
    if n == 0 then [] else [v % 2] + ToBits(v / 2, n - 1)
  }

  lemma HighTail(s: seq<int>, k: nat)
    requires 0 < |s| && k < |s|
    ensures High(s[1..], k) == High(s, k + 1)
    decreases |s| - k
  {
    if k + 1 < |s| { HighTail(s, k + 1); }
  }

  lemma {:induction false} ToBitsValue(v: nat, n: nat)
    requires v < Pow2(n)
    ensures BitsToNat(ToBits(v, n)) == v
  {
    if n > 0 {
      ToBitsValue(v / 2, n - 1);
      HighTail(ToBits(v, n), 0);
      assert ToBits(v, n)[1..] == ToBits(v / 2, n - 1);
    }
  }

  lemma {:induction false} BitsBound(s: seq<int>)
    requires Bits(s)
    ensures 0 <= BitsToNat(s) < Pow2(|s|)
  {
    if s != [] {
      BitsBound(s[1..]);
      HighTail(s, 0);
    }
  }

  /** Bits are determined by their value. */
  lemma {:induction false} BitsUnique(s: seq<int>, n: nat)
    requires Bits(s) && |s| == n
    ensures BitsToNat(s) >= 0 && s == ToBits(BitsToNat(s), n)
  {
    BitsBound(s);
    if n > 0 {
      BitsUnique(s[1..], n - 1);
      HighTail(s, 0);
      assert BitsToNat(s) / 2 == BitsToNat(s[1..]);
      assert s == [s[0]] + s[1..];
    }
  }

  /** Comparing the high parts of two bit strings decides the comparison. */
  lemma {:induction false} HighOrder(s: seq<int>, t: seq<int>, k: nat)
    requires Bits(s) && Bits(t) && |s| == |t| && k <= |s|
    requires High(s, k) > High(t, k)
    ensures BitsToNat(s) > BitsToNat(t)
  {
    if k > 0 { HighOrder(s, t, k - 1); }
  }
}
