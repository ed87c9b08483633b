/**
 The bit operations of the C sources on natural numbers: bitwise conjunction, powers
 of two and population count, with the identities the code relies on.
 */
module Bits {

  function Pow2(k: nat): (p: nat)
    ensures p >= 1
  {
    if k == 0 then 1 else 2 * Pow2(k - 1)
  }

  /** `x & y`, bit by bit. */
  function And(x: nat, y: nat): nat {
    if x == 0 || y == 0 then 0 else (if x % 2 == 1 && y % 2 == 1 then 1 else 0) + 2 * And(x / 2, y / 2)
  }

  /** The number of one bits, `__builtin_popcount`. */
  function PopCount(x: nat): nat {
    if x == 0 then 0 else x % 2 + PopCount(x / 2)
  }

  ghost predicate IsPow2(n: nat) {
    exists k :: Power(n, k)
  }

  predicate Power(n: nat, k: nat) {
    n == Pow2(k)
  }

  /** Masking with a power of two less one is the remainder. */
  lemma {:induction false} AndMask(x: nat, k: nat)
    ensures And(x, Pow2(k) - 1) == x % Pow2(k)
  {
    if k == 0 {
      Remainder(x, 1, x, 0);
    } else {
      AndMask(x / 2, k - 1);
      AndMaskDoubles(x, Pow2(k - 1));
    }
  }

  lemma AndMaskDoubles(x: nat, p: nat)
    requires p > 0 && And(x / 2, p - 1) == x / 2 % p
    ensures And(x, 2 * p - 1) == x % (2 * p)
  {
    AndLowest(x, p);
    HalfRemainder(x, p);
  }

  lemma AndLowest(x: nat, p: nat)
    requires p > 0
    ensures And(x, 2 * p - 1) == x % 2 + 2 * And(x / 2, p - 1)
  {
    assert (2 * p - 1) / 2 == p - 1 && (2 * p - 1) % 2 == 1;
  }

  /** Splitting off the lowest bit commutes with taking a remainder. */
  lemma HalfRemainder(x: nat, p: nat)
    requires p > 0
    ensures x % (2 * p) == x % 2 + 2 * (x / 2 % p)
  {
    var q, r := Division(x / 2, p);
    assert 2 * p * q == 2 * (p * q);
    Remainder(x, 2 * p, q, 2 * r + x % 2);
  }

  lemma {:induction false} MulGap(d: nat, a: nat, b: nat)
    ensures a < b ==> d * a + d <= d * b
    decreases b
  {
    if a < b {
      assert d * b == d * (b - 1) + d;
      MulGap(d, a, b - 1);
    }
  }

  lemma Remainder(x: nat, d: nat, q: nat, r: nat)
    requires x == d * q + r && r < d
    ensures x % d == r && x / d == q
  {
    MulGap(d, x / d, q);
    MulGap(d, q, x / d);
  }

  /** Quotient and remainder, as the facts a proof needs. */
  lemma Division(x: nat, n: nat) returns (q: nat, r: nat)
    requires n > 0
    ensures x == n * q + r && r < n && x % n == r && x / n == q
  {
    q, r := x / n, x % n;
  }

  lemma MulStep(n: nat, q: nat)
    ensures n * (q + 1) == n * q + n
  {
  }

  /** Counting up modulo `n`. */
  lemma ModStep(i: nat, n: nat)
    requires n > 0
    ensures (i % n + 1) % n == (i + 1) % n
  {
    var q, r := Division(i, n);
    if r + 1 < n {
      Remainder(i + 1, n, q, r + 1);
      Remainder(r + 1, n, 0, r + 1);
    } else {
      MulStep(n, q);
      Remainder(i + 1, n, q + 1, 0);
      Remainder(n, n, 1, 0);
    }
  }

  lemma OddIsNoPower(n: nat)
    requires n > 1 && n % 2 == 1
    ensures !IsPow2(n)
  {
    forall k: nat ensures !Power(n, k) {
      if k > 0 {
        assert Pow2(k) == 2 * Pow2(k - 1);
      }
    }
  }

  lemma HalvedPower(n: nat)
    requires n > 1 && n % 2 == 0
    ensures IsPow2(n) <==> IsPow2(n / 2)
  {
    if k: nat :| Power(n / 2, k) {
      assert Power(n, k + 1);
    }
    if k: nat :| Power(n, k) {
      assert k > 0 && Power(n / 2, k - 1);
    }
  }

  /** A number shares no bit with its predecessor exactly when it is a power of two. */
  lemma {:induction false} AndPredecessor(n: nat)
    requires n > 0
    ensures And(n, n - 1) == 0 <==> IsPow2(n)
  {
    if n == 1 {
      assert Power(1, 0);
    } else if n % 2 == 1 {
      // n and n - 1 agree above the lowest bit.
      assert (n - 1) / 2 == n / 2;
      AndSelf(n / 2);
      OddIsNoPower(n);
    } else {
      assert (n - 1) / 2 == n / 2 - 1;
      AndPredecessor(n / 2);
      HalvedPower(n);
    }
  }

  lemma {:induction false} AndSelf(x: nat)
    ensures And(x, x) == x
  {
    if x > 0 {
      AndSelf(x / 2);
    }
  }

  lemma {:induction false} Pow2Adds(j: nat, k: nat)
    ensures Pow2(j + k) == Pow2(j) * Pow2(k)
  {
    if j > 0 {
      Pow2Adds(j - 1, k);
      assert j + k - 1 == j - 1 + k;
    }
  }

  lemma Pow2Of32()
    ensures Pow2(32) == 0x1_0000_0000
  {
    assert Pow2(4) == 16;
    Pow2Adds(4, 4);
    Pow2Adds(8, 8);
    Pow2Adds(16, 16);
  }

  lemma {:induction false} Pow2Monotone(j: nat, k: nat)
    requires j < k
    ensures Pow2(j) < Pow2(k)
  {
    if j + 1 < k {
      Pow2Monotone(j, k - 1);
    }
  }

  lemma Regroup(d: nat, m: nat, q: nat, p: nat)
    ensures d * m * q + d * p == d * (m * q + p)
  {
    assert d * m * q == d * (m * q);
  }

  /** A remainder by a multiple of `d` keeps the remainder by `d`. */
  lemma ModMod(x: nat, w: nat, d: nat, m: nat)
    requires w == d * m && w > 0 && d > 0
    ensures x % w % d == x % d
  {
    var q, r := Division(x, w);
    var p, t := Division(r, d);
    Regroup(d, m, q, p);
    Remainder(x, d, m * q + p, t);
  }
}
