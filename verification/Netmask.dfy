/**
 IPv4 netmask arithmetic (vpn/common/inc/utils.h, vpn/common/src/net_iface.c and
 vpn/common/src/tun.c), on host-order 32-bit words; CIDR prefixes as in section 3.1
 of RFC 4632.
 */
module Netmask {
  import opened Common
  import opened Bits

  const ADDRESSES: nat := 0x1_0000_0000

  /** `~m` on 32 bits. */
  function Inverted(m: nat): nat
    requires m < ADDRESSES
  {
    ADDRESSES - 1 - m
  }

  /** `validate_mask` */
  predicate ValidateMask(m: nat)
    requires m < ADDRESSES
  {
    m == 0 || And((Inverted(m) + 1) % ADDRESSES, Inverted(m)) == 0
  }

  /** `mask_to_prefix` */
  function MaskToPrefix(m: nat): int
    requires m < ADDRESSES
  {
    if ValidateMask(m) then PopCount(m) else -EINVAL
  }

  /** The mask the interface code computes from a prefix length. */
  function PrefixToMask(k: nat): nat
    requires k <= 32
  {
    if k == 0 then 0 else (ADDRESSES - 1) * Pow2(32 - k) % ADDRESSES
  }

  /** `~mask + 1` on 32 bits: the number of addresses, except that /0 wraps to zero. */
  function PoolSize(m: nat): nat
    requires m < ADDRESSES
  {
    (Inverted(m) + 1) % ADDRESSES
  }

  /** The mask with `k` leading ones. */
  function Mask(k: nat): (m: nat)
    requires k <= 32
    ensures m < ADDRESSES
  {
    PowersOfTwo(32 - k);
    ADDRESSES - Pow2(32 - k)
  }

  lemma PowersOfTwo(j: nat)
    requires j <= 32
    ensures Pow2(32) == ADDRESSES && 1 <= Pow2(j) <= ADDRESSES
    ensures j < 32 ==> Pow2(j) < ADDRESSES
  {
    Pow2Of32();
    if j < 32 {
      Pow2Monotone(j, 32);
    }
  }

  /** The test of `validate_mask`, in terms of the number of addresses below the mask. */
  lemma ValidateIsAnd(m: nat, n: nat)
    requires 0 < m < ADDRESSES && n == ADDRESSES - m
    ensures ValidateMask(m) <==> And(n, n - 1) == 0
  {
    SmallRemainder(n, ADDRESSES);
  }

  /** `validate_mask` accepts exactly the thirty-three contiguous masks. */
  lemma ValidExactly(m: nat)
    requires m < ADDRESSES
    ensures ValidateMask(m) <==> exists k :: 0 <= k <= 32 && m == Mask(k)
  {
    if m == 0 {
      PowersOfTwo(32);
      assert m == Mask(0);
    } else {
      var n := ADDRESSES - m;
      ValidateIsAnd(m, n);
      AndPredecessor(n);
      if IsPow2(n) {
        var j: nat :| Power(n, j);
        SmallPower(j);
        assert m == Mask(32 - j);
      }
      if k :| 0 <= k <= 32 && m == Mask(k) {
        assert Power(n, 32 - k);
      }
    }
  }

  lemma SmallPower(j: nat)
    requires Pow2(j) < ADDRESSES
    ensures j < 32
  {
    PowersOfTwo(32);
    if j > 32 {
      Pow2Monotone(32, j);
    }
  }

  lemma PopCountDouble(z: nat)
    ensures PopCount(2 * z) == PopCount(z)
  {
  }

  lemma {:induction false} PopCountShift(j: nat, x: nat, z: nat)
    requires z == Pow2(j) * x
    ensures PopCount(z) == PopCount(x)
    decreases j
  {
    if j > 0 {
      var half := Pow2(j - 1) * x;
      Twice(Pow2(j - 1), x);
      PopCountDouble(half);
      PopCountShift(j - 1, x, half);
    }
  }

  lemma {:induction false} PopCountOnes(k: nat)
    ensures PopCount(Pow2(k) - 1) == k
  {
    if k > 0 {
      PopCountOnes(k - 1);
      assert (Pow2(k) - 1) / 2 == Pow2(k - 1) - 1 && (Pow2(k) - 1) % 2 == 1;
    }
  }

  lemma Distribute(a: nat, b: nat)
    requires b > 0
    ensures a * (b - 1) == a * b - a
  {
  }

  /** A contiguous mask is a block of ones, shifted. */
  lemma MaskIsShifted(k: nat)
    requires k <= 32
    ensures Mask(k) == Pow2(32 - k) * (Pow2(k) - 1)
  {
    PowersOfTwo(32);
    Pow2Adds(32 - k, k);
    Distribute(Pow2(32 - k), Pow2(k));
  }

  /** All ones, shifted left by a power of two, modulo the word. */
  lemma ShiftedOnes(p: nat)
    requires 0 < p <= ADDRESSES
    ensures (ADDRESSES - 1) * p % ADDRESSES == (ADDRESSES - p) % ADDRESSES
  {
    if p < ADDRESSES {
      Remainder((ADDRESSES - 1) * p, ADDRESSES, p - 1, ADDRESSES - p);
    }
  }

  lemma PrefixToMaskIs(k: nat)
    requires k <= 32
    ensures PrefixToMask(k) == Mask(k)
  {
    PowersOfTwo(32 - k);
    if k > 0 {
      ShiftedOnes(Pow2(32 - k));
    }
  }

  lemma MaskToPrefixIs(k: nat)
    requires k <= 32
    ensures ValidateMask(Mask(k)) && MaskToPrefix(Mask(k)) == k
  {
    ValidExactly(Mask(k));
    MaskIsShifted(k);
    PopCountShift(32 - k, Pow2(k) - 1, Mask(k));
    PopCountOnes(k);
  }

  /** Prefix length to mask and back, and what each function returns on the way. */
  lemma PrefixRoundTrip(k: nat)
    requires k <= 32
    ensures PrefixToMask(k) == Mask(k) && ValidateMask(Mask(k)) && MaskToPrefix(Mask(k)) == k
    ensures PoolSize(Mask(k)) == if k == 0 then 0 else Pow2(32 - k)
  {
    PrefixToMaskIs(k);
    MaskToPrefixIs(k);
    PoolSizeIs(k);
  }

  lemma PoolSizeIs(k: nat)
    requires k <= 32
    ensures PoolSize(Mask(k)) == if k == 0 then 0 else Pow2(32 - k)
  {
    PowersOfTwo(32 - k);
    if k > 0 {
      SmallRemainder(Pow2(32 - k), ADDRESSES);
    }
  }

  /** Mask to prefix length and back, for every accepted mask. */
  lemma MaskRoundTrip(m: nat)
    requires m < ADDRESSES && ValidateMask(m)
    ensures 0 <= MaskToPrefix(m) <= 32 && PrefixToMask(MaskToPrefix(m)) == m
  {
    ValidExactly(m);
    var k :| 0 <= k <= 32 && m == Mask(k);
    PrefixRoundTrip(k);
  }

  /** Every other mask is answered with an error. */
  lemma PrefixExactly(m: nat)
    requires m < ADDRESSES
    ensures MaskToPrefix(m) >= 0 <==> exists k :: 0 <= k <= 32 && m == Mask(k)
    ensures MaskToPrefix(m) < 0 ==> MaskToPrefix(m) == -22
  {
    ValidExactly(m);
  }

  /** The number of whole blocks of size `p` before `x`. */
  function Quot(x: nat, p: nat): (q: nat)
    requires p > 0
    ensures p * q <= x < p * q + p
  {
    x / p
  }

  lemma Twice(p: nat, a: nat)
    ensures 2 * p * a == 2 * (p * a)
  {
  }

  lemma AndDouble(x: nat, z: nat)
    ensures And(x, 2 * z) == 2 * And(x / 2, z)
  {
  }

  lemma QuotIsUnique(x: nat, p: nat, q: nat)
    requires p > 0 && p * q <= x < p * q + p
    ensures Quot(x, p) == q
  {
    MulGap(p, q, Quot(x, p));
    MulGap(p, Quot(x, p), q);
  }

  lemma HalfQuotient(x: nat, p: nat)
    requires p > 0
    ensures Quot(x / 2, p) == Quot(x, 2 * p)
  {
    var q := Quot(x / 2, p);
    Twice(p, q);
    QuotIsUnique(x, 2 * p, q);
  }

  /** Masking with a word shifted by `p`, a power of two, masks the high part and clears the low one. */
  lemma {:induction false} AndShift(x: nat, j: nat, y: nat, p: nat, z: nat)
    requires p > 0 && p == Pow2(j) && z == p * y
    ensures And(x, z) == p * And(Quot(x, p), y)
    decreases j
  {
    if j == 0 {
      QuotIsUnique(x, 1, x);
    } else {
      var p' := Pow2(j - 1);
      var high := And(Quot(x / 2, p'), y);
      AndShift(x / 2, j - 1, y, p', p' * y);
      AndDouble(x, p' * y);
      Twice(p', y);
      HalfQuotient(x, p');
      Twice(p', high);
    }
  }

  lemma MaskedSmall(q: nat, k: nat)
    requires q < Pow2(k)
    ensures And(q, Pow2(k) - 1) == q
  {
    AndMask(q, k);
    SmallRemainder(q, Pow2(k));
  }

  lemma SmallRemainder(q: nat, n: nat)
    requires q < n
    ensures q % n == q
  {
  }

  /** The network address is aligned, so the subnet never runs past the last address. */
  lemma NetIsAligned(ip: nat, k: nat)
    requires ip < ADDRESSES && k <= 32
    ensures var net := And(ip, Mask(k));
            net == Pow2(32 - k) * Quot(ip, Pow2(32 - k)) && net <= ip < net + Pow2(32 - k) <= ADDRESSES
  {
    var p, m := Pow2(32 - k), Pow2(k);
    var q := Quot(ip, p);
    PowersOfTwo(32);
    Pow2Adds(32 - k, k);
    assert p * m == ADDRESSES;
    MulGap(p, m, q);
    assert q < m;
    MulGap(p, q, m);
    MaskIsShifted(k);
    AndShift(ip, 32 - k, m - 1, p, Mask(k));
    MaskedSmall(q, k);
  }

  /** Counting through the subnet never wraps. */
  lemma SubnetFits(ip: nat, k: nat)
    requires ip < ADDRESSES && k <= 32
    ensures And(ip, Mask(k)) + PoolSize(Mask(k)) <= ADDRESSES
  {
    NetIsAligned(ip, k);
    PrefixRoundTrip(k);
  }
}
