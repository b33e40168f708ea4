/** Magnitudes as little-endian limbs: the value of a limb sequence, how many
    bits it needs, and why the limbs below a shift decide the value. */
module BignumLimbs {
  import opened Powers

  /** The number whose limbs, least significant first, are s. */
  function Val(s: seq<nat>, base: nat): nat {
    if |s| == 0 then 0 else Val(s[..|s| - 1], base) + Pow(base, |s| - 1) * s[|s| - 1]
  }

  predicate Limbs(s: seq<nat>, base: nat) {
    forall i :: 0 <= i < |s| ==> s[i] < base
  }

  /** How many bits the magnitude n needs; one for zero, as in GMP. */
  function Bits(n: nat): (bits: nat)
    ensures 1 <= bits
  {
    if n < 2 then 1 else 1 + Bits(n / 2)
  }

  /** The position of the lowest bit set. */
  function LowestBit(n: nat): nat
    requires 0 < n
  {
    if n % 2 == 1 then 0 else 1 + LowestBit(n / 2)
  }

  /** A shift by one limb at a time is a power of the limb base. */
  lemma {:induction false} ShiftIsPow(bits: nat, i: nat)
    ensures bits * i >= 0
    ensures Pow(2, bits * i) == Pow(Pow(2, bits), i)
  {
    if i > 0 {
      ShiftIsPow(bits, i - 1);
      assert bits * i == bits + bits * (i - 1);
      PowSum(2, bits, bits * (i - 1));
    }
  }

  lemma {:induction false} ValBound(s: seq<nat>, base: nat)
    requires 0 < base && Limbs(s, base)
    ensures Val(s, base) < Pow(base, |s|)
  {
    if |s| > 0 {
      var n := |s| - 1;
      ValBound(s[..n], base);
      Times(Pow(base, n), s[n], base - 1);
      assert Pow(base, n) * (base - 1) == Pow(base, n) * base - Pow(base, n);
    }
  }

  lemma ValSnoc(s: seq<nat>, limb: nat, base: nat)
    ensures Val(s + [limb], base) == Val(s, base) + Pow(base, |s|) * limb
  {
    assert (s + [limb])[..|s|] == s;
  }

  /** The low limbs make up no more than the whole. */
  lemma {:induction false} ValPrefix(s: seq<nat>, i: nat, base: nat)
    requires i <= |s|
    ensures Val(s[..i], base) <= Val(s, base)
  {
    if i == |s| {
      assert s[..i] == s;
    } else {
      var n := |s| - 1;
      ValPrefix(s[..n], i, base);
      assert s[..n][..i] == s[..i];
      assert Pow(base, n) * s[n] >= 0;
    }
  }

  /** Splitting a value at its top limb gives back that limb and the rest, so
      limbs of one length and one value are the same limbs. */
  lemma {:induction false} ValUnique(s: seq<nat>, t: seq<nat>, base: nat)
    requires 0 < base && Limbs(s, base) && Limbs(t, base)
    requires |s| == |t| && Val(s, base) == Val(t, base)
    ensures s == t
  {
    if |s| > 0 {
      var n := |s| - 1;
      ValBound(s[..n], base);
      ValBound(t[..n], base);
      TopLimb(Pow(base, n), s[n], Val(s[..n], base), t[n], Val(t[..n], base));
      ValUnique(s[..n], t[..n], base);
      assert s == s[..n] + [s[n]];
      assert t == t[..n] + [t[n]];
    }
  }

  /** A larger top limb makes a larger number, whatever is below. */
  lemma TopDecides(p: nat, x: nat, low: nat, y: nat, low': nat)
    requires low < p && x < y
    ensures low + p * x < low' + p * y
  {
    Times(p, x + 1, y);
    assert p * (x + 1) == p * x + p;
  }

  lemma TopLimb(p: nat, x: nat, low: nat, y: nat, low': nat)
    requires low < p && low' < p && low + p * x == low' + p * y
    ensures x == y && low == low'
  {
    if x < y {
      TopDecides(p, x, low, y, low');
    } else if y < x {
      TopDecides(p, y, low', x, low);
    }
  }

  /** Without a zero on top, a number of n limbs is at least base^(n-1). */
  lemma TopNonzero(s: seq<nat>, base: nat)
    requires |s| > 0 && s[|s| - 1] > 0
    ensures Pow(base, |s| - 1) <= Val(s, base)
  {
    Times(Pow(base, |s| - 1), 1, s[|s| - 1]);
  }

  /** Two numbers without leading zeros and of equal value have the same limbs. */
  lemma LimbsUnique(s: seq<nat>, t: seq<nat>, base: nat)
    requires 0 < base && Limbs(s, base) && Limbs(t, base) && Val(s, base) == Val(t, base)
    requires |s| > 0 ==> s[|s| - 1] > 0
    requires |t| > 0 ==> t[|t| - 1] > 0
    ensures s == t
  {
    if |s| < |t| {
      LongerIsLarger(s, t, base);
    } else if |t| < |s| {
      LongerIsLarger(t, s, base);
    } else {
      ValUnique(s, t, base);
    }
  }

  lemma LongerIsLarger(s: seq<nat>, t: seq<nat>, base: nat)
    requires 0 < base && Limbs(s, base) && |s| < |t| && t[|t| - 1] > 0
    ensures Val(s, base) < Val(t, base)
  {
    ValBound(s, base);
    TopNonzero(t, base);
    PowMonotone(base, |s|, |t| - 1);
  }

  /** The bit count is the least number of bits that holds n. */
  lemma {:induction false} BitsExact(n: nat)
    ensures n < Pow(2, Bits(n))
    ensures n > 0 ==> Pow(2, Bits(n) - 1) <= n
  {
    assert Pow(2, 1) == 2 * Pow(2, 0);
    if n >= 2 {
      BitsExact(n / 2);
      assert Pow(2, Bits(n)) == 2 * Pow(2, Bits(n / 2));
      assert Pow(2, Bits(n) - 1) == 2 * Pow(2, Bits(n / 2) - 1);
    }
  }

  /** At most k bits are needed exactly by the numbers below 2^k. */
  lemma BitsFit(n: nat, k: nat)
    requires 0 < k
    ensures Bits(n) <= k <==> n < Pow(2, k)
  {
    BitsExact(n);
    if Bits(n) <= k {
      PowMonotone(2, Bits(n), k);
    } else if n > 0 {
      PowMonotone(2, k, Bits(n) - 1);
    }
  }

  /** Only the power itself has its lowest set bit at the top. */
  lemma {:induction false} LowestIsTop(n: nat, k: nat)
    requires Pow(2, k) <= n < Pow(2, k + 1)
    ensures 0 < n
    ensures LowestBit(n) == k <==> n == Pow(2, k)
  {
    PowPositive(2, k);
    if k > 0 {
      PowPositive(2, k - 1);
      if n % 2 == 0 {
        LowestIsTop(n / 2, k - 1);
      }
    }
  }
}
