/** get_random_limb_lim and get_random_bignum over a stream of raw random limbs:
    the loops follow the automaton of RandomLimbs, draw for draw. */
module BignumRandom {
  import opened Powers
  import opened BignumLimbs
  import opened BignumConvert
  import opened RandomLimbs

  /** The random source: limbs that have not been drawn yet, first one next.
      A run that needs more of them than there are stops undecided. */
  class Draws {
    var pending: seq<nat>

    constructor (raw: seq<nat>)
      ensures pending == raw
    {
      pending := raw;
    }

    /** get_random_limb. */
    method Limb() returns (ok: bool, raw: nat)
      modifies this
      ensures ok <==> old(pending) != []
      ensures ok ==> old(pending) == [raw] + pending
      ensures !ok ==> pending == []
    {
      if |pending| == 0 {
        return false, 0;
      }
      ok, raw := true, pending[0];
      pending := pending[1..];
    }

    /** get_random_limb_lim: redraws until a raw limb is accepted. */
    method LimbBelow(lim: nat, base: nat) returns (ok: bool, value: nat, ghost used: seq<nat>)
      requires lim < base
      modifies this
      ensures old(pending) == used + pending
      ensures ok ==> (
          |used| > 0 && AllRejected(used[..|used| - 1], lim, base)
          && Accepts(used[|used| - 1], lim, base) && value == Reduced(used[|used| - 1], lim))
      ensures !ok ==> AllRejected(used, lim, base) && pending == []
    {
      var difflim := (base - lim) % base;
      Negated(lim, base);
      used := [];
      value := 0;
      while true
        invariant old(pending) == used + pending
        invariant AllRejected(used, lim, base)
        decreases |pending|
      {
        var raw;
        ok, raw := Limb();
        if !ok {
          return;
        }
        ghost var rejected := used;
        used := used + [raw];
        assert used[..|used| - 1] == rejected;
        if lim == 0 {
          value := raw;
          return;
        }
        value := raw % lim;
        var diff := raw - value;
        if diff <= difflim {
          return;
        }
      }
    }
  }

  lemma Negated(lim: nat, base: nat)
    requires lim < base
    ensures (base - lim) % base == if lim == 0 then 0 else base - lim
  {
  }

  predicate AllRejected(raws: seq<nat>, lim: nat, base: nat) {
    forall i :: 0 <= i < |raws| ==> !Accepts(raws[i], lim, base)
  }

  /** Rejected raw limbs leave the sampler where it is. */
  lemma {:induction false} RejectedStay(before: seq<nat>, raws: seq<nat>, lim: seq<nat>, base: nat)
    requires Limit(lim, base) && Run(before, lim, base) == Head
    requires AllRejected(raws, HeadLimit(lim, base), base)
    ensures Run(before + raws, lim, base) == Head
  {
    if |raws| == 0 {
      assert before + raws == before;
    } else {
      var n := |raws| - 1;
      RejectedStay(before, raws[..n], lim, base);
      RunSnoc(before + raws[..n], raws[n], lim, base);
      assert before + raws == (before + raws[..n]) + [raws[n]];
    }
  }

  /** The draws for the most significant limb. */
  lemma HeadDraws(before: seq<nat>, used: seq<nat>, lim: seq<nat>, base: nat)
    requires Limit(lim, base) && Run(before, lim, base) == Head && |used| > 0
    requires AllRejected(used[..|used| - 1], HeadLimit(lim, base), base)
    requires Accepts(used[|used| - 1], HeadLimit(lim, base), base)
    ensures Run(before + used, lim, base) == At(Reduced(used[|used| - 1], HeadLimit(lim, base)) == lim[|lim| - 1],
        [Reduced(used[|used| - 1], HeadLimit(lim, base))], lim)
  {
    hide Limit, HeadLimit, Accepts, Reduced;
    var n := |used| - 1;
    RejectedStay(before, used[..n], lim, base);
    RunSnoc(before + used[..n], used[n], lim, base);
    assert before + used == (before + used[..n]) + [used[n]];
  }

  /** A draw for a lower limb: broken off, or one limb further. */
  lemma TailDraw(before: seq<nat>, raw: nat, edgy: bool, high: seq<nat>, lim: seq<nat>, base: nat)
    requires Limit(lim, base) && |high| < |lim| && Run(before, lim, base) == Tail(edgy, high)
    ensures Run(before + [raw], lim, base) ==
        if edgy && lim[|lim| - 1 - |high|] < raw then Head
        else At(edgy && lim[|lim| - 1 - |high|] == raw, [raw] + high, lim)
  {
    RunSnoc(before, raw, lim, base);
  }

  /** What has been drawn leads to the limbs above position i of the array. */
  ghost predicate Following(drawn: seq<nat>, edgy: bool, high: seq<nat>, lim: seq<nat>, base: nat)
    requires Limit(lim, base)
  {
    |high| <= |lim| && Run(drawn, lim, base) == At(edgy, high, lim)
  }

  lemma TailFollows(drawn: seq<nat>, raw: nat, edgy: bool, high: seq<nat>, lim: seq<nat>, base: nat)
    requires Limit(lim, base) && |high| < |lim| && Following(drawn, edgy, high, lim, base)
    ensures edgy && lim[|lim| - 1 - |high|] < raw ==> Run(drawn + [raw], lim, base) == Head
    ensures !(edgy && lim[|lim| - 1 - |high|] < raw) ==>
        Following(drawn + [raw], edgy && lim[|lim| - 1 - |high|] == raw, [raw] + high, lim, base)
  {
    TailDraw(drawn, raw, edgy, high, lim, base);
  }

  lemma HeadFollows(before: seq<nat>, used: seq<nat>, value: nat, lim: seq<nat>, base: nat)
    requires Limit(lim, base) && Run(before, lim, base) == Head && |used| > 0
    requires AllRejected(used[..|used| - 1], HeadLimit(lim, base), base)
    requires Accepts(used[|used| - 1], HeadLimit(lim, base), base)
    requires value == Reduced(used[|used| - 1], HeadLimit(lim, base))
    ensures Following(before + used, value == lim[|lim| - 1], [value], lim, base)
  {
    HeadDraws(before, used, lim, base);
  }

  /** With every limb drawn, the attempt is accepted unless it is still edgy. */
  lemma AllDrawn(drawn: seq<nat>, edgy: bool, high: seq<nat>, lim: seq<nat>, base: nat)
    requires Limit(lim, base) && Following(drawn, edgy, high, lim, base) && |high| == |lim|
    ensures Run(drawn, lim, base) == if edgy then Head else Done(high)
  {
  }

  /** Stopping between two draws of an attempt. */
  lemma NotYet(drawn: seq<nat>, edgy: bool, high: seq<nat>, lim: seq<nat>, base: nat)
    requires Limit(lim, base) && Following(drawn, edgy, high, lim, base) && |high| < |lim|
    ensures Undecided(drawn, lim, base)
  {
  }

  predicate Undecided(drawn: seq<nat>, lim: seq<nat>, base: nat)
    requires Limit(lim, base)
  {
    Run(drawn, lim, base).Head? || Run(drawn, lim, base).Tail?
  }

  /** The loop of get_random_bignum: attempts from the most significant limb
      down, until one is not edgy at its end. */
  method DrawLimbs(lim: seq<nat>, base: nat, limb: array<nat>, draws: Draws) returns (ok: bool, ghost drawn: seq<nat>)
    requires Limit(lim, base) && limb.Length == |lim|
    modifies limb, draws
    ensures old(draws.pending) == drawn + draws.pending
    ensures ok ==> Run(drawn, lim, base) == Done(limb[..])
    ensures !ok ==> draws.pending == [] && Undecided(drawn, lim, base)
  {
    hide *;
    HeadLimitIs(lim, base);
    LimitFacts(lim, base);
    Begin(lim, base);
    var n := |lim|;
    var edgy := true;
    drawn := [];
    ok := false;
    while edgy
      invariant old(draws.pending) == drawn + draws.pending
      invariant edgy ==> Run(drawn, lim, base) == Head
      invariant !edgy ==> Run(drawn, lim, base) == Done(limb[..])
      decreases |draws.pending|, edgy
    {
      var rhi;
      ghost var used;
      ok, rhi, used := draws.LimbBelow(HeadLimit(lim, base), base);
      if !ok {
        HeadUndecided(drawn, used, lim, base);
        drawn := drawn + used;
        return;
      }
      HeadFollows(drawn, used, rhi, lim, base);
      drawn := drawn + used;
      edgy := rhi == lim[n - 1];
      limb[n - 1] := rhi;
      assert limb[n - 1..] == [rhi];
      ghost var more;
      ok, edgy, more := LowerLimbs(lim, base, limb, draws, edgy, drawn);
      drawn := drawn + more;
      if !ok {
        return;
      }
    }
    ok := true;
  }

  /** The limbs below the most significant one; breaks off when the limit's limb
      is exceeded in the edge case. */
  method LowerLimbs(lim: seq<nat>, base: nat, limb: array<nat>, draws: Draws, top: bool, ghost before: seq<nat>)
      returns (ok: bool, edgy: bool, ghost drawn: seq<nat>)
    requires Limit(lim, base) && limb.Length == |lim|
    requires Following(before, top, limb[|lim| - 1..], lim, base)
    modifies limb, draws
    ensures old(draws.pending) == drawn + draws.pending
    ensures ok && edgy ==> Run(before + drawn, lim, base) == Head
    ensures ok && !edgy ==> Run(before + drawn, lim, base) == Done(limb[..])
    ensures !ok ==> draws.pending == [] && Undecided(before + drawn, lim, base)
  {
    hide *;
    LimitFacts(lim, base);
    var i := |lim| - 1;
    edgy := top;
    drawn := [];
    assert before + [] == before;
    while 0 < i
      invariant 0 <= i < |lim|
      invariant old(draws.pending) == drawn + draws.pending
      invariant Following(before + drawn, edgy, limb[i..], lim, base)
    {
      i := i - 1;
      var raw;
      ok, raw := draws.Limb();
      if !ok {
        NotYet(before + drawn, edgy, limb[i + 1..], lim, base);
        return;
      }
      TailFollows(before + drawn, raw, edgy, limb[i + 1..], lim, base);
      assert (before + drawn) + [raw] == before + (drawn + [raw]);
      drawn := drawn + [raw];
      if edgy {
        if lim[i] < raw {
          return true, true, drawn;
        }
        edgy := lim[i] == raw;
      }
      limb[i] := raw;
      assert limb[i..] == [raw] + limb[i + 1..];
    }
    AllDrawn(before + drawn, edgy, limb[0..], lim, base);
    assert limb[0..] == limb[..];
    ok := true;
  }

  lemma Begin(lim: seq<nat>, base: nat)
    requires Limit(lim, base)
    ensures Run([], lim, base) == Head
  {
  }

  lemma HeadUndecided(drawn: seq<nat>, used: seq<nat>, lim: seq<nat>, base: nat)
    requires Limit(lim, base) && Run(drawn, lim, base) == Head
    requires AllRejected(used, HeadLimit(lim, base), base)
    ensures Undecided(drawn + used, lim, base)
  {
    RejectedStay(drawn, used, lim, base);
  }

  /** The limbs of a positive bignum are a limit. */
  lemma AsLimit(limit: Mpz)
    requires limit.Valid() && 0 < limit.size
    ensures Abs(limit.size) <= limit.limb.Length
    ensures Limit(limit.Used(), limit.machine.Base())
    ensures limit.Value() == Val(limit.Used(), limit.machine.Base())
  {
    BaseFacts(limit.machine.limbBits);
  }

  lemma Accepted(drawn: seq<nat>, pending: seq<nat>, lim: seq<nat>, base: nat, limbs: seq<nat>)
    requires Limit(lim, base) && Limbs(drawn + pending, base) && Run(drawn, lim, base) == Done(limbs)
    ensures Limbs(limbs, base) && |limbs| == |lim| && Val(limbs, base) < Val(lim, base)
  {
    assert drawn == (drawn + pending)[..|drawn|];
    RunSound(drawn, lim, base);
  }

  lemma Positive(n: nat, value: nat)
    ensures Signed(n < 0, value) == value && Abs(n) == n
  {
  }

  /** get_random_bignum: a Lisp integer below the limit, decided by the draws
      alone.  `out` is the temporary that holds the result. */
  method GetRandomBignum(limit: Mpz, out: Mpz, draws: Draws, integerWidth: nat)
      returns (ok: bool, r: LispInteger, ghost drawn: seq<nat>)
    requires limit.Valid() && 0 < limit.size && out != limit && out.machine == limit.machine
    requires Limbs(draws.pending, limit.machine.Base())
    modifies out, draws
    ensures limit.Valid() && limit.Used() == old(limit.Used())
    ensures old(draws.pending) == drawn + draws.pending
    ensures Limit(limit.Used(), limit.machine.Base())
    ensures ok ==> (
        Run(drawn, limit.Used(), limit.machine.Base()).Done? && out.Valid()
          && out.Value() == Val(Run(drawn, limit.Used(), limit.machine.Base()).limbs, limit.machine.Base())
        && 0 <= out.Value() < limit.Value() && Same(r, out.Value())
        && (r.Fixnum? <==> limit.machine.InFixnum(out.Value())))
    ensures !ok ==> draws.pending == [] && Undecided(drawn, limit.Used(), limit.machine.Base())
  {
    hide *;
    limit.UsedNormal();
    var lim := limit.Used();
    var base := limit.machine.Base();
    AsLimit(limit);
    out.limb := new nat[|lim|];
    ok, drawn := DrawLimbs(lim, base, out.limb, draws);
    r := OverflowError;
    if ok {
      Accepted(drawn, draws.pending, lim, base, out.limb[..]);
      Positive(|lim|, Val(out.limb[..], base));
      assert out.limb[..|lim|] == out.limb[..];
      out.LimbsFinish(|lim|);
      r := out.MakeInteger(integerWidth);
    }
  }
}
