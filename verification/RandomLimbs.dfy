/** Rejection sampling by limbs as an automaton over a stream of raw random
    limbs: which streams it accepts, for which number, and that every number
    below the limit is accepted from equally many streams of every length. */
module RandomLimbs {
  import opened Powers
  import opened BignumLimbs

  // ---- One limb below a limit; a limit of zero stands for the whole range ----

  /** The remainder counts only if the raw limb is in a complete run of lim limbs. */
  predicate Accepts(raw: nat, lim: nat, base: nat) {
    lim == 0 || raw - raw % lim <= base - lim
  }

  function Reduced(raw: nat, lim: nat): nat {
    if lim == 0 then raw else raw % lim
  }

  /** The raw limbs that are accepted and give `value`. */
  ghost function RawsFor(value: nat, lim: nat, base: nat): set<nat> {
    set raw: nat | raw < base && Accepts(raw, lim, base) && Reduced(raw, lim) == value
  }

  /** start, start + step, ..., n of them. */
  ghost function Progression(start: nat, step: nat, n: nat): set<nat> {
    if n == 0 then {} else Progression(start, step, n - 1) + {start + step * (n - 1)}
  }

  lemma {:induction false} ProgressionSize(start: nat, step: nat, n: nat)
    requires 0 < step
    ensures |Progression(start, step, n)| == n
    ensures forall x :: x in Progression(start, step, n) ==> x < start + step * n
  {
    if n > 0 {
      ProgressionSize(start, step, n - 1);
      assert step * n == step * (n - 1) + step;
    }
  }

  lemma {:induction false} ProgressionHas(start: nat, step: nat, n: nat, x: nat)
    requires 0 < step && start < step
    ensures x in Progression(start, step, n) <==> x % step == start && x / step < n
  {
    if n > 0 {
      ProgressionHas(start, step, n - 1, x);
      Quotient(x, step, n - 1, start);
    }
  }

  lemma Quotient(x: nat, step: nat, q: nat, r: nat)
    requires 0 < step && r < step
    ensures x == r + step * q <==> x % step == r && x / step == q
  {
    if x == r + step * q {
      TopLimb(step, x / step, x % step, q, r);
    }
  }

  /** Acceptance in terms of the quotient. */
  lemma AcceptsQuotient(raw: nat, lim: nat, base: nat)
    requires 0 < lim < base
    ensures Accepts(raw, lim, base) <==> raw / lim < base / lim
  {
    var q := raw / lim;
    assert raw - raw % lim == lim * q;
    assert lim * (q + 1) == lim * q + lim;
    assert base == lim * (base / lim) + base % lim;
    if q < base / lim {
      Times(lim, q + 1, base / lim);
    } else {
      Times(lim, base / lim, q);
    }
  }

  /** Exactly floor(base / lim) raw limbs are accepted for each value. */
  lemma EquallyMany(value: nat, lim: nat, base: nat)
    requires 0 < lim < base && value < lim
    ensures |RawsFor(value, lim, base)| == base / lim
  {
    var progression := Progression(value, lim, base / lim);
    ProgressionSize(value, lim, base / lim);
    forall raw: nat
      ensures raw in RawsFor(value, lim, base) <==> raw in progression
    {
      ProgressionHas(value, lim, base / lim, raw);
      AcceptsQuotient(raw, lim, base);
      if raw / lim < base / lim {
        Within(raw, lim, base);
      }
    }
    assert RawsFor(value, lim, base) == progression;
  }

  lemma Within(raw: nat, lim: nat, base: nat)
    requires 0 < lim && raw / lim < base / lim
    ensures raw < base
  {
    Times(lim, raw / lim + 1, base / lim);
    assert lim * (raw / lim + 1) == lim * (raw / lim) + lim;
  }

  // ---- The sampler ----

  /** Head: about to draw the most significant limb.  Tail: limbs drawn from
      the top so far, and whether they equal the limit's.  Done: accepted.
      Over: a limb was drawn after that. */
  datatype State = Head | Tail(edgy: bool, high: seq<nat>) | Done(limbs: seq<nat>) | Over

  predicate Limit(lim: seq<nat>, base: nat) {
    0 < |lim| && 1 < base && Limbs(lim, base) && 0 < lim[|lim| - 1]
  }

  /** The limit handed on for the most significant limb: inclusive unless it is
      the only one, and wrapped round to zero when that covers the whole range. */
  function HeadLimit(lim: seq<nat>, base: nat): nat
    requires Limit(lim, base)
  {
    (lim[|lim| - 1] + if 1 < |lim| then 1 else 0) % base
  }

  /** After the limbs `high` have been drawn without exceeding the limit's. */
  function At(edgy: bool, high: seq<nat>, lim: seq<nat>): State {
    if |high| < |lim| then Tail(edgy, high) else if edgy then Head else Done(high)
  }

  function Step(state: State, raw: nat, lim: seq<nat>, base: nat): State
    requires Limit(lim, base)
    requires state.Tail? ==> |state.high| < |lim|
  {
    match state
    case Head =>
      if Accepts(raw, HeadLimit(lim, base), base)
      then At(Reduced(raw, HeadLimit(lim, base)) == lim[|lim| - 1], [Reduced(raw, HeadLimit(lim, base))], lim)
      else Head
    case Tail(edgy, high) =>
      if edgy && lim[|lim| - 1 - |high|] < raw then Head
      else At(edgy && lim[|lim| - 1 - |high|] == raw, [raw] + high, lim)
    case Done(_) => Over
    case Over => Over
  }

  function Run(stream: seq<nat>, lim: seq<nat>, base: nat): (state: State)
    requires Limit(lim, base)
    ensures state.Tail? ==> 0 < |state.high| < |lim|
  {
    if |stream| == 0 then Head
    else Step(Run(stream[..|stream| - 1], lim, base), stream[|stream| - 1], lim, base)
  }

  lemma RunSnoc(stream: seq<nat>, raw: nat, lim: seq<nat>, base: nat)
    requires Limit(lim, base)
    ensures Run(stream + [raw], lim, base) == Step(Run(stream, lim, base), raw, lim, base)
  {
    assert (stream + [raw])[..|stream|] == stream;
  }

  // ---- What the drawn limbs are worth ----

  lemma {:induction false} ValCons(limb: nat, s: seq<nat>, base: nat)
    ensures Val([limb] + s, base) == limb + base * Val(s, base)
  {
    if |s| == 0 {
      assert Pow(base, 0) * limb == limb;
      assert ([limb] + s)[..0] == [];
    } else {
      var n := |s| - 1;
      ValCons(limb, s[..n], base);
      assert ([limb] + s)[..|s|] == [limb] + s[..n];
      assert Pow(base, |s|) * s[n] == base * (Pow(base, n) * s[n]);
      assert base * (Val(s[..n], base) + Pow(base, n) * s[n])
        == base * Val(s[..n], base) + base * (Pow(base, n) * s[n]);
    }
  }

  /** With one more limb below, a comparison is decided above, or by that limb. */
  lemma Compare(x: nat, s: seq<nat>, y: nat, t: seq<nat>, base: nat)
    requires x < base && y < base
    ensures Val(s, base) < Val(t, base) ==> Val([x] + s, base) < Val([y] + t, base)
    ensures Val(s, base) == Val(t, base) ==> (Val([x] + s, base) < Val([y] + t, base) <==> x < y)
  {
    ValCons(x, s, base);
    ValCons(y, t, base);
    if Val(s, base) < Val(t, base) {
      TopDecides(base, Val(s, base), x, Val(t, base), y);
    }
  }

  /** The limbs drawn so far equal the limit's as long as the case is edgy, and
      make a smaller number otherwise. */
  predicate Below(edgy: bool, high: seq<nat>, lim: seq<nat>, base: nat)
    requires |high| <= |lim|
  {
    && Limbs(high, base)
    && (edgy <==> high == lim[|lim| - |high|..])
    && (!edgy ==> Val(high, base) < Val(lim[|lim| - |high|..], base))
  }

  predicate Sound(state: State, lim: seq<nat>, base: nat) {
    match state
    case Tail(edgy, high) => 0 < |high| < |lim| && Below(edgy, high, lim, base)
    case Done(limbs) => |limbs| == |lim| && Limbs(limbs, base) && Val(limbs, base) < Val(lim, base)
    case _ => true
  }

  lemma AtSound(edgy: bool, high: seq<nat>, lim: seq<nat>, base: nat)
    requires 0 < |high| <= |lim| && Below(edgy, high, lim, base)
    ensures Sound(At(edgy, high, lim), lim, base)
  {
    if |high| == |lim| {
      assert lim[0..] == lim;
    }
  }

  /** One more limb that does not exceed the limit's where it matters. */
  lemma BelowCons(edgy: bool, high: seq<nat>, raw: nat, lim: seq<nat>, base: nat)
    requires 1 < base && |high| < |lim| && Limbs(lim, base) && raw < base
    requires Below(edgy, high, lim, base)
    requires edgy ==> raw <= lim[|lim| - 1 - |high|]
    ensures Below(edgy && raw == lim[|lim| - 1 - |high|], [raw] + high, lim, base)
  {
    var i := |lim| - 1 - |high|;
    assert lim[i..] == [lim[i]] + lim[i + 1..];
    Compare(raw, high, lim[i], lim[i + 1..], base);
    if [raw] + high == lim[i..] {
      assert ([raw] + high)[0] == raw && ([raw] + high)[1..] == high;
      assert lim[i..][1..] == lim[i + 1..];
    }
  }

  lemma LimitFacts(lim: seq<nat>, base: nat)
    requires Limit(lim, base)
    ensures 0 < |lim| && 1 < base && Limbs(lim, base) && lim[|lim| - 1] < base
  {
  }

  lemma HeadLimitIs(lim: seq<nat>, base: nat)
    requires Limit(lim, base)
    ensures HeadLimit(lim, base) < base
    ensures HeadLimit(lim, base) == 0 || HeadLimit(lim, base) == lim[|lim| - 1] + if 1 < |lim| then 1 else 0
    ensures |lim| == 1 ==> HeadLimit(lim, base) == lim[0] > 0
  {
    hide Val, Pow;
    Wrapped(lim[|lim| - 1] + if 1 < |lim| then 1 else 0, base);
  }

  lemma Wrapped(x: nat, base: nat)
    requires 0 < base && x <= base
    ensures x % base == if x < base then x else 0
  {
  }

  lemma HeadFacts(raw: nat, lim: seq<nat>, base: nat)
    requires Limit(lim, base) && raw < base && Accepts(raw, HeadLimit(lim, base), base)
    ensures Reduced(raw, HeadLimit(lim, base)) < base
    ensures Reduced(raw, HeadLimit(lim, base)) <= lim[|lim| - 1]
    ensures |lim| == 1 ==> Reduced(raw, HeadLimit(lim, base)) < lim[0]
  {
    hide HeadLimit, Limbs, Accepts;
    HeadLimitIs(lim, base);
    if HeadLimit(lim, base) == 0 {
      WholeRange(lim, base);
    }
  }

  /** The limit wraps round only when the top limb is the largest there is. */
  lemma WholeRange(lim: seq<nat>, base: nat)
    requires Limit(lim, base) && HeadLimit(lim, base) == 0
    ensures lim[|lim| - 1] == base - 1 && 1 < |lim|
  {
    hide Val, Pow;
    Wrapped(lim[|lim| - 1] + if 1 < |lim| then 1 else 0, base);
  }

  lemma StepSound(state: State, raw: nat, lim: seq<nat>, base: nat)
    requires Limit(lim, base) && raw < base && Sound(state, lim, base)
    ensures Sound(Step(state, raw, lim, base), lim, base)
  {
    match state
    case Head =>
      if Accepts(raw, HeadLimit(lim, base), base) {
        var rhi := Reduced(raw, HeadLimit(lim, base));
        HeadFacts(raw, lim, base);
        assert lim[|lim|..] == [];
        BelowCons(true, [], rhi, lim, base);
        assert [rhi] + [] == [rhi];
        AtSound(rhi == lim[|lim| - 1], [rhi], lim, base);
      }
    case Tail(edgy, high) =>
      if !(edgy && lim[|lim| - 1 - |high|] < raw) {
        BelowCons(edgy, high, raw, lim, base);
        AtSound(edgy && lim[|lim| - 1 - |high|] == raw, [raw] + high, lim, base);
      }
    case Done(_) =>
    case Over =>
  }

  /** Whatever is accepted is below the limit. */
  lemma {:induction false} RunSound(stream: seq<nat>, lim: seq<nat>, base: nat)
    requires Limit(lim, base) && Limbs(stream, base)
    ensures Sound(Run(stream, lim, base), lim, base)
  {
    if |stream| > 0 {
      var n := |stream| - 1;
      RunSound(stream[..n], lim, base);
      StepSound(Run(stream[..n], lim, base), stream[n], lim, base);
    }
  }

  // ---- Which streams are accepted, and for which number ----

  function Reversed(s: seq<nat>): (r: seq<nat>)
    ensures |r| == |s| && forall i :: 0 <= i < |s| ==> r[i] == s[|s| - 1 - i]
  {
    seq(|s|, i requires 0 <= i < |s| => s[|s| - 1 - i])
  }

  /** The limbs drawn for `limbs` when the most significant came from `raw`. */
  function Word(raw: nat, limbs: seq<nat>): (word: seq<nat>)
    requires 0 < |limbs|
    ensures |word| == |limbs| && word[0] == raw
  {
    [raw] + Reversed(limbs[..|limbs| - 1])
  }

  /** The stream ends in the draws of `limbs`, begun from the head state. */
  predicate Drawn(stream: seq<nat>, limbs: seq<nat>, lim: seq<nat>, base: nat)
    requires Limit(lim, base)
  {
    && 0 < |limbs| <= |stream|
    && Run(stream[..|stream| - |limbs|], lim, base) == Head
    && Accepts(stream[|stream| - |limbs|], HeadLimit(lim, base), base)
    && Reduced(stream[|stream| - |limbs|], HeadLimit(lim, base)) == limbs[|limbs| - 1]
    && stream[|stream| - |limbs|..] == Word(stream[|stream| - |limbs|], limbs)
  }

  lemma WordCons(raw: nat, limbs: seq<nat>, next: nat)
    requires 0 < |limbs|
    ensures Word(raw, [next] + limbs) == Word(raw, limbs) + [next]
  {
    var more := [next] + limbs;
    assert more[..|limbs|] == [next] + limbs[..|limbs| - 1];
    assert Reversed(more[..|limbs|]) == Reversed(limbs[..|limbs| - 1]) + [next];
  }

  lemma DrawnCons(stream: seq<nat>, limbs: seq<nat>, next: nat, lim: seq<nat>, base: nat)
    requires Limit(lim, base) && Drawn(stream, limbs, lim, base)
    ensures Drawn(stream + [next], [next] + limbs, lim, base)
  {
    hide Run, Word, Accepts, Reduced, HeadLimit;
    var at := |stream| - |limbs|;
    WordCons(stream[at], limbs, next);
    assert (stream + [next])[..at] == stream[..at];
    assert (stream + [next])[at..] == stream[at..] + [next];
  }

  lemma {:induction false} RunDrawn(stream: seq<nat>, lim: seq<nat>, base: nat)
    requires Limit(lim, base)
    ensures Run(stream, lim, base).Tail? ==> Drawn(stream, Run(stream, lim, base).high, lim, base)
    ensures Run(stream, lim, base).Done? ==> Drawn(stream, Run(stream, lim, base).limbs, lim, base)
  {
    if |stream| > 0 {
      var n := |stream| - 1;
      var before := stream[..n];
      assert stream == before + [stream[n]];
      RunDrawn(before, lim, base);
      if Run(before, lim, base).Tail? {
        DrawnCons(before, Run(before, lim, base).high, stream[n], lim, base);
      } else if Run(before, lim, base).Head? && Accepts(stream[n], HeadLimit(lim, base), base) {
        assert stream[n..] == [stream[n]];
        assert Reversed([Reduced(stream[n], HeadLimit(lim, base))][..0]) == [];
      }
    }
  }

  /** A number not above the limit never breaks off while it is edgy. */
  lemma {:induction false} TopsBelow(limbs: seq<nat>, lim: seq<nat>, i: nat, base: nat)
    requires 1 < base && Limbs(limbs, base) && Limbs(lim, base) && |limbs| == |lim| && i < |lim|
    requires Val(limbs, base) < Val(lim, base)
    ensures limbs[i + 1..] == lim[i + 1..] ==> limbs[i] <= lim[i]
  {
    if limbs[i + 1..] == lim[i + 1..] && lim[i] < limbs[i] {
      assert limbs == limbs[..i + 1] + limbs[i + 1..];
      assert lim == lim[..i + 1] + lim[i + 1..];
      ValBound(lim[..i], base);
      TopDecides(Pow(base, i), lim[i], Val(lim[..i], base), limbs[i], Val(limbs[..i], base));
      assert limbs[..i + 1][..i] == limbs[..i] && lim[..i + 1][..i] == lim[..i];
      SameAbove(lim[..i + 1], limbs[..i + 1], lim[i + 1..], base);
    }
  }

  lemma {:induction false} SameAbove(s: seq<nat>, t: seq<nat>, above: seq<nat>, base: nat)
    requires |s| == |t| && Val(s, base) < Val(t, base)
    ensures Val(s + above, base) < Val(t + above, base)
  {
    if |above| == 0 {
      assert s + above == s && t + above == t;
    } else {
      var n := |above| - 1;
      SameAbove(s, t, above[..n], base);
      assert (s + above)[..|s| + n] == s + above[..n];
      assert (t + above)[..|s| + n] == t + above[..n];
    }
  }

  /** Drawing the limbs of a number below the limit from the top: the sampler
      follows them down. */
  lemma {:induction false} Follows(before: seq<nat>, raw: nat, limbs: seq<nat>, k: nat, lim: seq<nat>, base: nat)
    requires Limit(lim, base) && Limbs(limbs, base) && |limbs| == |lim| && Val(limbs, base) < Val(lim, base)
    requires Run(before, lim, base) == Head && Accepts(raw, HeadLimit(lim, base), base)
    requires Reduced(raw, HeadLimit(lim, base)) == limbs[|lim| - 1]
    requires 1 <= k <= |lim|
    ensures Run(before + Word(raw, limbs[|lim| - k..]), lim, base)
        == At(limbs[|lim| - k..] == lim[|lim| - k..], limbs[|lim| - k..], lim)
  {
    hide *;
    LimitFacts(lim, base);
    var i := |lim| - k;
    if k == 1 {
      FollowsHead(before, raw, limbs, lim, base);
    } else {
      Follows(before, raw, limbs, k - 1, lim, base);
      TopsBelow(limbs, lim, i, base);
      FollowsOn(before + Word(raw, limbs[i + 1..]), limbs, i, lim, base);
      assert limbs[i..] == [limbs[i]] + limbs[i + 1..];
      WordCons(raw, limbs[i + 1..], limbs[i]);
      assert before + Word(raw, limbs[i..]) == (before + Word(raw, limbs[i + 1..])) + [limbs[i]];
    }
  }

  lemma FollowsHead(before: seq<nat>, raw: nat, limbs: seq<nat>, lim: seq<nat>, base: nat)
    requires Limit(lim, base) && 0 < |limbs| == |lim|
    requires Run(before, lim, base) == Head && Accepts(raw, HeadLimit(lim, base), base)
    requires Reduced(raw, HeadLimit(lim, base)) == limbs[|lim| - 1]
    ensures Run(before + Word(raw, limbs[|lim| - 1..]), lim, base)
        == At(limbs[|lim| - 1..] == lim[|lim| - 1..], limbs[|lim| - 1..], lim)
  {
    hide Run, Limbs, Accepts, Reduced, HeadLimit;
    var i := |lim| - 1;
    assert limbs[i..] == [limbs[i]] && lim[i..] == [lim[i]];
    assert Word(raw, [limbs[i]]) == [raw];
    RunSnoc(before, raw, lim, base);
  }

  lemma FollowsOn(stream: seq<nat>, limbs: seq<nat>, i: nat, lim: seq<nat>, base: nat)
    requires Limit(lim, base) && |limbs| == |lim| && i + 1 < |lim|
    requires Run(stream, lim, base) == At(limbs[i + 1..] == lim[i + 1..], limbs[i + 1..], lim)
    requires limbs[i + 1..] == lim[i + 1..] ==> limbs[i] <= lim[i]
    ensures Run(stream + [limbs[i]], lim, base) == At(limbs[i..] == lim[i..], limbs[i..], lim)
  {
    hide Run, Limbs, Accepts, Reduced, HeadLimit;
    RunSnoc(stream, limbs[i], lim, base);
    assert limbs[i..] == [limbs[i]] + limbs[i + 1..];
    assert lim[i..] == [lim[i]] + lim[i + 1..];
  }

  /** A stream is accepted for `limbs` exactly if it ends in the draws of those
      limbs, begun from the head state, and they make a number below the limit. */
  lemma AcceptedExactly(stream: seq<nat>, limbs: seq<nat>, lim: seq<nat>, base: nat)
    requires Limit(lim, base) && Limbs(stream, base)
    ensures Run(stream, lim, base) == Done(limbs) <==>
        && Limbs(limbs, base) && |limbs| == |lim| && Val(limbs, base) < Val(lim, base)
        && Drawn(stream, limbs, lim, base)
  {
    hide Run, Val, Limbs, Limit, Accepts, Reduced, HeadLimit, Drawn;
    if Run(stream, lim, base) == Done(limbs) {
      RunSound(stream, lim, base);
      RunDrawn(stream, lim, base);
    }
    if Limbs(limbs, base) && |limbs| == |lim| && Val(limbs, base) < Val(lim, base) && Drawn(stream, limbs, lim, base) {
      DrawnAccepted(stream, limbs, lim, base);
    }
  }

  lemma DrawnAccepted(stream: seq<nat>, limbs: seq<nat>, lim: seq<nat>, base: nat)
    requires Limit(lim, base) && Number(limbs, lim, base) && Drawn(stream, limbs, lim, base)
    ensures Run(stream, lim, base) == Done(limbs)
  {
    hide Run, Val, Limbs, Accepts, Reduced, HeadLimit;
    var at := |stream| - |limbs|;
    assert stream == stream[..at] + Word(stream[at], limbs);
    AcceptWord(stream[..at], stream[at], limbs, lim, base);
  }

  // ---- Every number is accepted equally often ----

  predicate Number(limbs: seq<nat>, lim: seq<nat>, base: nat) {
    Limbs(limbs, base) && |limbs| == |lim| && Val(limbs, base) < Val(lim, base)
  }

  lemma NumberLimbs(limbs: seq<nat>, lim: seq<nat>, base: nat)
    requires Number(limbs, lim, base)
    ensures Limbs(limbs, base)
  {
  }

  /** The same stream, drawing y where x was drawn. */
  function Exchange(stream: seq<nat>, x: seq<nat>, y: seq<nat>): seq<nat>
    requires 0 < |x| == |y| <= |stream|
    requires stream[|stream| - |x|] + y[|y| - 1] >= x[|x| - 1]
  {
    stream[..|stream| - |x|] + Word(stream[|stream| - |x|] + y[|y| - 1] - x[|x| - 1], y)
  }

  /** Moving a raw limb to another remainder within its run. */
  lemma SwapRaw(raw: nat, lim: nat, x: nat, y: nat, base: nat)
    requires lim < base && raw < base && Accepts(raw, lim, base) && Reduced(raw, lim) == x
    requires y < base && (lim > 0 ==> y < lim)
    ensures raw + y >= x
    ensures Accepts(raw + y - x, lim, base) && Reduced(raw + y - x, lim) == y && raw + y - x < base
  {
    if lim > 0 {
      Quotient(raw + y - x, lim, raw / lim, y);
      assert raw == lim * (raw / lim) + raw % lim;
    }
  }

  lemma HeadOf(limbs: seq<nat>, lim: seq<nat>, base: nat)
    requires Limit(lim, base) && Number(limbs, lim, base)
    ensures HeadLimit(lim, base) > 0 ==> limbs[|lim| - 1] < HeadLimit(lim, base)
    ensures HeadLimit(lim, base) < base
  {
    hide HeadLimit;
    var i := |lim| - 1;
    HeadLimitIs(lim, base);
    if |lim| == 1 {
      OneLimb(limbs, base);
      OneLimb(lim, base);
    } else {
      assert limbs[i + 1..] == lim[i + 1..];
      TopsBelow(limbs, lim, i, base);
    }
  }

  lemma OneLimb(limbs: seq<nat>, base: nat)
    requires |limbs| == 1
    ensures Val(limbs, base) == limbs[0]
  {
    assert Pow(base, 0) * limbs[0] == limbs[0];
  }

  /** The draws of a number below the limit, from the head state, are accepted. */
  lemma AcceptWord(before: seq<nat>, raw: nat, limbs: seq<nat>, lim: seq<nat>, base: nat)
    requires Limit(lim, base) && Number(limbs, lim, base)
    requires Run(before, lim, base) == Head && Accepts(raw, HeadLimit(lim, base), base)
    requires Reduced(raw, HeadLimit(lim, base)) == limbs[|lim| - 1]
    ensures Run(before + Word(raw, limbs), lim, base) == Done(limbs)
  {
    hide Run, Val, Limbs, Accepts, Reduced, HeadLimit, Word;
    assert limbs[0..] == limbs && lim[0..] == lim;
    assert limbs != lim;
    Follows(before, raw, limbs, |lim|, lim, base);
  }

  lemma WordLimbs(before: seq<nat>, raw: nat, limbs: seq<nat>, base: nat)
    requires 0 < |limbs| && Limbs(limbs, base) && Limbs(before, base) && raw < base
    ensures Limbs(before + Word(raw, limbs), base)
  {
  }

  /** An exchanged stream, taken apart. */
  lemma ExchangeParts(before: seq<nat>, raw: nat, x: seq<nat>, y: seq<nat>)
    requires 0 < |x| == |y| && raw + y[|y| - 1] >= x[|x| - 1]
    ensures Exchange(before + Word(raw, x), x, y) == before + Word(raw + y[|y| - 1] - x[|x| - 1], y)
  {
    var stream := before + Word(raw, x);
    assert stream[..|stream| - |x|] == before;
  }

  /** Exchanging one number for another turns the streams accepted for the one
      into streams of the same length accepted for the other, and back. */
  lemma Exchanged(stream: seq<nat>, x: seq<nat>, y: seq<nat>, lim: seq<nat>, base: nat)
    requires Limit(lim, base) && Limbs(stream, base) && Number(y, lim, base)
    requires Run(stream, lim, base) == Done(x)
    ensures 0 < |x| == |y| <= |stream| && stream[|stream| - |x|] + y[|y| - 1] >= x[|x| - 1]
    ensures |Exchange(stream, x, y)| == |stream| && Limbs(Exchange(stream, x, y), base)
    ensures Run(Exchange(stream, x, y), lim, base) == Done(y)
    ensures Exchange(stream, x, y)[|stream| - |y|] + x[|x| - 1] >= y[|y| - 1]
    ensures Exchange(Exchange(stream, x, y), y, x) == stream
  {
    hide *;
    var before, raw, raw' := TakenApart(stream, x, y, lim, base);
    ExchangedParts(before, raw, x, y, raw', lim, base);
  }

  /** An accepted stream ends in the draws of its number; the raw limb that
      would have led to another number's top limb. */
  lemma TakenApart(stream: seq<nat>, x: seq<nat>, y: seq<nat>, lim: seq<nat>, base: nat)
      returns (before: seq<nat>, raw: nat, raw': nat)
    requires Limit(lim, base) && Limbs(stream, base) && Number(y, lim, base)
    requires Run(stream, lim, base) == Done(x)
    ensures 0 < |x| == |y| == |lim| && stream == before + Word(raw, x) && |stream| == |before| + |x|
    ensures stream[|stream| - |x|] == raw && Limbs(before, base) && raw' < base
    ensures raw' + x[|x| - 1] == raw + y[|y| - 1]
    ensures Run(before, lim, base) == Head && Accepts(raw', HeadLimit(lim, base), base)
    ensures Reduced(raw', HeadLimit(lim, base)) == y[|lim| - 1]
  {
    hide Run, Val, Accepts, Reduced, HeadLimit;
    AcceptedExactly(stream, x, lim, base);
    before, raw := stream[..|stream| - |x|], stream[|stream| - |x|];
    assert stream == before + Word(raw, x);
    HeadOf(y, lim, base);
    SwapRaw(raw, HeadLimit(lim, base), x[|x| - 1], y[|y| - 1], base);
    raw' := raw + y[|y| - 1] - x[|x| - 1];
  }

  lemma ExchangedParts(before: seq<nat>, raw: nat, x: seq<nat>, y: seq<nat>, raw': nat, lim: seq<nat>, base: nat)
    requires Limit(lim, base) && Number(y, lim, base) && Limbs(before, base) && raw' < base
    requires 0 < |x| == |y| && raw' + x[|x| - 1] == raw + y[|y| - 1]
    requires Run(before, lim, base) == Head && Accepts(raw', HeadLimit(lim, base), base)
    requires Reduced(raw', HeadLimit(lim, base)) == y[|lim| - 1]
    ensures |before + Word(raw, x)| == |before| + |x|
    ensures (before + Word(raw, x))[|before|] == raw && (before + Word(raw', y))[|before|] == raw'
    ensures Exchange(before + Word(raw, x), x, y) == before + Word(raw', y)
    ensures Exchange(before + Word(raw', y), y, x) == before + Word(raw, x)
    ensures Limbs(before + Word(raw', y), base)
    ensures Run(before + Word(raw', y), lim, base) == Done(y)
  {
    hide Run, Limbs, Val, Accepts, Reduced, HeadLimit, Exchange;
    AcceptWord(before, raw', y, lim, base);
    NumberLimbs(y, lim, base);
    WordLimbs(before, raw', y, base);
    ExchangeParts(before, raw, x, y);
    ExchangeParts(before, raw', y, x);
  }

  /** All streams of a length. */
  ghost function Streams(length: nat, base: nat): set<seq<nat>> {
    if length == 0 then {[]}
    else set stream, raw: nat | stream in Streams(length - 1, base) && raw < base :: stream + [raw]
  }

  lemma {:induction false} StreamsAll(length: nat, base: nat, stream: seq<nat>)
    ensures stream in Streams(length, base) <==> |stream| == length && Limbs(stream, base)
  {
    if length > 0 && |stream| > 0 {
      var n := |stream| - 1;
      StreamsAll(length - 1, base, stream[..n]);
      assert stream == stream[..n] + [stream[n]];
      if stream in Streams(length, base) {
        var s, raw: nat :| s in Streams(length - 1, base) && raw < base && stream == s + [raw];
        assert s == stream[..n];
      }
    }
  }

  /** The streams of a length that are accepted, with their last limb, for x. */
  ghost function AcceptedFor(x: seq<nat>, length: nat, lim: seq<nat>, base: nat): set<seq<nat>>
    requires Limit(lim, base)
  {
    set stream | stream in Streams(length, base) && Run(stream, lim, base) == Done(x)
  }

  lemma {:induction false} NoMore(a: set<seq<nat>>, b: set<seq<nat>>, f: seq<nat> -> seq<nat>)
    requires forall s :: s in a ==> f(s) in b
    requires forall s, t :: s in a && t in a && f(s) == f(t) ==> s == t
    ensures |a| <= |b|
  {
    if a != {} {
      var s :| s in a;
      NoMore(a - {s}, b - {f(s)}, f);
    }
  }

  lemma NotFewer(x: seq<nat>, y: seq<nat>, length: nat, lim: seq<nat>, base: nat)
    requires Limit(lim, base) && Number(x, lim, base) && Number(y, lim, base)
    ensures |AcceptedFor(x, length, lim, base)| <= |AcceptedFor(y, length, lim, base)|
  {
    hide Run, Val, Limbs, Exchange;
    var f := (s: seq<nat>) =>
      if 0 < |x| == |y| <= |s| && s[|s| - |x|] + y[|y| - 1] >= x[|x| - 1] then Exchange(s, x, y) else s;
    var back := (s: seq<nat>) =>
      if 0 < |y| == |x| <= |s| && s[|s| - |y|] + x[|x| - 1] >= y[|y| - 1] then Exchange(s, y, x) else s;
    forall s | s in AcceptedFor(x, length, lim, base)
      ensures f(s) in AcceptedFor(y, length, lim, base) && back(f(s)) == s
    {
      StreamsAll(length, base, s);
      Exchanged(s, x, y, lim, base);
      StreamsAll(length, base, f(s));
    }
    NoMore(AcceptedFor(x, length, lim, base), AcceptedFor(y, length, lim, base), f);
  }

  /** Every number below the limit is accepted from equally many streams of
      every length, however many rejected draws those streams hold. */
  lemma Uniform(x: seq<nat>, y: seq<nat>, length: nat, lim: seq<nat>, base: nat)
    requires Limit(lim, base) && Number(x, lim, base) && Number(y, lim, base)
    ensures |AcceptedFor(x, length, lim, base)| == |AcceptedFor(y, length, lim, base)|
  {
    NotFewer(x, y, length, lim, base);
    NotFewer(y, x, length, lim, base);
  }
}
