/** The incremental reordering step: jump to the other edge of a level and flip the scan
    direction, with every backward step served from the cache. */
module BidiReorder {
  import opened BidiOrder
  import opened BidiCache

  /** The cache holds the characters of the line from index lo on; those before hi are
      resolved, the one at hi may be in flux if `flux`, later ones wait to be resolved. */
  ghost predicate Holds(c: seq<BidiIt>, first: int, lv: seq<int>, lo: int, hi: int, flux: bool) {
    && 0 <= lo < hi <= lo + |c| <= |lv|
    && forall i :: 0 <= i < |c| ==>
      && c[i].charpos == first + lo + i
      && c[i].nchars == 1
      && (i < hi - lo ==> c[i].resolvedLevel == lv[lo + i])
      && (i > hi - lo || (i == hi - lo && !flux) ==> c[i].resolvedLevel == UNRESOLVED)
  }

  lemma HoldsBounds(c: seq<BidiIt>, first: int, lv: seq<int>, lo: int, hi: int, flux: bool)
    requires Holds(c, first, lv, lo, hi, flux)
    ensures 0 <= lo < hi <= lo + |c| <= |lv|
  {
  }

  lemma LastSlot(c: seq<BidiIt>, first: int, lv: seq<int>, lo: int, hi: int, flux: bool)
    requires Holds(c, first, lv, lo, hi, flux)
    ensures c[|c| - 1].charpos == first + lo + |c| - 1 && c[|c| - 1].nchars == 1
  {
  }

  lemma HoldsFlux(c: seq<BidiIt>, first: int, lv: seq<int>, lo: int, hi: int)
    requires Holds(c, first, lv, lo, hi, false)
    ensures Holds(c, first, lv, lo, hi, true)
  {
  }

  lemma HoldsSlot(c: seq<BidiIt>, first: int, lv: seq<int>, lo: int, hi: int, flux: bool, i: int)
    requires Contiguous(c) && Holds(c, first, lv, lo, hi, flux)
    ensures SlotIndex(c, first + i) == if lo <= i < lo + |c| then i - lo else -1
  {
    if lo <= i < lo + |c| { SlotIndexIs(c, first + i, i - lo); }
  }

  /** Offering the resolved state of a character resolves it, if it was not. */
  lemma OfferResolved(c: seq<BidiIt>, first: int, lv: seq<int>, lo: int, hi: int, i: int, s: BidiIt)
    requires Contiguous(c) && Holds(c, first, lv, lo, hi, i == hi)
    requires lo <= i <= hi && i < |lv| && s.charpos == first + i && s.nchars == 1 && s.resolvedLevel == lv[i]
    ensures Holds(Offered(c, s, false), first, lv, lo, if i == hi then hi + 1 else hi, false)
  {
    HoldsSlot(c, first, lv, lo, hi, i == hi, i);
  }

  lemma RoomToOffer(c: seq<BidiIt>, first: int, lv: seq<int>, lo: int, hi: int, i: int)
    requires Contiguous(c) && Holds(c, first, lv, lo, hi, i == hi) && lo <= i <= hi && i < |lv|
    ensures SlotIndex(c, first + i) != -1 || |c| < |lv|
  {
    HoldsSlot(c, first, lv, lo, hi, i == hi, i);
  }

  lemma ResolvedOffered(c: seq<BidiIt>, first: int, lv: seq<int>, lo: int, hi: int, i: int, s: BidiIt)
    requires Contiguous(c) && Holds(c, first, lv, lo, hi, i == hi)
    requires lo <= i <= hi && i < |lv| && s.charpos == first + i && s.nchars == 1 && s.resolvedLevel == lv[i]
    ensures Contiguous(Offered(c, s, false))
    ensures Holds(Offered(c, s, false), first, lv, lo, if i == hi then hi + 1 else hi, false)
    ensures SlotIndex(Offered(c, s, false), first + i) == i - lo
  {
    hide Contiguous, Holds, Offered;
    var hi' := if i == hi then hi + 1 else hi;
    OfferResolved(c, first, lv, lo, hi, i, s);
    HoldsBounds(Offered(c, s, false), first, lv, lo, hi', false);
    HoldsSlot(Offered(c, s, false), first, lv, lo, hi', false, i);
  }

  /** Offering an unresolved state for a later character leaves the resolved ones alone. */
  lemma OfferUnresolved(c: seq<BidiIt>, first: int, lv: seq<int>, lo: int, hi: int, p: int, s: BidiIt)
    requires Contiguous(c) && Holds(c, first, lv, lo, hi, false)
    requires hi <= p < |lv| && p <= lo + |c|
    requires s.charpos == first + p && s.nchars == 1 && s.resolvedLevel == UNRESOLVED
    ensures Holds(Offered(c, s, false), first, lv, lo, hi, false)
    ensures |Offered(c, s, false)| == if p < lo + |c| then |c| else |c| + 1
  {
    HoldsSlot(c, first, lv, lo, hi, false, p);
  }

  /** Updating the state of the next character, if cached, touches nothing else. */
  lemma OfferUpdate(c: seq<BidiIt>, first: int, lv: seq<int>, lo: int, hi: int, s: BidiIt)
    requires Contiguous(c) && Holds(c, first, lv, lo, hi, false)
    requires s.charpos == first + hi && s.nchars == 1
    ensures Holds(Offered(c, s, true), first, lv, lo, hi, true)
    ensures |Offered(c, s, true)| == |c|
  {
    HoldsSlot(c, first, lv, lo, hi, false, hi);
  }

  /** A line, as the engine meets it.  Index 0 is the sentinel and the last index the newline
      or, at the end of the text, the end itself, which is at position eob; `explicit` are the
      levels before the implicit rules, and `ahead` tells how many states the resolution of each
      character caches ahead of time. */
  datatype Line = Line(first: int, bob: int, eob: int, base: int, top: int,
                       levels: seq<int>, explicit: seq<int>, ahead: seq<nat>)
  {
    ghost predicate Ok() {
      && IsLine(levels, base) && Bounded(levels, top) && 0 <= base <= top
      && |explicit| == |ahead| == |levels| >= 2
      && (forall i :: 0 <= i < |levels| ==> 0 <= explicit[i] && i + ahead[i] <= |levels|)
      && bob <= first + 1 && first + |levels| <= eob + 1
    }
  }

  /** The states of the cache that count as resolved are those of indices lo to hi - 1. */
  lemma HoldsResolved(c: seq<BidiIt>, line: Line, lo: int, hi: int, j: int)
    requires line.Ok() && Contiguous(c) && Holds(c, line.first, line.levels, lo, hi, false)
    ensures var k := SlotIndex(c, line.first + j);
      if lo <= j < hi
      then k == j - lo && c[k] == BidiIt(line.first + j, 1, line.levels[j], c[k].scanDir) && line.levels[j] >= 0
      else k == -1 || c[k].resolvedLevel == UNRESOLVED
  {
    HoldsSlot(c, line.first, line.levels, lo, hi, false, j);
  }

  /** Where a search for a level below `level` ends, from index i in direction dir. */
  ghost function Drop(lv: seq<int>, level: int, dir: int, i: int): int
    requires 0 <= i < |lv|
  {
    if dir > 0 then RunEnd(lv, level, i + 1) else RunStart(lv, level, i) - 1
  }

  ghost predicate OneStep(dir: int) { dir == 1 || dir == -1 }

  /** While jumping between edges towards `target`: at p, about to look at the level of the
      neighbour in direction dir, which should be `expected`.  When ascending, p is just
      outside the run of level >= expected that is being entered; when descending, p is at
      the edge of the run of level > expected that is being left. */
  ghost predicate Heading(line: Line, ascending: bool, expected: int, target: int, p: int, dir: int) {
    && line.Ok() && OneStep(dir)
    && 0 <= p < |line.levels| && 0 <= p + dir < |line.levels|
    && (dir == 1 <==> Forward(expected, line.base))
    && if ascending then
         line.levels[p] < expected <= line.levels[p + dir]
         && target == Enter(line.levels, line.base, line.top, expected, p + dir)
       else
         line.levels[p + dir] <= expected < line.levels[p] && line.base <= expected
         && target == Exit(line.levels, line.base, expected + 1, p)
  }

  lemma {:induction false} HeadingArrives(line: Line, ascending: bool, expected: int, target: int, p: int, dir: int)
    requires Heading(line, ascending, expected, target, p, dir)
    requires line.levels[p + dir] == expected
    ensures target == p + dir
  {
  }

  lemma LineBounds(line: Line)
    requires line.Ok()
    ensures line.levels[0] == line.base == line.levels[|line.levels| - 1]
    ensures forall i :: 0 <= i < |line.levels| ==> line.base <= line.levels[i] <= line.top
  {
  }

  lemma ForwardFlips(k: int, base: int)
    ensures Forward(k + 1, base) == !Forward(k, base)
  {
  }

  lemma {:induction false} HeadingUp(line: Line, expected: int, target: int, p: int, dir: int)
    requires Heading(line, true, expected, target, p, dir)
    requires line.levels[p + dir] != expected
    ensures 0 <= Drop(line.levels, expected + 1, dir, p) < |line.levels|
    ensures Heading(line, true, expected + 1, target, Drop(line.levels, expected + 1, dir, p), -dir)
  {
    hide Enter, RunStart, RunEnd, IsLine, Bounded, Forward;
    var lv, k, s := line.levels, expected + 1, p + dir;
    LineBounds(line);
    ForwardFlips(expected, line.base);
    EnterThrough(line, expected, p, dir);
    if dir == 1 {
      RunRight(lv, line.base, line.top, k, s);
    } else {
      RunLeft(lv, line.base, line.top, k, s);
    }
  }

  lemma RunRight(lv: seq<int>, base: int, top: int, k: int, s: int)
    requires IsLine(lv, base) && Bounded(lv, top) && base < k && 0 < s < |lv| && lv[s - 1] < k <= lv[s]
    ensures s < RunEnd(lv, k, s) < |lv|
    ensures Enter(lv, base, top, k, RunEnd(lv, k, s) - 1) == Enter(lv, base, top, k, s)
  {
    hide Enter;
    EnterSame(lv, base, top, k, s, RunEnd(lv, k, s), RunEnd(lv, k, s) - 1);
  }

  lemma RunLeft(lv: seq<int>, base: int, top: int, k: int, s: int)
    requires IsLine(lv, base) && Bounded(lv, top) && base < k && 0 <= s < |lv| - 1 && lv[s + 1] < k <= lv[s]
    ensures 0 < RunStart(lv, k, s + 1) <= s
    ensures Enter(lv, base, top, k, RunStart(lv, k, s + 1)) == Enter(lv, base, top, k, s)
  {
    hide Enter;
    EnterSame(lv, base, top, k, RunStart(lv, k, s + 1), s + 1, s);
  }

  lemma EnterThrough(line: Line, k: int, p: int, dir: int)
    requires line.Ok() && OneStep(dir) && (dir == 1 <==> Forward(k, line.base))
    requires 0 <= p < |line.levels| && 0 <= p + dir < |line.levels|
    requires line.levels[p] < k < line.levels[p + dir]
    ensures Enter(line.levels, line.base, line.top, k, p + dir)
         == Enter(line.levels, line.base, line.top, k + 1, p + dir)
  {
  }

  /** The run of level >= k reached by going left from its right edge at e - 1, or right from
      its left edge at a, is left the same way from either edge. */
  lemma ExitLeft(lv: seq<int>, base: int, k: int, p: int)
    requires IsLine(lv, base) && base < k && 0 <= p < |lv| - 1 && k <= lv[p]
    ensures 0 < RunStart(lv, k, p) <= p && k <= lv[RunStart(lv, k, p)]
    ensures Exit(lv, base, k, RunStart(lv, k, p)) == Exit(lv, base, k, p)
  {
    hide Exit;
    var a, e := RunStart(lv, k, p), RunEnd(lv, k, p);
    ExitSame(lv, base, k, a, e, p);
  }

  lemma ExitRight(lv: seq<int>, base: int, k: int, p: int)
    requires IsLine(lv, base) && base < k && 0 <= p < |lv| - 1 && k <= lv[p]
    ensures p < RunEnd(lv, k, p + 1) < |lv| && k <= lv[RunEnd(lv, k, p + 1) - 1]
    ensures Exit(lv, base, k, RunEnd(lv, k, p + 1) - 1) == Exit(lv, base, k, p)
  {
    hide Exit;
    var a, e := RunStart(lv, k, p), RunEnd(lv, k, p + 1);
    ExitSame(lv, base, k, a, e, p);
    ExitSame(lv, base, k, a, e, e - 1);
  }

  lemma ExitThrough(line: Line, k: int, p: int, dir: int)
    requires line.Ok() && OneStep(dir) && line.base < k && (dir == 1 <==> Forward(k, line.base))
    requires 0 <= p < |line.levels| && 0 <= p + dir < |line.levels|
    requires line.levels[p + dir] < k < line.levels[p]
    ensures Exit(line.levels, line.base, k + 1, p) == Exit(line.levels, line.base, k, p)
  {
  }

  lemma {:induction false} HeadingDown(line: Line, expected: int, target: int, p: int, dir: int)
    requires Heading(line, false, expected, target, p, dir)
    requires line.levels[p + dir] != expected
    ensures 0 <= Drop(line.levels, expected, -dir, p) + dir < |line.levels|
    ensures Heading(line, false, expected - 1, target, Drop(line.levels, expected, -dir, p) + dir, -dir)
  {
    hide Exit, RunStart, RunEnd, IsLine, Bounded, Forward;
    LineBounds(line);
    ForwardFlips(expected - 1, line.base);
    ExitThrough(line, expected, p, dir);
    if dir == 1 {
      ExitLeft(line.levels, line.base, expected, p);
    } else {
      ExitRight(line.levels, line.base, expected, p);
    }
  }

  /** The first jump when the level goes up: past the run that is being entered. */
  lemma {:induction false} HeadingStartsUp(line: Line, x: int, dir: int)
    requires line.Ok() && 0 <= x < |line.levels| - 1 && OneStep(dir)
    requires (dir == 1 <==> Forward(line.levels[x], line.base))
    requires 0 <= x + dir && line.levels[x] < line.levels[x + dir]
    ensures 0 <= Drop(line.levels, line.levels[x] + 1, dir, x + dir) < |line.levels|
    ensures Heading(line, true, line.levels[x] + 1, Next(line.levels, line.base, line.top, x),
                    Drop(line.levels, line.levels[x] + 1, dir, x + dir), -dir)
  {
    hide Enter, RunStart, RunEnd, IsLine, Bounded, Forward;
    var lv, k, s := line.levels, line.levels[x] + 1, x + dir;
    LineBounds(line);
    ForwardFlips(line.levels[x], line.base);
    if dir == 1 {
      RunRight(lv, line.base, line.top, k, s);
      RunEndNext(lv, k, s);
    } else {
      RunLeft(lv, line.base, line.top, k, s);
      RunStartNext(lv, k, s);
    }
  }

  lemma RunEndNext(lv: seq<int>, k: int, s: int)
    requires 0 <= s < |lv| && k <= lv[s]
    ensures RunEnd(lv, k, s) == RunEnd(lv, k, s + 1)
  {
  }

  lemma RunStartNext(lv: seq<int>, k: int, s: int)
    requires 0 <= s < |lv| && k <= lv[s]
    ensures RunStart(lv, k, s) == RunStart(lv, k, s + 1)
  {
  }

  /** The first jump when the level goes down: to the far edge of the run that is being left. */
  lemma {:induction false} HeadingStartsDown(line: Line, x: int, dir: int)
    requires line.Ok() && 0 <= x < |line.levels| - 1 && OneStep(dir)
    requires (dir == 1 <==> Forward(line.levels[x], line.base))
    requires 0 <= x + dir && line.levels[x + dir] < line.levels[x]
    ensures 0 <= Drop(line.levels, line.levels[x], -dir, x + dir) + dir < |line.levels|
    ensures Heading(line, false, line.levels[x] - 1, Next(line.levels, line.base, line.top, x),
                    Drop(line.levels, line.levels[x], -dir, x + dir) + dir, -dir)
  {
    hide Exit, RunStart, RunEnd, IsLine, Bounded, Forward;
    var lv, k := line.levels, line.levels[x];
    LineBounds(line);
    ForwardFlips(k - 1, line.base);
    if dir == 1 {
      ExitLeft(lv, line.base, k, x);
      RunStartNext(lv, k, x);
    } else {
      ExitRight(lv, line.base, k, x);
      RunEndNext(lv, k, x);
    }
  }

  class Reorderer {
    const line: Line
    const cache: Cache
    var it: BidiIt
    var firstElt: bool
    ghost var x: int      // index of the character last delivered
    ghost var lo: int
    ghost var hi: int

    /** An iterator about to scan a line: either placed on its first character (firstElt), or
        on the newline that ends the previous line. */
    constructor (line: Line, cache: Cache, firstElt: bool)
      requires line.Ok() && cache.Valid() && cache.Contents() == []
      requires cache.start + |line.levels| <= cache.slots.Length
      ensures this.line == line && this.cache == cache && this.firstElt == firstElt
      ensures it.charpos == line.first + (if firstElt then 1 else 0) && it.resolvedLevel == line.base
      ensures it.scanDir == 1 && x == 0 && Ready()
    {
      this.line, this.cache, this.firstElt := line, cache, firstElt;
      it := BidiIt(line.first + (if firstElt then 1 else 0), if firstElt then -1 else 1, line.base, 1);
      x, lo, hi := 0, 0, 0;
    }

    ghost predicate Cached(flux: bool)
      reads this`lo, this`hi, cache, cache.slots
    {
      && line.Ok() && cache.Valid()
      && cache.start + |line.levels| <= cache.slots.Length
      && Holds(cache.Contents(), line.first, line.levels, lo, hi, flux)
    }

    /** Records the iterator's state, which is that of index i, as resolved. */
    method CacheHere(ghost i: int)
      requires Cached(i == hi) && lo <= i <= hi && i < |line.levels|
      requires it.charpos == line.first + i && it.nchars == 1 && it.resolvedLevel == line.levels[i]
      requires it.scanDir != -1
      modifies this`hi, cache`idx, cache`lastIdx, cache.slots
      ensures Cached(false) && hi == (if i == old(hi) then i + 1 else old(hi))
      ensures cache.lastIdx == cache.start + i - lo
      ensures cache.Outer() == old(cache.Outer())
    {
      hide Contiguous, FramesOk, Frames, SlotIndex, Offered, Holds, Line.Ok;
      ghost var c := cache.Contents();
      RoomToOffer(c, line.first, line.levels, lo, hi, i);
      var ok := cache.IteratorState(it, true, false);
      ResolvedOffered(c, line.first, line.levels, lo, hi, i, it);
      if i == hi { hi := hi + 1; }
    }

    /** The states that resolving the character at hi caches ahead of time, unresolved. */
    method LookAhead(p: int)
      requires Cached(false) && hi < |line.levels| && p == line.first + hi && cache.lastIdx != -1
      modifies cache`idx, cache`lastIdx, cache.slots
      ensures Cached(false) && cache.Outer() == old(cache.Outer())
      ensures cache.lastIdx != -1 && cache.idx >= old(cache.idx)
      ensures cache.idx == old(cache.idx) ==> hi - lo < cache.idx - cache.start || cache.lastIdx == old(cache.lastIdx)
    {
      hide *;
      Bounds();
      var n := line.ahead[p - line.first];
      var k := 0;
      while k < n
        invariant 0 <= k <= n
        invariant cache.Valid() && Cached(false) && cache.Outer() == old(cache.Outer())
        invariant cache.lastIdx != -1 && cache.idx >= old(cache.idx)
        invariant hi + k <= lo + (cache.idx - cache.start)
        invariant k == 0 ==> cache.lastIdx == old(cache.lastIdx)
      {
        AheadOne(p, k);
        k := k + 1;
      }
    }

    lemma Bounds()
      requires Cached(false)
      ensures 0 <= lo < hi <= lo + (cache.idx - cache.start) && lo + (cache.idx - cache.start) <= |line.levels|
      ensures cache.Valid() && |line.ahead| == |line.levels| && cache.start + |line.levels| <= cache.slots.Length
      ensures |cache.Contents()| == cache.idx - cache.start && Contiguous(cache.Contents())
      ensures Holds(cache.Contents(), line.first, line.levels, lo, hi, false)
      ensures line.Ok() && forall i :: 0 <= i < |line.levels| ==> i + line.ahead[i] <= |line.levels|
    {
    }

    lemma MakeCached()
      requires line.Ok() && cache.Valid() && cache.start + |line.levels| <= cache.slots.Length
      requires Holds(cache.Contents(), line.first, line.levels, lo, hi, false)
      ensures Cached(false)
    {
    }

    /** The k-th of the states that are cached ahead. */
    method AheadOne(p: int, k: nat)
      requires Cached(false) && p == line.first + hi && hi + k < |line.levels| && cache.lastIdx != -1
      requires hi + k <= lo + (cache.idx - cache.start)
      modifies cache`idx, cache`lastIdx, cache.slots
      ensures cache.Valid() && Cached(false) && cache.Outer() == old(cache.Outer())
      ensures cache.lastIdx != -1 && cache.idx >= old(cache.idx) && hi + k < lo + (cache.idx - cache.start)
    {
      hide *;
      Bounds();
      ghost var c := cache.Contents();
      var s := BidiIt(p + k, 1, 0, 1);
      OfferUnresolved(c, line.first, line.levels, lo, hi, hi + k, s.(resolvedLevel := UNRESOLVED));
      HoldsSlot(c, line.first, line.levels, lo, hi, false, hi + k);
      var ok := cache.IteratorState(s, false, false);
      cache.ExtentIs();
      HoldsSlot(cache.Contents(), line.first, line.levels, lo, hi, false, hi + k);
      MakeCached();
    }

    /** The iterator is on index i, the cache's last hit is its slot, and everything cached
        is in order. */
    ghost predicate At(i: int)
      reads this`it, this`firstElt, this`lo, this`hi, cache, cache.slots
    {
      && Cached(false) && lo <= i < hi
      && it.nchars == (if firstElt then it.nchars else 1)
      && (it.scanDir == 1 || it.scanDir == -1)
      && it.charpos == line.first + (if firstElt then 1 else i)
      && (firstElt ==> i == lo == 0 && hi == 1 && it.scanDir == 1)
      && it.resolvedLevel == line.levels[i]
      && cache.lastIdx == cache.start + i - lo
    }

    /** The iterator was placed on the end of the text, and has nowhere to go. */
    ghost predicate Stuck()
      reads this`firstElt
    {
      firstElt && line.first + 1 >= line.eob
    }

    method UpdateIfCached(s: BidiIt)
      requires Cached(false) && cache.lastIdx != -1
      requires s.charpos == line.first + hi && s.nchars == 1 && s.scanDir != -1
      modifies cache`idx, cache`lastIdx, cache.slots
      ensures Cached(true) && cache.Outer() == old(cache.Outer()) && cache.idx == old(cache.idx)
      ensures cache.lastIdx == if hi < lo + (cache.idx - cache.start) then cache.start + hi - lo else old(cache.lastIdx)
    {
      hide Contiguous, FramesOk, Frames, SlotIndex, Offered, Holds, Line.Ok;
      ghost var c := cache.Contents();
      HoldsBounds(c, line.first, line.levels, lo, hi, false);
      HoldsSlot(c, line.first, line.levels, lo, hi, false, hi);
      OfferUpdate(c, line.first, line.levels, lo, hi, s);
      var ok := cache.IteratorState(s, true, true);
      if !ok { HoldsFlux(c, line.first, line.levels, lo, hi); }
    }

    /** Resolves the character at hi, which is not cached as resolved yet. */
    method ComputeNext(ghost i: int)
      requires At(i) && i + 1 == hi < |line.levels| && it.scanDir == 1
      modifies this`it, this`firstElt, cache`idx, cache`lastIdx, cache.slots
      ensures Cached(true) && !firstElt && cache.Outer() == old(cache.Outer())
      ensures it == BidiIt(line.first + hi, 1, line.levels[hi], 1)
      ensures cache.lastIdx == cache.start + (if hi < lo + (cache.idx - cache.start) then hi else i) - lo
    {
      hide Contiguous, FramesOk, Frames, SlotIndex, Offered, Holds, IsLine, Bounded;
      var p := if firstElt then it.charpos else it.charpos + it.nchars;
      HoldsBounds(cache.Contents(), line.first, line.levels, lo, hi, false);
      LookAhead(p);
      firstElt := false;
      var explicit := BidiIt(p, 1, line.explicit[p - line.first], 1);
      UpdateIfCached(explicit);
      it := explicit.(resolvedLevel := line.levels[p - line.first]);
    }

    /** Looks for the next character among the resolved cached states. */
    method NextFromCache(ghost i: int) returns (found: bool)
      requires At(i)
      requires if it.scanDir == 1 then i + 1 < |line.levels| else lo < i
      modifies this`it, cache`lastIdx
      ensures found == (i + it.scanDir < hi) && it.scanDir == old(it.scanDir)
      ensures cache.Valid() && cache.Outer() == old(cache.Outer())
      ensures At(if found then i + it.scanDir else i)
      ensures found ==> !firstElt
    {
      hide Contiguous, FramesOk, Frames, SlotIndex, Offered, Holds, IsLine, Bounded;
      HoldsBounds(cache.Contents(), line.first, line.levels, lo, hi, false);
      found := false;
      if cache.idx > cache.start && !firstElt {
        var next := if it.scanDir > 0 then it.charpos + it.nchars
                    else if it.charpos >= line.bob then it.charpos - 1 else -2;
        if next >= line.bob - 1 {
          HoldsResolved(cache.Contents(), line, lo, hi, i + it.scanDir);
          found, it := cache.Find(next, true, it);
        }
      }
    }

    /** Advances to the next character in the scan direction. */
    method LevelOfNextChar(ghost i: int) returns (level: int)
      requires At(i)
      requires if it.scanDir == 1 then i + 1 < |line.levels| else lo < i
      modifies this`it, this`firstElt, cache`idx, cache`lastIdx, cache.slots
      ensures it.scanDir == old(it.scanDir) && level == it.resolvedLevel
      ensures cache.Valid() && cache.Outer() == old(cache.Outer())
      ensures old(Stuck()) ==> At(i) && Stuck() && cache.idx == old(cache.idx)
      ensures !old(Stuck()) ==> !firstElt
      ensures !old(Stuck()) && i + it.scanDir < hi ==> At(i + it.scanDir)
      ensures !old(Stuck()) && i + it.scanDir == hi ==>
        && Cached(true)
        && it == BidiIt(line.first + hi, 1, line.levels[hi], 1)
        && cache.lastIdx == cache.start + (if hi < lo + (cache.idx - cache.start) then hi else i) - lo
    {
      hide Contiguous, FramesOk, Frames, SlotIndex, Offered, Holds, IsLine, Bounded;
      if it.scanDir == 1 && it.charpos >= line.eob {
        return it.resolvedLevel;
      }
      var found := NextFromCache(i);
      if !found { ComputeNext(i); }
      level := it.resolvedLevel;
    }

    /** The drop exists among the resolved cached characters. */
    ghost predicate DropCached(level: int, dir: int, i: int)
      reads this
    {
      && (dir == 1 || dir == -1)
      && 0 <= lo <= i < hi <= |line.levels|
      && (if dir > 0 then i < hi - 1 && line.levels[hi - 1] < level else lo < i && line.levels[lo] < level)
    }

    lemma DropInCache(level: int, dir: int, i: int)
      requires DropCached(level, dir, i)
      ensures lo <= Drop(line.levels, level, dir, i) < hi
      ensures dir > 0 ==> i < Drop(line.levels, level, dir, i)
      ensures dir < 0 ==> Drop(line.levels, level, dir, i) < i
    {
    }

    lemma SlotLevel(j: int, level: int)
      requires Cached(false) && lo <= j < hi
      ensures cache.start <= cache.start + j - lo < cache.idx
      ensures Lower(cache.slots[cache.start + j - lo], level) <==> line.levels[j] < level
    {
      hide Contiguous, FramesOk;
      assert cache.slots[cache.start + j - lo] == cache.Contents()[j - lo];
    }

    lemma SlotIs(j: int)
      requires Cached(false) && lo <= j < hi
      ensures cache.start <= cache.start + j - lo < cache.idx
      ensures var s := cache.slots[cache.start + j - lo]; s == BidiIt(line.first + j, 1, line.levels[j], s.scanDir)
    {
      hide Contiguous, FramesOk;
      assert cache.slots[cache.start + j - lo] == cache.Contents()[j - lo];
    }

    /** What the cache's search for a level change found, in terms of the line. */
    lemma DropFound(level: int, dir: int, before: bool, i: int, r: int)
      requires At(i) && DropCached(level, dir, i)
      requires r == -1 || 0 <= r < cache.idx
      requires r != -1 ==>
        var q := if before then r + dir else r;
        && cache.start <= q < cache.idx && Lower(cache.slots[q], level)
        && (if dir < 0 then q < cache.lastIdx else cache.lastIdx < q)
        && forall j :: (if dir < 0 then q < j < cache.lastIdx else cache.lastIdx < j < q) ==>
             !Lower(cache.slots[j], level)
      requires r == -1 ==>
        forall j :: (if dir < 0 then cache.start <= j < cache.lastIdx else cache.lastIdx < j < cache.idx) ==>
          !Lower(cache.slots[j], level)
      ensures r == cache.start
        + (if before then Drop(line.levels, level, dir, i) - dir else Drop(line.levels, level, dir, i)) - lo
      ensures cache.start <= r < cache.idx
    {
      hide Contiguous, FramesOk, Frames, Holds;
      HoldsBounds(cache.Contents(), line.first, line.levels, lo, hi, false);
      var d := Drop(line.levels, level, dir, i);
      DropInCache(level, dir, i);
      SlotLevel(d, level);
      var q := (if before then r + dir else r) - cache.start + lo;
      if r != -1 && q < hi { SlotLevel(q, level); }
    }

    /** The iterator is on the character at hi, resolved but not yet recorded as such. */
    ghost predicate AtFlux()
      reads this`it, this`firstElt, this`lo, this`hi, cache, cache.slots
    {
      && Cached(true) && !firstElt && hi < |line.levels|
      && it == BidiIt(line.first + hi, 1, line.levels[hi], 1)
      && cache.lastIdx == cache.start + (if hi < lo + (cache.idx - cache.start) then hi else hi - 1) - lo
    }

    lemma FluxShowsNoDrop(level: int)
      requires AtFlux()
      ensures cache.lastIdx != -1
      ensures forall j :: cache.lastIdx < j < cache.idx ==> !Lower(cache.slots[j], level)
    {
      hide Contiguous, FramesOk;
      forall j | cache.lastIdx < j < cache.idx
        ensures !Lower(cache.slots[j], level)
      {
        assert cache.slots[j] == cache.Contents()[j - cache.start];
      }
    }

    lemma DropIs(level: int, i: int, d: int)
      requires 0 <= i < d < |line.levels| && line.levels[d] < level
      requires forall j :: i < j < d ==> level <= line.levels[j]
      ensures Drop(line.levels, level, 1, i) == d
    {
    }

    lemma NewlineAtBase()
      requires line.Ok()
      ensures line.levels[|line.levels| - 1] == line.base
    {
    }

    /** Walks forward to the first character below `level`, caching everything on the way. */
    method Walk(level: int)
      requires AtFlux() && line.base < level <= line.levels[hi]
      modifies this`it, this`firstElt, this`hi, cache`idx, cache`lastIdx, cache.slots
      ensures At(hi - 1) && it.scanDir == 1 && !firstElt
      ensures hi - 1 == Drop(line.levels, level, 1, old(hi)) < |line.levels|
      ensures cache.Outer() == old(cache.Outer())
    {
      hide *;
      ghost var h := hi;
      FluxFacts();
      CacheHere(hi);
      FluxCached(h);
      var newLevel := level;
      while newLevel >= level
        invariant 0 <= h < hi <= |line.levels| && cache.Valid()
        invariant At(hi - 1) && it.scanDir == 1 && !firstElt
        invariant cache.Outer() == old(cache.Outer())
        invariant forall j :: h <= j < hi - 1 ==> line.levels[j] >= level
        invariant newLevel >= level <==> line.levels[hi - 1] >= level
        decreases |line.levels| - hi
      {
        AboveBase(level);
        newLevel := LevelOfNextChar(hi - 1);
        ghost var h' := hi;
        CacheHere(hi);
        FluxCached(h');
      }
      DropIs(level, h, hi - 1);
    }

    lemma FluxFacts()
      requires AtFlux()
      ensures Cached(true) && 0 <= lo <= hi < |line.levels| && !firstElt
      ensures it == BidiIt(line.first + hi, 1, line.levels[hi], 1)
      ensures line.Ok() && cache.Valid()
    {
      hide Contiguous, FramesOk, SlotIndex, Holds, IsLine, Bounded;
      HoldsBounds(cache.Contents(), line.first, line.levels, lo, hi, true);
    }

    /** The state at h, just recorded. */
    lemma FluxCached(h: int)
      requires Cached(false) && hi == h + 1 && lo <= h < |line.levels| && !firstElt
      requires it == BidiIt(line.first + h, 1, line.levels[h], 1) && cache.lastIdx == cache.start + h - lo
      ensures At(hi - 1) && hi <= |line.levels| && cache.Valid()
    {
    }

    /** A level above the base level is not that of the line's end. */
    lemma AboveBase(level: int)
      requires At(hi - 1) && line.base < level && level <= line.levels[hi - 1] && !firstElt && hi <= |line.levels|
      ensures hi < |line.levels| && !Stuck() && it.charpos == line.first + hi - 1
    {
      hide Contiguous, FramesOk, SlotIndex, Holds, Bounded;
      NewlineAtBase();
    }

    /** The slot of the other edge of a level, or -1 if the edge is not known yet. */
    method EdgeSlot(level: int, dir: int, endFlag: bool, ghost i: int, ghost known: bool) returns (r: int)
      requires known ==> At(i) && DropCached(level, dir, i)
      requires !known ==> AtFlux() && !endFlag && dir == 1
      ensures known ==>
        var j := if endFlag then Drop(line.levels, level, dir, i) - dir else Drop(line.levels, level, dir, i);
        && lo <= j < hi && cache.start <= r == cache.start + j - lo < cache.idx
        && cache.slots[r] == BidiIt(line.first + j, 1, line.levels[j], cache.slots[r].scanDir)
      ensures !known ==> r == -1
    {
      hide Contiguous, FramesOk, Frames, Holds, IsLine, Bounded, SlotIndex, RunStart, RunEnd, Lower;
      r := cache.FindLevelChange(level, dir, endFlag);
      if known {
        DropFound(level, dir, endFlag, i, r);
        DropInCache(level, dir, i);
        SlotIs(lo + r - cache.start);
      } else {
        FluxShowsNoDrop(level);
      }
    }

    /** Moves to the other edge of a level: the first character past it or, if `endFlag`, the
        last one still in it, looking back the way the scan came.  The edge is cached unless
        the iterator has just reached the end of what is known. */
    method FindOtherLevelEdge(level: int, endFlag: bool, ghost i: int, ghost known: bool)
      requires known ==> At(i) && !firstElt && DropCached(level, if endFlag then -it.scanDir else it.scanDir, i)
      requires !known ==> AtFlux() && i == hi && !endFlag && line.base < level <= line.levels[hi]
      modifies this`it, this`firstElt, this`hi, cache`idx, cache`lastIdx, cache.slots
      ensures it.scanDir == old(it.scanDir) && !firstElt
      ensures cache.Valid() && cache.Outer() == old(cache.Outer())
      ensures !known ==> hi - 1 == Drop(line.levels, level, 1, i) < |line.levels| && At(hi - 1)
      ensures known ==> (
        var dir := if endFlag then -it.scanDir else it.scanDir;
        && hi == old(hi) && 0 <= i < |line.levels|
        && At(if endFlag then Drop(line.levels, level, dir, i) - dir else Drop(line.levels, level, dir, i)))
    {
      hide Contiguous, FramesOk, Frames, Holds, IsLine, Bounded, SlotIndex, RunStart, RunEnd;
      var r := EdgeSlot(level, if endFlag then -it.scanDir else it.scanDir, endFlag, i, known);
      if r >= cache.start {
        it := cache.FetchState(r, it);
      } else {
        Walk(level);
      }
    }

    /** The state between deliveries.  With an empty cache the iterator is at the base level;
        otherwise the cached characters, from one at the base level to another, include
        everything around the iterator that is above it. */
    ghost predicate Ready()
      reads this, cache, cache.slots
    {
      && line.Ok() && cache.Valid()
      && cache.start + |line.levels| <= cache.slots.Length
      && 0 <= x < |line.levels|
      && (it.scanDir == 1 || it.scanDir == -1)
      && (it.scanDir == 1 <==> Forward(line.levels[x], line.base))
      && it.resolvedLevel == line.levels[x]
      && if cache.idx == cache.start then
           line.levels[x] == line.base
           && (firstElt ==> x == 0 || (x == 1 == |line.levels| - 1 && Stuck()))
           && it.charpos == line.first + (if firstElt then 1 else x) && (firstElt || it.nchars == 1)
         else !firstElt && Bracketed() && At(x)
    }

    ghost predicate Bracketed()
      reads this`lo, this`hi
    {
      0 <= lo < hi <= |line.levels| && line.levels[lo] == line.base == line.levels[hi - 1]
    }

    /** Peeks at the level of a resolved neighbour. */
    method Peek(ghost p: int) returns (level: int)
      requires At(p) && lo <= p + it.scanDir < hi
      ensures level == line.levels[p + it.scanDir]
    {
      hide Contiguous, FramesOk, Frames, Holds, IsLine, Bounded, SlotIndex, RunStart, RunEnd;
      HoldsBounds(cache.Contents(), line.first, line.levels, lo, hi, false);
      SlotIs(p + it.scanDir);
      level := cache.PeekAtNextLevel(it.scanDir);
    }

    /** One more jump to the other edge of a level, and a flip. */
    method Flip(level: int, ascending: bool, ghost p: int, ghost known: bool)
      requires known ==> At(p) && !firstElt && DropCached(level, if ascending then it.scanDir else -it.scanDir, p)
      requires !known ==> AtFlux() && p == hi && ascending && line.base < level <= line.levels[hi]
      modifies this`it, this`firstElt, this`hi, cache`idx, cache`lastIdx, cache.slots
      ensures it.scanDir == -old(it.scanDir) && !firstElt
      ensures cache.Valid() && cache.Outer() == old(cache.Outer())
      ensures !known ==> hi - 1 == Drop(line.levels, level, 1, p) < |line.levels| && At(hi - 1)
      ensures known ==> (
        && hi == old(hi) && 0 <= p < |line.levels|
        && At(if ascending then Drop(line.levels, level, -it.scanDir, p)
              else Drop(line.levels, level, it.scanDir, p) - it.scanDir))
    {
      hide Contiguous, FramesOk, Frames, Holds, IsLine, Bounded, SlotIndex, RunStart, RunEnd;
      FindOtherLevelEdge(level, !ascending, p, known);
      it := it.(scanDir := -it.scanDir);
    }

    ghost predicate Jumping(ascending: bool, expected: int, target: int, p: int)
      reads this, cache, cache.slots
    {
      && At(p) && !firstElt && Bracketed()
      && lo <= p + it.scanDir < hi
      && Heading(line, ascending, expected, target, p, it.scanDir)
    }

    lemma JumpIsCached(ascending: bool, expected: int, target: int, p: int)
      requires Jumping(ascending, expected, target, p)
      requires line.levels[p + it.scanDir] != expected
      ensures DropCached(if ascending then expected + 1 else expected,
                         if ascending then it.scanDir else -it.scanDir, p)
      ensures if ascending then expected < line.top else line.base < expected
    {
      hide Contiguous, FramesOk, Frames, Holds, IsLine, Bounded, SlotIndex, RunStart, RunEnd, Enter, Exit, Forward;
      LineBounds(line);
    }

    /** The neighbour's level is not the expected one: jump once more. */
    method JumpAgain(ascending: bool, expected: int, levelToSearch: int, ghost target: int, ghost p: int)
        returns (ghost p': int)
      requires levelToSearch == if ascending then expected + 1 else expected
      requires Jumping(ascending, expected, target, p) && line.levels[p + it.scanDir] != expected
      modifies this`it, this`firstElt, this`hi, cache`idx, cache`lastIdx, cache.slots
      ensures Jumping(ascending, if ascending then expected + 1 else expected - 1, target, p')
      ensures hi == old(hi) && cache.Outer() == old(cache.Outer())
    {
      hide Contiguous, FramesOk, Frames, Holds, IsLine, Bounded, SlotIndex, RunStart, RunEnd, Enter, Exit, Drop,
        Forward;
      JumpIsCached(ascending, expected, target, p);
      ghost var dir := it.scanDir;
      if ascending {
        HeadingUp(line, expected, target, p, dir);
        DropInCache(levelToSearch, dir, p);
        p' := Drop(line.levels, levelToSearch, dir, p);
      } else {
        HeadingDown(line, expected, target, p, dir);
        DropInCache(levelToSearch, -dir, p);
        p' := Drop(line.levels, levelToSearch, -dir, p) + dir;
      }
      Flip(levelToSearch, ascending, p, true);
    }

    lemma JumpFacts(ascending: bool, expected: int, target: int, p: int)
      requires Jumping(ascending, expected, target, p)
      ensures At(p) && cache.Valid() && lo <= p + it.scanDir < hi && 0 <= p + it.scanDir < |line.levels|
    {
    }

    /** The next character is the one to be delivered. */
    lemma JumpArrives(ascending: bool, expected: int, target: int, p: int)
      requires Jumping(ascending, expected, target, p)
      requires 0 <= p + it.scanDir < |line.levels| && line.levels[p + it.scanDir] == expected
      ensures At(p) && !firstElt && Bracketed() && p + it.scanDir == target && lo <= target < hi
      ensures 0 <= target < |line.levels| && (it.scanDir == 1 <==> Forward(line.levels[target], line.base))
    {
      hide Contiguous, FramesOk, Frames, Holds, IsLine, Bounded, SlotIndex, RunStart, RunEnd, Enter, Exit, Drop,
        Forward;
      HeadingArrives(line, ascending, expected, target, p, it.scanDir);
    }

    /** Jumps and flips until the next character has the expected level. */
    method JumpOn(ascending: bool, level: int, ghost target: int, ghost q: int) returns (ghost p: int)
      requires Jumping(ascending, if ascending then level else level - 1, target, q)
      modifies this`it, this`firstElt, this`hi, cache`idx, cache`lastIdx, cache.slots
      ensures At(p) && !firstElt && Bracketed() && hi == old(hi)
      ensures p + it.scanDir == target && lo <= target < hi
      ensures it.scanDir == 1 <==> Forward(line.levels[target], line.base)
      ensures cache.Outer() == old(cache.Outer())
    {
      hide *;
      JumpFacts(ascending, if ascending then level else level - 1, target, q);
      p := q;
      var levelToSearch := level;
      var incr := if ascending then 1 else -1;
      var expected := if ascending then level else level - 1;
      var next := Peek(p);
      while next != expected
        invariant Jumping(ascending, expected, target, p) && hi == old(hi) && cache.Valid()
        invariant cache.Outer() == old(cache.Outer())
        invariant 0 <= p + it.scanDir < |line.levels| && next == line.levels[p + it.scanDir]
        invariant levelToSearch == if ascending then expected else expected + 1
        decreases if ascending then line.top - expected else expected - line.base
      {
        JumpIsCached(ascending, expected, target, p);
        levelToSearch := levelToSearch + incr;
        p := JumpAgain(ascending, expected, levelToSearch, target, p);
        expected := expected + incr;
        JumpFacts(ascending, expected, target, p);
        next := Peek(p);
      }
      JumpArrives(ascending, expected, target, p);
    }

    /** The iterator has just been advanced from index x, in the direction of x's level. */
    ghost predicate Stepped(known: bool)
      reads this, cache, cache.slots
    {
      && line.Ok() && Bracketed() && !firstElt
      && lo <= x < hi && x < |line.levels| - 1
      && (it.scanDir == 1 || it.scanDir == -1)
      && (it.scanDir == 1 <==> Forward(line.levels[x], line.base))
      && if known then At(x + it.scanDir) else AtFlux() && x + 1 == hi && it.scanDir == 1
    }

    lemma DropAhead(level: int, i: int)
      requires line.Ok() && line.base < level && 0 <= i < |line.levels| - 1
      ensures i < Drop(line.levels, level, 1, i) < |line.levels|
      ensures line.base <= line.levels[Drop(line.levels, level, 1, i)] < level
    {
    }

    /** A level change: the first jump, to the other edge of the level being entered or left. */
    method JumpFirst(ascending: bool, level: int, ghost known: bool) returns (ghost p: int)
      requires Stepped(known)
      requires it.resolvedLevel != line.levels[x] && ascending == (it.resolvedLevel > line.levels[x])
      requires level == if ascending then line.levels[x] + 1 else line.levels[x]
      modifies this`it, this`firstElt, this`hi, cache`idx, cache`lastIdx, cache.slots
      ensures Jumping(ascending, if ascending then level else level - 1,
                      Next(line.levels, line.base, line.top, x), p)
      ensures cache.Outer() == old(cache.Outer())
    {
      hide Contiguous, FramesOk, Frames, Holds, IsLine, Bounded, SlotIndex, RunStart, RunEnd, Enter, Exit, Next,
        Forward, Drop, Heading;
      LineBounds(line);
      ghost var dir := it.scanDir;
      ghost var j := x + dir;
      if ascending {
        HeadingStartsUp(line, x, dir);
        if known { DropInCache(level, dir, j); } else { DropAhead(level, j); }
        p := Drop(line.levels, level, dir, j);
      } else {
        HeadingStartsDown(line, x, dir);
        DropInCache(level, -dir, j);
        p := Drop(line.levels, level, -dir, j) + dir;
      }
      Flip(level, ascending, j, known);
    }

    /** Caches the iterator itself, at the base level, as the state to stop a backward scan. */
    method CacheSentinel()
      requires Ready() && cache.idx == cache.start && x < |line.levels| - 1
      modifies this`lo, this`hi, cache`idx, cache`lastIdx, cache.slots
      ensures At(x) && Bracketed() && lo == x && hi == x + 1 && cache.idx == cache.start + 1
      ensures cache.Outer() == old(cache.Outer())
    {
      hide Contiguous, FramesOk, Frames, IsLine, Bounded;
      var sentinel := if firstElt then it.(charpos := it.charpos - 1, nchars := 1) else it;
      assert cache.Contents() == [];
      var ok := cache.IteratorState(sentinel, true, false);
      lo, hi := x, x + 1;
    }

    /** Ends a delivery: the cache is dropped at the base level past its end, and otherwise
        takes note of the state. */
    method Settle(ghost known: bool)
      requires Landed(x, known)
      modifies this`hi, cache`idx, cache`lastIdx, cache.slots
      ensures Ready() && cache.Outer() == old(cache.Outer())
    {
      hide Contiguous, FramesOk, Frames, IsLine, Bounded, Holds, SlotIndex, Offered;
      ghost var c := cache.Contents();
      ghost var flux := !known && !firstElt;
      HoldsBounds(c, line.first, line.levels, lo, hi, flux);
      LastSlot(c, line.first, line.levels, lo, hi, flux);
      if it.scanDir == 1 && cache.idx > cache.start {
        var last := cache.slots[cache.idx - 1];
        assert last == c[|c| - 1];
        if it.resolvedLevel == line.base && it.charpos > last.charpos + last.nchars - 1 {
          cache.Reset();
        } else if it.resolvedLevel == line.base && cache.idx >= cache.slots.Length && it.charpos == last.charpos {
          cache.Reset();
        } else {
          CacheHere(x);
        }
      }
    }

    /** Advances one character in the scan direction, caching the sentinel first if need be. */
    method Advance() returns (newLevel: int)
      requires Ready() && x < |line.levels| - 1
      modifies this`it, this`firstElt, this`lo, this`hi, cache`idx, cache`lastIdx, cache.slots
      ensures newLevel == it.resolvedLevel
      ensures if old(Stuck()) then At(0) && Stuck() && lo == 0 && hi == 1 && cache.idx == cache.start + 1
              else Stepped(x + it.scanDir < hi)
      ensures it.scanDir == old(it.scanDir) && cache.Outer() == old(cache.Outer())
    {
      hide Contiguous, FramesOk, Frames, IsLine, Bounded, Holds, SlotIndex, Offered;
      LineBounds(line);
      if cache.idx == cache.start { CacheSentinel(); }
      newLevel := LevelOfNextChar(x);
    }

    /** The level has changed: finds the next character at the other edges of the levels. */
    method ChangeLevel(oldLevel: int, newLevel: int, ghost known: bool)
      requires Stepped(known) && newLevel == it.resolvedLevel != oldLevel == line.levels[x]
      modifies this`it, this`firstElt, this`hi, cache`idx, cache`lastIdx, cache.slots
      ensures Bracketed() && !firstElt && At(Next(line.levels, line.base, line.top, x))
      ensures it.scanDir == 1 <==> Forward(line.levels[Next(line.levels, line.base, line.top, x)], line.base)
      ensures cache.Outer() == old(cache.Outer())
    {
      hide Contiguous, FramesOk, Frames, IsLine, Bounded, Holds, SlotIndex, Offered, Next, Forward, Heading;
      var ascending := newLevel > oldLevel;
      var level := if ascending then oldLevel + 1 else oldLevel;
      ghost var target := Next(line.levels, line.base, line.top, x);
      ghost var p := JumpFirst(ascending, level, known);
      p := JumpOn(ascending, level, target, p);
      var _ := LevelOfNextChar(p);
    }

    /** In a line that is nothing but its end, the end comes next. */
    lemma NextOfEmpty()
      requires At(0) && Stuck()
      ensures |line.levels| == 2 && line.levels[0] == line.levels[1] == line.base
      ensures Next(line.levels, line.base, line.top, 0) == 1
    {
    }

    lemma ReadyFacts()
      requires Ready()
      ensures line.Ok() && IsLine(line.levels, line.base) && Bounded(line.levels, line.top) && cache.Valid()
      ensures 0 <= x < |line.levels| && it.resolvedLevel == line.levels[x]
      ensures it.charpos == line.first + (if firstElt then 1 else x)
      ensures firstElt ==> x == 0 || x == 1 == |line.levels| - 1
      ensures Stuck() ==> firstElt
    {
    }

    /** After the advance, unless the level has changed, the next character has been reached. */
    lemma Arrived(stuck: bool, known: bool)
      requires line.Ok() && IsLine(line.levels, line.base) && Bounded(line.levels, line.top)
      requires 0 <= x < |line.levels| - 1
      requires if stuck then At(0) && Stuck() && lo == 0 && hi == 1 && x == 0 && cache.idx == cache.start + 1
               else Stepped(known)
      ensures stuck ==> it.resolvedLevel == line.levels[x]
      ensures Bracketed() && (firstElt ==> stuck)
      ensures cache.Valid()
      ensures it.resolvedLevel == line.levels[x] ==> Landed(Next(line.levels, line.base, line.top, x), known)
    {
      hide Contiguous, FramesOk, Frames, Bounded, Holds, SlotIndex, Enter, Exit;
      if stuck { NextOfEmpty(); }
    }

    /** The iterator stands for index q; one with nowhere to go, for the end. */
    ghost predicate Landed(q: int, known: bool)
      reads this`it, this`firstElt, this`lo, this`hi, cache, cache.slots
    {
      && Bracketed() && line.Ok() && 0 <= q < |line.levels|
      && (it.scanDir == 1 <==> Forward(line.levels[q], line.base))
      && if firstElt then
           && At(0) && Stuck() && q == 1 == |line.levels| - 1 && cache.idx == cache.start + 1
           && line.levels[0] == line.levels[1] == line.base
         else if known then At(q)
         else AtFlux() && q == hi && it.scanDir == 1 && line.levels[q] == line.base
    }

    lemma LandedFirst(known: bool)
      requires Landed(x, known)
      ensures cache.Valid()
      ensures firstElt ==> x == |line.levels| - 1
    {
    }

    lemma LandedAfter(q: int)
      requires Bracketed() && !firstElt && line.Ok() && At(q) && 0 <= q < |line.levels|
      requires it.scanDir == 1 <==> Forward(line.levels[q], line.base)
      ensures Landed(q, true) && cache.Valid()
    {
    }

    /** Delivers the character after the one at x in visual order. */
    method MoveToVisuallyNext()
      requires Ready() && x < |line.levels| - 1
      modifies this`it, this`firstElt, this`x, this`lo, this`hi, cache`idx, cache`lastIdx, cache.slots
      ensures Ready() && (firstElt ==> x == |line.levels| - 1)
      ensures x == Next(line.levels, line.base, line.top, old(x)) && it.charpos == line.first + x
      ensures cache.Outer() == old(cache.Outer())
    {
      hide *;
      ReadyFacts();
      ghost var target := Next(line.levels, line.base, line.top, x);
      ghost var known := Proceed();
      x := target;
      LandedFirst(known);
      Settle(known);
      ReadyFacts();
    }

    /** Advances, and follows the levels if the level has changed. */
    method Proceed() returns (ghost known: bool)
      requires Ready() && line.Ok() && IsLine(line.levels, line.base) && Bounded(line.levels, line.top)
      requires 0 <= x < |line.levels| - 1
      modifies this`it, this`firstElt, this`lo, this`hi, cache`idx, cache`lastIdx, cache.slots
      ensures Landed(Next(line.levels, line.base, line.top, x), known) && cache.Valid()
      ensures cache.Outer() == old(cache.Outer())
    {
      hide *;
      ReadyFacts();
      var oldLevel := it.resolvedLevel;
      ghost var stuck := Stuck();
      var newLevel := Advance();
      known := x + it.scanDir < hi;
      Arrived(stuck, known);
      if newLevel != oldLevel {
        ChangeLevel(oldLevel, newLevel, known);
        known := true;
        LandedAfter(Next(line.levels, line.base, line.top, x));
      }
    }
  }

  /** Displaying a whole line: the positions delivered by successive moves, from the first to
      the newline, are those of the line in the order of rule L2. */
  method DeliverLine(line: Line, cache: Cache, firstElt: bool) returns (order: seq<int>)
    requires line.Ok() && cache.Valid() && cache.Contents() == []
    requires cache.start + |line.levels| <= cache.slots.Length
    modifies cache`idx, cache`lastIdx, cache.slots
    ensures |order| == |line.levels| - 1
    ensures forall i :: 0 <= i < |order| ==> order[i] == line.first + L2(line.levels, line.base, line.top)[i + 1]
    ensures forall i, j :: 0 <= i < j < |order| ==> order[i] != order[j]
    ensures forall p :: p in order <==> line.first < p < line.first + |line.levels|
    ensures cache.Valid() && cache.Outer() == old(cache.Outer())
  {
    hide Contiguous, FramesOk, Frames, IsLine, Bounded, Holds, SlotIndex, Next, L2;
    var r := new Reorderer(line, cache, firstElt);
    ghost var o := L2(line.levels, line.base, line.top);
    L2Ends(line.levels, line.base, line.top);
    order := [];
    while |order| < |line.levels| - 1
      invariant r.line == line && r.cache == cache && |order| < |line.levels|
      invariant r.Ready() && r.x == o[|order|]
      invariant cache.Outer() == old(cache.Outer())
      invariant forall i :: 0 <= i < |order| ==> order[i] == line.first + o[i + 1]
    {
      NextIsL2Successor(line.levels, line.base, line.top, |order|);
      r.MoveToVisuallyNext();
      order := order + [r.it.charpos];
    }
    EachOnce(line, order);
  }

  /** Since rule L2 gives each character one place, and the sentinel the first one. */
  lemma EachOnce(line: Line, order: seq<int>)
    requires line.Ok() && |order| == |line.levels| - 1
    requires forall i :: 0 <= i < |order| ==> order[i] == line.first + L2(line.levels, line.base, line.top)[i + 1]
    ensures forall i, j :: 0 <= i < j < |order| ==> order[i] != order[j]
    ensures forall p :: p in order <==> line.first < p < line.first + |line.levels|
  {
    var s := L2(line.levels, line.base, line.top);
    L2Once(line.levels, line.base, line.top);
    L2Ends(line.levels, line.base, line.top);
    hide L2, IsLine, Bounded;
    forall p
      ensures p in order <==> line.first < p < line.first + |line.levels|
    {
      if p in order {
        var i :| 0 <= i < |order| && order[i] == p;
        assert s[i + 1] in s && s[i + 1] != s[0];
      }
      if line.first < p < line.first + |line.levels| {
        assert p - line.first in s;
        var j :| 0 <= j < |s| && s[j] == p - line.first;
        assert order[j - 1] == p;
      }
    }
  }
}
