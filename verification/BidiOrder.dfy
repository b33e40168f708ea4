/** The visual order of one line, given the resolved level of each of its characters.

    Index 0 stands for the sentinel that precedes the line and the last index for the
    newline; both sit at the paragraph's base level.  `L2` is the batch form of rule L2
    of UAX #9; `Next` is the successor that the incremental engine jumps to; and
    `NextIsL2Successor` says that the two agree everywhere. */
module BidiOrder {

  ghost predicate IsLine(lv: seq<int>, base: int) {
    && |lv| > 0
    && lv[0] == base
    && lv[|lv| - 1] == base
    && forall i :: 0 <= i < |lv| ==> base <= lv[i]
  }

  ghost predicate Bounded(lv: seq<int>, top: int) {
    forall i :: 0 <= i < |lv| ==> lv[i] <= top
  }

  // ---------- Rule L2 as UAX #9 states it: reverse runs, highest level first ----------

  function Reverse<T>(s: seq<T>): (r: seq<T>)
    ensures |r| == |s|
    ensures forall i :: 0 <= i < |s| ==> r[i] == s[|s| - 1 - i]
  {
    seq(|s|, i requires 0 <= i < |s| => s[|s| - 1 - i])
  }

  ghost predicate Indices(lv: seq<int>, order: seq<int>) {
    forall i :: 0 <= i < |order| ==> 0 <= order[i] < |lv|
  }

  /** Length of the longest prefix of `order` whose characters are at level k or above. */
  function PrefixLen(lv: seq<int>, order: seq<int>, k: int): (m: nat)
    requires Indices(lv, order)
    ensures m <= |order|
    ensures forall i :: 0 <= i < m ==> lv[order[i]] >= k
    ensures m < |order| ==> lv[order[m]] < k
  {
    if order == [] || lv[order[0]] < k then 0 else 1 + PrefixLen(lv, order[1..], k)
  }

  /** Reverses every maximal run of characters at level k or above. */
  function ReverseRuns(lv: seq<int>, order: seq<int>, k: int): (r: seq<int>)
    requires Indices(lv, order)
    ensures |r| == |order| && Indices(lv, r)
    decreases |order|
  {
    if order == [] then []
    else if lv[order[0]] < k then [order[0]] + ReverseRuns(lv, order[1..], k)
    else
      var m := PrefixLen(lv, order, k);
      Reverse(order[..m]) + ReverseRuns(lv, order[m..], k)
  }

  /** Rule L2: reverse the runs of level >= k for k from `k` down to base + 1. */
  function L2From(lv: seq<int>, order: seq<int>, k: int, base: int): (r: seq<int>)
    requires Indices(lv, order)
    ensures |r| == |order|
    decreases k - base
  {
    if k <= base then order else L2From(lv, ReverseRuns(lv, order, k), k - 1, base)
  }

  function Range(a: int, e: int): (r: seq<int>)
    requires a <= e
    ensures |r| == e - a
    ensures forall i :: 0 <= i < e - a ==> r[i] == a + i
  {
    seq(e - a, i => a + i)
  }

  function L2(lv: seq<int>, base: int, top: int): (r: seq<int>)
    ensures |r| == |lv|
  {
    L2From(lv, Range(0, |lv|), top, base)
  }

  // ---------- Runs ----------

  /** One past the last index of the run of level >= k that contains or starts at p. */
  function RunEnd(lv: seq<int>, k: int, p: int): (e: int)
    requires 0 <= p <= |lv|
    ensures p <= e <= |lv|
    ensures forall i :: p <= i < e ==> lv[i] >= k
    ensures e < |lv| ==> lv[e] < k
    decreases |lv| - p
  {
    if p < |lv| && lv[p] >= k then RunEnd(lv, k, p + 1) else p
  }

  /** First index of the run of level >= k that ends just before p. */
  function RunStart(lv: seq<int>, k: int, p: int): (a: int)
    requires 0 <= p <= |lv|
    ensures 0 <= a <= p
    ensures forall i :: a <= i < p ==> lv[i] >= k
    ensures a > 0 ==> lv[a - 1] < k
    decreases p
  {
    if p > 0 && lv[p - 1] >= k then RunStart(lv, k, p - 1) else p
  }

  /** [a, e) is a maximal run of level >= k. */
  ghost predicate IsRun(lv: seq<int>, k: int, a: int, e: int) {
    && 0 <= a < e <= |lv|
    && (forall i :: a <= i < e ==> lv[i] >= k)
    && (a > 0 ==> lv[a - 1] < k)
    && (e < |lv| ==> lv[e] < k)
  }

  lemma RunIsUnique(lv: seq<int>, k: int, a: int, e: int, p: int)
    requires IsRun(lv, k, a, e) && a <= p < e
    ensures RunStart(lv, k, p) == a && RunEnd(lv, k, p) == e
    ensures RunStart(lv, k, p + 1) == a
  {
  }

  // ---------- The arrangement after the runs above level k have been reversed ----------

  /** Characters at level k or below stay put; each maximal run above level k, taken with
      its own inner arrangement, is reversed. */
  ghost function Arr(lv: seq<int>, k: int, top: int, a: int, e: int): (r: seq<int>)
    requires 0 <= a <= e <= |lv| && Bounded(lv, top)
    requires e < |lv| && e > a ==> lv[e] <= k
    ensures |r| == e - a
    ensures forall i :: 0 <= i < |r| ==> a <= r[i] < e
    decreases if top > k then top - k else 0, e - a
  {
    if a == e then []
    else if lv[a] <= k then [a] + Arr(lv, k, top, a + 1, e)
    else
      var d := RunEnd(lv, k + 1, a);
      Reverse(Arr(lv, k + 1, top, a, d)) + Arr(lv, k, top, d, e)
  }


  lemma ArrLow(lv: seq<int>, k: int, top: int, a: int, e: int)
    requires 0 <= a < e <= |lv| && Bounded(lv, top)
    requires e < |lv| ==> lv[e] <= k
    requires lv[a] <= k
    ensures Arr(lv, k, top, a, e) == [a] + Arr(lv, k, top, a + 1, e)
  {
  }

  lemma ArrHigh(lv: seq<int>, k: int, top: int, a: int, e: int)
    requires 0 <= a < e <= |lv| && Bounded(lv, top)
    requires e < |lv| ==> lv[e] <= k
    requires lv[a] > k
    ensures a < RunEnd(lv, k + 1, a) <= e
    ensures Arr(lv, k, top, a, e)
         == Reverse(Arr(lv, k + 1, top, a, RunEnd(lv, k + 1, a))) + Arr(lv, k, top, RunEnd(lv, k + 1, a), e)
  {
  }

  lemma ArrHighFirst(lv: seq<int>, k: int, top: int, a: int, e: int)
    requires 0 <= a < e <= |lv| && Bounded(lv, top)
    requires e < |lv| ==> lv[e] <= k
    requires lv[a] > k
    ensures a < RunEnd(lv, k + 1, a) <= e
    ensures |Arr(lv, k, top, a, e)| == e - a
    ensures |Arr(lv, k + 1, top, a, RunEnd(lv, k + 1, a))| == RunEnd(lv, k + 1, a) - a
    ensures Arr(lv, k, top, a, e)[0] == Arr(lv, k + 1, top, a, RunEnd(lv, k + 1, a))[RunEnd(lv, k + 1, a) - a - 1]
  {
    hide Arr, RunEnd, Bounded;
    ArrHigh(lv, k, top, a, e);
  }

  lemma {:induction false} ArrSplit(lv: seq<int>, k: int, top: int, a: int, d: int, e: int)
    requires 0 <= a <= d <= e <= |lv| && Bounded(lv, top)
    requires d < |lv| ==> lv[d] <= k
    requires e < |lv| && e > a ==> lv[e] <= k
    ensures Arr(lv, k, top, a, e) == Arr(lv, k, top, a, d) + Arr(lv, k, top, d, e)
    decreases d - a
  {
    hide Arr, RunEnd;
    if a == d {
      ArrEmpty(lv, k, top, a);
    } else if lv[a] <= k {
      ArrLow(lv, k, top, a, e);
      ArrLow(lv, k, top, a, d);
      ArrSplit(lv, k, top, a + 1, d, e);
    } else {
      ArrHigh(lv, k, top, a, e);
      ArrHigh(lv, k, top, a, d);
      ArrSplit(lv, k, top, RunEnd(lv, k + 1, a), d, e);
    }
  }

  lemma ArrEmpty(lv: seq<int>, k: int, top: int, a: int)
    requires 0 <= a <= |lv| && Bounded(lv, top)
    ensures Arr(lv, k, top, a, a) == []
  {
  }

  lemma PrefixLenIs(lv: seq<int>, order: seq<int>, k: int, m: nat)
    requires Indices(lv, order) && m <= |order|
    requires forall i :: 0 <= i < m ==> lv[order[i]] >= k
    requires m < |order| ==> lv[order[m]] < k
    ensures PrefixLen(lv, order, k) == m
  {
  }

  lemma ReverseRunsOfRun(lv: seq<int>, run: seq<int>, rest: seq<int>, k: int)
    requires Indices(lv, run) && Indices(lv, rest) && run != []
    requires forall i :: 0 <= i < |run| ==> lv[run[i]] >= k
    requires rest != [] ==> lv[rest[0]] < k
    ensures Indices(lv, run + rest)
    ensures ReverseRuns(lv, run + rest, k) == Reverse(run) + ReverseRuns(lv, rest, k)
  {
    var order := run + rest;
    PrefixLenIs(lv, order, k, |run|);
    assert order[..|run|] == run && order[|run|..] == rest;
  }

  lemma ReverseRunsOfLow(lv: seq<int>, x: int, rest: seq<int>, k: int)
    requires 0 <= x < |lv| && lv[x] < k && Indices(lv, rest)
    ensures Indices(lv, [x] + rest)
    ensures ReverseRuns(lv, [x] + rest, k) == [x] + ReverseRuns(lv, rest, k)
  {
    assert ([x] + rest)[1..] == rest;
  }

  lemma ArrIndices(lv: seq<int>, k: int, top: int, a: int, e: int)
    requires 0 <= a <= e <= |lv| && Bounded(lv, top)
    requires e < |lv| && e > a ==> lv[e] <= k
    ensures Indices(lv, Arr(lv, k, top, a, e))
    ensures a < e && lv[a] <= k ==> Arr(lv, k, top, a, e)[0] == a
  {
  }

  /** The rest of a round of rule L2, once the first run of level >= k has been reversed. */
  lemma ReverseRunsHead(lv: seq<int>, k: int, top: int, a: int, d: int, e: int)
    requires 0 <= a < d <= e <= |lv| && Bounded(lv, top)
    requires e < |lv| ==> lv[e] < k
    requires lv[a] >= k && d == RunEnd(lv, k, a)
    ensures Indices(lv, Arr(lv, k, top, a, e)) && Indices(lv, Arr(lv, k, top, d, e))
    ensures ReverseRuns(lv, Arr(lv, k, top, a, e), k)
         == Reverse(Arr(lv, k, top, a, d)) + ReverseRuns(lv, Arr(lv, k, top, d, e), k)
  {
    ArrSplit(lv, k, top, a, d, e);
    ArrIndices(lv, k, top, a, d);
    ArrIndices(lv, k, top, d, e);
    ReverseRunsOfRun(lv, Arr(lv, k, top, a, d), Arr(lv, k, top, d, e), k);
  }

  /** One round of rule L2 turns the arrangement for level k into the one for k - 1. */
  lemma {:induction false} ReverseRunsStep(lv: seq<int>, k: int, top: int, a: int, e: int)
    requires 0 <= a <= e <= |lv| && Bounded(lv, top)
    requires e < |lv| ==> lv[e] < k
    ensures Indices(lv, Arr(lv, k, top, a, e))
    ensures ReverseRuns(lv, Arr(lv, k, top, a, e), k) == Arr(lv, k - 1, top, a, e)
    decreases e - a
  {
    ArrIndices(lv, k, top, a, e);
    if a == e {
    } else if lv[a] < k {
      hide Arr, ReverseRuns;
      ArrLow(lv, k, top, a, e);
      ArrLow(lv, k - 1, top, a, e);
      ReverseRunsStep(lv, k, top, a + 1, e);
      ReverseRunsOfLow(lv, a, Arr(lv, k, top, a + 1, e), k);
    } else {
      hide Arr, ReverseRuns;
      var d := RunEnd(lv, k, a);
      ArrHigh(lv, k - 1, top, a, e);
      ReverseRunsHead(lv, k, top, a, d, e);
      ReverseRunsStep(lv, k, top, d, e);
    }
  }

  lemma {:induction false} ArrAtTop(lv: seq<int>, top: int, a: int)
    requires 0 <= a <= |lv| && Bounded(lv, top)
    ensures Arr(lv, top, top, a, |lv|) == Range(a, |lv|)
    decreases |lv| - a
  {
    if a < |lv| { ArrAtTop(lv, top, a + 1); }
  }

  lemma {:induction false} L2FromArr(lv: seq<int>, k: int, top: int, base: int)
    requires base <= k && Bounded(lv, top)
    ensures L2From(lv, Arr(lv, k, top, 0, |lv|), k, base) == Arr(lv, base, top, 0, |lv|)
    decreases k - base
  {
    if k > base {
      ReverseRunsStep(lv, k, top, 0, |lv|);
      L2FromArr(lv, k - 1, top, base);
    }
  }

  /** The batch form of rule L2 computes the nested arrangement of the whole line. */
  lemma L2IsArr(lv: seq<int>, base: int, top: int)
    requires base <= top && Bounded(lv, top)
    ensures L2(lv, base, top) == Arr(lv, base, top, 0, |lv|)
  {
    ArrAtTop(lv, top, 0);
    L2FromArr(lv, top, top, base);
  }

  // ---------- The successor the incremental engine computes ----------

  /** A run of level >= k is scanned forward iff k and the base level have equal parity. */
  predicate Forward(k: int, base: int) { (k - base) % 2 == 0 }

  /** First character delivered of the run of level >= k around p. */
  function Enter(lv: seq<int>, base: int, top: int, k: int, p: int): (q: int)
    requires 0 <= p < |lv| && k <= lv[p] && Bounded(lv, top)
    ensures 0 <= q < |lv|
    decreases top - k
  {
    var s := if Forward(k, base) then RunStart(lv, k, p) else RunEnd(lv, k, p) - 1;
    if lv[s] == k then s else Enter(lv, base, top, k + 1, s)
  }

  /** The character delivered after the last one of the run of level >= k around p. */
  function Exit(lv: seq<int>, base: int, k: int, p: int): (q: int)
    requires IsLine(lv, base) && base < k && 0 <= p < |lv| && k <= lv[p]
    ensures 0 <= q < |lv|
    decreases k - base
  {
    var q := if Forward(k - 1, base) then RunEnd(lv, k, p) else RunStart(lv, k, p) - 1;
    if lv[q] == k - 1 then q else Exit(lv, base, k - 1, p)
  }

  /** The character delivered after the one at x, which is not the newline. */
  function Next(lv: seq<int>, base: int, top: int, x: int): (q: int)
    requires IsLine(lv, base) && Bounded(lv, top) && 0 <= x < |lv| - 1
    ensures 0 <= q < |lv|
  {
    var q := if Forward(lv[x], base) then x + 1 else x - 1;
    if lv[q] == lv[x] then q
    else if lv[q] > lv[x] then Enter(lv, base, top, lv[x] + 1, q)
    else Exit(lv, base, lv[x], x)
  }

  // ---------- The successor agrees with the nested arrangement ----------

  lemma {:induction false} EnterSame(lv: seq<int>, base: int, top: int, k: int, a: int, e: int, p: int)
    requires IsRun(lv, k, a, e) && a <= p < e && Bounded(lv, top)
    ensures Enter(lv, base, top, k, p) == Enter(lv, base, top, k, a)
  {
    RunIsUnique(lv, k, a, e, p);
    RunIsUnique(lv, k, a, e, a);
  }

  lemma ExitStep(lv: seq<int>, base: int, k: int, a: int, e: int, p: int)
    requires IsLine(lv, base) && base < k && IsRun(lv, k, a, e) && a <= p < e
    ensures var q := if Forward(k - 1, base) then e else a - 1;
      && 0 <= q < |lv| && lv[q] < k
      && Exit(lv, base, k, p) == (if lv[q] == k - 1 then q else Exit(lv, base, k - 1, p))
  {
    RunIsUnique(lv, k, a, e, p);
  }

  lemma {:induction false} ExitSame(lv: seq<int>, base: int, k: int, a: int, e: int, p: int)
    requires IsLine(lv, base) && base < k && IsRun(lv, k, a, e) && a <= p < e
    ensures Exit(lv, base, k, p) == Exit(lv, base, k, a)
    decreases k - base
  {
    hide Exit, RunStart, RunEnd;
    ExitStep(lv, base, k, a, e, p);
    ExitStep(lv, base, k, a, e, a);
    if base < k - 1 {
      var a', e' := RunStart(lv, k - 1, p), RunEnd(lv, k - 1, p);
      ExitSame(lv, base, k - 1, a', e', p);
      ExitSame(lv, base, k - 1, a', e', a);
    }
  }

  /** The last element of an arrangement is the last index, or the first element of the
      inner arrangement of the run that ends there. */
  ghost predicate LastIsRight(lv: seq<int>, k: int, top: int, a: int, e: int)
    requires 0 <= a < e <= |lv| && Bounded(lv, top)
    requires e < |lv| ==> lv[e] <= k
  {
    var x := Arr(lv, k, top, a, e)[e - a - 1];
    var c := RunStart(lv, k + 1, e);
    if lv[e - 1] <= k then x == e - 1 else c < e && x == Arr(lv, k + 1, top, c, e)[0]
  }

  lemma ArrLastOneRun(lv: seq<int>, k: int, top: int, a: int, e: int)
    requires 0 <= a < e <= |lv| && Bounded(lv, top)
    requires e < |lv| ==> lv[e] <= k
    requires a == 0 || lv[a - 1] <= k
    requires lv[a] > k && RunEnd(lv, k + 1, a) == e
    ensures LastIsRight(lv, k, top, a, e)
  {
    ArrHigh(lv, k, top, a, e);
    assert RunStart(lv, k + 1, e) == a;
  }

  lemma {:induction false} ArrLast(lv: seq<int>, k: int, top: int, a: int, e: int)
    requires 0 <= a < e <= |lv| && Bounded(lv, top)
    requires e < |lv| ==> lv[e] <= k
    requires a == 0 || lv[a - 1] <= k || lv[a] <= k
    ensures LastIsRight(lv, k, top, a, e)
    decreases e - a
  {
    hide Arr;
    if lv[a] > k && RunEnd(lv, k + 1, a) == e {
      ArrLastOneRun(lv, k, top, a, e);
    } else if lv[a] > k {
      ArrHigh(lv, k, top, a, e);
      ArrLast(lv, k, top, RunEnd(lv, k + 1, a), e);
    } else if a + 1 < e {
      ArrLow(lv, k, top, a, e);
      ArrLast(lv, k, top, a + 1, e);
    }
  }

  lemma EnterStep(lv: seq<int>, base: int, top: int, k: int, a: int, e: int)
    requires IsRun(lv, k, a, e) && Bounded(lv, top)
    ensures var s := if Forward(k, base) then a else e - 1;
      Enter(lv, base, top, k, a) == (if lv[s] == k then s else Enter(lv, base, top, k + 1, s))
  {
    RunIsUnique(lv, k, a, e, a);
  }

  /** The left end of a run's arrangement: where a forward run is entered, and where a
      backward run is left. */
  lemma {:induction false} LeftEnd(lv: seq<int>, base: int, top: int, k: int, a: int, e: int)
    requires IsLine(lv, base) && Bounded(lv, top) && IsRun(lv, k, a, e) && base <= k
    ensures Forward(k, base) ==> Enter(lv, base, top, k, a) == Arr(lv, k, top, a, e)[0]
    ensures !Forward(k, base) && base < k ==>
      var x := Arr(lv, k, top, a, e)[0];
      x < |lv| - 1 && Next(lv, base, top, x) == Exit(lv, base, k, a)
    decreases top - k
  {
    hide Arr, Enter, Exit;
    EnterStep(lv, base, top, k, a, e);
    if lv[a] == k {
      ArrLow(lv, k, top, a, e);
    } else {
      ArrHighFirst(lv, k, top, a, e);
      var d := RunEnd(lv, k + 1, a);
      RightEnd(lv, base, top, k + 1, a, d);
      EnterSame(lv, base, top, k + 1, a, d, d - 1);
      ExitStep(lv, base, k + 1, a, d, a);
    }
  }

  /** The right end of a run's arrangement: where a backward run is entered, and where a
      forward run is left. */
  lemma {:induction false} RightEnd(lv: seq<int>, base: int, top: int, k: int, a: int, e: int)
    requires IsLine(lv, base) && Bounded(lv, top) && IsRun(lv, k, a, e) && base <= k
    ensures !Forward(k, base) ==> Enter(lv, base, top, k, a) == Arr(lv, k, top, a, e)[e - a - 1]
    ensures Forward(k, base) && base < k ==>
      var x := Arr(lv, k, top, a, e)[e - a - 1];
      x < |lv| - 1 && Next(lv, base, top, x) == Exit(lv, base, k, a)
    decreases top - k
  {
    hide Arr, Enter, Exit, RunStart, RunEnd;
    EnterStep(lv, base, top, k, a, e);
    ArrLast(lv, k, top, a, e);
    if lv[e - 1] == k {
      if base < k { ExitSame(lv, base, k, a, e, e - 1); }
    } else {
      var c := RunStart(lv, k + 1, e);
      RunBefore(lv, k, a, e);
      LeftEnd(lv, base, top, k + 1, c, e);
      EnterSame(lv, base, top, k + 1, c, e, e - 1);
      ExitStep(lv, base, k + 1, c, e, c);
      if base < k { ExitSame(lv, base, k, a, e, c); }
    }
  }

  lemma RunBefore(lv: seq<int>, k: int, a: int, e: int)
    requires IsRun(lv, k, a, e) && lv[e - 1] > k
    ensures a <= RunStart(lv, k + 1, e) < e && IsRun(lv, k + 1, RunStart(lv, k + 1, e), e)
    ensures RunStart(lv, k + 1, e) > a ==> lv[RunStart(lv, k + 1, e) - 1] == k
  {
  }

  /** y follows x in a stretch at level k, read left to right: it is delivered right after
      x if the stretch is scanned forward and right before it otherwise. */
  ghost predicate Linked(lv: seq<int>, base: int, top: int, k: int, x: int, y: int)
    requires IsLine(lv, base) && Bounded(lv, top)
  {
    if Forward(k, base)
    then 0 <= x < |lv| - 1 && Next(lv, base, top, x) == y
    else 0 <= y < |lv| - 1 && Next(lv, base, top, y) == x
  }

  ghost predicate Chained(lv: seq<int>, base: int, top: int, k: int, s: seq<int>)
    requires IsLine(lv, base) && Bounded(lv, top)
  {
    forall i, j :: 0 <= i < j < |s| && j == i + 1 ==> Linked(lv, base, top, k, s[i], s[j])
  }

  lemma OneChained(lv: seq<int>, base: int, top: int, k: int, a: int)
    requires IsLine(lv, base) && Bounded(lv, top)
    ensures Chained(lv, base, top, k, [a])
  {
  }

  lemma ChainedJoin(lv: seq<int>, base: int, top: int, k: int, s: seq<int>, t: seq<int>)
    requires IsLine(lv, base) && Bounded(lv, top)
    requires Chained(lv, base, top, k, s) && Chained(lv, base, top, k, t)
    requires s != [] && t != [] ==> Linked(lv, base, top, k, s[|s| - 1], t[0])
    ensures Chained(lv, base, top, k, s + t)
  {
    hide Linked, IsLine, Bounded;
  }

  lemma ChainedReverse(lv: seq<int>, base: int, top: int, k: int, s: seq<int>)
    requires IsLine(lv, base) && Bounded(lv, top)
    requires Chained(lv, base, top, k + 1, s)
    ensures Chained(lv, base, top, k, Reverse(s))
  {
    hide Next, IsLine, Bounded;
    var r := Reverse(s);
    forall i, j | 0 <= i < j < |r| && j == i + 1
      ensures Linked(lv, base, top, k, r[i], r[j])
    {
      assert Linked(lv, base, top, k + 1, s[|s| - 1 - j], s[|s| - 1 - i]);
    }
  }

  /** From a character at level k to the stretch on its right, or back. */
  lemma JoinLow(lv: seq<int>, base: int, top: int, k: int, a: int, e: int)
    requires IsLine(lv, base) && Bounded(lv, top) && base <= k
    requires 0 <= a && a + 1 < e <= |lv| && lv[a] == k && lv[a + 1] >= k
    requires e < |lv| ==> lv[e] <= k
    ensures Linked(lv, base, top, k, a, Arr(lv, k, top, a + 1, e)[0])
  {
    hide Arr, Enter, Exit, RunStart, RunEnd;
    if lv[a + 1] == k {
      ArrLow(lv, k, top, a + 1, e);
    } else {
      JoinHigher(lv, base, top, k, a, e);
    }
  }

  lemma JoinHigher(lv: seq<int>, base: int, top: int, k: int, a: int, e: int)
    requires IsLine(lv, base) && Bounded(lv, top) && base <= k
    requires 0 <= a && a + 1 < e <= |lv| && lv[a] == k && lv[a + 1] > k
    requires e < |lv| ==> lv[e] <= k
    ensures Linked(lv, base, top, k, a, Arr(lv, k, top, a + 1, e)[0])
  {
    hide *;
    ArrHighFirst(lv, k, top, a + 1, e);
    var d := RunEnd(lv, k + 1, a + 1);
    RunAfter(lv, k, a);
    RightEnd(lv, base, top, k + 1, a + 1, d);
    ForwardNext(k, base);
    if Forward(k, base) {
      NextUp(lv, base, top, a);
      IsLinked(lv, base, top, k, a, Arr(lv, k, top, a + 1, e)[0]);
    } else {
      ExitStep(lv, base, k + 1, a + 1, d, a + 1);
      IsLinked(lv, base, top, k, a, Arr(lv, k, top, a + 1, e)[0]);
    }
  }

  lemma RunAfter(lv: seq<int>, k: int, a: int)
    requires 0 <= a < |lv| - 1 && lv[a] == k < lv[a + 1]
    ensures IsRun(lv, k + 1, a + 1, RunEnd(lv, k + 1, a + 1))
  {
  }

  lemma ForwardNext(k: int, base: int)
    ensures Forward(k + 1, base) == !Forward(k, base)
  {
  }

  lemma NextUp(lv: seq<int>, base: int, top: int, x: int)
    requires IsLine(lv, base) && Bounded(lv, top) && 0 <= x < |lv| - 1 && Forward(lv[x], base) && lv[x] < lv[x + 1]
    ensures Next(lv, base, top, x) == Enter(lv, base, top, lv[x] + 1, x + 1)
  {
  }

  lemma IsLinked(lv: seq<int>, base: int, top: int, k: int, x: int, y: int)
    requires IsLine(lv, base) && Bounded(lv, top)
    requires Forward(k, base) ==> 0 <= x < |lv| - 1 && Next(lv, base, top, x) == y
    requires !Forward(k, base) ==> 0 <= y < |lv| - 1 && Next(lv, base, top, y) == x
    ensures Linked(lv, base, top, k, x, y)
  {
  }

  /** From a run above level k to the character at level k on its right, or back. */
  lemma JoinHigh(lv: seq<int>, base: int, top: int, k: int, a: int, d: int)
    requires IsLine(lv, base) && Bounded(lv, top) && base <= k
    requires IsRun(lv, k + 1, a, d) && d < |lv| && lv[d] == k
    ensures Linked(lv, base, top, k, Arr(lv, k + 1, top, a, d)[0], d)
  {
    hide Arr, Enter, Exit;
    LeftEnd(lv, base, top, k + 1, a, d);
    if Forward(k, base) {
      ExitStep(lv, base, k + 1, a, d, a);
    } else {
      EnterSame(lv, base, top, k + 1, a, d, d - 1);
    }
  }

  lemma {:induction false} ArrChained(lv: seq<int>, base: int, top: int, k: int, a: int, e: int)
    requires IsLine(lv, base) && Bounded(lv, top) && base <= k
    requires 0 <= a <= e <= |lv|
    requires forall i :: a <= i < e ==> k <= lv[i]
    requires a < e && e < |lv| ==> lv[e] <= k
    requires a == 0 || lv[a - 1] <= k || a == e || lv[a] <= k
    ensures Chained(lv, base, top, k, Arr(lv, k, top, a, e))
    decreases top - k, e - a
  {
    hide *;
    if a == e {
      NothingChained(lv, base, top, k, a);
    } else if lv[a] == k {
      ArrLow(lv, k, top, a, e);
      ArrChained(lv, base, top, k, a + 1, e);
      OneChained(lv, base, top, k, a);
      if a + 1 < e { JoinLow(lv, base, top, k, a, e); }
      ChainedJoin(lv, base, top, k, [a], Arr(lv, k, top, a + 1, e));
    } else {
      ArrChainedHigh(lv, base, top, k, a, e);
    }
  }

  lemma NothingChained(lv: seq<int>, base: int, top: int, k: int, a: int)
    requires IsLine(lv, base) && Bounded(lv, top) && 0 <= a <= |lv|
    ensures Chained(lv, base, top, k, Arr(lv, k, top, a, a))
  {
  }

  lemma {:induction false} ArrChainedHigh(lv: seq<int>, base: int, top: int, k: int, a: int, e: int)
    requires IsLine(lv, base) && Bounded(lv, top) && base <= k
    requires 0 <= a < e <= |lv|
    requires forall i :: a <= i < e ==> k <= lv[i]
    requires e < |lv| ==> lv[e] <= k
    requires lv[a] > k && (a == 0 || lv[a - 1] <= k)
    ensures Chained(lv, base, top, k, Arr(lv, k, top, a, e))
    decreases top - k, e - a, 0
  {
    hide Arr, Linked, Chained, Next, RunEnd;
    ArrHigh(lv, k, top, a, e);
    var d := RunEnd(lv, k + 1, a);
    ArrChained(lv, base, top, k + 1, a, d);
    ChainedReverse(lv, base, top, k, Arr(lv, k + 1, top, a, d));
    ArrChained(lv, base, top, k, d, e);
    if d < e {
      ArrLow(lv, k, top, d, e);
      JoinHigh(lv, base, top, k, a, d);
    }
    ChainedJoin(lv, base, top, k, Reverse(Arr(lv, k + 1, top, a, d)), Arr(lv, k, top, d, e));
  }

  /** Following `Next` from the sentinel delivers the line in the order of rule L2: element
      i + 1 of that order is the successor of element i. */
  lemma NextIsL2Successor(lv: seq<int>, base: int, top: int, i: nat)
    requires IsLine(lv, base) && Bounded(lv, top) && base <= top
    requires i < |lv| - 1
    ensures 0 <= L2(lv, base, top)[i] < |lv| - 1
    ensures Next(lv, base, top, L2(lv, base, top)[i]) == L2(lv, base, top)[i + 1]
  {
    hide Arr, Next, L2;
    L2IsArr(lv, base, top);
    ArrChained(lv, base, top, base, 0, |lv|);
    var o := Arr(lv, base, top, 0, |lv|);
    assert Linked(lv, base, top, base, o[i], o[i + 1]);
  }

  /** The order of rule L2 starts at the sentinel and ends at the newline. */
  lemma L2Ends(lv: seq<int>, base: int, top: int)
    requires IsLine(lv, base) && Bounded(lv, top) && base <= top
    ensures L2(lv, base, top)[0] == 0 && L2(lv, base, top)[|lv| - 1] == |lv| - 1
  {
    hide Arr, Next, L2;
    L2IsArr(lv, base, top);
    ArrLow(lv, base, top, 0, |lv|);
    ArrLast(lv, base, top, 0, |lv|);
  }

  // ---------- Every character is delivered once ----------

  lemma {:induction false} ReversePermutes(s: seq<int>)
    ensures multiset(Reverse(s)) == multiset(s)
  {
    if s == [] {
      assert Reverse(s) == s;
    } else {
      ReversePermutes(s[1..]);
      assert Reverse(s) == Reverse(s[1..]) + [s[0]];
      assert s == [s[0]] + s[1..];
    }
  }

  lemma {:induction false} ReverseRunsPermutes(lv: seq<int>, order: seq<int>, k: int)
    requires Indices(lv, order)
    ensures multiset(ReverseRuns(lv, order, k)) == multiset(order)
    decreases |order|
  {
    if order == [] {
    } else if lv[order[0]] < k {
      assert ReverseRuns(lv, order, k) == [order[0]] + ReverseRuns(lv, order[1..], k);
      hide ReverseRuns;
      ReverseRunsPermutes(lv, order[1..], k);
      SplitPermutes(order, 1);
      assert order[..1] == [order[0]];
    } else {
      var m := PrefixLen(lv, order, k);
      assert ReverseRuns(lv, order, k) == Reverse(order[..m]) + ReverseRuns(lv, order[m..], k);
      ReverseRunsPermutesHead(lv, order, k, m);
    }
  }

  lemma {:induction false} ReverseRunsPermutesHead(lv: seq<int>, order: seq<int>, k: int, m: nat)
    requires Indices(lv, order) && 0 < m <= |order|
    ensures multiset(Reverse(order[..m]) + ReverseRuns(lv, order[m..], k)) == multiset(order)
    decreases |order|, 0
  {
    hide Reverse, ReverseRuns;
    ReversePermutes(order[..m]);
    ReverseRunsPermutes(lv, order[m..], k);
    SplitPermutes(order, m);
  }

  lemma SplitPermutes(s: seq<int>, m: nat)
    requires m <= |s|
    ensures multiset(s) == multiset(s[..m]) + multiset(s[m..])
  {
    assert s == s[..m] + s[m..];
  }

  lemma {:induction false} L2FromPermutes(lv: seq<int>, order: seq<int>, k: int, base: int)
    requires Indices(lv, order)
    ensures multiset(L2From(lv, order, k, base)) == multiset(order)
    decreases k - base
  {
    if k > base {
      ReverseRunsPermutes(lv, order, k);
      L2FromPermutes(lv, ReverseRuns(lv, order, k), k - 1, base);
    }
  }

  /** Rule L2 permutes the characters of the line. */
  lemma L2Permutes(lv: seq<int>, base: int, top: int)
    ensures multiset(L2(lv, base, top)) == multiset(Range(0, |lv|))
  {
    L2FromPermutes(lv, Range(0, |lv|), top, base);
  }

  lemma {:induction false} RangeOnce(n: nat, x: int)
    ensures multiset(Range(0, n))[x] == if 0 <= x < n then 1 else 0
  {
    if n > 0 {
      RangeOnce(n - 1, x);
      assert Range(0, n) == Range(0, n - 1) + [n - 1];
    }
  }

  lemma TwiceCounts(s: seq<int>, i: nat, j: nat)
    requires i < j < |s| && s[i] == s[j]
    ensures multiset(s)[s[i]] >= 2
  {
    SplitPermutes(s, j);
    assert s[..j][i] == s[i] && s[j..][0] == s[j];
  }

  /** Every character of the line, and nothing else, has one place in the order of rule L2. */
  lemma L2Once(lv: seq<int>, base: int, top: int)
    ensures forall i, j :: 0 <= i < j < |lv| ==> L2(lv, base, top)[i] != L2(lv, base, top)[j]
    ensures forall x :: x in L2(lv, base, top) <==> 0 <= x < |lv|
  {
    var s := L2(lv, base, top);
    L2Permutes(lv, base, top);
    hide L2, Range;
    forall i, j | 0 <= i < j < |lv|
      ensures s[i] != s[j]
    {
      RangeOnce(|lv|, s[i]);
      if s[i] == s[j] { TwiceCounts(s, i, j); }
    }
    forall x
      ensures x in s <==> 0 <= x < |lv|
    {
      RangeOnce(|lv|, x);
      assert x in s <==> x in multiset(s);
    }
  }
}
