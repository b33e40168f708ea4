/** A block of small vectors as a row of tiles, live or free, and what allocating and sweeping
    do to the row. */
module VectorTiles {
  datatype Tile = Tile(size: nat, free: bool)

  /** Where the k-th tile starts. */
  ghost function Off(ts: seq<Tile>, k: nat): nat
    requires k <= |ts|
  {
    if k == 0 then 0 else Off(ts, k - 1) + ts[k - 1].size
  }

  ghost function Total(ts: seq<Tile>): nat { Off(ts, |ts|) }

  /** The tiles by the places where they start. */
  ghost function Starts(ts: seq<Tile>): map<nat, Tile> {
    if ts == [] then map[]
    else Starts(ts[..|ts| - 1])[Total(ts[..|ts| - 1]) := ts[|ts| - 1]]
  }

  ghost predicate Sized(ts: seq<Tile>) {
    forall t :: t in ts ==> t.size > 0
  }

  lemma {:induction false} OffPrefix(ts: seq<Tile>, us: seq<Tile>, k: nat)
    requires k <= |ts| && k <= |us| && ts[..k] == us[..k]
    ensures Off(ts, k) == Off(us, k)
  {
    if k > 0 {
      assert ts[k - 1] == ts[..k][k - 1] && us[k - 1] == us[..k][k - 1];
      assert ts[..k - 1] == ts[..k][..k - 1] && us[..k - 1] == us[..k][..k - 1];
      OffPrefix(ts, us, k - 1);
    }
  }

  lemma OffLast(ts: seq<Tile>, t: Tile)
    ensures Total(ts + [t]) == Total(ts) + t.size
    ensures Starts(ts + [t]) == Starts(ts)[Total(ts) := t]
  {
    assert (ts + [t])[..|ts|] == ts;
    OffPrefix(ts + [t], ts, |ts|);
  }

  lemma {:induction false} OffGrows(ts: seq<Tile>, j: nat, k: nat)
    requires Sized(ts) && j < k <= |ts|
    ensures Off(ts, j) < Off(ts, k) && Off(ts, j) + ts[j].size <= Off(ts, k)
  {
    assert ts[k - 1] in ts;
    if j < k - 1 { OffGrows(ts, j, k - 1); }
  }

  /** A start is the offset of one of the tiles. */
  lemma {:induction false} StartsAt(ts: seq<Tile>, k: nat)
    requires Sized(ts) && k < |ts|
    ensures Off(ts, k) in Starts(ts) && Starts(ts)[Off(ts, k)] == ts[k]
  {
    var n := |ts| - 1;
    OffPrefix(ts, ts[..n], n);
    if k < n {
      assert Sized(ts[..n]);
      StartsAt(ts[..n], k);
      OffPrefix(ts, ts[..n], k);
      OffGrows(ts, k, n);
    }
  }

  lemma {:induction false} IndexOf(ts: seq<Tile>, off: nat) returns (k: nat)
    requires off in Starts(ts)
    ensures k < |ts| && Off(ts, k) == off && ts[k] == Starts(ts)[off]
  {
    var n := |ts| - 1;
    OffPrefix(ts, ts[..n], n);
    if off == Total(ts[..n]) {
      k := n;
    } else {
      k := IndexOf(ts[..n], off);
      OffPrefix(ts, ts[..n], k);
    }
  }

  lemma {:induction false} StartsBelow(ts: seq<Tile>, off: nat)
    requires Sized(ts) && off in Starts(ts)
    ensures off < Total(ts) && off + Starts(ts)[off].size <= Total(ts)
  {
    var k := IndexOf(ts, off);
    assert ts[k] in ts;
    OffGrows(ts, k, |ts|);
  }

  /** Two tiles do not overlap. */
  lemma StartsApart(ts: seq<Tile>, a: nat, b: nat)
    requires Sized(ts) && a in Starts(ts) && b in Starts(ts) && a < b
    ensures a + Starts(ts)[a].size <= b
  {
    var j := IndexOf(ts, a);
    var k := IndexOf(ts, b);
    if k <= j {
      if k < j { OffGrows(ts, k, j); }
    } else {
      OffGrows(ts, j, k);
    }
  }

  // ---------- Allocation ----------

  /** A tile changed, but not its size. */
  lemma {:induction false} StartsSet(ts: seq<Tile>, k: nat, t: Tile)
    requires Sized(ts) && k < |ts| && t.size == ts[k].size
    ensures Starts(ts[k := t]) == Starts(ts)[Off(ts, k) := t] && Total(ts[k := t]) == Total(ts)
  {
    var n := |ts| - 1;
    var us := ts[k := t];
    if k < n {
      assert Sized(ts[..n]);
      assert us[..n] == ts[..n][k := t];
      StartsSet(ts[..n], k, t);
      OffPrefix(ts, ts[..n], k);
      OffPrefix(ts, ts[..n], n);
      OffPrefix(us, us[..n], n);
      OffGrows(ts, k, n);
    } else {
      assert us[..n] == ts[..n];
      OffPrefix(ts, ts[..n], n);
      OffPrefix(us, us[..n], n);
    }
  }

  /** The k-th tile cut in two: n live, and the rest free. */
  ghost function Split(ts: seq<Tile>, k: nat, n: nat): seq<Tile>
    requires k < |ts| && n <= ts[k].size
  {
    ts[..k] + [Tile(n, false), Tile(ts[k].size - n, true)] + ts[k + 1..]
  }

  lemma {:induction false} StartsSplit(ts: seq<Tile>, k: nat, n: nat)
    requires Sized(ts) && k < |ts| && 0 < n < ts[k].size
    ensures Starts(Split(ts, k, n))
      == Starts(ts)[Off(ts, k) := Tile(n, false)][Off(ts, k) + n := Tile(ts[k].size - n, true)]
    ensures Total(Split(ts, k, n)) == Total(ts)
    decreases |ts|, 1
  {
    hide *;
    if k < |ts| - 1 {
      SplitEarlier(ts, k, n);
    } else {
      SplitLast(ts, n);
    }
  }

  lemma SplitEarlier(ts: seq<Tile>, k: nat, n: nat)
    requires Sized(ts) && k < |ts| - 1 && 0 < n < ts[k].size
    ensures Starts(Split(ts, k, n))
      == Starts(ts)[Off(ts, k) := Tile(n, false)][Off(ts, k) + n := Tile(ts[k].size - n, true)]
    ensures Total(Split(ts, k, n)) == Total(ts)
    decreases |ts|, 0
  {
    hide *;
    var last := |ts| - 1;
    var us, t := ts[..last], ts[last];
    SizedPrefix(ts, last);
    SplitRest(ts, k, n);
    StartsSplit(us, k, n);
    OffLast(Split(us, k, n), t);
    LastStart(ts);
    OffPrefix(ts, us, k);
    OffGrows(ts, k, last);
    SetsCommute(Starts(us), Off(ts, k), Tile(n, false), Off(ts, k) + n, Tile(ts[k].size - n, true), Off(ts, last), t);
  }

  lemma SetsCommute(m: map<nat, Tile>, a: nat, t: Tile, b: nat, u: Tile, c: nat, v: Tile)
    requires c != a && c != b
    ensures m[a := t][b := u][c := v] == m[c := v][a := t][b := u]
  {
  }

  lemma SizedPrefix(ts: seq<Tile>, n: nat)
    requires Sized(ts) && n <= |ts|
    ensures Sized(ts[..n])
  {
  }

  lemma LastStart(ts: seq<Tile>)
    requires ts != []
    ensures Starts(ts) == Starts(ts[..|ts| - 1])[Off(ts, |ts| - 1) := ts[|ts| - 1]]
    ensures Total(ts[..|ts| - 1]) == Off(ts, |ts| - 1) && Total(ts) == Off(ts, |ts| - 1) + ts[|ts| - 1].size
  {
    OffPrefix(ts, ts[..|ts| - 1], |ts| - 1);
  }

  /** A cut before the last tile leaves that tile where it is. */
  lemma SplitRest(ts: seq<Tile>, k: nat, n: nat)
    requires k < |ts| - 1 && n <= ts[k].size
    ensures Split(ts, k, n) == Split(ts[..|ts| - 1], k, n) + [ts[|ts| - 1]]
  {
  }

  lemma SplitLast(ts: seq<Tile>, n: nat)
    requires Sized(ts) && ts != [] && 0 < n < ts[|ts| - 1].size
    ensures var k := |ts| - 1;
      && Starts(Split(ts, k, n))
        == Starts(ts)[Off(ts, k) := Tile(n, false)][Off(ts, k) + n := Tile(ts[k].size - n, true)]
      && Total(Split(ts, k, n)) == Total(ts)
  {
    var k := |ts| - 1;
    var a := ts[..k];
    assert Split(ts, k, n) == (a + [Tile(n, false)]) + [Tile(ts[k].size - n, true)];
    OffLast(a, Tile(n, false));
    OffLast(a + [Tile(n, false)], Tile(ts[k].size - n, true));
    LastStart(ts);
    hide *;
  }

  // ---------- Sweeping ----------

  /** A tile at the end of a row; free neighbours become one. */
  ghost function Add(ms: seq<Tile>, t: Tile): seq<Tile> {
    if t.free && ms != [] && ms[|ms| - 1].free
    then ms[..|ms| - 1] + [Tile(ms[|ms| - 1].size + t.size, true)]
    else ms + [t]
  }

  /** The row with free neighbours made one. */
  ghost function Merged(ts: seq<Tile>): seq<Tile> {
    if ts == [] then [] else Add(Merged(ts[..|ts| - 1]), ts[|ts| - 1])
  }

  ghost predicate NoNeighbours(ts: seq<Tile>) {
    forall j, k :: 0 <= j < k < |ts| && k == j + 1 ==> !(ts[j].free && ts[k].free)
  }

  lemma AddShape(ms: seq<Tile>, t: Tile)
    requires NoNeighbours(ms) && Sized(ms) && t.size > 0
    ensures NoNeighbours(Add(ms, t)) && Sized(Add(ms, t))
    ensures Add(ms, t) != [] && Add(ms, t)[|Add(ms, t)| - 1].free == t.free
  {
    assert ms != [] ==> ms[|ms| - 1] in ms;
  }

  lemma AddTotal(ms: seq<Tile>, t: Tile)
    ensures Total(Add(ms, t)) == Total(ms) + t.size
  {
    OffLast(ms, t);
    if ms != [] {
      var a, z := ms[..|ms| - 1], ms[|ms| - 1];
      assert ms == a + [z];
      OffLast(a, z);
      OffLast(a, Tile(z.size + t.size, true));
    }
  }

  lemma {:induction false} MergedFacts(ts: seq<Tile>)
    requires Sized(ts)
    ensures Total(Merged(ts)) == Total(ts) && Sized(Merged(ts)) && NoNeighbours(Merged(ts))
    ensures ts != [] ==> Merged(ts) != [] && Merged(ts)[|Merged(ts)| - 1].free == ts[|ts| - 1].free
  {
    if ts != [] {
      var n := |ts| - 1;
      assert Sized(ts[..n]) && ts[n] in ts;
      assert ts == ts[..n] + [ts[n]];
      hide Add, NoNeighbours, Sized;
      MergedFacts(ts[..n]);
      AddShape(Merged(ts[..n]), ts[n]);
      AddTotal(Merged(ts[..n]), ts[n]);
      OffLast(ts[..n], ts[n]);
    }
  }

  ghost predicate LiveAt(ts: seq<Tile>, off: nat) {
    off in Starts(ts) && !Starts(ts)[off].free
  }

  lemma AddLive(ms: seq<Tile>, t: Tile, off: nat)
    requires Sized(ms)
    ensures LiveAt(Add(ms, t), off) <==> LiveAt(ms + [t], off)
    ensures LiveAt(ms + [t], off) ==> Starts(Add(ms, t))[off] == Starts(ms + [t])[off]
  {
    OffLast(ms, t);
    if t.free && ms != [] && ms[|ms| - 1].free {
      var a, z := ms[..|ms| - 1], ms[|ms| - 1];
      assert ms == a + [z] && Sized(a) && z in ms;
      OffLast(a, z);
      OffLast(a, Tile(z.size + t.size, true));
      NotBeyond(ms, off);
      NotBeyond(a, off);
    }
  }

  /** The live tiles of the merged row are those of the row. */
  lemma {:induction false} MergedLive(ts: seq<Tile>, off: nat)
    requires Sized(ts)
    ensures LiveAt(Merged(ts), off) <==> LiveAt(ts, off)
    ensures LiveAt(ts, off) ==> Starts(Merged(ts))[off] == Starts(ts)[off]
  {
    if ts != [] {
      var n := |ts| - 1;
      assert Sized(ts[..n]);
      MergedLive(ts[..n], off);
      MergedFacts(ts[..n]);
      hide Add, Off, Sized, NoNeighbours;
      assert ts == ts[..n] + [ts[n]];
      OffLast(ts[..n], ts[n]);
      OffLast(Merged(ts[..n]), ts[n]);
      AddLive(Merged(ts[..n]), ts[n], off);
    }
  }

  lemma NotBeyond(ts: seq<Tile>, off: nat)
    requires Sized(ts)
    ensures off >= Total(ts) ==> off !in Starts(ts)
  {
    if off in Starts(ts) { StartsBelow(ts, off); }
  }

  /** A run of free tiles after a live one becomes one tile. */
  lemma {:induction false} MergedRun(ts: seq<Tile>, j: nat, k: nat)
    requires Sized(ts) && j < k <= |ts| && (j == 0 || !ts[j - 1].free) && forall i :: j <= i < k ==> ts[i].free
    ensures Off(ts, j) < Off(ts, k)
    ensures Merged(ts[..k]) == Merged(ts[..j]) + [Tile(Off(ts, k) - Off(ts, j), true)]
    decreases k
  {
    hide *;
    OffGrows(ts, j, k);
    MergedNext(ts, k - 1);
    OffNext(ts, k - 1);
    if k == j + 1 {
      RunBegins(ts, j);
    } else {
      MergedRun(ts, j, k - 1);
      OffGrows(ts, j, k - 1);
      RunGoesOn(Merged(ts[..j]), Off(ts, k - 1) - Off(ts, j), ts[k - 1]);
    }
  }

  lemma OffNext(ts: seq<Tile>, k: nat)
    requires k < |ts|
    ensures Off(ts, k + 1) == Off(ts, k) + ts[k].size
  {
  }

  /** A free tile after a live one is not merged with it. */
  lemma RunBegins(ts: seq<Tile>, j: nat)
    requires Sized(ts) && j < |ts| && ts[j].free && (j == 0 || !ts[j - 1].free)
    ensures Add(Merged(ts[..j]), ts[j]) == Merged(ts[..j]) + [Tile(ts[j].size, true)]
  {
    assert Sized(ts[..j]);
    MergedFacts(ts[..j]);
    if j > 0 { assert ts[..j][j - 1] == ts[j - 1]; }
  }

  lemma RunGoesOn(ms: seq<Tile>, n: nat, t: Tile)
    requires t.free
    ensures Add(ms + [Tile(n, true)], t) == ms + [Tile(n + t.size, true)]
  {
    assert (ms + [Tile(n, true)])[..|ms|] == ms;
  }

  lemma MergedNext(ts: seq<Tile>, j: nat)
    requires j < |ts|
    ensures Merged(ts[..j + 1]) == Add(Merged(ts[..j]), ts[j])
  {
    assert ts[..j + 1][..j] == ts[..j];
  }

  /** A live tile stays as it is. */
  lemma MergedLast(ts: seq<Tile>, j: nat)
    requires j < |ts| && !ts[j].free
    ensures Merged(ts[..j + 1]) == Merged(ts[..j]) + [ts[j]]
  {
    assert ts[..j + 1][..j] == ts[..j];
  }

  /** Merging keeps free tiles as large as the least of them. */
  lemma {:induction false} MergedSizes(ts: seq<Tile>, n: nat)
    requires forall t :: t in ts && t.free ==> n <= t.size
    ensures forall t :: t in Merged(ts) && t.free ==> n <= t.size
  {
    if ts != [] {
      var m := |ts| - 1;
      assert ts == ts[..m] + [ts[m]];
      MergedSizes(ts[..m], n);
      hide Merged;
      AddSizes(Merged(ts[..m]), ts[m], n);
      MergedIs(ts);
    }
  }

  lemma MergedIs(ts: seq<Tile>)
    requires ts != []
    ensures Merged(ts) == Add(Merged(ts[..|ts| - 1]), ts[|ts| - 1])
  {
  }

  lemma AddSizes(ms: seq<Tile>, t: Tile, n: nat)
    requires (forall u :: u in ms && u.free ==> n <= u.size) && (t.free ==> n <= t.size)
    ensures forall u :: u in Add(ms, t) && u.free ==> n <= u.size
  {
  }

  /** Two rows of the same sizes. */
  lemma {:induction false} SameOffs(ts: seq<Tile>, us: seq<Tile>, k: nat)
    requires |us| == |ts| && k <= |ts| && forall i :: 0 <= i < |ts| ==> us[i].size == ts[i].size
    ensures Off(us, k) == Off(ts, k)
  {
    if k > 0 { SameOffs(ts, us, k - 1); }
  }
}
