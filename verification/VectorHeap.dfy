/** Small vectors: blocks tiled by vectors and free chunks, free lists by size, allocation, the
    sweep, and the search for the vector that holds an address.  Sizes and offsets count the
    unit to which every size is rounded. */
module VectorHeap {
  import opened Lists
  import opened VectorTiles

  datatype Addr = At(block: nat, off: nat)

  /** The header of a vector; a free one is linked through its first slot. */
  datatype Header = Header(nbytes: nat, free: bool, next: Option<Addr>)

  /** The least and the largest size of a small vector, and the size of a block. */
  datatype Sizes = Sizes(least: nat, most: nat, block: nat)
  {
    predicate Ok() { 0 < least <= most && most + least <= block }

    /** One list for each size of a small vector, one for the next size, and one for the rest. */
    function Lists(): nat
      requires Ok()
    {
      most - least + 3
    }

    function Bucket(n: nat): nat
      requires Ok() && least <= n
    {
      if n - least < Lists() then n - least else Lists() - 1
    }
  }

  ghost predicate IsFreeList(heads: map<Addr, Header>, first: Option<Addr>, s: seq<Addr>) {
    && first == Head(s) && Distinct(s)
    && (forall k :: 0 <= k < |s| ==> s[k] in heads && heads[s[k]].next == Head(s[k + 1..]))
  }

  lemma ChainPush(heads: map<Addr, Header>, first: Option<Addr>, s: seq<Addr>, a: Addr, n: nat)
    requires IsFreeList(heads, first, s) && a !in s
    ensures IsFreeList(heads[a := Header(n, true, first)], Some(a), [a] + s)
  {
    var t, heads' := [a] + s, heads[a := Header(n, true, first)];
    forall k | 0 <= k < |t|
      ensures t[k] in heads' && heads'[t[k]].next == Head(t[k + 1..])
    {
      if k == 0 { assert t[1..] == s; } else { assert t[k] == s[k - 1] && t[k + 1..] == s[k..]; }
    }
  }

  lemma ChainPop(heads: map<Addr, Header>, first: Option<Addr>, s: seq<Addr>)
    requires IsFreeList(heads, first, s) && s != []
    ensures s[0] in heads && IsFreeList(heads, heads[s[0]].next, s[1..]) && s[0] !in s[1..]
  {
    var t := s[1..];
    forall k | 0 <= k < |t|
      ensures t[k] in heads && heads[t[k]].next == Head(t[k + 1..])
    {
      assert t[k] == s[k + 1] && t[k + 1..] == s[k + 2..];
    }
  }

  lemma ChainFrame(heads: map<Addr, Header>, heads': map<Addr, Header>, first: Option<Addr>, s: seq<Addr>)
    requires IsFreeList(heads, first, s)
    requires forall a :: a in s ==> a in heads' && (a in heads ==> heads'[a] == heads[a])
    ensures IsFreeList(heads', first, s)
  {
  }

  lemma ChainIn(heads: map<Addr, Header>, first: Option<Addr>, s: seq<Addr>, a: Addr)
    requires IsFreeList(heads, first, s) && a in s
    ensures a in heads
  {
  }

  // ---------- Which chunks are free ----------

  /** A free chunk of a block in the list, of the size of the i-th bucket. */
  ghost predicate FreeIn(z: Sizes, blocks: set<nat>, tiles: map<nat, seq<Tile>>, a: Addr, i: nat)
    requires z.Ok()
  {
    && a.block in blocks && a.block in tiles && FreeOf(z, tiles[a.block], a.off, i)
  }

  ghost predicate FreeOf(z: Sizes, ts: seq<Tile>, off: nat, i: nat)
    requires z.Ok()
  {
    off in Starts(ts) && Starts(ts)[off].free && z.least <= Starts(ts)[off].size && z.Bucket(Starts(ts)[off].size) == i
  }

  /** A block is filled by its tiles but for less than the least size, and free ones are not
      too small. */
  ghost predicate RowOk(z: Sizes, ts: seq<Tile>) {
    && Sized(ts) && Total(ts) <= z.block < Total(ts) + z.least
    && (forall off :: off in Starts(ts) ==>
      off + z.least <= z.block && (Starts(ts)[off].free ==> z.least <= Starts(ts)[off].size))
  }

  ghost predicate RowMatches(heads: map<Addr, Header>, b: nat, ts: seq<Tile>) {
    forall off :: off in Starts(ts) ==>
      At(b, off) in heads && heads[At(b, off)].nbytes == Starts(ts)[off].size
        && heads[At(b, off)].free == Starts(ts)[off].free
  }

  /** A free chunk goes to the vector that takes all of it. */
  lemma UseFree(z: Sizes, ts: seq<Tile>, k: nat)
    requires z.Ok() && RowOk(z, ts) && k < |ts|
    ensures var us, off := ts[k := ts[k].(free := false)], Off(ts, k);
      && RowOk(z, us)
      && (forall x, i :: FreeOf(z, us, x, i) <==> FreeOf(z, ts, x, i) && x != off)
      && Starts(us) == Starts(ts)[off := Tile(ts[k].size, false)]
      && off in Starts(ts) && Starts(ts)[off] == ts[k]
  {
    var us := ts[k := ts[k].(free := false)];
    StartsSet(ts, k, ts[k].(free := false));
    StartsAt(ts, k);
    assert forall t :: t in us ==> t in ts || t == ts[k].(free := false);
    assert ts[k] in ts;
  }

  /** A free chunk is cut. */
  lemma SplitFree(z: Sizes, ts: seq<Tile>, k: nat, n: nat, us: seq<Tile>, off: nat)
    requires z.Ok() && RowOk(z, ts) && k < |ts| && ts[k].free && 0 < n && n + z.least <= ts[k].size
    requires us == Split(ts, k, n) && off == Off(ts, k)
    ensures off in Starts(ts) && Starts(ts)[off] == ts[k] && off + n !in Starts(ts)
    ensures Starts(us) == Starts(ts)[off := Tile(n, false)][off + n := Tile(Starts(ts)[off].size - n, true)]
    ensures RowOk(z, us)
    ensures forall x, i :: FreeOf(z, us, x, i) <==>
      (FreeOf(z, ts, x, i) && x != off) || (x == off + n && i == z.Bucket(Starts(ts)[off].size - n))
  {
    hide *;
    SizesOk(z);
    RowIsSized(z, ts);
    SplitStarts(ts, k, n);
    SplitRowOk(z, ts, us, off, n);
    SplitFreeOf(z, ts, us, off, n);
  }

  lemma SizesOk(z: Sizes)
    requires z.Ok()
    ensures 0 < z.least <= z.most && z.most + z.least <= z.block && z.Lists() == z.most - z.least + 3
  {
  }

  lemma RowIsSized(z: Sizes, ts: seq<Tile>)
    requires RowOk(z, ts)
    ensures Sized(ts)
  {
  }

  lemma SplitRowOk(z: Sizes, ts: seq<Tile>, us: seq<Tile>, off: nat, n: nat)
    requires z.Ok() && RowOk(z, ts) && off in Starts(ts) && 0 < n && n + z.least <= Starts(ts)[off].size
    requires Starts(us) == Starts(ts)[off := Tile(n, false)][off + n := Tile(Starts(ts)[off].size - n, true)]
    requires Sized(us) && Total(us) == Total(ts) && off + Starts(ts)[off].size <= Total(ts)
    ensures RowOk(z, us)
  {
    hide Starts, Off;
  }

  lemma SplitFreeOf(z: Sizes, ts: seq<Tile>, us: seq<Tile>, off: nat, n: nat)
    requires z.Ok() && off in Starts(ts) && 0 < n && n + z.least <= Starts(ts)[off].size && off + n !in Starts(ts)
    requires Starts(us) == Starts(ts)[off := Tile(n, false)][off + n := Tile(Starts(ts)[off].size - n, true)]
    ensures forall x, i :: FreeOf(z, us, x, i) <==>
      (FreeOf(z, ts, x, i) && x != off) || (x == off + n && i == z.Bucket(Starts(ts)[off].size - n))
  {
    hide Starts, Off;
  }

  lemma SplitStarts(ts: seq<Tile>, k: nat, n: nat)
    requires Sized(ts) && k < |ts| && 0 < n < ts[k].size
    ensures var us, off := Split(ts, k, n), Off(ts, k);
      && Starts(us) == Starts(ts)[off := Tile(n, false)][off + n := Tile(ts[k].size - n, true)]
      && off + n !in Starts(ts) && off in Starts(ts) && Starts(ts)[off] == ts[k]
      && Sized(us) && Total(us) == Total(ts) && off + ts[k].size <= Total(ts)
  {
    hide *;
    var off := Off(ts, k);
    StartsSplit(ts, k, n);
    StartsAt(ts, k);
    StartsBelow(ts, off);
    SplitSized(ts, k, n);
    if off + n in Starts(ts) { StartsApart(ts, off, off + n); }
  }

  lemma SplitSized(ts: seq<Tile>, k: nat, n: nat)
    requires Sized(ts) && k < |ts| && 0 < n < ts[k].size
    ensures Sized(Split(ts, k, n))
  {
    forall t | t in Split(ts, k, n)
      ensures t.size > 0
    {
      assert t in ts[..k] || t == Tile(n, false) || t == Tile(ts[k].size - n, true) || t in ts[k + 1..];
    }
  }

  lemma NewStarts(n: nat, m: nat)
    ensures Starts([Tile(n, false), Tile(m, true)]) == map[0 := Tile(n, false)][n := Tile(m, true)]
    ensures Total([Tile(n, false), Tile(m, true)]) == n + m
  {
    var none: seq<Tile> := [];
    OffLast(none, Tile(n, false));
    OffLast([Tile(n, false)], Tile(m, true));
    assert none + [Tile(n, false)] == [Tile(n, false)];
    assert [Tile(n, false), Tile(m, true)] == [Tile(n, false)] + [Tile(m, true)];
  }

  /** A new block, of which the first n are used. */
  lemma NewRow(z: Sizes, n: nat)
    requires z.Ok() && 0 < n && n + z.least <= z.block
    ensures var us := [Tile(n, false), Tile(z.block - n, true)];
      && RowOk(z, us) && Starts(us) == map[0 := Tile(n, false)][n := Tile(z.block - n, true)]
      && (forall x, i :: FreeOf(z, us, x, i) <==> x == n && i == z.Bucket(z.block - n))
  {
    NewStarts(n, z.block - n);
    hide Starts, Off;
  }

  // ---------- The lists ----------

  ghost predicate Chained(heads: map<Addr, Header>, firsts: seq<Option<Addr>>, chains: seq<seq<Addr>>) {
    |firsts| == |chains| && forall i :: 0 <= i < |chains| ==> IsFreeList(heads, firsts[i], chains[i])
  }

  /** Every free chunk is on the list of its bucket, and nothing else is on a list. */
  ghost predicate Listed(z: Sizes, blocks: set<nat>, tiles: map<nat, seq<Tile>>, chains: seq<seq<Addr>>)
    requires z.Ok()
  {
    forall i, a :: 0 <= i < |chains| ==> (a in chains[i] <==> FreeIn(z, blocks, tiles, a, i))
  }

  ghost predicate NoList(chains: seq<seq<Addr>>, a: Addr) {
    forall j :: 0 <= j < |chains| ==> a !in chains[j]
  }

  lemma Pushed(heads: map<Addr, Header>, firsts: seq<Option<Addr>>, chains: seq<seq<Addr>>, i: nat, a: Addr, n: nat)
    requires Chained(heads, firsts, chains) && i < |chains| && NoList(chains, a)
    ensures Chained(heads[a := Header(n, true, firsts[i])], firsts[i := Some(a)], chains[i := [a] + chains[i]])
  {
    var heads' := heads[a := Header(n, true, firsts[i])];
    var firsts', chains' := firsts[i := Some(a)], chains[i := [a] + chains[i]];
    hide IsFreeList;
    forall j | 0 <= j < |chains|
      ensures IsFreeList(heads', firsts'[j], chains'[j])
    {
      assert IsFreeList(heads, firsts[j], chains[j]);
      if j == i {
        ChainPush(heads, firsts[i], chains[i], a, n);
      } else {
        PushedOther(heads, heads', firsts[j], chains[j], a);
      }
    }
  }

  lemma PushedOther(heads: map<Addr, Header>, heads': map<Addr, Header>, first: Option<Addr>, s: seq<Addr>, a: Addr)
    requires IsFreeList(heads, first, s) && a !in s
    requires forall x :: x in heads && x != a ==> x in heads' && heads'[x] == heads[x]
    ensures IsFreeList(heads', first, s)
  {
  }

  /** The first chunk of a list is taken off. */
  lemma Popped(heads: map<Addr, Header>, firsts: seq<Option<Addr>>, chains: seq<seq<Addr>>, i: nat)
    requires Chained(heads, firsts, chains) && i < |chains| && firsts[i].Some?
    ensures var a := firsts[i].value;
      && a in heads && chains[i] != [] && a == chains[i][0] && a !in chains[i][1..]
      && Chained(heads, firsts[i := heads[a].next], chains[i := chains[i][1..]])
  {
    assert IsFreeList(heads, firsts[i], chains[i]);
    ChainPop(heads, firsts[i], chains[i]);
  }

  /** A header that is on no list can change. */
  lemma Unlisted(heads: map<Addr, Header>, heads': map<Addr, Header>, firsts: seq<Option<Addr>>,
                 chains: seq<seq<Addr>>, a: Addr)
    requires Chained(heads, firsts, chains) && NoList(chains, a)
    requires forall x :: x in heads && x != a ==> x in heads' && heads'[x] == heads[x]
    ensures Chained(heads', firsts, chains)
  {
    hide IsFreeList;
    forall j | 0 <= j < |chains|
      ensures IsFreeList(heads', firsts[j], chains[j])
    {
      assert IsFreeList(heads, firsts[j], chains[j]);
      PushedOther(heads, heads', firsts[j], chains[j], a);
    }
  }

  // ---------- The vectors in use ----------

  ghost predicate LiveIn(blocks: set<nat>, tiles: map<nat, seq<Tile>>, a: Addr) {
    a.block in blocks && a.block in tiles && LiveAt(tiles[a.block], a.off)
  }

  ghost function SizeIn(tiles: map<nat, seq<Tile>>, a: Addr): nat {
    if a.block in tiles && a.off in Starts(tiles[a.block]) then Starts(tiles[a.block])[a.off].size else 0
  }

  /** A new vector a of n units, and no other change. */
  ghost predicate Added(bs: set<nat>, tiles: map<nat, seq<Tile>>, bs': set<nat>, tiles': map<nat, seq<Tile>>,
                        a: Addr, n: nat) {
    && LiveIn(bs', tiles', a) && SizeIn(tiles', a) == n && !LiveIn(bs, tiles, a)
    && (forall x :: LiveIn(bs', tiles', x) <==> LiveIn(bs, tiles, x) || x == a)
    && (forall x :: LiveIn(bs, tiles, x) ==> SizeIn(tiles', x) == SizeIn(tiles, x))
  }

  /** One block's row changes: the chunk at `off` becomes a vector of n units; what is left of
      it, if anything, is free. */
  ghost predicate Cut(ts: seq<Tile>, us: seq<Tile>, off: nat, n: nat) {
    && off in Starts(ts) && Starts(ts)[off].free && n <= Starts(ts)[off].size
    && off in Starts(us) && Starts(us)[off] == Tile(n, false)
    && (forall x :: x != off ==> (LiveAt(us, x) <==> LiveAt(ts, x)))
    && (forall x :: x != off && LiveAt(ts, x) ==> x in Starts(us) && Starts(us)[x] == Starts(ts)[x])
  }

  lemma CutAdds(bs: set<nat>, tiles: map<nat, seq<Tile>>, b: nat, us: seq<Tile>, off: nat, n: nat)
    requires b in bs && b in tiles && Cut(tiles[b], us, off, n)
    ensures Added(bs, tiles, bs, tiles[b := us], At(b, off), n)
  {
    hide Starts;
  }

  lemma NewAdds(bs: set<nat>, tiles: map<nat, seq<Tile>>, b: nat, us: seq<Tile>, n: nat, m: nat)
    requires b !in bs && Starts(us) == map[0 := Tile(n, false)][n := Tile(m, true)] && 0 < n
    ensures Added(bs, tiles, bs + {b}, tiles[b := us], At(b, 0), n)
  {
    hide Starts;
  }

  /** As `Listed`, but for the chunk a, which is on no list. */
  ghost predicate ListedBut(z: Sizes, blocks: set<nat>, tiles: map<nat, seq<Tile>>, chains: seq<seq<Addr>>, a: Addr)
    requires z.Ok()
  {
    forall i, x :: 0 <= i < |chains| ==> (x in chains[i] <==> FreeIn(z, blocks, tiles, x, i) && x != a)
  }

  /** The chunk a, first on the i-th list, is taken off. */
  lemma ListedTaken(z: Sizes, bs: set<nat>, tiles: map<nat, seq<Tile>>, chains: seq<seq<Addr>>, i: nat, a: Addr)
    requires z.Ok() && Listed(z, bs, tiles, chains) && i < |chains| && chains[i] != [] && chains[i][0] == a
    requires a !in chains[i][1..]
    ensures ListedBut(z, bs, tiles, chains[i := chains[i][1..]], a) && FreeIn(z, bs, tiles, a, i)
    ensures NoList(chains[i := chains[i][1..]], a)
  {
    var chains' := chains[i := chains[i][1..]];
    hide FreeOf;
    assert chains[i] == [a] + chains[i][1..] && a in chains[i];
    assert FreeIn(z, bs, tiles, a, i);
    forall j: nat, x | j < |chains'|
      ensures x in chains'[j] <==> x in chains[j] && x != a
    {
      if j != i && a in chains[j] { SameBucket(z, tiles[a.block], a.off, i, j); }
    }
  }

  /** A row without the chunk a. */
  lemma ListedUsed(z: Sizes, bs: set<nat>, tiles: map<nat, seq<Tile>>, chains: seq<seq<Addr>>, a: Addr, us: seq<Tile>)
    requires z.Ok() && ListedBut(z, bs, tiles, chains, a) && a.block in bs && a.block in tiles
    requires forall x, j :: FreeOf(z, us, x, j) <==> FreeOf(z, tiles[a.block], x, j) && x != a.off
    ensures Listed(z, bs, tiles[a.block := us], chains)
  {
    hide FreeOf;
  }

  /** A row with another free chunk r instead. */
  lemma ListedRest(z: Sizes, bs: set<nat>, tiles: map<nat, seq<Tile>>, chains: seq<seq<Addr>>, a: Addr,
                   us: seq<Tile>, r: nat, i: nat)
    requires z.Ok() && ListedBut(z, bs, tiles, chains, a) && a.block in bs && a.block in tiles && i < |chains|
    requires forall x, j :: FreeOf(z, us, x, j) <==>
      (FreeOf(z, tiles[a.block], x, j) && x != a.off) || (x == r && j == i)
    ensures Listed(z, bs, tiles[a.block := us], chains[i := [At(a.block, r)] + chains[i]])
  {
    var chains' := chains[i := [At(a.block, r)] + chains[i]];
    hide FreeOf;
    forall j: nat, x | j < |chains'|
      ensures x in chains'[j] <==> x in chains[j] || (x == At(a.block, r) && j == i)
    {
    }
  }

  /** A new block with one free chunk. */
  lemma ListedNew(z: Sizes, bs: set<nat>, tiles: map<nat, seq<Tile>>, chains: seq<seq<Addr>>, b: nat, us: seq<Tile>,
                  r: nat, i: nat)
    requires z.Ok() && Listed(z, bs, tiles, chains) && b !in bs && i < |chains|
    requires forall x, j :: FreeOf(z, us, x, j) <==> x == r && j == i
    ensures Listed(z, bs + {b}, tiles[b := us], chains[i := [At(b, r)] + chains[i]])
  {
    var chains' := chains[i := [At(b, r)] + chains[i]];
    hide FreeOf;
    forall j: nat, x | j < |chains'|
      ensures x in chains'[j] <==> x in chains[j] || (x == At(b, r) && j == i)
    {
    }
  }

  lemma NotListed(z: Sizes, bs: set<nat>, tiles: map<nat, seq<Tile>>, chains: seq<seq<Addr>>, a: Addr, r: Addr)
    requires z.Ok() && ListedBut(z, bs, tiles, chains, a)
    requires r.block in bs && r.block in tiles ==> r.off !in Starts(tiles[r.block])
    ensures NoList(chains, r)
  {
  }

  lemma SameBucket(z: Sizes, ts: seq<Tile>, off: nat, i: nat, j: nat)
    requires z.Ok() && FreeOf(z, ts, off, i) && FreeOf(z, ts, off, j)
    ensures i == j
  {
  }

  // ---------- Sweeping one block ----------

  /** The row of a block in which the vectors without a mark are set free. */
  ghost function Swept(b: nat, ts: seq<Tile>, marked: set<Addr>): seq<Tile> {
    seq(|ts|, k requires 0 <= k < |ts| => Tile(ts[k].size, ts[k].free || At(b, Off(ts, k)) !in marked))
  }

  lemma SweptOff(b: nat, ts: seq<Tile>, marked: set<Addr>, k: nat)
    requires k <= |ts|
    ensures Off(Swept(b, ts, marked), k) == Off(ts, k)
  {
    SameOffs(ts, Swept(b, ts, marked), k);
  }

  lemma SweptSized(b: nat, ts: seq<Tile>, marked: set<Addr>)
    requires Sized(ts)
    ensures Sized(Swept(b, ts, marked))
  {
    hide Off;
    var us := Swept(b, ts, marked);
    forall t | t in us
      ensures t.size > 0
    {
      var k :| 0 <= k < |us| && us[k] == t;
      assert ts[k] in ts;
    }
  }

  /** The live tiles of the swept row are the marked ones of the row. */
  lemma SweptLive(b: nat, ts: seq<Tile>, marked: set<Addr>, off: nat)
    requires Sized(ts)
    ensures off in Starts(Swept(b, ts, marked)) <==> off in Starts(ts)
    ensures off in Starts(ts) ==>
      (Starts(Swept(b, ts, marked))[off] == Tile(Starts(ts)[off].size, Starts(ts)[off].free || At(b, off) !in marked))
  {
    var us := Swept(b, ts, marked);
    SweptSized(b, ts, marked);
    if off in Starts(ts) {
      var k := IndexOf(ts, off);
      SweptOff(b, ts, marked, k);
      StartsAt(us, k);
    }
    if off in Starts(us) {
      var k := IndexOf(us, off);
      SweptOff(b, ts, marked, k);
      StartsAt(ts, k);
    }
  }

  /** A tile put at the end of a row. */
  lemma FreeAppend(z: Sizes, ts: seq<Tile>, t: Tile)
    requires z.Ok() && Sized(ts) && t.size > 0 && (t.free ==> z.least <= t.size)
    ensures forall x, i :: FreeOf(z, ts + [t], x, i) <==>
      FreeOf(z, ts, x, i) || (t.free && x == Total(ts) && i == z.Bucket(t.size))
    ensures Total(ts) !in Starts(ts)
  {
    OffLast(ts, t);
    NotBeyond(ts, Total(ts));
    hide Starts, Off;
  }

  lemma MatchAppend(heads: map<Addr, Header>, b: nat, ts: seq<Tile>, t: Tile)
    requires RowMatches(heads, b, ts)
    requires At(b, Total(ts)) in heads && heads[At(b, Total(ts))].nbytes == t.size
    requires heads[At(b, Total(ts))].free == t.free
    ensures RowMatches(heads, b, ts + [t])
  {
    OffLast(ts, t);
    hide Starts, Off;
  }

  lemma MatchOther(heads: map<Addr, Header>, heads': map<Addr, Header>, b: nat, ts: seq<Tile>, off: nat)
    requires RowMatches(heads, b, ts) && off !in Starts(ts)
    requires forall x :: x in heads && x != At(b, off) ==> x in heads' && heads'[x] == heads[x]
    ensures RowMatches(heads', b, ts)
  {
    hide Starts;
  }

  lemma ListedStart(z: Sizes, bs: set<nat>, tiles: map<nat, seq<Tile>>, chains: seq<seq<Addr>>, b: nat)
    requires z.Ok() && Listed(z, bs, tiles, chains) && b !in bs
    ensures Listed(z, bs + {b}, tiles[b := []], chains)
  {
    assert forall x, i :: !FreeOf(z, [], x, i);
    hide FreeOf;
  }

  lemma ListedSame(z: Sizes, bs: set<nat>, tiles: map<nat, seq<Tile>>, chains: seq<seq<Addr>>, b: nat, ts: seq<Tile>,
                   us: seq<Tile>)
    requires z.Ok() && Listed(z, bs + {b}, tiles[b := ts], chains)
    requires forall x, i :: FreeOf(z, us, x, i) <==> FreeOf(z, ts, x, i)
    ensures Listed(z, bs + {b}, tiles[b := us], chains)
  {
    hide FreeOf;
  }

  lemma ListedMore(z: Sizes, bs: set<nat>, tiles: map<nat, seq<Tile>>, chains: seq<seq<Addr>>, b: nat, ts: seq<Tile>,
                   us: seq<Tile>, r: nat, i: nat)
    requires z.Ok() && Listed(z, bs + {b}, tiles[b := ts], chains) && i < |chains|
    requires forall x, j :: FreeOf(z, us, x, j) <==> FreeOf(z, ts, x, j) || (x == r && j == i)
    ensures Listed(z, bs + {b}, tiles[b := us], chains[i := [At(b, r)] + chains[i]])
  {
    var chains' := chains[i := [At(b, r)] + chains[i]];
    hide FreeOf;
    forall j: nat, x | j < |chains'|
      ensures x in chains'[j] <==> x in chains[j] || (x == At(b, r) && j == i)
    {
    }
  }

  lemma ListedAbsent(z: Sizes, bs: set<nat>, tiles: map<nat, seq<Tile>>, chains: seq<seq<Addr>>, b: nat,
                     ts: seq<Tile>, off: nat)
    requires z.Ok() && Listed(z, bs + {b}, tiles[b := ts], chains) && off !in Starts(ts)
    ensures NoList(chains, At(b, off))
  {
  }

  ghost function SetOf(s: seq<nat>): set<nat> { set b | b in s }

  // ---------- Counts ----------

  /** The sizes of some vectors and chunks, by their headers. */
  ghost function HeaderSizes(heads: map<Addr, Header>, s: set<Addr>): map<Addr, nat> {
    map x | x in s && x in heads :: heads[x].nbytes
  }

  ghost function OnLists(chains: seq<seq<Addr>>): set<Addr> {
    set i, x | 0 <= i < |chains| && x in chains[i] :: x
  }

  lemma SumKept(heads: map<Addr, Header>, s: set<Addr>, a: Addr)
    requires a in heads && a !in s
    ensures Sum(HeaderSizes(heads, s + {a})) == Sum(HeaderSizes(heads, s)) + heads[a].nbytes
  {
    assert HeaderSizes(heads, s + {a}) == HeaderSizes(heads, s)[a := heads[a].nbytes];
    SumMore(HeaderSizes(heads, s), a, heads[a].nbytes);
  }

  lemma SumSame(heads: map<Addr, Header>, a: Addr, h: Header, s: set<Addr>)
    requires a !in s
    ensures HeaderSizes(heads[a := h], s) == HeaderSizes(heads, s)
  {
  }

  lemma SumListed(heads: map<Addr, Header>, chains: seq<seq<Addr>>, i: nat, a: Addr, h: Header)
    requires NoList(chains, a) && i < |chains|
    ensures Sum(HeaderSizes(heads[a := h], OnLists(chains[i := [a] + chains[i]])))
      == Sum(HeaderSizes(heads, OnLists(chains))) + h.nbytes
  {
    var chains' := chains[i := [a] + chains[i]];
    forall x
      ensures x in OnLists(chains') <==> x in OnLists(chains) || x == a
    {
      if x == a { assert x in chains'[i]; }
      if x in OnLists(chains) {
        var j :| 0 <= j < |chains| && x in chains[j];
        assert x in chains'[j];
      }
    }
    assert OnLists(chains') == OnLists(chains) + {a};
    SumSame(heads, a, h, OnLists(chains));
    SumKept(heads[a := h], OnLists(chains), a);
  }

  class VectorHeap {
    const z: Sizes
    const zero: Addr                    // the vector of no slots, which is kept for ever
    var blocks: seq<nat>
    var heads: map<Addr, Header>
    const lists: array<Option<Addr>>
    var lastIdx: nat                    // where to look first for a larger chunk
    var marked: set<Addr>
    ghost var tiles: map<nat, seq<Tile>>
    ghost var chains: seq<seq<Addr>>

    ghost predicate Shape()
      reads this`blocks, this`chains
    {
      z.Ok() && lists.Length == z.Lists() == |chains| && Distinct(blocks)
    }

    ghost predicate RowsOk(bs: seq<nat>)
      reads this`heads, this`tiles
    {
      forall b :: b in bs ==> b in tiles && RowOk(z, tiles[b]) && RowMatches(heads, b, tiles[b])
    }

    ghost predicate Consistent()
      reads this, lists
    {
      && Shape() && RowsOk(blocks) && Chained(heads, lists[..], chains) && Listed(z, SetOf(blocks), tiles, chains)
      && (forall a :: a in marked ==> Live(a))
    }

    /** Every vector in use is large enough to be freed later, but for the vector of no slots. */
    ghost predicate SmallIsZero()
      reads this`blocks, this`tiles
    {
      forall a :: Live(a) && SizeIn(tiles, a) < z.least ==> a == zero
    }

    ghost predicate Valid()
      reads this, lists
    {
      Consistent() && SmallIsZero() && Live(zero)
    }

    /** A vector in use. */
    ghost predicate Live(a: Addr)
      reads this`blocks, this`tiles
    {
      LiveIn(SetOf(blocks), tiles, a)
    }

    // ---------- The lists in place ----------

    method SetupOnFreeList(a: Addr, n: nat)
      requires z.Ok() && lists.Length == z.Lists() && z.least <= n && Chained(heads, lists[..], chains)
      requires NoList(chains, a)
      modifies this`heads, this`lastIdx, this`chains, lists
      ensures Chained(heads, lists[..], chains)
      ensures chains == old(chains)[z.Bucket(n) := [a] + old(chains)[z.Bucket(n)]]
      ensures a in heads && heads[a].nbytes == n && heads[a].free && heads == old(heads)[a := heads[a]]
      ensures lastIdx == z.Bucket(n)
    {
      var i := z.Bucket(n);
      ghost var firsts := lists[..];
      Pushed(heads, firsts, chains, i, a, n);
      hide Chained;
      heads := heads[a := Header(n, true, lists[i])];
      lists[i] := Some(a);
      chains := chains[i := [a] + chains[i]];
      lastIdx := i;
      assert lists[..] == firsts[i := Some(a)];
    }

    method Take(i: nat) returns (a: Addr)
      requires i < lists.Length && lists[i].Some? && Chained(heads, lists[..], chains)
      modifies this`chains, lists
      ensures Chained(heads, lists[..], chains) && i < |old(chains)| && old(chains)[i] != []
      ensures a == old(chains)[i][0] == old(lists[i]).value && a !in old(chains)[i][1..]
      ensures chains == old(chains)[i := old(chains)[i][1..]]
    {
      ghost var firsts := lists[..];
      Popped(heads, firsts, chains, i);
      hide Chained;
      a := lists[i].value;
      lists[i] := heads[a].next;
      chains := chains[i := chains[i][1..]];
      assert lists[..] == firsts[i := heads[a].next];
    }

    // ---------- Allocation ----------

    lemma ChunkIs(i: nat)
      requires Consistent() && i < |chains| && chains[i] != []
      ensures var a := chains[i][0];
        && FreeIn(z, SetOf(blocks), tiles, a, i) && a.block in blocks && a.block in tiles
        && RowOk(z, tiles[a.block]) && RowMatches(heads, a.block, tiles[a.block])
        && a in heads && heads[a].nbytes == Starts(tiles[a.block])[a.off].size
    {
      var a := chains[i][0];
      assert a in chains[i];
      assert FreeIn(z, SetOf(blocks), tiles, a, i);
      hide Starts, RowOk, IsFreeList;
    }

    lemma ListHead(i: nat)
      requires Consistent() && i < lists.Length && lists[i].Some?
      ensures i < |chains| && chains[i] != [] && chains[i][0] == lists[i].value && Chained(heads, lists[..], chains)
      ensures chains[i][0] !in chains[i][1..]
    {
      assert IsFreeList(heads, lists[..][i], chains[i]);
      ChainPop(heads, lists[..][i], chains[i]);
    }

    lemma UseCuts(ts: seq<Tile>, k: nat)
      requires Sized(ts) && k < |ts| && ts[k].free
      ensures Cut(ts, ts[k := ts[k].(free := false)], Off(ts, k), ts[k].size)
    {
      StartsSet(ts, k, ts[k].(free := false));
      StartsAt(ts, k);
      hide Starts, Off;
    }

    lemma SplitCuts(ts: seq<Tile>, k: nat, n: nat)
      requires Sized(ts) && k < |ts| && ts[k].free && 0 < n < ts[k].size
      ensures Cut(ts, Split(ts, k, n), Off(ts, k), n)
    {
      SplitStarts(ts, k, n);
      hide Starts, Off, Split;
    }

    /** The caller of the allocator stores the header of the vector. */
    method StoreHeader(a: Addr, n: nat)
      requires Chained(heads, lists[..], chains) && NoList(chains, a)
      modifies this`heads
      ensures heads == old(heads)[a := Header(n, false, None)] && Chained(heads, lists[..], chains)
    {
      Unlisted(heads, heads[a := Header(n, false, None)], lists[..], chains, a);
      heads := heads[a := Header(n, false, None)];
    }

    /** The rows of the other blocks are as they were. */
    lemma OtherRows(heads0: map<Addr, Header>, tiles0: map<nat, seq<Tile>>, b: nat, us: seq<Tile>, bs: seq<nat>)
      requires forall c :: c in bs && c != b ==> c in tiles0 && RowOk(z, tiles0[c]) && RowMatches(heads0, c, tiles0[c])
      requires tiles == tiles0[b := us] && RowOk(z, us) && RowMatches(heads, b, us)
      requires forall x :: x in heads0 && x.block != b ==> x in heads && heads[x] == heads0[x]
      ensures RowsOk(bs)
    {
      hide RowOk, Starts;
    }

    lemma MarkedStays(bs: set<nat>, tiles0: map<nat, seq<Tile>>, a: Addr, n: nat)
      requires Added(bs, tiles0, SetOf(blocks), tiles, a, n) && forall x :: x in marked ==> LiveIn(bs, tiles0, x)
      ensures forall x :: x in marked ==> Live(x)
    {
    }

    /** The first chunk of the list for the very size. */
    method UseExact(n: nat) returns (a: Addr)
      requires Consistent() && z.least <= n <= z.most && lists[n - z.least].Some?
      modifies this`heads, this`chains, this`tiles, lists
      ensures Consistent() && Added(SetOf(blocks), old(tiles), SetOf(blocks), tiles, a, n)
      ensures a == old(lists[n - z.least]).value
    {
      hide *;
      HeapFacts();
      SizesOk(z);
      var i := n - z.least;
      ghost var heads0, tiles0, bs := heads, tiles, SetOf(blocks);
      ghost var us := UseReady(i, n);
      ghost var ts := tiles[chains[i][0].block];
      a := Take(i);
      StoreHeader(a, n);
      UsedMatches(heads0, a.block, ts, us, a.off, n);
      tiles := tiles[a.block := us];
      CutAdds(bs, tiles0, a.block, us, a.off, n);
      ListedUsed(z, bs, tiles0, chains, a, us);
      MakeValid(heads0, tiles0, a, us, n);
    }

    /** The chunk to be used, and the row it leaves. */
    lemma UseReady(i: nat, n: nat) returns (us: seq<Tile>)
      requires Consistent() && z.least <= n <= z.most && i == n - z.least < lists.Length && lists[i].Some?
      ensures z.Ok() && lists.Length == z.Lists() == |chains| && Distinct(blocks) && Chained(heads, lists[..], chains)
      ensures chains[i] != [] && ListedBut(z, SetOf(blocks), tiles, chains[i := chains[i][1..]], chains[i][0])
      ensures NoList(chains[i := chains[i][1..]], chains[i][0])
      ensures var a := chains[i][0];
        && a.block in SetOf(blocks) && a.block in tiles && a.off in Starts(tiles[a.block])
        && RowMatches(heads, a.block, tiles[a.block])
        && RowOk(z, us) && Cut(tiles[a.block], us, a.off, n)
        && Starts(us) == Starts(tiles[a.block])[a.off := Tile(n, false)]
        && (forall x, j :: FreeOf(z, us, x, j) <==> FreeOf(z, tiles[a.block], x, j) && x != a.off)
      ensures forall c :: c in blocks ==> c in tiles && RowOk(z, tiles[c]) && RowMatches(heads, c, tiles[c])
      ensures forall x :: x in marked ==> LiveIn(SetOf(blocks), tiles, x)
    {
      hide *;
      HeapFacts();
      ListHead(i);
      ChunkIs(i);
      var a := chains[i][0];
      ListedTaken(z, SetOf(blocks), tiles, chains, i, a);
      JustSize(tiles[a.block], a, i, n);
      var ts := tiles[a.block];
      var k := IndexOf(ts, a.off);
      RowIsSized(z, ts);
      us := ts[k := ts[k].(free := false)];
      UseFree(z, ts, k);
      UseCuts(ts, k);
    }

    lemma JustSize(ts: seq<Tile>, a: Addr, i: nat, n: nat)
      requires z.Ok() && FreeIn(z, SetOf(blocks), tiles, a, i) && a.block in tiles && ts == tiles[a.block]
      requires z.least <= n <= z.most && i == n - z.least
      ensures a.off in Starts(ts) && Starts(ts)[a.off].free && a.block in SetOf(blocks) && Starts(ts)[a.off].size == n
    {
      hide Starts;
    }

    lemma UsedMatches(heads0: map<Addr, Header>, b: nat, ts: seq<Tile>, us: seq<Tile>, off: nat, n: nat)
      requires RowMatches(heads0, b, ts) && Starts(us) == Starts(ts)[off := Tile(n, false)]
      requires heads == heads0[At(b, off) := Header(n, false, None)]
      ensures RowMatches(heads, b, us)
    {
      hide Starts;
    }

    /** The first chunk of a list of larger ones is cut; what is left is large enough for a
        vector of its own. */
    method CutLarger(i: nat, n: nat) returns (a: Addr)
      requires Consistent() && z.least <= n <= z.most && n <= i < lists.Length && lists[i].Some?
      modifies this`heads, this`chains, this`tiles, this`lastIdx, lists
      ensures Consistent() && Added(SetOf(blocks), old(tiles), SetOf(blocks), tiles, a, n)
      ensures a == old(lists[i]).value
    {
      hide *;
      HeapFacts();
      SizesOk(z);
      ghost var heads0, tiles0, bs := heads, tiles, SetOf(blocks);
      ghost var us := CutReady(i, n);
      ghost var ts := tiles[chains[i][0].block];
      a := Take(i);
      var size := heads[a].nbytes;
      var rest := At(a.block, a.off + n);
      NotListed(z, bs, tiles, chains, a, rest);
      ListedRest(z, bs, tiles0, chains, a, us, a.off + n, z.Bucket(size - n));
      StoreHeader(a, n);
      SetupOnFreeList(rest, size - n);
      CutMatches(heads0, a.block, ts, us, a.off, n, size);
      tiles := tiles[a.block := us];
      CutAdds(bs, tiles0, a.block, us, a.off, n);
      MakeValid(heads0, tiles0, a, us, n);
    }

    /** The rows and lists after block a.block got the row us. */
    lemma MakeValid(heads0: map<Addr, Header>, tiles0: map<nat, seq<Tile>>, a: Addr, us: seq<Tile>, n: nat)
      requires z.Ok() && lists.Length == z.Lists() == |chains| && Distinct(blocks)
      requires forall c :: c in blocks && c != a.block ==>
        c in tiles0 && RowOk(z, tiles0[c]) && RowMatches(heads0, c, tiles0[c])
      requires tiles == tiles0[a.block := us] && RowOk(z, us) && RowMatches(heads, a.block, us)
      requires forall x :: x in heads0 && x.block != a.block ==> x in heads && heads[x] == heads0[x]
      requires Chained(heads, lists[..], chains) && Listed(z, SetOf(blocks), tiles, chains)
      requires Added(SetOf(blocks), tiles0, SetOf(blocks), tiles, a, n)
      requires forall x :: x in marked ==> LiveIn(SetOf(blocks), tiles0, x)
      ensures Consistent()
    {
      hide *;
      OtherRows(heads0, tiles0, a.block, us, blocks);
      MarkedStays(SetOf(blocks), tiles0, a, n);
      AssembleValid();
    }

    lemma AssembleValid()
      requires z.Ok() && lists.Length == z.Lists() == |chains| && Distinct(blocks) && RowsOk(blocks)
      requires Chained(heads, lists[..], chains) && Listed(z, SetOf(blocks), tiles, chains)
      requires forall a :: a in marked ==> Live(a)
      ensures Consistent()
    {
    }

    /** The chunk to be cut, and the row it leaves. */
    lemma CutReady(i: nat, n: nat) returns (us: seq<Tile>)
      requires Consistent() && z.least <= n <= z.most && n <= i < lists.Length && lists[i].Some?
      ensures z.Ok() && lists.Length == z.Lists() == |chains| && Distinct(blocks) && Chained(heads, lists[..], chains)
      ensures chains[i] != [] && ListedBut(z, SetOf(blocks), tiles, chains[i := chains[i][1..]], chains[i][0])
      ensures NoList(chains[i := chains[i][1..]], chains[i][0])
      ensures var a := chains[i][0];
        && a.block in SetOf(blocks) && a.block in tiles && a in heads && a.off in Starts(tiles[a.block])
        && heads[a].nbytes == Starts(tiles[a.block])[a.off].size && n + z.least <= heads[a].nbytes
        && RowMatches(heads, a.block, tiles[a.block])
        && RowOk(z, us) && Cut(tiles[a.block], us, a.off, n) && a.off + n !in Starts(tiles[a.block])
        && z.Bucket(heads[a].nbytes - n) < |chains|
        && Starts(us) == Starts(tiles[a.block])[a.off := Tile(n, false)][a.off + n := Tile(heads[a].nbytes - n, true)]
        && (forall x, j :: FreeOf(z, us, x, j) <==>
              (FreeOf(z, tiles[a.block], x, j) && x != a.off) || (x == a.off + n && j == z.Bucket(heads[a].nbytes - n)))
      ensures forall c :: c in blocks ==> c in tiles && RowOk(z, tiles[c]) && RowMatches(heads, c, tiles[c])
      ensures forall x :: x in marked ==> LiveIn(SetOf(blocks), tiles, x)
    {
      hide *;
      HeapFacts();
      ListHead(i);
      ChunkIs(i);
      var a := chains[i][0];
      ListedTaken(z, SetOf(blocks), tiles, chains, i, a);
      LargeEnough(tiles[a.block], a, i, n);
      var ts := tiles[a.block];
      var k := IndexOf(ts, a.off);
      RowIsSized(z, ts);
      us := Split(ts, k, n);
      SplitFree(z, ts, k, n, us, a.off);
      SplitCuts(ts, k, n);
    }

    lemma HeapFacts()
      requires Consistent()
      ensures z.Ok() && lists.Length == z.Lists() == |chains| && Distinct(blocks) && Chained(heads, lists[..], chains)
      ensures Listed(z, SetOf(blocks), tiles, chains)
      ensures forall c :: c in blocks ==> c in tiles && RowOk(z, tiles[c]) && RowMatches(heads, c, tiles[c])
      ensures forall x :: x in marked ==> LiveIn(SetOf(blocks), tiles, x)
    {
    }

    /** A chunk of the i-th list is large enough to be cut, and what is left has a list. */
    lemma LargeEnough(ts: seq<Tile>, a: Addr, i: nat, n: nat)
      requires z.Ok() && FreeIn(z, SetOf(blocks), tiles, a, i) && a.block in tiles && ts == tiles[a.block]
      requires z.least <= n <= z.most && n <= i < z.Lists()
      ensures a.off in Starts(ts) && Starts(ts)[a.off].free && a.block in SetOf(blocks)
      ensures 0 < n && n + z.least <= Starts(ts)[a.off].size && z.Bucket(Starts(ts)[a.off].size - n) < z.Lists()
    {
      hide Starts;
    }

    lemma CutMatches(heads0: map<Addr, Header>, b: nat, ts: seq<Tile>, us: seq<Tile>, off: nat, n: nat, size: nat)
      requires RowMatches(heads0, b, ts) && 0 < n < size
      requires Starts(us) == Starts(ts)[off := Tile(n, false)][off + n := Tile(size - n, true)]
      requires At(b, off + n) in heads && heads[At(b, off + n)].nbytes == size - n && heads[At(b, off + n)].free
      requires heads == heads0[At(b, off) := Header(n, false, None)][At(b, off + n) := heads[At(b, off + n)]]
      ensures RowMatches(heads, b, us)
    {
      hide Starts;
    }

    /** A vector at the start of a new block; the rest of the block is one free chunk. */
    method FromNewBlock(n: nat, extra: nat) returns (a: Addr)
      requires Consistent() && 0 < n && n + z.least <= z.block && extra !in blocks
      modifies this`blocks, this`heads, this`chains, this`tiles, this`lastIdx, lists
      ensures Consistent() && blocks == [extra] + old(blocks)
      ensures a == At(extra, 0) && Added(SetOf(old(blocks)), old(tiles), SetOf(blocks), tiles, a, n)
    {
      hide *;
      ghost var heads0, tiles0, blocks0 := heads, tiles, blocks;
      ghost var us := [Tile(n, false), Tile(z.block - n, true)];
      HeapFacts();
      NewRow(z, n);
      RestBucket(n);
      a := At(extra, 0);
      var rest := At(extra, n);
      NewUnlisted(a);
      NewUnlisted(rest);
      OneMore(extra, blocks);
      ListedNew(z, SetOf(blocks), tiles, chains, extra, us, n, z.Bucket(z.block - n));
      blocks := [extra] + blocks;
      StoreHeader(a, n);
      SetupOnFreeList(rest, z.block - n);
      NewMatches(extra, us, n);
      tiles := tiles[extra := us];
      NewAdds(SetOf(blocks0), tiles0, extra, us, n, z.block - n);
      NewValid(heads0, tiles0, blocks0, a, us, n);
    }

    lemma RestBucket(n: nat)
      requires z.Ok() && 0 < n && n + z.least <= z.block
      ensures z.least <= z.block - n && z.Bucket(z.block - n) < z.Lists() && 0 < n < z.block
    {
    }

    lemma OneMore(b: nat, bs: seq<nat>)
      requires Distinct(bs) && b !in bs
      ensures SetOf([b] + bs) == SetOf(bs) + {b} && Distinct([b] + bs) && b !in SetOf(bs)
      ensures forall c :: c in [b] + bs && c != b ==> c in bs
    {
    }

    /** As `MakeValid`, for a block put in front. */
    lemma NewValid(heads0: map<Addr, Header>, tiles0: map<nat, seq<Tile>>, blocks0: seq<nat>, a: Addr, us: seq<Tile>,
                   n: nat)
      requires z.Ok() && lists.Length == z.Lists() == |chains| && Distinct(blocks)
      requires forall c :: c in blocks && c != a.block ==>
        c in tiles0 && RowOk(z, tiles0[c]) && RowMatches(heads0, c, tiles0[c])
      requires tiles == tiles0[a.block := us] && RowOk(z, us) && RowMatches(heads, a.block, us)
      requires forall x :: x in heads0 && x.block != a.block ==> x in heads && heads[x] == heads0[x]
      requires Chained(heads, lists[..], chains) && Listed(z, SetOf(blocks), tiles, chains)
      requires Added(SetOf(blocks0), tiles0, SetOf(blocks), tiles, a, n)
      requires forall x :: x in marked ==> LiveIn(SetOf(blocks0), tiles0, x)
      ensures Consistent()
    {
      hide *;
      OtherRows(heads0, tiles0, a.block, us, blocks);
      MarkedStays(SetOf(blocks0), tiles0, a, n);
      AssembleValid();
    }

    lemma NewUnlisted(a: Addr)
      requires Consistent() && a.block !in blocks
      ensures NoList(chains, a)
    {
    }

    lemma NewMatches(b: nat, us: seq<Tile>, n: nat)
      requires 0 < n < z.block && Starts(us) == map[0 := Tile(n, false)][n := Tile(z.block - n, true)]
      requires At(b, 0) in heads && heads[At(b, 0)].nbytes == n && !heads[At(b, 0)].free
      requires At(b, n) in heads && heads[At(b, n)].nbytes == z.block - n && heads[At(b, n)].free
      ensures RowMatches(heads, b, us)
    {
      hide Starts;
    }

    /** Allocates a vector of n units: from the list for its size, else from a larger chunk, else
        from a new block, which the allocator calls `extra`. */
    method Allocate(n: nat, extra: nat) returns (a: Addr)
      requires Valid() && z.least <= n <= z.most && extra !in blocks
      modifies this, lists
      ensures Valid() && Added(SetOf(old(blocks)), old(tiles), SetOf(blocks), tiles, a, n)
      ensures old(lists[n - z.least]).Some? ==> a == old(lists[n - z.least]).value && blocks == old(blocks)
      ensures old(lists[n - z.least]).None? ==>
        forall i ::
          (&& n <= i < lists.Length && old(lastIdx) <= i && old(lists[i]).Some?
           && forall j :: n <= j < i && old(lastIdx) <= j ==> old(lists[j]).None?) ==>
            a == old(lists[i]).value && blocks == old(blocks)
      ensures
        (&& old(lists[n - z.least]).None?
         && forall i :: n <= i < lists.Length && old(lastIdx) <= i ==> old(lists[i]).None?) ==>
          a == At(extra, 0) && blocks == [extra] + old(blocks)
    {
      hide *;
      ghost var bs, tiles0 := SetOf(blocks), tiles;
      Facts();
      a := Provide(n, extra);
      AddedValid(bs, tiles0, a, n);
    }

    lemma Facts()
      requires Valid()
      ensures Consistent() && SmallIn(SetOf(blocks), tiles) && LiveIn(SetOf(blocks), tiles, zero)
    {
    }

    ghost predicate SmallIn(bs: set<nat>, tiles: map<nat, seq<Tile>>) {
      forall a :: LiveIn(bs, tiles, a) && SizeIn(tiles, a) < z.least ==> a == zero
    }

    lemma AddedValid(bs: set<nat>, tiles0: map<nat, seq<Tile>>, a: Addr, n: nat)
      requires SmallIn(bs, tiles0) && LiveIn(bs, tiles0, zero) && z.least <= n && Consistent()
      requires Added(bs, tiles0, SetOf(blocks), tiles, a, n)
      ensures Valid()
    {
      hide LiveIn, SizeIn, VectorHeap.Consistent;
    }

    method Provide(n: nat, extra: nat) returns (a: Addr)
      requires Consistent() && z.least <= n <= z.most && extra !in blocks
      modifies this, lists
      ensures Consistent() && Added(SetOf(old(blocks)), old(tiles), SetOf(blocks), tiles, a, n)
      ensures old(lists[n - z.least]).Some? ==> a == old(lists[n - z.least]).value && blocks == old(blocks)
      ensures old(lists[n - z.least]).None? ==>
        forall i ::
          (&& n <= i < lists.Length && old(lastIdx) <= i && old(lists[i]).Some?
           && forall j :: n <= j < i && old(lastIdx) <= j ==> old(lists[j]).None?) ==>
            a == old(lists[i]).value && blocks == old(blocks)
      ensures
        (&& old(lists[n - z.least]).None?
         && forall i :: n <= i < lists.Length && old(lastIdx) <= i ==> old(lists[i]).None?) ==>
          a == At(extra, 0) && blocks == [extra] + old(blocks)
    {
      hide VectorHeap.RowsOk, Chained, Listed, Added;
      if lists[n - z.least].Some? {
        a := UseExact(n);
        return;
      }
      var index := if n > lastIdx then n else lastIdx;
      while index < lists.Length
        invariant n <= index && lastIdx <= index && lists[..] == old(lists[..])
        invariant forall j :: n <= j < index && lastIdx <= j && j < lists.Length ==> lists[j].None?
      {
        if lists[index].Some? {
          a := CutLarger(index, n);
          return;
        }
        index := index + 1;
      }
      a := FromNewBlock(n, extra);
    }

    /** The heap with one block, which starts with a vector of no slots, of `header` units. */
    constructor (z: Sizes, first: nat, header: nat)
      requires z.Ok() && 0 < header && header + z.least <= z.block
      ensures fresh(lists) && Valid() && this.z == z && blocks == [first] && marked == {} && zero == At(first, 0)
      ensures forall a :: Live(a) <==> a == At(first, 0)
    {
      this.z, zero := z, At(first, 0);
      blocks, heads, lastIdx, marked := [], map[], z.Lists(), {};
      lists := new Option<Addr>[z.Lists()](_ => None);
      tiles, chains := map[], seq(z.Lists(), _ => []);
      new;
      hide Starts;
      var a := FromNewBlock(header, first);
    }

    // ---------- Which vector holds an address ----------

    /** Scans a block for the vector in use that contains the place p. */
    method Holding(b: nat, p: nat) returns (r: Option<Addr>)
      requires Valid() && b in blocks
      ensures r.Some? ==> Live(r.value) && r.value.block == b && r.value.off <= p < r.value.off + SizeIn(tiles, r.value)
      ensures r.None? ==> forall off: nat :: LiveAt(tiles[b], off) ==> !(off <= p < off + SizeIn(tiles, At(b, off)))
    {
      ghost var ts := tiles[b];
      var off := 0;
      ghost var k := 0;
      assert RowOk(z, ts) && RowMatches(heads, b, ts);
      hide Starts, Off, Chained, Listed;
      Origin(ts);
      while off + z.least <= z.block && off <= p
        invariant 0 <= k <= |ts| && off == Off(ts, k)
        invariant forall x: nat :: LiveAt(ts, x) && x < off ==> !(x <= p < x + Starts(ts)[x].size)
        decreases |ts| - k
      {
        InRow(ts, k);
        var h := heads[At(b, off)];
        if p < off + h.nbytes && !h.free {
          return Some(At(b, off));
        }
        StepOver(ts, k);
        off := off + h.nbytes;
        k := k + 1;
      }
      PastRow(ts, k);
      r := None;
    }

    lemma Origin(ts: seq<Tile>)
      ensures Off(ts, 0) == 0
    {
    }

    /** A place where a vector still fits is the start of a tile. */
    lemma InRow(ts: seq<Tile>, k: nat)
      requires RowOk(z, ts) && k <= |ts| && Off(ts, k) + z.least <= z.block
      ensures k < |ts| && Off(ts, k) in Starts(ts) && Starts(ts)[Off(ts, k)] == ts[k]
    {
      if k < |ts| { StartsAt(ts, k); }
    }

    /** Between a tile and the next one, nothing starts. */
    lemma StepOver(ts: seq<Tile>, k: nat)
      requires RowOk(z, ts) && k < |ts|
      ensures Off(ts, k + 1) == Off(ts, k) + ts[k].size
      ensures forall x :: x in Starts(ts) && x < Off(ts, k + 1) ==> x <= Off(ts, k)
    {
      StartsAt(ts, k);
      forall x | x in Starts(ts) && x < Off(ts, k + 1)
        ensures x <= Off(ts, k)
      {
        if x > Off(ts, k) { StartsApart(ts, Off(ts, k), x); }
      }
    }

    lemma PastRow(ts: seq<Tile>, k: nat)
      requires RowOk(z, ts) && k <= |ts|
      ensures Off(ts, k) + z.least > z.block ==> k == |ts| && forall x :: x in Starts(ts) ==> x < Off(ts, k)
    {
      if k < |ts| { StartsAt(ts, k); }
      if k == |ts| {
        forall x | x in Starts(ts)
          ensures x < Off(ts, k)
        {
          StartsBelow(ts, x);
        }
      }
    }

    // ---------- The sweep ----------

    /** Marks a vector in use. */
    method MarkVector(a: Addr)
      requires Valid() && Live(a)
      modifies this`marked
      ensures Valid() && marked == old(marked) + {a}
    {
      hide Chained, Listed, VectorHeap.RowsOk, LiveIn;
      marked := marked + {a};
    }

    /** From the j-th tile of block b on, headers and marks are as they were. */
    ghost predicate Ahead(b: nat, ts: seq<Tile>, j: nat, marked0: set<Addr>)
      reads this`heads, this`marked
    {
      HeadsAhead(heads, marked, b, ts, j, marked0)
    }

    ghost predicate HeadsAhead(heads: map<Addr, Header>, marked: set<Addr>, b: nat, ts: seq<Tile>, j: nat,
                               marked0: set<Addr>) {
      && (forall k :: j <= k < |ts| ==>
            && At(b, Off(ts, k)) in heads && heads[At(b, Off(ts, k))].nbytes == ts[k].size
            && heads[At(b, Off(ts, k))].free == ts[k].free
            && (At(b, Off(ts, k)) in marked <==> At(b, Off(ts, k)) in marked0)
            && (At(b, Off(ts, k)) in marked0 ==> !ts[k].free))
      && (forall x :: x in marked0 && x.block == b ==> LiveAt(ts, x.off))
      && (forall x :: x in marked <==>
        x in marked0 && (x.block != b || x.off >= Off(ts, if j <= |ts| then j else |ts|)))
    }

    /** The first j tiles of block b are swept: their merged row is on the lists. */
    ghost predicate Sweeping(bs: set<nat>, b: nat, row: seq<Tile>, j: nat)
      requires z.Ok() && j <= |row|
      reads this`heads, this`tiles, this`chains, lists
    {
      && lists.Length == z.Lists() == |chains| && b !in bs
      && Chained(heads, lists[..], chains)
      && Listed(z, bs + {b}, tiles[b := Merged(row[..j])], chains)
      && RowMatches(heads, b, Merged(row[..j]))
    }

    /** Vectors not in use any more go with the free chunks after them. */
    method FindRun(b: nat, off: nat, ghost ts: seq<Tile>, ghost j: nat, ghost marked0: set<Addr>)
        returns (next: nat, total: nat, ghost k: nat)
      requires RowOk(z, ts) && j < |ts| && off == Off(ts, j) && Ahead(b, ts, j, marked0)
      requires Swept(b, ts, marked0)[j].free
      requires At(b, off) !in marked
      ensures j < k <= |ts| && next == Off(ts, k) == off + total
      ensures forall i :: j <= i < k ==> Swept(b, ts, marked0)[i].free
      ensures k < |ts| ==> next + z.least <= z.block && !Swept(b, ts, marked0)[k].free && At(b, next) in marked
      ensures k == |ts| ==> next + z.least > z.block
    {
      hide Starts, Off;
      total, next, k := 0, off, j;
      var go := true;
      while go
        invariant j <= k <= |ts| && next == Off(ts, k) == off + total
        invariant forall i :: j <= i < k ==> Swept(b, ts, marked0)[i].free
        invariant go ==> k < |ts| && Swept(b, ts, marked0)[k].free && At(b, next) !in marked
        invariant !go ==> j < k
        invariant !go && k < |ts| ==>
          next + z.least <= z.block && !Swept(b, ts, marked0)[k].free && At(b, next) in marked
        invariant !go && k == |ts| ==> next + z.least > z.block
        decreases |ts| - k, go
      {
        var n := heads[At(b, next)].nbytes;
        StepOver(ts, k);
        total := total + n;
        next := next + n;
        k := k + 1;
        InRowOr(ts, k);
        go := next + z.least <= z.block && At(b, next) !in marked;
      }
    }

    lemma InRowOr(ts: seq<Tile>, k: nat)
      requires RowOk(z, ts) && k <= |ts|
      ensures Off(ts, k) + z.least <= z.block <==> k < |ts|
    {
      if k < |ts| { StartsAt(ts, k); }
    }

    /** A marked vector stays, without its mark. */
    method KeepVector(ghost bs: set<nat>, b: nat, off: nat, ghost ts: seq<Tile>, ghost j: nat, ghost marked0: set<Addr>)
      requires RowOk(z, ts) && z.Ok() && j < |ts| && off == Off(ts, j) && Ahead(b, ts, j, marked0)
      requires Sweeping(bs, b, Swept(b, ts, marked0), j) && At(b, off) in marked
      modifies this`marked
      ensures Ahead(b, ts, j + 1, marked0) && Sweeping(bs, b, Swept(b, ts, marked0), j + 1)
      ensures !Swept(b, ts, marked0)[j].free && Off(ts, j + 1) == off + ts[j].size
      ensures marked == old(marked) - {At(b, off)}
    {
      hide *;
      KeepReady(bs, b, ts, j, marked0);
      marked := marked - {At(b, off)};
      KeptTo(bs, b, ts, j, marked0, off);
    }

    lemma KeepReady(bs: set<nat>, b: nat, ts: seq<Tile>, j: nat, marked0: set<Addr>)
      requires RowOk(z, ts) && z.Ok() && j < |ts| && Ahead(b, ts, j, marked0)
      requires Sweeping(bs, b, Swept(b, ts, marked0), j) && At(b, Off(ts, j)) in marked
      ensures !Swept(b, ts, marked0)[j].free && Off(ts, j + 1) == Off(ts, j) + ts[j].size
      ensures Sweeping(bs, b, Swept(b, ts, marked0), j + 1)
      ensures HeadsAhead(heads, marked - {At(b, Off(ts, j))}, b, ts, j + 1, marked0)
    {
      var row := Swept(b, ts, marked0);
      SweptRow(b, ts, marked0, j);
      MergedLast(row, j);
      var acc := Merged(row[..j]);
      KeepHeads(b, ts, j, marked0);
      hide Starts, Off, Merged, Chained, Listed, RowMatches, Sized, RowOk, HeadsAhead;
      FreeAppend(z, acc, row[j]);
      MatchAppend(heads, b, acc, row[j]);
      ListedSame(z, bs, tiles, chains, b, acc, acc + [row[j]]);
    }

    lemma KeepHeads(b: nat, ts: seq<Tile>, j: nat, marked0: set<Addr>)
      requires RowOk(z, ts) && j < |ts| && Ahead(b, ts, j, marked0) && At(b, Off(ts, j)) in marked
      ensures HeadsAhead(heads, marked - {At(b, Off(ts, j))}, b, ts, j + 1, marked0)
      ensures Off(ts, j + 1) == Off(ts, j) + ts[j].size && ts[j].size > 0 && !ts[j].free && At(b, Off(ts, j)) in marked0
      ensures At(b, Off(ts, j)) in heads && heads[At(b, Off(ts, j))].nbytes == ts[j].size
      ensures !heads[At(b, Off(ts, j))].free
    {
      KeepAhead(b, ts, j);
      StepOver(ts, j);
      assert ts[j] in ts;
      hide Starts, Off;
    }

    lemma KeptTo(bs: set<nat>, b: nat, ts: seq<Tile>, j: nat, marked0: set<Addr>, off: nat)
      requires j < |ts| && HeadsAhead(heads, marked, b, ts, j + 1, marked0)
      ensures Ahead(b, ts, j + 1, marked0)
    {
    }

    lemma KeepAhead(b: nat, ts: seq<Tile>, j: nat)
      requires RowOk(z, ts) && j < |ts|
      ensures forall k :: j < k <= |ts| ==> Off(ts, j) < Off(ts, k) && Off(ts, j + 1) <= Off(ts, k)
    {
      forall k | j < k <= |ts|
        ensures Off(ts, j) < Off(ts, k) && Off(ts, j + 1) <= Off(ts, k)
      {
        OffGrows(ts, j, k);
        if j + 1 < k { OffGrows(ts, j + 1, k); }
      }
    }

    /** The swept row has the same places, and its merged prefix ends where the prefix does. */
    lemma SweptRow(b: nat, ts: seq<Tile>, marked: set<Addr>, j: nat)
      requires Sized(ts) && j <= |ts|
      ensures var row := Swept(b, ts, marked);
        && Sized(row) && Off(row, j) == Off(ts, j)
        && Sized(Merged(row[..j])) && Total(Merged(row[..j])) == Off(ts, j)
    {
      var row := Swept(b, ts, marked);
      SweptSized(b, ts, marked);
      SweptOff(b, ts, marked, j);
      assert Sized(row[..j]);
      MergedFacts(row[..j]);
      OffPrefix(row, row[..j], j);
    }

    /** In a run of tiles that are set free, nothing is marked. */
    lemma RunUnmarked(b: nat, ts: seq<Tile>, j: nat, k: nat, marked0: set<Addr>, x: nat)
      requires Sized(ts) && j < k <= |ts| && LiveAt(ts, x) && At(b, x) in marked0 && x >= Off(ts, j)
      requires forall i :: j <= i < k ==> Swept(b, ts, marked0)[i].free
      ensures x >= Off(ts, k)
    {
      var i := IndexOf(ts, x);
      SweptAt(b, ts, marked0, i);
      hide *;
      if i < j { OffGrows(ts, i, j); }
      if k < i { OffGrows(ts, k, i); }
    }

    lemma SweptAt(b: nat, ts: seq<Tile>, marked0: set<Addr>, i: nat)
      requires i < |ts| && !ts[i].free && At(b, Off(ts, i)) in marked0
      ensures |Swept(b, ts, marked0)| == |ts| && !Swept(b, ts, marked0)[i].free
    {
    }

    /** A run of tiles set free becomes one free chunk. */
    method FreeChunk(ghost bs: set<nat>, b: nat, off: nat, total: nat, ghost ts: seq<Tile>, ghost j: nat,
                     ghost k: nat, ghost marked0: set<Addr>)
      requires RowOk(z, ts) && z.Ok() && j < k <= |ts| && off == Off(ts, j) && off + total == Off(ts, k)
      requires Ahead(b, ts, j, marked0) && Sweeping(bs, b, Swept(b, ts, marked0), j) && z.least <= total
      requires forall i :: j <= i < k ==> Swept(b, ts, marked0)[i].free
      requires j == 0 || !Swept(b, ts, marked0)[j - 1].free
      modifies this`heads, this`lastIdx, this`chains, lists
      ensures Ahead(b, ts, k, marked0) && Sweeping(bs, b, Swept(b, ts, marked0), k)
      ensures forall x :: x in old(heads) && x.block != b ==> x in heads && heads[x] == old(heads)[x]
      ensures At(b, off) in heads && heads[At(b, off)].nbytes == total
      ensures heads == old(heads)[At(b, off) := heads[At(b, off)]]
      ensures z.Ok() && z.Bucket(total) < |old(chains)| && NoList(old(chains), At(b, off))
      ensures chains == old(chains)[z.Bucket(total) := [At(b, off)] + old(chains)[z.Bucket(total)]]
    {
      hide *;
      ghost var row, heads0 := Swept(b, ts, marked0), heads;
      ChunkReady(bs, b, off, total, ts, j, k, marked0);
      ghost var acc := Merged(row[..j]);
      SetupOnFreeList(At(b, off), total);
      MatchOther(heads0, heads, b, acc, off);
      MatchAppend(heads, b, acc, Tile(total, true));
      AheadHeads(heads0, b, ts, k, marked0, off);
      SweptTo(bs, b, row, k, acc, Tile(total, true));
    }

    lemma ChunkReady(bs: set<nat>, b: nat, off: nat, total: nat, ts: seq<Tile>, j: nat, k: nat, marked0: set<Addr>)
      requires RowOk(z, ts) && z.Ok() && j < k <= |ts| && off == Off(ts, j) && off + total == Off(ts, k)
      requires Ahead(b, ts, j, marked0) && Sweeping(bs, b, Swept(b, ts, marked0), j) && z.least <= total
      requires forall i :: j <= i < k ==> Swept(b, ts, marked0)[i].free
      requires j == 0 || !Swept(b, ts, marked0)[j - 1].free
      ensures var row := Swept(b, ts, marked0);
        && |row| == |ts| && Merged(row[..k]) == Merged(row[..j]) + [Tile(total, true)]
        && off !in Starts(Merged(row[..j])) && Total(Merged(row[..j])) == off && RowMatches(heads, b, Merged(row[..j]))
        && lists.Length == z.Lists() == |chains| && b !in bs && Chained(heads, lists[..], chains)
          && NoList(chains, At(b, off))
        && z.Bucket(total) < |chains|
        && Listed(z, bs + {b}, tiles[b := Merged(row[..j]) + [Tile(total, true)]],
                  chains[z.Bucket(total) := [At(b, off)] + chains[z.Bucket(total)]])
      ensures HeadsAhead(heads, marked, b, ts, k, marked0) && forall i :: k <= i < |ts| ==> off < Off(ts, i)
    {
      ChunkLists(bs, b, off, total, ts, j, k, marked0);
      AheadLater(b, ts, j, k, marked0);
      KeepAhead(b, ts, j);
      hide *;
      assert forall i :: k <= i < |ts| ==> off < Off(ts, i);
    }

    lemma ChunkLists(bs: set<nat>, b: nat, off: nat, total: nat, ts: seq<Tile>, j: nat, k: nat, marked0: set<Addr>)
      requires RowOk(z, ts) && z.Ok() && j < k <= |ts| && off == Off(ts, j) && off + total == Off(ts, k)
      requires Sweeping(bs, b, Swept(b, ts, marked0), j) && z.least <= total
      requires forall i :: j <= i < k ==> Swept(b, ts, marked0)[i].free
      requires j == 0 || !Swept(b, ts, marked0)[j - 1].free
      ensures var row := Swept(b, ts, marked0);
        && |row| == |ts| && Merged(row[..k]) == Merged(row[..j]) + [Tile(total, true)]
        && off !in Starts(Merged(row[..j])) && Total(Merged(row[..j])) == off && RowMatches(heads, b, Merged(row[..j]))
        && lists.Length == z.Lists() == |chains| && b !in bs && Chained(heads, lists[..], chains)
          && NoList(chains, At(b, off))
        && z.Bucket(total) < |chains|
        && Listed(z, bs + {b}, tiles[b := Merged(row[..j]) + [Tile(total, true)]],
                  chains[z.Bucket(total) := [At(b, off)] + chains[z.Bucket(total)]])
    {
      hide Starts, Off, Merged, Chained, Listed, RowOk, FreeOf, RowMatches, Sized, NoNeighbours;
      var row := Swept(b, ts, marked0);
      RowIsSized(z, ts);
      SweptRow(b, ts, marked0, j);
      SweptRow(b, ts, marked0, k);
      var acc, t := Merged(row[..j]), Tile(total, true);
      MergedRun(row, j, k);
      FreeAppend(z, acc, t);
      ListedAbsent(z, bs, tiles, chains, b, acc, off);
      ListedMore(z, bs, tiles, chains, b, acc, acc + [t], off, z.Bucket(total));
    }

    lemma SweptTo(bs: set<nat>, b: nat, row: seq<Tile>, k: nat, acc: seq<Tile>, t: Tile)
      requires z.Ok() && lists.Length == z.Lists() == |chains| && b !in bs && k <= |row|
      requires Merged(row[..k]) == acc + [t]
      requires Chained(heads, lists[..], chains) && Listed(z, bs + {b}, tiles[b := acc + [t]], chains)
      requires RowMatches(heads, b, acc + [t])
      ensures Sweeping(bs, b, row, k)
    {
    }

    lemma AheadHeads(heads0: map<Addr, Header>, b: nat, ts: seq<Tile>, k: nat, marked0: set<Addr>, off: nat)
      requires forall x :: x in heads0 && x != At(b, off) ==> x in heads && heads[x] == heads0[x]
      requires HeadsAhead(heads0, marked, b, ts, k, marked0) && forall i :: k <= i < |ts| ==> off < Off(ts, i)
      ensures Ahead(b, ts, k, marked0)
    {
      hide Starts, Off;
    }

    lemma AheadLater(b: nat, ts: seq<Tile>, j: nat, k: nat, marked0: set<Addr>)
      requires RowOk(z, ts) && j < k <= |ts| && Ahead(b, ts, j, marked0)
      requires forall i :: j <= i < k ==> Swept(b, ts, marked0)[i].free
      ensures HeadsAhead(heads, marked, b, ts, k, marked0)
    {
      OffGrows(ts, j, k);
      forall x | x in marked0 && x.block == b && x.off >= Off(ts, j)
        ensures x.off >= Off(ts, k)
      {
        RunUnmarked(b, ts, j, k, marked0, x.off);
      }
      hide Starts, Off;
    }

    /** The units counted so far: as live, those of the vectors in m whose marks are cleared; as
        free, those of the chunks on the lists. */
    ghost predicate Tally(m: set<Addr>, live: nat, free: nat)
      reads this`heads, this`marked, this`chains
    {
      live == Sum(HeaderSizes(heads, m - marked)) && free == Sum(HeaderSizes(heads, OnLists(chains)))
    }

    lemma TallyKept(m: set<Addr>, live: nat, free: nat, marked1: set<Addr>, a: Addr)
      requires live == Sum(HeaderSizes(heads, m - marked1)) && free == Sum(HeaderSizes(heads, OnLists(chains)))
      requires a in m && a in marked1 && a in heads && marked == marked1 - {a}
      ensures Tally(m, live + heads[a].nbytes, free)
    {
      assert m - marked == (m - marked1) + {a};
      SumKept(heads, m - marked1, a);
    }

    lemma TallyFreed(m: set<Addr>, live: nat, free: nat, heads1: map<Addr, Header>, chains1: seq<seq<Addr>>, i: nat,
                     a: Addr)
      requires live == Sum(HeaderSizes(heads1, m - marked)) && free == Sum(HeaderSizes(heads1, OnLists(chains1)))
      requires a in heads && heads == heads1[a := heads[a]] && i < |chains1| && NoList(chains1, a) && a !in m
      requires chains == chains1[i := [a] + chains1[i]]
      ensures Tally(m, live, free + heads[a].nbytes)
    {
      SumSame(heads1, a, heads[a], m - marked);
      SumListed(heads1, chains1, i, a, heads[a]);
    }

    lemma TallyIs(m: set<Addr>, live: nat, free: nat)
      requires Tally(m, live, free)
      ensures live == Sum(HeaderSizes(heads, m - marked)) && free == Sum(HeaderSizes(heads, OnLists(chains)))
    {
    }

    /** A tile that is set free has no mark. */
    lemma FreeUnmarked(b: nat, ts: seq<Tile>, j: nat, marked0: set<Addr>)
      requires j < |ts| && Ahead(b, ts, j, marked0) && Swept(b, ts, marked0)[j].free
      ensures At(b, Off(ts, j)) !in marked0
    {
      hide Off, Starts;
    }

    /** A block about to be swept, not among the blocks swept already. */
    ghost predicate Unswept(bs: set<nat>, b: nat, ts: seq<Tile>)
      reads this`heads, this`tiles, this`chains, this`marked, lists
    {
      && z.Ok() && RowOk(z, ts) && lists.Length == z.Lists() == |chains| && b !in bs
      && Chained(heads, lists[..], chains) && Listed(z, bs, tiles, chains)
      && HeadsAhead(heads, marked, b, ts, 0, marked)
      && LargeOrMarked(b, ts, marked)
    }

    ghost predicate AllFree(row: seq<Tile>) { forall i :: 0 <= i < |row| ==> row[i].free }

    /** How far block b is swept: either the first j tiles are, or it was found to have no vector
        in use, and nothing was done. */
    ghost predicate Progress(bs: set<nat>, b: nat, ts: seq<Tile>, j: nat, marked0: set<Addr>, allFree: bool,
                             live: nat, free: nat)
      reads this`heads, this`tiles, this`chains, this`marked, lists
    {
      var row := Swept(b, ts, marked0);
      && z.Ok() && RowOk(z, ts) && j <= |ts| && Ahead(b, ts, j, marked0)
      && LargeOrMarked(b, ts, marked0)
      && if allFree then
           && j == |ts| && AllFree(row) && live == 0 && free == 0
           && lists.Length == z.Lists() == |chains| && Chained(heads, lists[..], chains) && Listed(z, bs, tiles, chains)
         else
           && Sweeping(bs, b, row, j) && live + free == Off(ts, j)
           && (0 < j < |ts| && row[j].free ==> !row[j - 1].free)
           && (j > 0 ==> !AllFree(row))
           && (j == 0 ==> Listed(z, bs, tiles, chains))
    }

    lemma SweepStart(bs: set<nat>, b: nat, ts: seq<Tile>)
      requires Unswept(bs, b, ts)
      ensures Progress(bs, b, ts, 0, marked, false, 0, 0) && Off(ts, 0) == 0
    {
      var row := Swept(b, ts, marked);
      assert row[..0] == [] && Merged([]) == [];
      ListedStart(z, bs, tiles, chains, b);
      hide Chained, Listed;
    }

    ghost predicate LargeOrMarked(b: nat, ts: seq<Tile>, marked0: set<Addr>) {
      forall k :: 0 <= k < |ts| && ts[k].size < z.least ==> At(b, Off(ts, k)) in marked0
    }

    lemma TileReady(bs: set<nat>, b: nat, ts: seq<Tile>, j: nat, marked0: set<Addr>, live: nat, free: nat)
      requires Progress(bs, b, ts, j, marked0, false, live, free) && j < |ts|
      ensures var row, a := Swept(b, ts, marked0), At(b, Off(ts, j));
        && z.Ok() && RowOk(z, ts) && |row| == |ts| && Ahead(b, ts, j, marked0) && Sweeping(bs, b, row, j)
        && LargeOrMarked(b, ts, marked0) && live + free == Off(ts, j)
        && a in heads && heads[a].nbytes == ts[j].size && (a in marked <==> !row[j].free)
        && (a in marked ==> a in marked0)
        && (row[j].free && j > 0 ==> !row[j - 1].free)
        && (j > 0 ==> !AllFree(row)) && (j == 0 ==> Off(ts, j) == 0)
    {
      hide Starts, Merged, Chained, Listed, RowMatches;
    }

    lemma KeptProgress(bs: set<nat>, b: nat, ts: seq<Tile>, j: nat, marked0: set<Addr>, live: nat, free: nat)
      requires z.Ok() && RowOk(z, ts) && j < |ts| && LargeOrMarked(b, ts, marked0)
      requires Ahead(b, ts, j + 1, marked0) && Sweeping(bs, b, Swept(b, ts, marked0), j + 1)
      requires !Swept(b, ts, marked0)[j].free && live + free == Off(ts, j + 1)
      ensures Progress(bs, b, ts, j + 1, marked0, false, live, free)
    {
      hide Starts, Off, Merged, Chained, Listed, RowMatches, HeadsAhead, RowOk;
    }

    lemma RunSize(b: nat, ts: seq<Tile>, j: nat, k: nat, marked0: set<Addr>, total: nat)
      requires z.Ok() && RowOk(z, ts) && j < k <= |ts| && LargeOrMarked(b, ts, marked0) && Ahead(b, ts, j, marked0)
      requires Swept(b, ts, marked0)[j].free && Off(ts, k) == Off(ts, j) + total
      ensures z.least <= total
    {
      OffGrows(ts, j, k);
      StartsAt(ts, j);
      hide Starts, Off;
    }

    lemma AllFreeProgress(bs: set<nat>, b: nat, ts: seq<Tile>, j: nat, k: nat, marked0: set<Addr>, live: nat, free: nat)
      requires Progress(bs, b, ts, j, marked0, false, live, free) && j < k == |ts| && Off(ts, j) == 0
      requires forall i :: j <= i < k ==> Swept(b, ts, marked0)[i].free
      ensures Progress(bs, b, ts, k, marked0, true, 0, 0)
    {
      if j > 0 { OffGrows(ts, 0, j); }
      AheadLater(b, ts, j, k, marked0);
      hide Starts, Off, Merged, Chained, Listed, RowMatches, HeadsAhead, RowOk;
    }

    lemma RunProgress(bs: set<nat>, b: nat, ts: seq<Tile>, j: nat, k: nat, marked0: set<Addr>, live: nat, free: nat)
      requires z.Ok() && RowOk(z, ts) && j < k <= |ts| && LargeOrMarked(b, ts, marked0)
      requires Ahead(b, ts, k, marked0) && Sweeping(bs, b, Swept(b, ts, marked0), k) && live + free == Off(ts, k)
      requires if k < |ts| then !Swept(b, ts, marked0)[k].free else j > 0
      requires j > 0 ==> !AllFree(Swept(b, ts, marked0))
      ensures Progress(bs, b, ts, k, marked0, false, live, free)
    {
      hide Starts, Off, Merged, Chained, Listed, RowMatches, HeadsAhead, RowOk;
    }

    /** One vector kept, or one run of tiles set free. */
    method SweepTile(ghost bs: set<nat>, b: nat, off: nat, live: nat, free: nat, ghost ts: seq<Tile>, ghost j: nat,
                     ghost marked0: set<Addr>, ghost m: set<Addr>, ghost live0: nat, ghost free0: nat)
        returns (next: nat, allFree: bool, live': nat, free': nat, ghost k: nat)
      requires Progress(bs, b, ts, j, marked0, false, live, free) && j < |ts| && off == Off(ts, j)
      requires Tally(m, live0 + live, free0 + free) && forall x: Addr :: x.block == b ==> (x in m <==> x in marked0)
      modifies this`heads, this`lastIdx, this`chains, this`marked, lists
      ensures j < k && Progress(bs, b, ts, k, marked0, allFree, live', free') && next == Off(ts, k)
      ensures Tally(m, live0 + live', free0 + free')
      ensures forall x :: x in old(heads) && x.block != b ==> x in heads && heads[x] == old(heads)[x]
    {
      hide *;
      TileReady(bs, b, ts, j, marked0, live, free);
      if At(b, off) in marked {
        var n := heads[At(b, off)].nbytes;
        ghost var marked1 := marked;
        TallyIs(m, live0 + live, free0 + free);
        assert At(b, off).block == b;
        KeepVector(bs, b, off, ts, j, marked0);
        live', free', allFree, next, k := live + n, free, false, off + n, j + 1;
        KeptProgress(bs, b, ts, j, marked0, live', free');
        TallyKept(m, live0 + live, free0 + free, marked1, At(b, off));
      } else {
        next, allFree, free', k := SweepRun(bs, b, off, live, free, ts, j, marked0, m, live0, free0);
        live' := if allFree then 0 else live;
      }
    }

    /** A run of vectors not in use and free chunks: if it is the whole block, nothing is done. */
    method SweepRun(ghost bs: set<nat>, b: nat, off: nat, ghost live: nat, free: nat, ghost ts: seq<Tile>,
                    ghost j: nat, ghost marked0: set<Addr>, ghost m: set<Addr>, ghost live0: nat, ghost free0: nat)
        returns (next: nat, allFree: bool, free': nat, ghost k: nat)
      requires Progress(bs, b, ts, j, marked0, false, live, free) && j < |ts| && off == Off(ts, j)
      requires Tally(m, live0 + live, free0 + free) && forall x: Addr :: x.block == b ==> (x in m <==> x in marked0)
      requires At(b, off) !in marked
      modifies this`heads, this`lastIdx, this`chains, lists
      ensures j < k && Progress(bs, b, ts, k, marked0, allFree, if allFree then 0 else live, free')
      ensures Tally(m, live0 + (if allFree then 0 else live), free0 + free')
      ensures next == Off(ts, k)
      ensures forall x :: x in old(heads) && x.block != b ==> x in heads && heads[x] == old(heads)[x]
    {
      hide *;
      TileReady(bs, b, ts, j, marked0, live, free);
      var total;
      next, total, k := FindRun(b, off, ts, j, marked0);
      RunSize(b, ts, j, k, marked0, total);
      allFree := off == 0 && next + z.least > z.block;
      if allFree {
        free' := 0;
        AllFreeProgress(bs, b, ts, j, k, marked0, live, free);
      } else {
        free' := free + total;
        FreeUnmarked(b, ts, j, marked0);
        assert At(b, off).block == b;
        FreeRun(bs, b, off, total, live, free', ts, j, k, marked0, m, live0, free0);
      }
    }

    method FreeRun(ghost bs: set<nat>, b: nat, off: nat, total: nat, ghost live: nat, ghost free': nat,
                   ghost ts: seq<Tile>, ghost j: nat, ghost k: nat, ghost marked0: set<Addr>, ghost m: set<Addr>,
                   ghost live0: nat, ghost free0: nat)
      requires z.Ok() && RowOk(z, ts) && j < k <= |ts| && off == Off(ts, j) && off + total == Off(ts, k)
      requires z.least <= total <= free' && Tally(m, live0 + live, free0 + (free' - total)) && At(b, off) !in m
      requires Ahead(b, ts, j, marked0) && Sweeping(bs, b, Swept(b, ts, marked0), j) && LargeOrMarked(b, ts, marked0)
      requires forall i :: j <= i < k ==> Swept(b, ts, marked0)[i].free
      requires j == 0 || !Swept(b, ts, marked0)[j - 1].free
      requires if k < |ts| then !Swept(b, ts, marked0)[k].free else j > 0
      requires (j > 0 ==> !AllFree(Swept(b, ts, marked0))) && live + free' == Off(ts, k)
      modifies this`heads, this`lastIdx, this`chains, lists
      ensures Progress(bs, b, ts, k, marked0, false, live, free') && Tally(m, live0 + live, free0 + free')
      ensures forall x :: x in old(heads) && x.block != b ==> x in heads && heads[x] == old(heads)[x]
    {
      hide *;
      ghost var heads1, chains1 := heads, chains;
      TallyIs(m, live0 + live, free0 + (free' - total));
      FreeChunk(bs, b, off, total, ts, j, k, marked0);
      RunProgress(bs, b, ts, j, k, marked0, live, free');
      TallyFreed(m, live0 + live, free0 + (free' - total), heads1, chains1, z.Bucket(total), At(b, off));
    }

    method SweepBlock(ghost bs: set<nat>, b: nat, ghost ts: seq<Tile>, ghost m: set<Addr>, ghost live0: nat,
                      ghost free0: nat)
        returns (allFree: bool, live: nat, free: nat)
      requires Unswept(bs, b, ts)
      requires Tally(m, live0, free0) && forall x: Addr :: x.block == b ==> (x in m <==> x in marked)
      modifies this`heads, this`lastIdx, this`chains, this`marked, lists
      ensures Progress(bs, b, ts, |ts|, old(marked), allFree, live, free) && Tally(m, live0 + live, free0 + free)
      ensures forall x :: x in old(heads) && x.block != b ==> x in heads && heads[x] == old(heads)[x]
    {
      SweepStart(bs, b, ts);
      RowIs(bs, b, ts);
      hide *;
      ghost var marked0 := marked;
      var off := 0;
      ghost var j := 0;
      allFree, live, free := false, 0, 0;
      InRowOr(ts, j);
      while off + z.least <= z.block
        invariant 0 <= j <= |ts| && off == Off(ts, j) && RowOk(z, ts)
        invariant Progress(bs, b, ts, j, marked0, allFree, live, free) && Tally(m, live0 + live, free0 + free)
        invariant allFree ==> j == |ts|
        invariant off + z.least <= z.block <==> j < |ts|
        invariant forall x :: x in old(heads) && x.block != b ==> x in heads && heads[x] == old(heads)[x]
        decreases |ts| - j
      {
        off, allFree, live, free, j := SweepTile(bs, b, off, live, free, ts, j, marked0, m, live0, free0);
        ProgressIs(bs, b, ts, j, marked0, allFree, live, free);
        InRowOr(ts, j);
      }
    }

    lemma RowIs(bs: set<nat>, b: nat, ts: seq<Tile>)
      requires Unswept(bs, b, ts)
      ensures RowOk(z, ts)
    {
    }

    lemma ProgressIs(bs: set<nat>, b: nat, ts: seq<Tile>, j: nat, marked0: set<Addr>, allFree: bool, live: nat,
                     free: nat)
      requires Progress(bs, b, ts, j, marked0, allFree, live, free)
      ensures j <= |ts| && RowOk(z, ts) && (allFree ==> j == |ts|)
    {
    }

    /** The merged row is a row of a block. */
    lemma MergedRowOk(b: nat, ts: seq<Tile>, marked0: set<Addr>)
      requires z.Ok() && RowOk(z, ts) && LargeOrMarked(b, ts, marked0)
      ensures RowOk(z, Merged(Swept(b, ts, marked0))) && NoNeighbours(Merged(Swept(b, ts, marked0)))
      ensures Total(Merged(Swept(b, ts, marked0))) == Total(ts)
    {
      var row := Swept(b, ts, marked0);
      SweptSized(b, ts, marked0);
      SweptOff(b, ts, marked0, |ts|);
      MergedFacts(row);
      SweptLarge(b, ts, marked0);
      MergedSizes(row, z.least);
      MergedStarts(b, ts, marked0);
      hide Merged, Off, Starts;
    }

    lemma SweptLarge(b: nat, ts: seq<Tile>, marked0: set<Addr>)
      requires z.Ok() && RowOk(z, ts) && LargeOrMarked(b, ts, marked0)
      ensures forall t :: t in Swept(b, ts, marked0) && t.free ==> z.least <= t.size
    {
      var row := Swept(b, ts, marked0);
      forall t | t in row && t.free
        ensures z.least <= t.size
      {
        var k :| 0 <= k < |row| && row[k] == t;
        StartsAt(ts, k);
      }
    }

    lemma MergedStarts(b: nat, ts: seq<Tile>, marked0: set<Addr>)
      requires z.Ok() && RowOk(z, ts)
      requires var ms := Merged(Swept(b, ts, marked0));
        Sized(ms) && Total(ms) <= z.block && forall t :: t in ms && t.free ==> z.least <= t.size
      ensures var ms := Merged(Swept(b, ts, marked0));
        forall off :: off in Starts(ms) ==>
          off + z.least <= z.block && (Starts(ms)[off].free ==> z.least <= Starts(ms)[off].size)
    {
      var row := Swept(b, ts, marked0);
      var ms := Merged(row);
      SweptSized(b, ts, marked0);
      forall off | off in Starts(ms)
        ensures off + z.least <= z.block && (Starts(ms)[off].free ==> z.least <= Starts(ms)[off].size)
      {
        hide Merged, Starts;
        var k := IndexOf(ms, off);
        assert ms[k] in ms;
        StartsBelow(ms, off);
        MergedLive(row, off);
        SweptLive(b, ts, marked0, off);
      }
    }

    /** The vectors of a swept block are its marked ones. */
    lemma SweptVectors(b: nat, ts: seq<Tile>, marked0: set<Addr>, off: nat)
      requires RowOk(z, ts) && forall x :: x in marked0 && x.block == b ==> LiveAt(ts, x.off)
      ensures LiveAt(Merged(Swept(b, ts, marked0)), off) <==> At(b, off) in marked0
      ensures At(b, off) in marked0 ==>
        (var ms := Merged(Swept(b, ts, marked0));
         off in Starts(ts) && off in Starts(ms) && Starts(ms)[off].size == Starts(ts)[off].size)
    {
      SweptSized(b, ts, marked0);
      MergedLive(Swept(b, ts, marked0), off);
      SweptLive(b, ts, marked0, off);
      hide Merged, Starts, Swept;
      assert At(b, off).off == off;
    }

    lemma NoVectors(b: nat, ts: seq<Tile>, marked0: set<Addr>, off: nat)
      requires RowOk(z, ts) && AllFree(Swept(b, ts, marked0))
      requires forall x :: x in marked0 && x.block == b ==>
        LiveAt(ts, x.off)
      ensures At(b, off) !in marked0
    {
      if At(b, off) in marked0 {
        assert LiveAt(ts, At(b, off).off);
        var k := IndexOf(ts, off);
        SweptAt(b, ts, marked0, k);
        assert false;
      }
    }

    /** The blocks not yet swept are as they were, and all marks left are theirs. */
    ghost predicate RestOf(heads: map<Addr, Header>, tiles: map<nat, seq<Tile>>, marked: set<Addr>,
                           rest: seq<nat>, tiles0: map<nat, seq<Tile>>, marked0: set<Addr>) {
      && (forall b :: b in rest ==>
            && b in tiles && b in tiles0 && tiles[b] == tiles0[b] && RowOk(z, tiles[b])
              && RowMatches(heads, b, tiles[b])
            && LargeOrMarked(b, tiles[b], marked0))
      && (forall x :: x in marked <==> x in marked0 && x.block in rest)
      && (forall x :: x in marked0 ==> x.block in tiles0 && LiveAt(tiles0[x.block], x.off))
    }

    ghost predicate Rest(rest: seq<nat>, tiles0: map<nat, seq<Tile>>, marked0: set<Addr>)
      reads this`heads, this`tiles, this`marked
    {
      RestOf(heads, tiles, marked, rest, tiles0, marked0)
    }

    ghost predicate RowsIn(heads: map<Addr, Header>, tiles: map<nat, seq<Tile>>, bs: seq<nat>) {
      forall b :: b in bs ==>
        b in tiles && RowOk(z, tiles[b]) && RowMatches(heads, b, tiles[b]) && NoNeighbours(tiles[b])
    }

    /** The blocks kept hold the vectors that were marked in the blocks swept. */
    ghost predicate VectorsAre(tiles: map<nat, seq<Tile>>, kept: seq<nat>, rest: seq<nat>, tiles0: map<nat,
                               seq<Tile>>, marked0: set<Addr>) {
      && (forall x :: LiveIn(SetOf(kept), tiles, x) <==> x in marked0 && x.block !in rest)
      && (forall x :: x in marked0 && x.block !in rest ==> SizeIn(tiles, x) == SizeIn(tiles0, x))
      && (forall b :: b in kept ==> exists x :: x in marked0 && x.block == b)
    }

    ghost predicate Done(kept: seq<nat>, rest: seq<nat>, tiles0: map<nat, seq<Tile>>, marked0: set<Addr>)
      reads this`heads, this`tiles, this`chains, lists
    {
      && z.Ok() && lists.Length == z.Lists() == |chains| && Distinct(kept + rest)
      && Chained(heads, lists[..], chains) && Listed(z, SetOf(kept), tiles, chains)
      && RowsIn(heads, tiles, kept) && VectorsAre(tiles, kept, rest, tiles0, marked0)
    }

    lemma RestNext(heads1: map<Addr, Header>, tiles1: map<nat, seq<Tile>>, marked1: set<Addr>, tiles2: map<nat,
                   seq<Tile>>,
                   b: nat, rest: seq<nat>, tiles0: map<nat, seq<Tile>>, marked0: set<Addr>)
      requires RestOf(heads1, tiles1, marked1, [b] + rest, tiles0, marked0) && b !in rest
      requires forall x :: x in heads1 && x.block != b ==> x in heads && heads[x] == heads1[x]
      requires forall x :: x in marked <==> x in marked1 && x.block != b
      requires forall c :: c in tiles1 && c != b ==> c in tiles2 && tiles2[c] == tiles1[c]
      ensures RestOf(heads, tiles2, marked, rest, tiles0, marked0)
    {
      hide Starts, RowOk, LiveAt, VectorHeap.LargeOrMarked;
      forall c | c in rest
        ensures RowMatches(heads, c, tiles1[c])
      {
        assert c in [b] + rest;
      }
    }

    lemma RowsFrame(heads1: map<Addr, Header>, tiles1: map<nat, seq<Tile>>, b: nat, bs: seq<nat>)
      requires RowsIn(heads1, tiles1, bs) && b !in bs
      requires forall x :: x in heads1 && x.block != b ==> x in heads && heads[x] == heads1[x]
      ensures RowsIn(heads, tiles1, bs)
    {
      hide Starts, RowOk, NoNeighbours;
    }

    lemma RowsMore(tiles1: map<nat, seq<Tile>>, b: nat, ms: seq<Tile>, bs: seq<nat>)
      requires RowsIn(heads, tiles1, bs) && b !in bs && RowOk(z, ms) && RowMatches(heads, b, ms) && NoNeighbours(ms)
      ensures RowsIn(heads, tiles1[b := ms], bs + [b])
    {
      hide RowOk, RowMatches, NoNeighbours;
    }

    /** The row ms of block b holds the marked vectors of the row ts, of which there are some. */
    ghost predicate Keeps(b: nat, ts: seq<Tile>, ms: seq<Tile>, marked0: set<Addr>) {
      && (forall off :: LiveAt(ms, off) <==> At(b, off) in marked0)
      && (forall off :: At(b, off) in marked0 ==>
        off in Starts(ms) && off in Starts(ts) && Starts(ms)[off].size == Starts(ts)[off].size)
      && (exists off :: At(b, off) in marked0)
    }

    lemma VectorsKept(tiles1: map<nat, seq<Tile>>, kept: seq<nat>, b: nat, rest: seq<nat>, ms: seq<Tile>,
                      tiles0: map<nat, seq<Tile>>, marked0: set<Addr>)
      requires VectorsAre(tiles1, kept, [b] + rest, tiles0, marked0) && b !in kept && b !in rest && b in tiles0
      requires Keeps(b, tiles0[b], ms, marked0)
      ensures VectorsAre(tiles1[b := ms], kept + [b], rest, tiles0, marked0)
    {
      hide Starts, LiveAt;
      var tiles2 := tiles1[b := ms];
      var off :| At(b, off) in marked0;
      assert At(b, off).block == b;
      forall x: Addr
        ensures LiveIn(SetOf(kept + [b]), tiles2, x) <==> x in marked0 && x.block !in rest
        ensures x in marked0 && x.block !in rest ==> SizeIn(tiles2, x) == SizeIn(tiles0, x)
      {
        if x.block == b { assert x == At(b, x.off); }
      }
    }

    lemma VectorsReleased(tiles1: map<nat, seq<Tile>>, kept: seq<nat>, b: nat, rest: seq<nat>,
                          tiles0: map<nat, seq<Tile>>, marked0: set<Addr>)
      requires VectorsAre(tiles1, kept, [b] + rest, tiles0, marked0) && forall off :: At(b, off) !in marked0
      ensures VectorsAre(tiles1, kept, rest, tiles0, marked0)
    {
      hide Starts, LiveAt;
      forall x: Addr | x in marked0
        ensures x.block != b
      {
        assert x == At(x.block, x.off);
      }
    }

    /** The units that the blocks' tiles take up. */
    ghost function Units(bs: seq<nat>, tiles: map<nat, seq<Tile>>): nat {
      if bs == [] then 0
      else Units(bs[..|bs| - 1], tiles) + if bs[|bs| - 1] in tiles then Total(tiles[bs[|bs| - 1]]) else 0
    }

    lemma {:induction false} UnitsSame(bs: seq<nat>, tiles0: map<nat, seq<Tile>>, tiles1: map<nat, seq<Tile>>)
      requires forall b :: b in bs ==> b in tiles0 && b in tiles1 && tiles1[b] == tiles0[b]
      ensures Units(bs, tiles1) == Units(bs, tiles0)
    {
      if bs != [] {
        assert bs[|bs| - 1] in bs;
        UnitsSame(bs[..|bs| - 1], tiles0, tiles1);
      }
    }

    lemma NextReady(kept: seq<nat>, b: nat, rest: seq<nat>, tiles0: map<nat, seq<Tile>>, marked0: set<Addr>)
      requires Done(kept, [b] + rest, tiles0, marked0) && Rest([b] + rest, tiles0, marked0)
      ensures b in tiles && b in tiles0 && tiles[b] == tiles0[b] && b !in kept && b !in rest
      ensures Unswept(SetOf(kept), b, tiles[b]) && RowOk(z, tiles[b]) && LargeOrMarked(b, tiles[b], marked0)
      ensures Swept(b, tiles[b], marked) == Swept(b, tiles[b], marked0)
      ensures forall x: Addr :: x.block == b ==> (x in marked0 <==> x in marked)
      ensures forall x :: x in marked0 && x.block == b ==> LiveAt(tiles[b], x.off)
    {
      NextBlock(kept, b, rest);
      assert b in [b] + rest;
      var ts := tiles[b];
      assert forall x: Addr :: x.block == b ==> (x in marked <==> x in marked0);
      assert forall x :: x in marked && x.block == b ==> LiveAt(ts, x.off);
      SameMarks(b, ts, marked, marked0);
      hide Starts, Off, Chained, Listed, LiveAt, RowOk, RowMatches, Sized, Swept, VectorHeap.LargeOrMarked,
        NoNeighbours;
      RowSized(ts);
      HeadsReady(b, ts);
    }

    lemma RowSized(ts: seq<Tile>)
      requires RowOk(z, ts)
      ensures Sized(ts)
    {
    }

    lemma NextBlock(kept: seq<nat>, b: nat, rest: seq<nat>)
      requires Distinct(kept + ([b] + rest))
      ensures b !in kept && b !in rest && Distinct((kept + [b]) + rest) && Distinct(kept + rest)
    {
      var all := kept + ([b] + rest);
      assert all[|kept|] == b && all == (kept + [b]) + rest;
      assert forall i :: 0 <= i < |rest| ==> all[|kept| + 1 + i] == rest[i];
      assert forall i :: 0 <= i < |kept| ==> all[i] == kept[i];
      assert forall i :: 0 <= i < |kept + rest| ==> (kept + rest)[i] == all[if i < |kept| then i else i + 1];
    }

    lemma SameMarks(b: nat, ts: seq<Tile>, marked1: set<Addr>, marked0: set<Addr>)
      requires forall x: Addr :: x.block == b ==> (x in marked1 <==> x in marked0)
      ensures Swept(b, ts, marked1) == Swept(b, ts, marked0)
      ensures LargeOrMarked(b, ts, marked0) ==> LargeOrMarked(b, ts, marked1)
    {
      hide Off;
      assert forall k :: 0 <= k < |ts| ==> (At(b, Off(ts, k)) in marked1 <==> At(b, Off(ts, k)) in marked0);
    }

    lemma HeadsReady(b: nat, ts: seq<Tile>)
      requires RowMatches(heads, b, ts) && Sized(ts) && forall x :: x in marked && x.block == b ==> LiveAt(ts, x.off)
      ensures HeadsAhead(heads, marked, b, ts, 0, marked)
    {
      forall k | 0 <= k < |ts|
        ensures At(b, Off(ts, k)) in heads && heads[At(b, Off(ts, k))].nbytes == ts[k].size
        ensures heads[At(b, Off(ts, k))].free == ts[k].free
        ensures At(b, Off(ts, k)) in marked ==> !ts[k].free
      {
        StartsAt(ts, k);
        assert At(b, Off(ts, k)) in marked ==> LiveAt(ts, At(b, Off(ts, k)).off);
      }
      hide Starts;
      assert Off(ts, 0) == 0;
    }

    /** What the sweep of a block leaves. */
    lemma BlockAfter(bs: set<nat>, b: nat, ts: seq<Tile>, marked1: set<Addr>, allFree: bool, live: nat, free: nat)
      requires Progress(bs, b, ts, |ts|, marked1, allFree, live, free)
      ensures var row := Swept(b, ts, marked1);
        && (forall x :: x in marked <==> x in marked1 && x.block != b)
        && lists.Length == z.Lists() == |chains| && Chained(heads, lists[..], chains)
        && if allFree then AllFree(row) && Listed(z, bs, tiles, chains) && live == 0 && free == 0
           else
             && !AllFree(row) && live + free == Total(ts)
             && Listed(z, bs + {b}, tiles[b := Merged(row)], chains) && RowMatches(heads, b, Merged(row))
    {
      var row := Swept(b, ts, marked1);
      assert row[..|ts|] == row;
      forall x | x in marked1 && x.block == b
        ensures x.off < Total(ts)
      {
        StartsBelow(ts, x.off);
      }
      RowNotEmpty(ts);
      hide Starts, Off, Merged, Chained, Listed, RowMatches;
    }

    lemma RowNotEmpty(ts: seq<Tile>)
      requires z.Ok() && RowOk(z, ts)
      ensures |ts| > 0
    {
    }

    lemma SomeVector(b: nat, ts: seq<Tile>, marked0: set<Addr>)
      requires !AllFree(Swept(b, ts, marked0))
      ensures exists off :: At(b, off) in marked0
    {
      hide Off;
      var i :| 0 <= i < |ts| && !Swept(b, ts, marked0)[i].free;
      assert At(b, Off(ts, i)) in marked0;
    }

    /** The facts about block b that its sweep needs or gives. */
    lemma VectorsOf(b: nat, ts: seq<Tile>, marked0: set<Addr>)
      requires z.Ok() && RowOk(z, ts) && LargeOrMarked(b, ts, marked0)
      requires forall x :: x in marked0 && x.block == b ==>
        LiveAt(ts, x.off)
      ensures var ms := Merged(Swept(b, ts, marked0));
        && RowOk(z, ms) && NoNeighbours(ms) && Total(ms) == Total(ts)
        && if AllFree(Swept(b, ts, marked0)) then forall off :: At(b, off) !in marked0 else Keeps(b, ts, ms, marked0)
    {
      var row := Swept(b, ts, marked0);
      MergedRowOk(b, ts, marked0);
      hide *;
      forall off: nat
        ensures LiveAt(Merged(row), off) <==> At(b, off) in marked0
        ensures At(b, off) in marked0 ==>
          (off in Starts(Merged(row)) && off in Starts(ts)
           && Starts(Merged(row))[off].size == Starts(ts)[off].size)
      {
        SweptVectors(b, ts, marked0, off);
      }
      if AllFree(row) {
        forall off: nat
          ensures At(b, off) !in marked0
        {
          NoVectors(b, ts, marked0, off);
        }
      } else {
        SomeVector(b, ts, marked0);
        MakeKeeps(b, ts, Merged(row), marked0);
      }
    }

    lemma MakeKeeps(b: nat, ts: seq<Tile>, ms: seq<Tile>, marked0: set<Addr>)
      requires forall off :: LiveAt(ms, off) <==> At(b, off) in marked0
      requires forall off :: At(b, off) in marked0 ==>
        off in Starts(ms) && off in Starts(ts) && Starts(ms)[off].size == Starts(ts)[off].size
      requires exists off :: At(b, off) in marked0
      ensures Keeps(b, ts, ms, marked0)
    {
    }

    /** The swept block stays, with its merged row. */
    method KeepBlock(k: nat, ghost heads1: map<Addr, Header>, ghost marked1: set<Addr>,
                     ghost tiles0: map<nat, seq<Tile>>, ghost marked0: set<Addr>)
      requires k < |blocks| && z.Ok() && lists.Length == z.Lists() == |chains|
      requires Distinct(blocks[..k] + ([blocks[k]] + blocks[k + 1..]))
      requires blocks[k] in tiles0
      requires RowsIn(heads1, tiles, blocks[..k])
      requires VectorsAre(tiles, blocks[..k], [blocks[k]] + blocks[k + 1..], tiles0, marked0)
      requires RestOf(heads1, tiles, marked1, [blocks[k]] + blocks[k + 1..], tiles0, marked0)
      requires forall x :: x in heads1 && x.block != blocks[k] ==> x in heads && heads[x] == heads1[x]
      requires forall x :: x in marked <==> x in marked1 && x.block != blocks[k]
      requires var ms := Merged(Swept(blocks[k], tiles0[blocks[k]], marked0));
        && Chained(heads, lists[..], chains)
          && Listed(z, SetOf(blocks[..k]) + {blocks[k]}, tiles[blocks[k] := ms], chains)
        && RowOk(z, ms) && RowMatches(heads, blocks[k], ms) && NoNeighbours(ms)
          && Keeps(blocks[k], tiles0[blocks[k]], ms, marked0)
      modifies this`tiles
      ensures tiles == old(tiles)[blocks[k] := Merged(Swept(blocks[k], tiles0[blocks[k]], marked0))]
      ensures Done(blocks[..k + 1], blocks[k + 1..], tiles0, marked0) && Rest(blocks[k + 1..], tiles0, marked0)
    {
      hide *;
      ghost var b, kept, rest := blocks[k], blocks[..k], blocks[k + 1..];
      assert blocks[..k + 1] == kept + [b];
      KeepRow(kept, b, rest, Merged(Swept(b, tiles0[b], marked0)), heads1, marked1, tiles0, marked0);
    }

    ghost method KeepRow(kept: seq<nat>, b: nat, rest: seq<nat>, ms: seq<Tile>, heads1: map<Addr, Header>,
                         marked1: set<Addr>, tiles0: map<nat, seq<Tile>>, marked0: set<Addr>)
      requires z.Ok() && lists.Length == z.Lists() == |chains| && Distinct(kept + ([b] + rest)) && b in tiles0
      requires RowsIn(heads1, tiles, kept) && VectorsAre(tiles, kept, [b] + rest, tiles0, marked0)
      requires RestOf(heads1, tiles, marked1, [b] + rest, tiles0, marked0)
      requires forall x :: x in heads1 && x.block != b ==> x in heads && heads[x] == heads1[x]
      requires forall x :: x in marked <==> x in marked1 && x.block != b
      requires Chained(heads, lists[..], chains) && Listed(z, SetOf(kept) + {b}, tiles[b := ms], chains)
      requires RowOk(z, ms) && RowMatches(heads, b, ms) && NoNeighbours(ms) && Keeps(b, tiles0[b], ms, marked0)
      modifies this`tiles
      ensures tiles == old(tiles)[b := ms]
      ensures Done(kept + [b], rest, tiles0, marked0) && Rest(rest, tiles0, marked0)
    {
      hide *;
      NextBlock(kept, b, rest);
      RowsFrame(heads1, tiles, b, kept);
      RowsMore(tiles, b, ms, kept);
      VectorsKept(tiles, kept, b, rest, ms, tiles0, marked0);
      RestNext(heads1, tiles, marked1, tiles[b := ms], b, rest, tiles0, marked0);
      SetMore(kept, b);
      tiles := tiles[b := ms];
      MakeDone(kept + [b], rest, tiles0, marked0);
    }

    lemma SetMore(s: seq<nat>, b: nat)
      ensures SetOf(s + [b]) == SetOf(s) + {b}
    {
    }

    lemma MakeDone(kept: seq<nat>, rest: seq<nat>, tiles0: map<nat, seq<Tile>>, marked0: set<Addr>)
      requires z.Ok() && lists.Length == z.Lists() == |chains| && Distinct(kept + rest)
      requires Chained(heads, lists[..], chains) && Listed(z, SetOf(kept), tiles, chains)
      requires RowsIn(heads, tiles, kept) && VectorsAre(tiles, kept, rest, tiles0, marked0)
      requires RestOf(heads, tiles, marked, rest, tiles0, marked0)
      ensures Done(kept, rest, tiles0, marked0) && Rest(rest, tiles0, marked0)
    {
    }

    /** A block without vectors is released. */
    method DropBlock(k: nat, ghost heads1: map<Addr, Header>, ghost marked1: set<Addr>,
                     ghost tiles0: map<nat, seq<Tile>>, ghost marked0: set<Addr>)
      requires k < |blocks| && z.Ok() && lists.Length == z.Lists() == |chains|
      requires Distinct(blocks[..k] + ([blocks[k]] + blocks[k + 1..]))
      requires RowsIn(heads1, tiles, blocks[..k])
      requires VectorsAre(tiles, blocks[..k], [blocks[k]] + blocks[k + 1..], tiles0, marked0)
      requires RestOf(heads1, tiles, marked1, [blocks[k]] + blocks[k + 1..], tiles0, marked0)
      requires forall x :: x in heads1 && x.block != blocks[k] ==> x in heads && heads[x] == heads1[x]
      requires forall x :: x in marked <==> x in marked1 && x.block != blocks[k]
      requires Chained(heads, lists[..], chains) && Listed(z, SetOf(blocks[..k]), tiles, chains)
      requires forall off :: At(blocks[k], off) !in marked0
      modifies this`blocks
      ensures blocks == old(blocks)[..k] + old(blocks)[k + 1..]
      ensures Done(blocks[..k], blocks[k..], tiles0, marked0) && Rest(blocks[k..], tiles0, marked0)
    {
      ghost var b, kept, rest := blocks[k], blocks[..k], blocks[k + 1..];
      hide *;
      NextBlock(kept, b, rest);
      RowsFrame(heads1, tiles, b, kept);
      VectorsReleased(tiles, kept, b, rest, tiles0, marked0);
      RestNext(heads1, tiles, marked1, tiles, b, rest, tiles0, marked0);
      blocks := blocks[..k] + blocks[k + 1..];
      assert blocks[..k] == kept && blocks[k..] == rest;
      MakeDone(kept, rest, tiles0, marked0);
    }

    lemma DoneIs(kept: seq<nat>, b: nat, rest: seq<nat>, tiles0: map<nat, seq<Tile>>, marked0: set<Addr>)
      requires Done(kept, [b] + rest, tiles0, marked0) && Rest([b] + rest, tiles0, marked0)
      ensures z.Ok() && lists.Length == z.Lists() == |chains| && Distinct(kept + ([b] + rest))
      ensures RowsIn(heads, tiles, kept) && VectorsAre(tiles, kept, [b] + rest, tiles0, marked0)
      ensures RestOf(heads, tiles, marked, [b] + rest, tiles0, marked0)
    {
    }

    lemma UnitsMore(kept: seq<nat>, b: nat, tiles1: map<nat, seq<Tile>>, ms: seq<Tile>)
      requires b !in kept && forall c :: c in kept ==> c in tiles1
      ensures Units(kept + [b], tiles1[b := ms]) == Units(kept, tiles1) + Total(ms)
    {
      assert (kept + [b])[..|kept|] == kept;
      UnitsSame(kept, tiles1, tiles1[b := ms]);
    }

    lemma KeptRows(heads1: map<Addr, Header>, tiles1: map<nat, seq<Tile>>, bs: seq<nat>)
      requires RowsIn(heads1, tiles1, bs)
      ensures forall c :: c in bs ==> c in tiles1
    {
    }

    /** The next block: kept with its merged row, or released. */
    method SweepNext(k: nat, ghost tiles0: map<nat, seq<Tile>>, ghost marked0: set<Addr>, ghost live0: nat,
                     ghost free0: nat)
        returns (k': nat, live: nat, free: nat)
      requires k < |blocks| && Done(blocks[..k], blocks[k..], tiles0, marked0) && Rest(blocks[k..], tiles0, marked0)
      requires Tally(marked0, live0, free0)
      modifies this, lists
      ensures k' <= |blocks| && |blocks| - k' == |old(blocks)| - k - 1
      ensures Done(blocks[..k'], blocks[k'..], tiles0, marked0) && Rest(blocks[k'..], tiles0, marked0)
      ensures Units(blocks[..k'], tiles) == old(Units(blocks[..k], tiles)) + live + free
      ensures Tally(marked0, live0 + live, free0 + free)
    {
      hide *;
      var b := blocks[k];
      ghost var kept, rest := blocks[..k], blocks[k + 1..];
      assert blocks[k..] == [b] + rest;
      NextReady(kept, b, rest, tiles0, marked0);
      DoneIs(kept, b, rest, tiles0, marked0);
      KeptRows(heads, tiles, kept);
      ghost var ts, heads1, marked1, tiles1 := tiles[b], heads, marked, tiles;
      VectorsOf(b, ts, marked0);
      var allFree;
      allFree, live, free := SweepBlock(SetOf(kept), b, ts, marked0, live0, free0);
      BlockAfter(SetOf(kept), b, ts, marked1, allFree, live, free);
      if allFree {
        DropBlock(k, heads1, marked1, tiles0, marked0);
        k' := k;
        assert blocks[..k] == kept;
      } else {
        KeepBlock(k, heads1, marked1, tiles0, marked0);
        UnitsMore(kept, b, tiles1, Merged(Swept(b, ts, marked0)));
        k' := k + 1;
        assert blocks[..k + 1] == kept + [b];
      }
    }

    /** Frees the vectors without a mark: free neighbours are made one, blocks without vectors are
        released, and the lists are rebuilt.  The vector of no slots is always marked. */
    method Sweep() returns (live: nat, free: nat)
      requires Valid() && zero in marked
      modifies this, lists
      ensures Valid() && marked == {}
      ensures forall x :: Live(x) <==> x in old(marked)
      ensures forall x :: x in old(marked) ==> SizeIn(tiles, x) == SizeIn(old(tiles), x)
      ensures forall b :: b in blocks ==> NoNeighbours(tiles[b]) && exists x :: x in old(marked) && x.block == b
      ensures live + free == Units(blocks, tiles)
      ensures live == Sum(map x | x in old(marked) :: SizeIn(tiles, x))
      ensures free == Sum(map x | x in OnLists(chains) :: SizeIn(tiles, x))
    {
      hide *;
      Facts();
      ZeroMarked();
      ghost var tiles0, marked0, bs := tiles, marked, SetOf(blocks);
      live, free := SweepAll();
      SweptValid(bs, tiles0, marked0);
      TileSizes(marked0);
    }

    /** Headers and tiles agree on sizes. */
    lemma TileSizes(m: set<Addr>)
      requires Valid() && forall x :: x in m ==> Live(x)
      ensures HeaderSizes(heads, m) == map x | x in m :: SizeIn(tiles, x)
      ensures HeaderSizes(heads, OnLists(chains)) == map x | x in OnLists(chains) :: SizeIn(tiles, x)
    {
      hide Starts, Off;
      forall x: Addr | x.block in blocks && x.block in tiles && x.off in Starts(tiles[x.block])
        ensures x in heads && heads[x].nbytes == SizeIn(tiles, x)
      {
        assert RowMatches(heads, x.block, tiles[x.block]);
        assert At(x.block, x.off) == x;
      }
      forall i, x | 0 <= i < |chains| && x in chains[i]
        ensures x.block in blocks && x.block in tiles && x.off in Starts(tiles[x.block])
      {
        assert FreeIn(z, SetOf(blocks), tiles, x, i);
      }
    }

    /** The only vector too small to be freed has a mark. */
    lemma ZeroMarked()
      requires Valid() && zero in marked
      ensures forall b :: b in blocks ==> b in tiles && LargeOrMarked(b, tiles[b], marked)
      ensures forall x :: x in marked ==> LiveIn(SetOf(blocks), tiles, x)
    {
      hide Starts, Off, Chained, Listed;
      forall b | b in blocks
        ensures b in tiles && LargeOrMarked(b, tiles[b], marked)
      {
        assert RowOk(z, tiles[b]);
        forall k | 0 <= k < |tiles[b]| && tiles[b][k].size < z.least
          ensures At(b, Off(tiles[b], k)) in marked
        {
          StartsAt(tiles[b], k);
          assert Live(At(b, Off(tiles[b], k)));
        }
      }
    }

    lemma SweptValid(bs: set<nat>, tiles0: map<nat, seq<Tile>>, marked0: set<Addr>)
      requires Consistent() && SmallIn(bs, tiles0) && zero in marked0
      requires forall x :: x in marked0 ==> LiveIn(bs, tiles0, x)
      requires forall x :: Live(x) <==> x in marked0
      requires forall x :: x in marked0 ==> SizeIn(tiles, x) == SizeIn(tiles0, x)
      ensures Valid()
    {
      hide VectorHeap.Consistent, LiveIn, SizeIn, VectorHeap.Live;
    }

    method SweepAll() returns (live: nat, free: nat)
      requires Consistent() && forall b :: b in blocks ==> b in tiles && LargeOrMarked(b, tiles[b], marked)
      modifies this, lists
      ensures Consistent() && marked == {}
      ensures forall x :: Live(x) <==> x in old(marked)
      ensures forall x :: x in old(marked) ==> SizeIn(tiles, x) == SizeIn(old(tiles), x)
      ensures forall b :: b in blocks ==> NoNeighbours(tiles[b]) && exists x :: x in old(marked) && x.block == b
      ensures live + free == Units(blocks, tiles)
      ensures live == Sum(HeaderSizes(heads, old(marked))) && free == Sum(HeaderSizes(heads, OnLists(chains)))
    {
      ghost var tiles0, marked0 := tiles, marked;
      ClearLists();
      SweepReady(tiles0, marked0);
      hide *;
      var k := 0;
      live, free := 0, 0;
      assert blocks[..0] == [] && blocks[0..] == blocks;
      NoUnits();
      while k < |blocks|
        invariant 0 <= k <= |blocks| && Done(blocks[..k], blocks[k..], tiles0, marked0)
        invariant Rest(blocks[k..], tiles0, marked0)
        invariant live + free == Units(blocks[..k], tiles) && Tally(marked0, live, free)
        decreases |blocks| - k
      {
        var l, f;
        k, l, f := SweepNext(k, tiles0, marked0, live, free);
        live, free := live + l, free + f;
      }
      assert blocks[..k] == blocks && blocks[k..] == [];
      SweptAll(tiles0, marked0);
      TallyIs(marked0, live, free);
      assert marked0 - marked == marked0;
    }

    lemma NoUnits()
      ensures Units([], tiles) == 0
    {
    }

    method ClearLists()
      requires Consistent()
      modifies this`lastIdx, this`chains, lists
      ensures z.Ok() && lists.Length == z.Lists() == |chains| && Chained(heads, lists[..], chains)
      ensures Listed(z, {}, tiles, chains) && forall i :: 0 <= i < |chains| ==> chains[i] == []
    {
      forall i | 0 <= i < lists.Length {
        lists[i] := None;
      }
      lastIdx := z.Lists();
      chains := seq(z.Lists(), _ => []);
      assert forall i :: 0 <= i < |chains| ==> lists[..][i] == None && chains[i] == [];
    }

    lemma SweepReady(tiles0: map<nat, seq<Tile>>, marked0: set<Addr>)
      requires z.Ok() && lists.Length == z.Lists() == |chains| && Chained(heads, lists[..], chains)
      requires Listed(z, {}, tiles, chains)
      requires Distinct(blocks) && RowsOk(blocks) && (forall a :: a in marked ==> Live(a)) && tiles0 == tiles
      requires marked0 == marked
      requires forall b :: b in blocks ==> b in tiles && LargeOrMarked(b, tiles[b], marked)
      ensures Done(blocks[..0], blocks[0..], tiles0, marked0) && Rest(blocks[0..], tiles0, marked0)
      ensures (forall i :: 0 <= i < |chains| ==> chains[i] == []) ==> Tally(marked0, 0, 0)
    {
      assert blocks[0..] == blocks && blocks[..0] == [] && [] + blocks == blocks;
      assert SetOf([]) == {};
      hide Chained, Listed, RowOk, RowMatches, VectorHeap.LargeOrMarked, Starts, LiveAt;
    }

    lemma SweptAll(tiles0: map<nat, seq<Tile>>, marked0: set<Addr>)
      requires Done(blocks, [], tiles0, marked0) && Rest([], tiles0, marked0)
      ensures Consistent() && marked == {}
      ensures forall x :: Live(x) <==> x in marked0
      ensures forall x :: x in marked0 ==> SizeIn(tiles, x) == SizeIn(tiles0, x)
      ensures forall b :: b in blocks ==>
        b in tiles && NoNeighbours(tiles[b]) && exists x :: x in marked0 && x.block == b
    {
      assert blocks + [] == blocks;
      hide Chained, Listed, RowOk, RowMatches, Starts, LiveAt, NoNeighbours;
    }
  }
}
