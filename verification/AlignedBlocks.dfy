/** Aligned blocks of memory.  A group of blocks is got from the system at once; its first block
    holds, in place of a pointer to the group, how many blocks of the group are in use. */
module AlignedBlocks {
  import opened Lists

  const ALIGN: nat := 0x8000
  const COUNT: nat := 16   // blocks in a group

  /** The address of the i-th block of the group at g. */
  function Block(g: nat, i: nat): nat { g + i * ALIGN }

  /** A group whose memory the system did not align gives up its last block. */
  function Capacity(aligned: bool): nat { if aligned then COUNT else COUNT - 1 }

  function Bit(aligned: bool): nat { if aligned then 1 else 0 }

  /** Groups by their aligned address. */
  type Groups = map<nat, bool>

  ghost predicate IsBlock(gs: Groups, g: nat, b: nat) {
    g in gs && exists i: nat :: i < Capacity(gs[g]) && b == Block(g, i)
  }

  /** Groups start at multiples of the alignment, not at zero, and do not overlap. */
  ghost predicate Apart(gs: Groups) {
    && (forall g :: g in gs ==> ALIGN <= g && g % ALIGN == 0)
    && (forall g, h :: g in gs && h in gs && g < h ==> Block(g, COUNT) <= h)
  }

  ghost function BlocksOf(g: nat, n: nat): set<nat> {
    if n == 0 then {} else BlocksOf(g, n - 1) + {Block(g, n - 1)}
  }

  lemma {:induction false} BlocksOfIs(g: nat, n: nat)
    ensures forall b :: b in BlocksOf(g, n) <==> exists i: nat :: i < n && b == Block(g, i)
    ensures |BlocksOf(g, n)| == n
  {
    if n > 0 {
      BlocksOfIs(g, n - 1);
      forall b
        ensures b in BlocksOf(g, n) <==> exists i: nat :: i < n && b == Block(g, i)
      {
        if b == Block(g, n - 1) {
        } else if b in BlocksOf(g, n - 1) {
          var i: nat :| i < n - 1 && b == Block(g, i);
        }
      }
    }
  }

  /** A block is in one group only. */
  lemma OneGroup(gs: Groups, g: nat, h: nat, b: nat)
    requires Apart(gs) && IsBlock(gs, g, b) && IsBlock(gs, h, b)
    ensures g == h
  {
  }

  /** The first block of a group is the one whose address is the group's. */
  lemma InRange(gs: Groups, g: nat, b: nat)
    requires Apart(gs) && IsBlock(gs, g, b)
    ensures g <= b < Block(g, Capacity(gs[g])) && b >= ALIGN && b % ALIGN == 0
    ensures forall h :: h in gs && h <= b < Block(h, Capacity(gs[h])) ==> h == g
  {
  }

  // ---------- The free list ----------

  /** The k-th address of a list that ends in null. */
  function Nth(s: seq<nat>, k: nat): nat { if k < |s| then s[k] else 0 }

  ghost predicate IsList(next: map<nat, nat>, first: nat, s: seq<nat>) {
    && first == Nth(s, 0) && Distinct(s) && 0 !in s
    && forall k: nat :: k < |s| ==> s[k] in next && next[s[k]] == Nth(s, k + 1)
  }

  lemma ListPush(next: map<nat, nat>, first: nat, s: seq<nat>, b: nat)
    requires IsList(next, first, s) && b !in s && b != 0
    ensures IsList(next[b := first], b, [b] + s)
  {
    var t := [b] + s;
    forall k: nat | k < |t|
      ensures t[k] in next[b := first] && next[b := first][t[k]] == Nth(t, k + 1)
    {
      if k > 0 { assert t[k] == s[k - 1]; }
    }
  }

  lemma ListPop(next: map<nat, nat>, first: nat, s: seq<nat>)
    requires IsList(next, first, s) && s != []
    ensures first == s[0] && first in next && first !in s[1..] && IsList(next, next[first], s[1..])
  {
    var t := s[1..];
    forall k: nat | k < |t|
      ensures t[k] in next && next[t[k]] == Nth(t, k + 1)
    {
      assert t[k] == s[k + 1];
    }
  }

  /** An element is skipped by the one before it. */
  lemma ListSkip(next: map<nat, nat>, first: nat, a: seq<nat>, b: nat, c: seq<nat>)
    requires IsList(next, first, a + [b] + c)
    ensures b in next && next[b] == Nth(c, 0)
    ensures a == [] ==> IsList(next, next[b], c)
    ensures a != [] ==> a[|a| - 1] in next && next[a[|a| - 1]] == b
    ensures a != [] ==> IsList(next[a[|a| - 1] := next[b]], first, a + c)
  {
    var s := a + [b] + c;
    assert s[|a|] == b;
    assert s[..|a|] == a && s[|a| + 1..] == c;
    NotTwice(s, |a|);
    SkipLinks(next, s, a, b, c);
  }

  lemma SkipLinks(next: map<nat, nat>, s: seq<nat>, a: seq<nat>, b: nat, c: seq<nat>)
    requires s == a + [b] + c && 0 !in s && b !in a && b !in c && Distinct(a + c)
    requires forall k: nat :: k < |s| ==> s[k] in next && next[s[k]] == Nth(s, k + 1)
    ensures b in next && next[b] == Nth(c, 0)
    ensures a == [] ==> IsList(next, Nth(c, 0), c)
    ensures a != [] ==> a[|a| - 1] in next && next[a[|a| - 1]] == b
    ensures a != [] ==> IsList(next[a[|a| - 1] := Nth(c, 0)], s[0], a + c)
  {
    var n := |a|;
    assert s[n] == b && Nth(s, n + 1) == Nth(c, 0);
    forall k: nat | k < |c|
      ensures c[k] in next && next[c[k]] == Nth(c, k + 1)
    {
      assert s[n + 1 + k] == c[k] && Nth(s, n + 1 + k + 1) == Nth(c, k + 1);
    }
    if a == [] {
      assert a + c == c;
    } else {
      assert s[n - 1] == a[n - 1];
      SkipTo(next, s, a, b, c);
    }
  }

  lemma SkipTo(next: map<nat, nat>, s: seq<nat>, a: seq<nat>, b: nat, c: seq<nat>)
    requires s == a + [b] + c && a != [] && 0 !in s && Distinct(a + c)
    requires forall k: nat :: k < |s| ==> s[k] in next && next[s[k]] == Nth(s, k + 1)
    requires forall k: nat :: k < |c| ==> c[k] in next && next[c[k]] == Nth(c, k + 1)
    ensures IsList(next[a[|a| - 1] := Nth(c, 0)], s[0], a + c)
  {
    var n, t := |a|, a + c;
    var next' := next[a[n - 1] := Nth(c, 0)];
    forall k: nat | k < |t|
      ensures t[k] in next' && next'[t[k]] == Nth(t, k + 1)
    {
      assert k != n - 1 ==> t[k] != t[n - 1];
      if k < n {
        assert s[k] == t[k];
        assert k + 1 < n ==> s[k + 1] == t[k + 1];
      } else {
        assert t[k] == c[k - n] && Nth(t, k + 1) == Nth(c, k - n + 1);
      }
    }
  }

  // ---------- Taking a group off the list ----------

  /** The addresses that are not between from and to. */
  function Outside(s: seq<nat>, from: nat, to: nat): (r: seq<nat>)
    ensures |r| <= |s|
  {
    if s == [] then []
    else Outside(s[..|s| - 1], from, to) + if from <= s[|s| - 1] < to then [] else [s[|s| - 1]]
  }

  lemma {:induction false} OutsideHas(s: seq<nat>, from: nat, to: nat, b: nat)
    ensures b in Outside(s, from, to) <==> b in s && !(from <= b < to)
  {
    if s != [] {
      OutsideHas(s[..|s| - 1], from, to, b);
      assert s == s[..|s| - 1] + [s[|s| - 1]];
    }
  }

  lemma {:induction false} OutsideDistinct(s: seq<nat>, from: nat, to: nat)
    requires Distinct(s)
    ensures Distinct(Outside(s, from, to))
  {
    if s != [] {
      OutsideDistinct(s[..|s| - 1], from, to);
      OutsideHas(s[..|s| - 1], from, to, s[|s| - 1]);
    }
  }

  /** What is taken off is counted. */
  lemma {:induction false} OutsideCount(s: seq<nat>, from: nat, to: nat, inside: set<nat>)
    requires Distinct(s) && forall b :: b in inside <==> b in s && from <= b < to
    ensures |s| == |Outside(s, from, to)| + |inside|
  {
    if s != [] {
      var n := |s| - 1;
      assert s == s[..n] + [s[n]];
      OutsideCount(s[..n], from, to, inside - {s[n]});
    }
  }

  // ---------- The counters ----------

  /** The packed counter of a group is twice its blocks in use plus the alignment bit; its other
      blocks point to it. */
  ghost predicate Based(gs: Groups, used: set<nat>, abase: map<nat, nat>, g: nat)
    requires g in gs
  {
    && g in abase && abase[g] == 2 * |used * BlocksOf(g, Capacity(gs[g]))| + Bit(gs[g])
    && forall i: nat :: 0 < i < Capacity(gs[g]) ==> Block(g, i) in abase && abase[Block(g, i)] == g
  }

  ghost predicate AllBased(gs: Groups, used: set<nat>, abase: map<nat, nat>) {
    forall g :: g in gs ==> Based(gs, used, abase, g)
  }

  /** A block more, or less, in use changes the counter of its group only. */
  lemma Recount(gs: Groups, used: set<nat>, used': set<nat>, abase: map<nat, nat>, g: nat, b: nat, n: nat)
    requires Apart(gs) && AllBased(gs, used, abase) && IsBlock(gs, g, b)
    requires forall x :: x != b ==> (x in used' <==> x in used)
    requires n == 2 * |used' * BlocksOf(g, Capacity(gs[g]))| + Bit(gs[g])
    ensures AllBased(gs, used', abase[g := n])
  {
    forall h | h in gs
      ensures Based(gs, used', abase[g := n], h)
    {
      assert Based(gs, used, abase, h);
      RecountOne(gs, used, used', abase, g, b, n, h);
    }
  }

  lemma RecountOne(gs: Groups, used: set<nat>, used': set<nat>, abase: map<nat, nat>, g: nat, b: nat, n: nat, h: nat)
    requires Apart(gs) && h in gs && Based(gs, used, abase, h) && IsBlock(gs, g, b)
    requires forall x :: x != b ==> (x in used' <==> x in used)
    requires n == 2 * |used' * BlocksOf(g, Capacity(gs[g]))| + Bit(gs[g])
    ensures Based(gs, used', abase[g := n], h)
  {
    hide BlocksOf;
    if h != g {
      BlocksOfIs(h, Capacity(gs[h]));
      if b in BlocksOf(h, Capacity(gs[h])) { OneGroup(gs, g, h, b); }
      assert used' * BlocksOf(h, Capacity(gs[h])) == used * BlocksOf(h, Capacity(gs[h]));
    }
  }

  lemma OneMore(used: set<nat>, blocks: set<nat>, b: nat)
    requires b in blocks && b !in used
    ensures |(used + {b}) * blocks| == |used * blocks| + 1
  {
    assert (used + {b}) * blocks == used * blocks + {b};
  }

  lemma OneLess(used: set<nat>, blocks: set<nat>, b: nat)
    requires b in blocks && b in used
    ensures |used * blocks| == |(used - {b}) * blocks| + 1
  {
    assert used * blocks == (used - {b}) * blocks + {b};
  }

  /** Blocks are in use or on the free list, and nothing else is. */
  ghost predicate Owned(gs: Groups, used: set<nat>, chain: seq<nat>) {
    && (forall b :: b in used ==> b !in chain)
    && (forall b :: b in used || b in chain <==> Known(gs, b))
  }

  ghost predicate Known(gs: Groups, b: nat) {
    exists g :: IsBlock(gs, g, b)
  }

  // ---------- The allocator ----------

  class AlignHeap {
    var abase: map<nat, nat>      // the last word of each block
    var next: map<nat, nat>       // the first word of a free block
    var free: nat
    ghost var groups: Groups
    ghost var used: set<nat>
    ghost var chain: seq<nat>

    ghost function InUse(g: nat): set<nat>
      requires g in groups
      reads this`groups, this`used
    {
      used * BlocksOf(g, Capacity(groups[g]))
    }

    ghost predicate Consistent()
      reads this
    {
      Apart(groups) && IsList(next, free, chain) && Owned(groups, used, chain) && AllBased(groups, used, abase)
    }

    /** Between calls, no group is without a block in use. */
    ghost predicate Valid()
      reads this
    {
      Consistent() && forall g :: g in groups ==> InUse(g) != {}
    }

    constructor ()
      ensures Valid() && groups == map[] && used == {}
    {
      abase, next, free, groups, used, chain := map[], map[], 0, map[], {}, [];
    }

    /** The group of a block: a number too small for a pointer marks the first block. */
    function Abase(b: nat): nat
      requires b in abase
      reads this`abase
    {
      if abase[b] <= 1 + 2 * COUNT then b else abase[b]
    }

    lemma FewInUse(g: nat)
      requires g in groups
      ensures |InUse(g)| <= Capacity(groups[g]) <= COUNT
    {
      BlocksOfIs(g, Capacity(groups[g]));
      SubsetSize(InUse(g), BlocksOf(g, Capacity(groups[g])));
    }

    /** The counter can be told from a pointer. */
    lemma AbaseIs(g: nat, b: nat)
      requires Consistent() && IsBlock(groups, g, b)
      ensures b in abase && Abase(b) == g && g in abase
      ensures abase[g] == 2 * |InUse(g)| + Bit(groups[g]) == 2 * |InUse(g)| + (if groups[g] then 1 else 0)
      ensures |InUse(g)| <= Capacity(groups[g])
    {
      hide IsList, Owned, BlocksOf;
      FewInUse(g);
      assert Based(groups, used, abase, g);
    }

    lemma GroupOf(b: nat) returns (g: nat)
      requires Consistent() && (b in used || b in chain)
      ensures IsBlock(groups, g, b) && g in groups && b in BlocksOf(g, Capacity(groups[g]))
      ensures b % ALIGN == 0 && b != 0
    {
      hide IsList, AllBased, Based, BlocksOf;
      assert Known(groups, b);
      g :| IsBlock(groups, g, b);
      InRange(groups, g, b);
      BlocksOfIs(g, Capacity(groups[g]));
    }

    /** Takes the first free block. */
    method Take() returns (val: nat, ghost g: nat)
      requires Consistent() && chain != []
      modifies this`abase, this`free, this`used, this`chain
      ensures Consistent() && val == old(chain)[0] && used == old(used) + {val} && chain == old(chain)[1..]
      ensures val % ALIGN == 0 && val !in old(used) && IsBlock(groups, g, val) && g in groups && val in InUse(g)
    {
      hide *;
      Parts();
      ListPop(next, free, chain);
      g := GroupOf(free);
      AbaseIs(g, free);
      OwnedTaken(groups, used, chain);
      OneMore(used, BlocksOf(g, Capacity(groups[g])), free);
      CountIs(g);
      var a := Abase(free);
      Recount(groups, used, used + {free}, abase, g, free, 2 + abase[a]);
      abase := abase[a := 2 + abase[a]];
      val := free;
      free := next[free];
      used := used + {val};
      chain := chain[1..];
      Whole();
      CountIs(g);
    }

    /** The blocks of a group got from the system go on the list. */
    method NewGroup(base: nat, aligned: bool)
      requires Consistent() && chain == [] && Separate(groups, base)
      modifies this`abase, this`next, this`free, this`groups, this`chain
      ensures Consistent() && groups == old(groups)[base := aligned] && chain != []
      ensures base !in old(groups) && IsBlock(groups, base, chain[0])
      ensures chain ==
        (if aligned then [base + 15 * ALIGN] else []) + seq(15, i requires 0 <= i < 15 => base + (14 - i) * ALIGN)
    {
      hide *;
      Parts();
      ghost var abase0, gs := abase, groups;
      NoBlocks(base, abase);
      CapacityIs(aligned);
      for i := 0 to Capacity(aligned)
        invariant groups == gs && IsList(next, free, chain) && forall b :: b in chain <==> b in BlocksOf(base, i)
        invariant Pointing(abase0, abase, base, i)
        invariant chain == seq(i, j requires 0 <= j < i => base + (i - 1 - j) * ALIGN)
      {
        NextBlock(base, i, groups);
        ListPush(next, free, chain, Block(base, i));
        PointMore(abase0, abase, base, i);
        abase := abase[Block(base, i) := base];
        next := next[Block(base, i) := free];
        free := Block(base, i);
        chain := [Block(base, i)] + chain;
        LastFirst(base, i, chain);
      }
      FifteenOrMore(base, aligned, chain);
      Pointed(abase0, abase, base, Capacity(aligned), Bit(aligned));
      abase := abase[base := Bit(aligned)];
      OwnedNew(groups, used, chain, base, aligned);
      BasedNew(groups, used, abase0, abase, base, aligned);
      groups := groups[base := aligned];
      Whole();
      FirstIn(base, aligned, groups, chain[0]);
    }

    /** Gives out a block: a free one, or the first of a new group, which the system puts at `base`. */
    method Malloc(base: nat, aligned: bool) returns (val: nat, ghost g: nat)
      requires Valid() && (free == 0 ==> Separate(groups, base))
      modifies this
      ensures Valid() && val % ALIGN == 0 && val !in old(used) && used == old(used) + {val}
      ensures groups == if old(chain) == [] then old(groups)[base := aligned] else old(groups)
      ensures IsBlock(groups, g, val)
    {
      hide *;
      Started();
      ghost var gs, u := groups, used;
      if free == 0 {
        NewGroup(base, aligned);
      }
      ghost var grown := groups != gs;
      val, g := Take();
      if grown {
        Parts();
        OneGroup(groups, g, base, val);
      }
      AliveAgain(gs, u, base, aligned, g, val);
    }

    lemma Started()
      requires Valid()
      ensures Consistent() && (free == 0 <==> chain == [])
      ensures forall h :: h in groups ==> InUse(h) == used * BlocksOf(h, Capacity(groups[h])) != {}
    {
    }

    lemma AliveAgain(gs: Groups, u: set<nat>, base: nat, aligned: bool, g: nat, val: nat)
      requires Consistent() && used == u + {val} && IsBlock(groups, g, val) && g in groups && val in InUse(g)
      requires forall h :: h in gs ==> u * BlocksOf(h, Capacity(gs[h])) != {}
      requires groups == gs || (groups == gs[base := aligned] && base !in gs && g == base)
      ensures Valid()
    {
      hide AlignHeap.Consistent, BlocksOf;
      forall h | h in groups
        ensures InUse(h) != {}
      {
        if h in gs {
          var x :| x in u * BlocksOf(h, Capacity(gs[h]));
          assert x in InUse(h);
        }
      }
    }

    /** Puts a block in front of the free list, and counts it out of its group. */
    method Put(b: nat) returns (g: nat)
      requires Consistent() && b in used
      modifies this`abase, this`next, this`free, this`used, this`chain
      ensures Consistent() && used == old(used) - {b} && chain == [b] + old(chain)
      ensures IsBlock(groups, g, b) && g in groups && g in abase && abase[g] == 2 * |InUse(g)| + Bit(groups[g])
      ensures |InUse(g)| + 1 <= COUNT
    {
      hide *;
      Parts();
      ghost var h := GroupOf(b);
      AbaseIs(h, b);
      FewInUse(h);
      g := Abase(b);
      OwnedPut(groups, used, chain, b);
      CountIs(g);
      OneLess(used, BlocksOf(g, Capacity(groups[g])), b);
      ListPush(next, free, chain, b);
      next := next[b := free];
      free := b;
      var busy := abase[g] - 2;
      Recount(groups, used, used - {b}, abase, g, b, busy);
      abase := abase[g := busy];
      used := used - {b};
      chain := [b] + chain;
      Whole();
      CountIs(g);
    }

    /** Takes the blocks of a group without blocks in use off the list, and gives it back. */
    method Release(g: nat, aligned: bool)
      requires Consistent() && g in groups && aligned == groups[g] && InUse(g) == {}
      modifies this`next, this`free, this`groups, this`chain
      ensures Consistent() && groups == old(groups) - {g}
      ensures chain == Outside(old(chain), g, Block(g, Capacity(aligned)))
      ensures |old(chain)| == |chain| + Capacity(aligned)
    {
      hide *;
      Parts();
      CountIs(g);
      ghost var all := chain;
      ReleaseCount(groups, used, all, g, aligned);
      Unlink(g, Block(g, Capacity(aligned)));
      OwnedReleased(groups, used, all, chain, g, aligned);
      BasedReleased(groups, used, abase, g);
      groups := groups - {g};
      Whole();
    }

    /** Walks the list with a pointer to the link that leads to the next block. */
    method Unlink(from: nat, to: nat)
      requires IsList(next, free, chain)
      modifies this`next, this`free, this`chain
      ensures IsList(next, free, chain) && chain == Outside(old(chain), from, to)
    {
      hide *;
      ghost var done, kept, rest: seq<nat> := [], [], chain;
      var prev, tem := 0, free;
      WalkStart(next, free, chain, from, to);
      while tem != 0
        invariant IsList(next, free, chain) && chain == kept + rest && old(chain) == done + rest
        invariant kept == Outside(done, from, to) && tem == Nth(rest, 0)
        invariant prev == if kept == [] then 0 else kept[|kept| - 1]
        decreases rest
      {
        WalkOne(next, free, kept, rest, done, from, to);
        if from <= tem < to {
          var after := next[tem];
          if prev == 0 { free := after; } else { next := next[prev := after]; }
          tem := after;
          chain := kept + rest[1..];
        } else {
          prev, tem := tem, next[tem];
          kept := kept + [prev];
          assert kept + rest[1..] == chain;
        }
        assert old(chain) == (done + [rest[0]]) + rest[1..];
        done, rest := done + [rest[0]], rest[1..];
      }
      WalkEnd(next, free, kept, rest, done);
    }

    /** Takes a block back.  A group is released exactly when its last block in use is freed, and
        the free list has no entry in it then. */
    method Free(b: nat) returns (ghost g: nat)
      requires Valid() && b in used
      modifies this
      ensures Valid() && used == old(used) - {b} && g in old(groups) && IsBlock(old(groups), g, b)
      ensures old(InUse(g)) == {b} ==>
        groups == old(groups) - {g} && forall x :: x in chain ==> !(g <= x < Block(g, COUNT))
      ensures old(InUse(g)) != {b} ==> groups == old(groups)
      ensures chain == if old(InUse(g)) == {b} then Outside([b] + old(chain), g, Block(g, Capacity(old(groups)[g])))
                       else [b] + old(chain)
    {
      hide *;
      Started();
      ghost var u, gs, list := used, groups, [b] + chain;
      var group := Put(b);
      g := group;
      Parts();
      LastIs(gs, u, g, b);
      NoneInside(gs, used, list, g);
      Packed(|InUse(g)|, groups[g]);
      var busy := abase[group];
      if busy < 2 {
        Release(group, busy == 1);
      }
      AliveLess(gs, u, g, b);
    }

    /** The group has no block in use any more exactly if b was its last. */
    lemma LastIs(gs: Groups, u: set<nat>, g: nat, b: nat)
      requires groups == gs && g in gs && b in u && used == u - {b} && IsBlock(gs, g, b)
      ensures InUse(g) == {} <==> u * BlocksOf(g, Capacity(gs[g])) == {b}
      ensures |InUse(g)| == 0 <==> InUse(g) == {}
    {
      hide BlocksOf;
      BlocksOfIs(g, Capacity(gs[g]));
      assert b in BlocksOf(g, Capacity(gs[g]));
    }

    lemma AliveLess(gs: Groups, u: set<nat>, g: nat, b: nat)
      requires Consistent() && Apart(gs) && g in gs && IsBlock(gs, g, b) && used == u - {b}
      requires groups == if u * BlocksOf(g, Capacity(gs[g])) == {b} then gs - {g} else gs
      requires forall h :: h in gs ==> u * BlocksOf(h, Capacity(gs[h])) != {}
      ensures Valid()
    {
      hide AlignHeap.Consistent, BlocksOf, Apart;
      forall h | h in groups
        ensures InUse(h) != {}
      {
        var s := u * BlocksOf(h, Capacity(gs[h]));
        if InUse(h) == {} {
          assert s == InUse(h) + s * {b};
          assert s == {b};
          BlocksOfIs(h, Capacity(gs[h]));
          assert IsBlock(gs, h, b);
          OneGroup(gs, g, h, b);
        }
      }
    }

    lemma CountIs(g: nat)
      requires g in groups
      ensures InUse(g) == used * BlocksOf(g, Capacity(groups[g]))
    {
    }

    lemma Parts()
      requires Consistent()
      ensures Apart(groups) && IsList(next, free, chain) && Owned(groups, used, chain) && AllBased(groups, used, abase)
    {
    }

    lemma Whole()
      requires Apart(groups) && IsList(next, free, chain) && Owned(groups, used, chain) && AllBased(groups, used, abase)
      ensures Consistent()
    {
    }
  }

  /** Room for a group that the system could give. */
  ghost predicate Separate(gs: Groups, base: nat) {
    && base % ALIGN == 0 && ALIGN <= base
    && forall h :: h in gs ==> Block(h, COUNT) <= base || Block(base, COUNT) <= h
  }

  lemma NoBlocks(base: nat, abase: map<nat, nat>)
    ensures BlocksOf(base, 0) == {} && Pointing(abase, abase, base, 0)
  {
  }

  lemma CapacityIs(aligned: bool)
    ensures 1 < Capacity(aligned) <= COUNT
  {
  }

  /** The blocks of a new group come on the list from the last to the first. */
  lemma LastFirst(base: nat, i: nat, s: seq<nat>)
    requires s == [Block(base, i)] + seq(i, j requires 0 <= j < i => base + (i - 1 - j) * ALIGN)
    ensures s == seq(i + 1, j requires 0 <= j < i + 1 => base + (i - j) * ALIGN)
  {
  }

  lemma FifteenOrMore(base: nat, aligned: bool, s: seq<nat>)
    requires var n := Capacity(aligned); s == seq(n, j requires 0 <= j < n => base + (n - 1 - j) * ALIGN)
    ensures s ==
      (if aligned then [base + 15 * ALIGN] else []) + seq(15, i requires 0 <= i < 15 => base + (14 - i) * ALIGN)
  {
  }

  lemma NextBlock(base: nat, i: nat, gs: Groups)
    requires Separate(gs, base)
    ensures Block(base, i) !in BlocksOf(base, i) && BlocksOf(base, i + 1) == BlocksOf(base, i) + {Block(base, i)}
    ensures Block(base, i) != 0
  {
    BlocksOfIs(base, i);
  }

  /** The first i blocks point to their group; nothing else has changed. */
  ghost predicate Pointing(abase0: map<nat, nat>, abase: map<nat, nat>, base: nat, i: nat) {
    && (forall j: nat :: j < i ==> Block(base, j) in abase && abase[Block(base, j)] == base)
    && (forall x :: x in abase0 && !(base <= x < Block(base, COUNT)) ==> x in abase && abase[x] == abase0[x])
  }

  /** The counter goes in place of the first block's pointer. */
  lemma Pointed(abase0: map<nat, nat>, abase: map<nat, nat>, base: nat, n: nat, bit: nat)
    requires Pointing(abase0, abase, base, n)
    ensures forall j: nat :: 0 < j < n ==>
      Block(base, j) in abase && Block(base, j) != base && abase[Block(base, j)] == base
    ensures forall x :: x in abase0 && !(base <= x < Block(base, COUNT)) ==>
      x in abase && x != base && abase[x] == abase0[x]
  {
  }

  lemma FirstIn(base: nat, aligned: bool, gs: Groups, b: nat)
    requires base in gs && gs[base] == aligned && b in BlocksOf(base, Capacity(aligned))
    ensures IsBlock(gs, base, b)
  {
    BlocksOfIs(base, Capacity(aligned));
  }

  lemma PointMore(abase0: map<nat, nat>, abase: map<nat, nat>, base: nat, i: nat)
    requires Pointing(abase0, abase, base, i) && i < COUNT
    ensures Pointing(abase0, abase[Block(base, i) := base], base, i + 1)
  {
  }

  lemma OwnedNew(gs: Groups, used: set<nat>, chain: seq<nat>, base: nat, aligned: bool)
    requires Apart(gs) && Separate(gs, base) && Owned(gs, used, [])
    requires forall b :: b in chain <==> b in BlocksOf(base, Capacity(aligned))
    ensures Owned(gs[base := aligned], used, chain) && Apart(gs[base := aligned]) && base !in gs && chain != []
  {
    hide BlocksOf;
    var gs' := gs[base := aligned];
    BlocksOfIs(base, Capacity(aligned));
    assert Block(base, 0) in BlocksOf(base, Capacity(aligned));
    forall b
      ensures b in used ==> b !in chain
      ensures b in used || b in chain <==> Known(gs', b)
    {
      KnownNew(gs, base, aligned, b);
    }
  }

  lemma KnownNew(gs: Groups, base: nat, aligned: bool, b: nat)
    requires Apart(gs) && Separate(gs, base)
    ensures Known(gs[base := aligned], b) <==> Known(gs, b) || b in BlocksOf(base, Capacity(aligned))
    ensures Known(gs, b) ==> b !in BlocksOf(base, Capacity(aligned))
    ensures base !in gs
  {
    hide BlocksOf;
    var gs' := gs[base := aligned];
    BlocksOfIs(base, Capacity(aligned));
    if Known(gs, b) {
      var g :| IsBlock(gs, g, b);
      assert IsBlock(gs', g, b);
    }
    if b in BlocksOf(base, Capacity(aligned)) {
      assert IsBlock(gs', base, b);
    }
    if Known(gs', b) {
      var g :| IsBlock(gs', g, b);
      assert g != base ==> IsBlock(gs, g, b);
    }
  }

  lemma BasedNew(gs: Groups, used: set<nat>, abase0: map<nat, nat>, abase: map<nat, nat>, base: nat, aligned: bool)
    requires Apart(gs) && Separate(gs, base) && AllBased(gs, used, abase0) && Owned(gs, used, [])
    requires base in abase && abase[base] == Bit(aligned)
    requires forall j: nat :: 0 < j < Capacity(aligned) ==> Block(base, j) in abase && abase[Block(base, j)] == base
    requires forall x :: x in abase0 && !(base <= x < Block(base, COUNT)) ==> x in abase && abase[x] == abase0[x]
    ensures AllBased(gs[base := aligned], used, abase)
  {
    hide *;
    NoneUsed(gs, used, base, aligned);
    var gs' := gs[base := aligned];
    forall h | h in gs'
      ensures Based(gs', used, abase, h)
    {
      if h == base {
        MakeBased(gs', used, abase, base);
      } else {
        BasedOld(gs, used, abase0, abase, base, aligned, h);
      }
    }
    MakeAllBased(gs', used, abase);
  }

  lemma NoneUsed(gs: Groups, used: set<nat>, base: nat, aligned: bool)
    requires Apart(gs) && Separate(gs, base) && Owned(gs, used, [])
    ensures used * BlocksOf(base, Capacity(aligned)) == {} && base !in gs
  {
    hide BlocksOf, Known, Apart, Separate;
    forall b | b in used
      ensures b !in BlocksOf(base, Capacity(aligned))
    {
      KnownNew(gs, base, aligned, b);
    }
    KnownNew(gs, base, aligned, 0);
  }

  lemma MakeBased(gs: Groups, used: set<nat>, abase: map<nat, nat>, g: nat)
    requires g in gs && g in abase && abase[g] == Bit(gs[g]) && used * BlocksOf(g, Capacity(gs[g])) == {}
    requires forall j: nat :: 0 < j < Capacity(gs[g]) ==> Block(g, j) in abase && abase[Block(g, j)] == g
    ensures Based(gs, used, abase, g)
  {
    hide BlocksOf;
  }

  lemma BasedOld(gs: Groups, used: set<nat>, abase0: map<nat, nat>, abase: map<nat, nat>, base: nat, aligned: bool,
                 h: nat)
    requires Apart(gs) && Separate(gs, base) && AllBased(gs, used, abase0) && h in gs
    requires forall x :: x in abase0 && !(base <= x < Block(base, COUNT)) ==> x in abase && abase[x] == abase0[x]
    ensures Based(gs[base := aligned], used, abase, h)
  {
    hide BlocksOf;
    assert Based(gs, used, abase0, h);
    assert h != base;
  }

  lemma MakeAllBased(gs: Groups, used: set<nat>, abase: map<nat, nat>)
    requires forall h :: h in gs ==> Based(gs, used, abase, h)
    ensures AllBased(gs, used, abase)
  {
  }

  lemma Packed(n: nat, aligned: bool)
    ensures 2 * n + Bit(aligned) < 2 <==> n == 0
    ensures n == 0 ==> (2 * n + Bit(aligned) == 1 <==> aligned)
  {
  }

  lemma OwnedPut(gs: Groups, used: set<nat>, chain: seq<nat>, b: nat)
    requires b in used && Owned(gs, used, chain)
    ensures b !in chain && Owned(gs, used - {b}, [b] + chain)
  {
    hide Known;
  }

  lemma WalkStart(next: map<nat, nat>, first: nat, s: seq<nat>, from: nat, to: nat)
    requires IsList(next, first, s)
    ensures Outside([], from, to) == [] && [] + s == s && first == Nth(s, 0)
  {
  }

  /** One step of the walk: the next block, the list without it, and the filtered list with it. */
  lemma WalkOne(next: map<nat, nat>, first: nat, kept: seq<nat>, rest: seq<nat>, done: seq<nat>, from: nat, to: nat)
    requires IsList(next, first, kept + rest) && kept == Outside(done, from, to) && Nth(rest, 0) != 0
    ensures rest != [] && Nth(rest, 0) == rest[0] && rest[0] in next && next[rest[0]] == Nth(rest[1..], 0)
    ensures Outside(done + [rest[0]], from, to) == if from <= rest[0] < to then kept else kept + [rest[0]]
    ensures kept == [] ==> IsList(next, next[rest[0]], kept + rest[1..])
    ensures kept != [] ==> kept[|kept| - 1] in next && kept[|kept| - 1] != 0
    ensures kept != [] ==> IsList(next[kept[|kept| - 1] := next[rest[0]]], first, kept + rest[1..])
  {
    hide Outside;
    assert kept + rest == kept + [rest[0]] + rest[1..];
    ListSkip(next, first, kept, rest[0], rest[1..]);
    if kept == [] { assert kept + rest[1..] == rest[1..]; }
    if kept != [] { assert (kept + rest)[|kept| - 1] == kept[|kept| - 1]; }
    OutsideLast(done, rest[0], from, to);
  }

  lemma OutsideLast(s: seq<nat>, b: nat, from: nat, to: nat)
    ensures Outside(s + [b], from, to) == Outside(s, from, to) + if from <= b < to then [] else [b]
  {
    assert (s + [b])[..|s|] == s;
  }

  lemma WalkEnd(next: map<nat, nat>, first: nat, kept: seq<nat>, rest: seq<nat>, done: seq<nat>)
    requires IsList(next, first, kept + rest) && Nth(rest, 0) == 0
    ensures kept + rest == kept && done + rest == done
  {
  }

  /** The blocks of a group without blocks in use are all on the list. */
  lemma ReleaseCount(gs: Groups, used: set<nat>, chain: seq<nat>, g: nat, aligned: bool)
    requires Apart(gs) && Owned(gs, used, chain) && Distinct(chain) && g in gs && aligned == gs[g]
    requires used * BlocksOf(g, Capacity(aligned)) == {}
    ensures |chain| == |Outside(chain, g, Block(g, Capacity(aligned)))| + Capacity(aligned)
  {
    hide BlocksOf, Outside;
    var blocks := BlocksOf(g, Capacity(aligned));
    BlocksOfIs(g, Capacity(aligned));
    forall b: nat
      ensures b in blocks <==> b in chain && g <= b < Block(g, Capacity(aligned))
    {
      GroupRange(gs, used, chain, g, aligned, b);
    }
    OutsideCount(chain, g, Block(g, Capacity(aligned)), blocks);
  }

  lemma GroupRange(gs: Groups, used: set<nat>, chain: seq<nat>, g: nat, aligned: bool, b: nat)
    requires Apart(gs) && Owned(gs, used, chain) && g in gs && aligned == gs[g]
    requires used * BlocksOf(g, Capacity(aligned)) == {}
    ensures b in BlocksOf(g, Capacity(aligned)) <==> b in chain && g <= b < Block(g, Capacity(aligned))
    ensures b in BlocksOf(g, Capacity(aligned)) ==> IsBlock(gs, g, b)
  {
    hide BlocksOf, Apart;
    BlocksOfIs(g, Capacity(aligned));
    if b in BlocksOf(g, Capacity(aligned)) {
      assert IsBlock(gs, g, b);
      assert Known(gs, b);
      assert b !in used * BlocksOf(g, Capacity(aligned));
      InRange(gs, g, b);
    }
    if b in chain && g <= b < Block(g, Capacity(aligned)) {
      var h :| IsBlock(gs, h, b);
      InRange(gs, h, b);
    }
  }

  lemma OwnedReleased(gs: Groups, used: set<nat>, all: seq<nat>, chain: seq<nat>, g: nat, aligned: bool)
    requires Apart(gs) && Owned(gs, used, all) && g in gs && aligned == gs[g]
    requires used * BlocksOf(g, Capacity(aligned)) == {} && chain == Outside(all, g, Block(g, Capacity(aligned)))
    ensures Owned(gs - {g}, used, chain) && Apart(gs - {g})
  {
    hide BlocksOf, Outside;
    forall b
      ensures b in used ==> b !in chain
      ensures b in used || b in chain <==> Known(gs - {g}, b)
    {
      OutsideHas(all, g, Block(g, Capacity(aligned)), b);
      KnownLess(gs, g, b);
      BlocksOfIs(g, Capacity(aligned));
      GroupRange(gs, used, all, g, aligned, b);
    }
  }

  lemma KnownLess(gs: Groups, g: nat, b: nat)
    requires Apart(gs) && g in gs
    ensures Known(gs - {g}, b) <==> Known(gs, b) && !IsBlock(gs, g, b)
  {
    if Known(gs - {g}, b) {
      var h :| IsBlock(gs - {g}, h, b);
      assert IsBlock(gs, h, b);
      if IsBlock(gs, g, b) { OneGroup(gs, g, h, b); }
    }
    if Known(gs, b) && !IsBlock(gs, g, b) {
      var h :| IsBlock(gs, h, b);
      assert IsBlock(gs - {g}, h, b);
    }
  }

  lemma BasedReleased(gs: Groups, used: set<nat>, abase: map<nat, nat>, g: nat)
    requires AllBased(gs, used, abase)
    ensures AllBased(gs - {g}, used, abase)
  {
    hide BlocksOf;
    forall h | h in gs - {g}
      ensures Based(gs - {g}, used, abase, h)
    {
      assert Based(gs, used, abase, h);
    }
  }

  /** After the walk no entry of the list is in the group's memory. */
  lemma NoneInside(gs: Groups, used: set<nat>, list: seq<nat>, g: nat)
    requires Apart(gs) && Owned(gs, used, list) && g in gs
    ensures forall x :: x in Outside(list, g, Block(g, Capacity(gs[g]))) ==> !(g <= x < Block(g, COUNT))
  {
    hide Outside, Apart;
    forall x | x in Outside(list, g, Block(g, Capacity(gs[g])))
      ensures !(g <= x < Block(g, COUNT))
    {
      OutsideHas(list, g, Block(g, Capacity(gs[g])), x);
      var h :| IsBlock(gs, h, x);
      NotBetween(gs, g, h, x);
    }
  }

  lemma NotBetween(gs: Groups, g: nat, h: nat, x: nat)
    requires Apart(gs) && g in gs && IsBlock(gs, h, x) && !(g <= x < Block(g, Capacity(gs[g])))
    ensures !(g <= x < Block(g, COUNT))
  {
    InRange(gs, h, x);
  }

  lemma OwnedTaken(gs: Groups, used: set<nat>, chain: seq<nat>)
    requires chain != [] && chain[0] !in chain[1..] && Owned(gs, used, chain)
    ensures chain[0] !in used && Owned(gs, used + {chain[0]}, chain[1..])
  {
    hide Known;
    assert chain == [chain[0]] + chain[1..];
  }
}
