/** Cons cells: blocks of cells with words of mark bits, a free list threaded through the
    dead cells, and the sweep that rebuilds it. */
module ConsSweep {
  import opened Lists
  import opened MarkGraph

  datatype Word = Dead | Lisp(value: Value)

  /** The second word holds the cdr, or the next free cell. */
  datatype Link = Cdr(value: Value) | Chain(next: Option<Addr>)

  datatype Pair = Pair(car: Word, link: Link)

  type Words = seq<seq<bool>>

  // ---------- Mark bits ----------

  /** The n-th mark bit, in words of w bits. */
  predicate Bit(ws: Words, w: nat, n: nat)
    requires w > 0 && n / w < |ws| && forall k :: 0 <= k < |ws| ==> |ws[k]| == w
  {
    ws[n / w][n % w]
  }

  lemma Scale(a: int, b: int, w: nat)
    ensures a <= b ==> a * w <= b * w
  {
  }

  lemma DivMod(w: nat, k: nat, r: nat)
    requires r < w
    ensures (k * w + r) / w == k && (k * w + r) % w == r
  {
    var q, s := (k * w + r) / w, (k * w + r) % w;
    assert q * w + s == k * w + r;
    Scale(q + 1, k, w);
    Scale(k + 1, q, w);
    assert (q + 1) * w == q * w + w && (k + 1) * w == k * w + w;
  }

  /** How many words hold n bits. */
  function WordsFor(n: nat, w: nat): nat
    requires w > 0
  {
    (n + w - 1) / w
  }

  lemma WordsCover(n: nat, w: nat)
    requires w > 0
    ensures var k := WordsFor(n, w); n <= k * w && (k > 0 ==> (k - 1) * w < n) && k <= 1 + n / w
  {
    var k, s := (n + w - 1) / w, (n + w - 1) % w;
    assert k * w + s == n + w - 1;
    assert (k - 1) * w == k * w - w;
    var q, r := n / w, n % w;
    assert q * w + r == n;
    Scale(q + 2, k, w);
    assert (q + 2) * w == q * w + 2 * w;
  }

  /** The unmarked cells among the first n of block b, the last one first. */
  ghost function Freed(b: nat, marks: seq<bool>, n: nat): seq<Addr>
    requires n <= |marks|
  {
    if n == 0 then []
    else (if marks[n - 1] then [] else [Cell(b, n - 1)]) + Freed(b, marks, n - 1)
  }

  lemma {:induction false} FreedCells(b: nat, marks: seq<bool>, n: nat, p: Addr)
    requires n <= |marks|
    ensures p in Freed(b, marks, n) <==> p.Cell? && p.block == b && p.i < n && !marks[p.i]
    ensures |Freed(b, marks, n)| <= n
  {
    if n > 0 { FreedCells(b, marks, n - 1, p); }
  }

  lemma {:induction false} FreedDistinct(b: nat, marks: seq<bool>, n: nat)
    requires n <= |marks|
    ensures Distinct(Freed(b, marks, n))
  {
    if n > 0 {
      FreedDistinct(b, marks, n - 1);
      FreedCells(b, marks, n - 1, Cell(b, n - 1));
    }
  }

  /** Nothing is freed in a stretch of marked cells. */
  lemma {:induction false} FreedNone(b: nat, marks: seq<bool>, n: nat, k: nat)
    requires n + k <= |marks| && forall i :: n <= i < n + k ==> marks[i]
    ensures Freed(b, marks, n + k) == Freed(b, marks, n)
  {
    if k > 0 { FreedNone(b, marks, n, k - 1); }
  }

  /** When every cell is freed, the first cell is the last entry. */
  lemma {:induction false} FreedAll(b: nat, marks: seq<bool>, n: nat)
    requires 0 < n <= |marks| && |Freed(b, marks, n)| == n
    ensures Freed(b, marks, n)[n - 1] == Cell(b, 0)
    ensures forall i :: 0 <= i < n ==> !marks[i]
  {
    FreedCells(b, marks, n - 1, Cell(b, 0));
    if n > 1 { FreedAll(b, marks, n - 1); }
  }

  /** The dead cells of s are linked in order, starting from `first`. */
  ghost predicate IsChain(cells: map<Addr, Pair>, first: Option<Addr>, s: seq<Addr>) {
    && first == Head(s)
    && (forall k :: 0 <= k < |s| ==> s[k] in cells && cells[s[k]] == Pair(Dead, Chain(Head(s[k + 1..]))))
  }

  lemma ChainGrows(cells: map<Addr, Pair>, first: Option<Addr>, s: seq<Addr>, p: Addr)
    requires IsChain(cells, first, s) && p !in s
    ensures IsChain(cells[p := Pair(Dead, Chain(first))], Some(p), [p] + s)
  {
    var t := [p] + s;
    forall k | 0 <= k < |t|
      ensures t[k] in cells[p := Pair(Dead, Chain(first))]
      ensures cells[p := Pair(Dead, Chain(first))][t[k]] == Pair(Dead, Chain(Head(t[k + 1..])))
    {
      if k == 0 { assert t[1..] == s; } else { assert t[k + 1..] == s[k..]; }
    }
  }

  lemma ChainMember(cells: map<Addr, Pair>, first: Option<Addr>, s: seq<Addr>, k: nat)
    requires IsChain(cells, first, s) && k < |s|
    ensures s[k] in cells && cells[s[k]].link.Chain?
  {
  }

  lemma ChainIn(cells: map<Addr, Pair>, first: Option<Addr>, s: seq<Addr>, p: Addr)
    requires IsChain(cells, first, s) && p in s
    ensures p in cells
  {
  }

  lemma ChainFrame(cells: map<Addr, Pair>, cells': map<Addr, Pair>, first: Option<Addr>, s: seq<Addr>)
    requires IsChain(cells, first, s)
    requires forall p :: p in s ==> p in cells' && (p in cells ==> cells'[p] == cells[p])
    ensures IsChain(cells', first, s)
  {
  }

  /** The rest of a chain is a chain. */
  lemma ChainRest(cells: map<Addr, Pair>, first: Option<Addr>, s: seq<Addr>, k: nat)
    requires IsChain(cells, first, s) && k < |s|
    ensures cells[s[k]].link.Chain? && IsChain(cells, cells[s[k]].link.next, s[k + 1..])
  {
    var t := s[k + 1..];
    forall j | 0 <= j < |t|
      ensures t[j] in cells && cells[t[j]] == Pair(Dead, Chain(Head(t[j + 1..])))
    {
      assert t[j] == s[k + 1 + j] && t[j + 1..] == s[k + 1 + j + 1..];
    }
  }

  // ---------- Words of bits ----------

  ghost predicate WordsOk(ws: Words, w: nat, size: nat) {
    && 0 < w && |ws| == 1 + size / w && (forall k :: 0 <= k < |ws| ==> |ws[k]| == w)
  }

  /** The mark bits of the first n cells. */
  ghost function Flat(ws: Words, w: nat, n: nat): seq<bool>
    requires WordsOk(ws, w, n)
  {
    seq(n, i requires 0 <= i < n => FlatBit(ws, w, n, i))
  }

  ghost predicate FlatBit(ws: Words, w: nat, n: nat, i: nat)
    requires WordsOk(ws, w, n) && i < n
  {
    WordIndex(w, n, i);
    Bit(ws, w, i)
  }

  lemma WordIndex(w: nat, n: nat, i: nat)
    requires 0 < w && i <= n
    ensures 0 <= i / w <= n / w && 0 <= i % w < w
  {
    var q, r, k, s := n / w, n % w, i / w, i % w;
    assert q * w + r == n && k * w + s == i;
    Scale(q + 1, k, w);
    assert (q + 1) * w == q * w + w;
  }

  /** Bits from n on are clear. */
  ghost predicate ClearFrom(ws: Words, w: nat, n: nat) {
    forall k, r :: 0 <= k < |ws| && 0 <= r < |ws[k]| && n <= k * w + r ==> !ws[k][r]
  }

  lemma FlatAt(ws: Words, w: nat, size: nat, k: nat, r: nat)
    requires WordsOk(ws, w, size) && k < |ws| && r < w && k * w + r < size
    ensures Flat(ws, w, size)[k * w + r] == ws[k][r]
  {
    DivMod(w, k, r);
  }

  // ---------- Which blocks stay ----------

  /** A block whose cells were all freed is released once more than a block's worth of free
      cells has been seen in the blocks before it that stay. */
  ghost function Survivors(bs: seq<nat>, counts: seq<nat>, size: nat, seen: nat): seq<nat>
    requires |counts| == |bs|
  {
    if bs == [] then []
    else if counts[0] == size && seen > size then Survivors(bs[1..], counts[1..], size, seen)
    else [bs[0]] + Survivors(bs[1..], counts[1..], size, seen + counts[0])
  }

  lemma SurvivorsStep(bs: seq<nat>, counts: seq<nat>, size: nat, seen: nat, j: nat)
    requires |counts| == |bs| && j < |bs|
    ensures Survivors(bs[j..], counts[j..], size, seen) ==
      if counts[j] == size && seen > size then Survivors(bs[j + 1..], counts[j + 1..], size, seen)
      else [bs[j]] + Survivors(bs[j + 1..], counts[j + 1..], size, seen + counts[j])
  {
    assert bs[j..][1..] == bs[j + 1..] && counts[j..][1..] == counts[j + 1..];
  }

  /** The head block always stays, and stays the head: nothing was seen before it. */
  lemma SurvivorsHead(bs: seq<nat>, counts: seq<nat>, size: nat)
    requires |counts| == |bs|
    ensures bs != [] ==> Survivors(bs, counts, size, 0) != [] && Survivors(bs, counts, size, 0)[0] == bs[0]
  {
  }

  /** The free cells of the blocks kept among the first k. */
  ghost function KeptFree(counts: seq<nat>, size: nat, seen: nat, k: nat): nat
    requires k <= |counts|
  {
    if k == 0 then seen
    else
      var n := KeptFree(counts, size, seen, k - 1);
      if counts[k - 1] == size && n > size then n else n + counts[k - 1]
  }

  /** A block is released exactly when all its cells are free and the blocks kept before it have
      more free cells than a block holds. */
  lemma {:induction false} SurvivorsRule(bs: seq<nat>, counts: seq<nat>, size: nat, seen: nat, k: nat)
    requires |counts| == |bs| && k < |bs| && Distinct(bs)
    ensures bs[k] !in Survivors(bs, counts, size, seen) <==> counts[k] == size && KeptFree(counts, size, seen, k) > size
  {
    var seen' := if counts[0] == size && seen > size then seen else seen + counts[0];
    SurvivorsIn(bs[1..], counts[1..], size, seen');
    if k > 0 {
      SurvivorsRule(bs[1..], counts[1..], size, seen', k - 1);
      KeptFreeShift(counts, size, seen, k);
      assert bs[1..][k - 1] == bs[k] && counts[1..][k - 1] == counts[k];
    }
  }

  lemma {:induction false} KeptFreeShift(counts: seq<nat>, size: nat, seen: nat, k: nat)
    requires 0 < k <= |counts|
    ensures KeptFree(counts, size, seen, k)
      == KeptFree(counts[1..], size, if counts[0] == size && seen > size then seen else seen + counts[0], k - 1)
  {
    if k > 1 { KeptFreeShift(counts, size, seen, k - 1); }
  }

  lemma {:induction false} SurvivorsIn(bs: seq<nat>, counts: seq<nat>, size: nat, seen: nat)
    requires |counts| == |bs|
    ensures forall b :: b in Survivors(bs, counts, size, seen) ==> b in bs
  {
    if bs != [] {
      SurvivorsIn(bs[1..], counts[1..], size, if counts[0] == size && seen > size then seen else seen + counts[0]);
    }
  }

  /** Memory, as a value. */
  datatype Store = Store(cells: map<Addr, Pair>, bits: map<nat, Words>, free: Option<Addr>, chain: seq<Addr>)

  /** What the sweep starts from: for each block its limit and mark bits, and the cells. */
  datatype Before = Before(limits: map<nat, nat>, marks: map<nat, seq<bool>>, cells: map<Addr, Pair>)
  {
    ghost predicate Garbage(b: nat, i: nat) {
      b in limits && b in marks && i < limits[b] <= |marks[b]| && !marks[b][i]
    }
  }

  class ConsHeap {
    const size: nat            // cells in a block
    const width: nat           // bits in a word
    var blocks: seq<nat>       // the blocks, the current one first
    var index: nat             // the first unused cell of the current block
    var cells: map<Addr, Pair>
    var bits: map<nat, Words>
    var free: Option<Addr>     // the first free cell
    ghost var chain: seq<Addr> // the free cells, as linked

    /** How many cells of a block are in use or free. */
    ghost function Limit(b: nat): nat
      reads this`blocks, this`index
    {
      if blocks != [] && b == blocks[0] then index else size
    }

    ghost predicate IsCell(p: Addr)
      reads this`blocks, this`index
    {
      p.Cell? && p.block in blocks && p.i < Limit(p.block)
    }

    ghost function Marks(b: nat): seq<bool>
      requires b in bits && WordsOk(bits[b], width, size)
      reads this`bits
    {
      Flat(bits[b], width, size)
    }

    ghost predicate Shape()
      reads this`blocks, this`index, this`cells, this`bits
    {
      && 0 < size && 0 < width && index <= size && Distinct(blocks) && (blocks == [] ==> index == size)
      && (forall b, i :: b in blocks && 0 <= i < size ==> Cell(b, i) in cells)
      && (forall b :: b in blocks ==> b in bits && WordsOk(bits[b], width, size) && ClearFrom(bits[b], width, Limit(b)))
    }

    ghost predicate FreeOk()
      reads this`blocks, this`index, this`cells, this`free, this`chain
    {
      IsChain(cells, free, chain) && Distinct(chain) && forall p :: p in chain ==> IsCell(p)
    }

    ghost predicate Valid()
      reads this
    {
      Shape() && FreeOk()
    }

    /** The conses of the program. */
    ghost predicate InUse(p: Addr)
      reads this`blocks, this`index, this`chain
    {
      IsCell(p) && p !in chain
    }

    ghost predicate Marked(p: Addr)
      requires Shape() && IsCell(p)
      reads this`blocks, this`index, this`cells, this`bits
    {
      Marks(p.block)[p.i]
    }

    /** No mark bit is set. */
    ghost predicate Clean()
      reads this`blocks, this`bits
    {
      forall b :: b in blocks && b in bits ==> ClearFrom(bits[b], width, 0)
    }

    constructor (size: nat, width: nat)
      requires 0 < size && 0 < width
      ensures Valid() && Clean() && blocks == [] && this.size == size && this.width == width
    {
      this.size, this.width := size, width;
      blocks, index, cells, bits, free, chain := [], size, map[], map[], None, [];
    }

    // ---------- Allocation ----------

    /** Puts a cell on the free list. */
    method FreeCons(p: Addr)
      requires Valid() && InUse(p)
      modifies this`cells, this`free, this`chain
      ensures Valid() && chain == [p] + old(chain)
      ensures forall q :: InUse(q) <==> old(InUse(q)) && q != p
      ensures forall q :: InUse(q) ==> q in cells && cells[q] == old(cells)[q]
    {
      hide Flat, WordsOk, ClearFrom;
      assert p in cells;
      ChainGrows(cells, free, chain, p);
      cells := cells[p := cells[p].(link := Chain(free))];
      cells := cells[p := cells[p].(car := Dead)];
      free := Some(p);
      chain := [p] + chain;
    }

    method PopFree() returns (p: Addr)
      requires Valid() && free.Some?
      modifies this`free, this`chain
      ensures Valid() && chain == old(chain)[1..] && p == old(chain)[0] == old(free).value
      ensures forall q :: InUse(q) <==> old(InUse(q)) || q == p
      ensures old(IsCell(p)) && !old(InUse(p))
    {
      hide Flat, WordsOk, ClearFrom;
      p := free.value;
      ChainRest(cells, free, chain, 0);
      free := cells[p].link.next;
      assert chain == [chain[0]] + chain[1..];
      chain := chain[1..];
    }

    /** A block without marks goes to the front of the list. */
    method NewBlock(b: nat)
      requires Valid() && Clean() && b !in blocks && index == size
      modifies this`blocks, this`index, this`cells, this`bits
      ensures Valid() && Clean() && blocks == [b] + old(blocks) && index == 0
      ensures forall q :: InUse(q) <==> old(InUse(q))
      ensures forall q :: old(InUse(q)) ==> q in cells && cells[q] == old(cells)[q]
    {
      hide *;
      var unset := map i | 0 <= i < size :: Cell(b, i) := Pair(Dead, Cdr(Fixnum));
      NewBlockReady(b, unset);
      ghost var bs := blocks;
      cells := cells + unset;
      bits := bits[b := seq(1 + size / width, _ => seq(width, _ => false))];
      blocks := [b] + blocks;
      index := 0;
      NewBlockMade(b, bs, unset);
    }

    /** Before a block is added, every block is full: a cell is told by its block alone. */
    lemma NewBlockReady(b: nat, unset: map<Addr, Pair>)
      requires Valid() && Clean() && b !in blocks && index == size
      requires unset == map i | 0 <= i < size :: Cell(b, i) := Pair(Dead, Cdr(Fixnum))
      ensures 0 < size && 0 < width && Distinct([b] + blocks) && Distinct(chain)
      ensures IsChain(cells + unset, free, chain)
      ensures forall q :: InUse(q) <==> InBlocks(q, blocks) && q !in chain
      ensures forall q :: InBlocks(q, blocks) ==> q in cells && q !in unset
      ensures forall q :: q in chain ==> InBlocks(q, blocks)
      ensures forall c :: c in blocks ==> c in bits && WordsOk(bits[c], width, size) && ClearFrom(bits[c], width, 0)
    {
      hide Flat, WordsOk, ClearFrom, IsChain, Distinct;
      DistinctCons(b, blocks);
      ChainFrame(cells, cells + unset, free, chain) by { InCells(); }
    }

    lemma NewBlockMade(b: nat, bs: seq<nat>, unset: map<Addr, Pair>)
      requires 0 < size && 0 < width && Distinct(blocks) && Distinct(chain) && IsChain(cells, free, chain)
      requires blocks == [b] + bs && b !in bs && index == 0
      requires forall i :: 0 <= i < size ==> Cell(b, i) in cells
      requires forall q :: InBlocks(q, bs) ==> q in cells
      requires forall q :: q in chain ==> InBlocks(q, bs)
      requires forall c :: c in bs ==> c in bits && WordsOk(bits[c], width, size) && ClearFrom(bits[c], width, 0)
      requires b in bits && bits[b] == seq(1 + size / width, _ => seq(width, _ => false))
      ensures Valid() && Clean()
      ensures forall q :: InUse(q) <==> InBlocks(q, bs) && q !in chain
    {
      NewWords();
      hide Flat, WordsOk, IsChain, Distinct;
      assert forall c, i :: c in bs && 0 <= i < size ==> InBlocks(Cell(c, i), bs);
    }

    lemma NewWords()
      requires 0 < width
      ensures var ws := seq(1 + size / width, _ => seq(width, _ => false));
        WordsOk(ws, width, size) && ClearFrom(ws, width, 0)
    {
    }

    lemma InCells()
      requires Valid()
      ensures forall q :: q in chain ==> q in cells && IsCell(q)
    {
    }

    method TakeNext() returns (p: Addr)
      requires Valid() && Clean() && index < size
      modifies this`index
      ensures Valid() && Clean() && p == Cell(blocks[0], old(index)) && index == old(index) + 1
      ensures forall q :: InUse(q) <==> old(InUse(q)) || q == p
      ensures !old(IsCell(p))
    {
      hide Flat, WordsOk, IsChain;
      p := Cell(blocks[0], index);
      index := index + 1;
      assert forall q :: IsCell(q) <==> old(IsCell(q)) || q == p;
    }

    /** Makes a cons: the first free cell, or the next unused one of the current block.
        `extra` is the block that the allocator gives if one is needed. */
    method Cons(car: Value, cdr: Value, extra: nat) returns (p: Addr)
      requires Valid() && Clean() && extra !in blocks
      modifies this
      ensures Valid() && Clean() && !old(InUse(p))
      ensures forall q :: InUse(q) <==> old(InUse(q)) || q == p
      ensures p in cells && cells[p] == Pair(Lisp(car), Cdr(cdr))
      ensures forall q :: old(InUse(q)) ==> q in cells && cells[q] == old(cells)[q]
      ensures old(free).Some? ==> p == old(free).value && blocks == old(blocks) && index == old(index)
      ensures old(free).None? && old(index) < size ==>
        blocks == old(blocks) != [] && p == Cell(blocks[0], old(index)) && index == old(index) + 1
      ensures old(free).None? && old(index) >= size ==> blocks == [extra] + old(blocks) && p == Cell(extra, 0)
    {
      hide Flat, WordsOk, ClearFrom, IsChain;
      if free.Some? {
        p := PopFree();
      } else {
        if index == size { NewBlock(extra); }
        p := TakeNext();
      }
      SetCell(p, Pair(Lisp(car), Cdr(cdr)));
    }

    method SetCell(p: Addr, c: Pair)
      requires Valid() && InUse(p)
      modifies this`cells
      ensures Valid() && cells == old(cells)[p := c] && p in old(cells)
    {
      hide Flat, WordsOk, ClearFrom;
      assert p in cells;
      cells := cells[p := c];
    }

    // ---------- Marking ----------

    /** Sets the mark bit of a cons, and no other. */
    method MarkCell(p: Addr)
      requires Valid() && IsCell(p)
      modifies this`bits
      ensures Valid() && forall q :: IsCell(q) ==> (Marked(q) <==> old(Marked(q)) || q == p)
    {
      hide IsChain, Distinct;
      ghost var ws := bits[p.block];
      WordIndex(width, size, p.i);
      var k, r := p.i / width, p.i % width;
      bits := bits[p.block := bits[p.block][k := bits[p.block][k][r := true]]];
      OneMore(ws, bits[p.block], p.i, Limit(p.block));
    }

    lemma OneMore(ws: Words, ws': Words, i: nat, lim: nat)
      requires WordsOk(ws, width, size) && ClearFrom(ws, width, lim) && i < lim <= size
      requires 0 <= i / width < |ws| && 0 <= i % width < width
      requires ws' == ws[i / width := ws[i / width][i % width := true]]
      ensures WordsOk(ws', width, size) && ClearFrom(ws', width, lim)
      ensures forall j :: 0 <= j < size ==> Flat(ws', width, size)[j] == (Flat(ws, width, size)[j] || j == i)
    {
      assert i == (i / width) * width + i % width;
      forall j | 0 <= j < size
        ensures Flat(ws', width, size)[j] == (Flat(ws, width, size)[j] || j == i)
      {
        WordIndex(width, size, j);
        assert j == (j / width) * width + j % width;
      }
    }

    lemma Unmarked(p: Addr)
      requires Shape() && Clean() && IsCell(p)
      ensures !Marked(p)
    {
      WordIndex(width, size, p.i);
    }

    // ---------- The sweep ----------

    /** The first n cells of block b have been swept: the unmarked ones are on the free list in
        front of chain0, and everything else is as in cells0. */
    ghost predicate Swept(b: nat, marks: seq<bool>, n: nat, chain0: seq<Addr>, cells0: map<Addr, Pair>)
      reads this`cells, this`free, this`chain
    {
      && n <= |marks| && chain == Freed(b, marks, n) + chain0 && IsChain(cells, free, chain)
      && cells.Keys == cells0.Keys
      && (forall p :: p in cells0 && p !in Freed(b, marks, n) ==> cells[p] == cells0[p])
    }

    method FreeOne(b: nat, pos: nat, ghost marks: seq<bool>, ghost chain0: seq<Addr>, ghost cells0: map<Addr, Pair>)
      requires Swept(b, marks, pos, chain0, cells0) && pos < |marks| && !marks[pos]
      requires Cell(b, pos) in cells0 && Cell(b, pos) !in chain0
      modifies this`cells, this`free, this`chain
      ensures Swept(b, marks, pos + 1, chain0, cells0)
      ensures |Freed(b, marks, pos + 1)| == |Freed(b, marks, pos)| + 1
    {
      hide *;
      var p := Cell(b, pos);
      SweptParts(b, marks, pos, chain0, cells0);
      ghost var cells1, free1, chain1 := cells, free, chain;
      cells := cells[p := cells[p].(link := Chain(free))];
      free := Some(p);
      cells := cells[p := cells[p].(car := Dead)];
      chain := [p] + chain;
      assert cells == cells1[p := Pair(Dead, Chain(free1))];
      SweptOneMore(b, pos, marks, chain0, cells0, cells1, free1, chain1);
    }

    lemma SweptParts(b: nat, marks: seq<bool>, n: nat, chain0: seq<Addr>, cells0: map<Addr, Pair>)
      requires Swept(b, marks, n, chain0, cells0)
      ensures n <= |marks| && chain == Freed(b, marks, n) + chain0 && IsChain(cells, free, chain)
      ensures cells.Keys == cells0.Keys
      ensures forall p :: p in cells0 && p !in Freed(b, marks, n) ==> cells[p] == cells0[p]
    {
    }

    /** The next cell, unmarked, has been put in front. */
    lemma SweptOneMore(b: nat, pos: nat, marks: seq<bool>, chain0: seq<Addr>, cells0: map<Addr, Pair>,
                       cells1: map<Addr, Pair>, free1: Option<Addr>, chain1: seq<Addr>)
      requires pos < |marks| && !marks[pos] && Cell(b, pos) in cells0 && Cell(b, pos) !in chain0
      requires chain1 == Freed(b, marks, pos) + chain0 && IsChain(cells1, free1, chain1) && cells1.Keys == cells0.Keys
      requires forall p :: p in cells0 && p !in Freed(b, marks, pos) ==> cells1[p] == cells0[p]
      requires cells == cells1[Cell(b, pos) := Pair(Dead, Chain(free1))]
      requires free == Some(Cell(b, pos)) && chain == [Cell(b, pos)] + chain1
      ensures Swept(b, marks, pos + 1, chain0, cells0)
      ensures |Freed(b, marks, pos + 1)| == |Freed(b, marks, pos)| + 1
    {
      hide *;
      var p, f := Cell(b, pos), Freed(b, marks, pos);
      FreedNext(b, marks, pos, chain0);
      ChainGrows(cells1, free1, chain1, p);
      assert [p] + (f + chain0) == ([p] + f) + chain0;
      assert forall q :: q in cells0 && q !in [p] + f ==> q != p && q !in f;
      IsSwept(b, marks, pos + 1, chain0, cells0);
    }

    lemma FreedNext(b: nat, marks: seq<bool>, pos: nat, chain0: seq<Addr>)
      requires pos < |marks| && !marks[pos] && Cell(b, pos) !in chain0
      ensures Freed(b, marks, pos + 1) == [Cell(b, pos)] + Freed(b, marks, pos)
      ensures Cell(b, pos) !in Freed(b, marks, pos) + chain0
    {
      FreedCells(b, marks, pos, Cell(b, pos));
    }

    lemma IsSwept(b: nat, marks: seq<bool>, n: nat, chain0: seq<Addr>, cells0: map<Addr, Pair>)
      requires n <= |marks| && chain == Freed(b, marks, n) + chain0 && IsChain(cells, free, chain)
      requires cells.Keys == cells0.Keys
      requires forall p :: p in cells0 && p !in Freed(b, marks, n) ==> cells[p] == cells0[p]
      ensures Swept(b, marks, n, chain0, cells0)
    {
    }

    lemma KeepOne(b: nat, pos: nat, marks: seq<bool>, chain0: seq<Addr>, cells0: map<Addr, Pair>)
      requires Swept(b, marks, pos, chain0, cells0) && pos < |marks| && marks[pos]
      ensures Swept(b, marks, pos + 1, chain0, cells0) && Freed(b, marks, pos + 1) == Freed(b, marks, pos)
    {
      assert Freed(b, marks, pos + 1) == Freed(b, marks, pos);
      hide IsChain, Freed;
    }

    ghost predicate BlockOk(b: nat, lim: nat)
      reads this`bits
    {
      0 < width && lim <= size && b in bits && WordsOk(bits[b], width, size) && ClearFrom(bits[b], width, lim)
    }

    method ClearBit(b: nat, i: nat, r: nat)
      requires b in bits && WordsOk(bits[b], width, size) && i < |bits[b]| && r < width
      modifies this`bits
      ensures bits == old(bits)[b := old(bits)[b][i := old(bits)[b][i][r := false]]]
    {
      bits := bits[b := bits[b][i := bits[b][i][r := false]]];
    }

    /** Sweeps the cells from start to stop, whose mark bits are in one word. */
    method SweepWord(b: nat, i: nat, start: nat, stop: nat, ghost marks: seq<bool>, ghost chain0: seq<Addr>,
                     ghost cells0: map<Addr, Pair>)
        returns (freed: nat, used: nat)
      requires 0 < width && b in bits && WordsOk(bits[b], width, size) && i < |bits[b]|
      requires start == i * width && start <= stop <= start + width && stop <= |marks|
      requires forall r :: 0 <= r < stop - start ==> marks[start + r] == bits[b][i][r]
      requires forall r :: stop - start <= r < width ==> !bits[b][i][r]
      requires Swept(b, marks, start, chain0, cells0)
      requires forall j :: start <= j < stop ==> Cell(b, j) in cells0 && Cell(b, j) !in chain0
      modifies this`cells, this`bits, this`free, this`chain
      ensures Swept(b, marks, stop, chain0, cells0)
      ensures bits == old(bits)[b := old(bits)[b][i := seq(width, _ => false)]]
      ensures freed + |Freed(b, marks, start)| == |Freed(b, marks, stop)| && used == stop - start - freed
    {
      hide Swept, Freed, WordsOk;
      freed, used := 0, 0;
      ghost var word := bits[b][i];
      var pos := start;
      assert |word| == width by { WordLength(b, i); }
      assert bits[b] == bits[b][i := word];
      while pos < stop
        invariant start <= pos <= stop && b in bits && WordsOk(bits[b], width, size) && i < |bits[b]|
        invariant Swept(b, marks, pos, chain0, cells0)
        invariant freed + |Freed(b, marks, start)| == |Freed(b, marks, pos)| && used == pos - start - freed
        invariant |bits[b][i]| == width
        invariant bits == old(bits)[b := old(bits)[b][i := bits[b][i]]]
        invariant forall r :: 0 <= r < width ==> bits[b][i][r] == (word[r] && r >= pos - start)
      {
        var r := pos - start;
        assert marks[start + r] == word[r];
        if bits[b][i][r] {
          KeepOne(b, pos, marks, chain0, cells0);
          used := used + 1;
          KeepsWords(b, i, r);
          assert bits[b][i := bits[b][i][r := false]] == old(bits)[b][i := bits[b][i][r := false]];
          ClearBit(b, i, r);
        } else {
          FreeOne(b, pos, marks, chain0, cells0);
          freed := freed + 1;
        }
        pos := pos + 1;
      }
      assert bits[b][i] == seq(width, _ => false);
    }

    lemma StartBlock(b: nat, marks: seq<bool>)
      requires IsChain(cells, free, chain)
      ensures Freed(b, marks, 0) == [] && Swept(b, marks, 0, chain, cells)
    {
      assert Freed(b, marks, 0) + chain == chain;
    }

    lemma EnoughWords(ws: Words, lim: nat)
      requires WordsOk(ws, width, size) && lim <= size
      ensures WordsFor(lim, width) <= |ws|
    {
      WordsCover(lim, width);
      WordIndex(width, size, lim);
    }

    lemma ReachNext(i: nat, lim: nat)
      requires 0 < width && i < WordsFor(lim, width)
      ensures i * width < lim && Reach(i, lim) == i * width
      ensures Reach(i + 1, lim) == if i * width + width <= lim then i * width + width else lim
    {
      WordsCover(lim, width);
      Scale(i, WordsFor(lim, width) - 1, width);
      assert (i + 1) * width == i * width + width;
    }

    /** The bits of a word are the marks of its cells; the others are clear. */
    lemma MarksOfWord(ws: Words, marks: seq<bool>, i: nat, lim: nat)
      requires WordsOk(ws, width, size) && ClearFrom(ws, width, lim) && marks == Flat(ws, width, size)
      requires lim <= size && i < |ws|
      ensures |marks| == size && |ws[i]| == width
      ensures forall r :: 0 <= r < width && i * width + r < lim ==> marks[i * width + r] == ws[i][r]
      ensures forall r :: 0 <= r < width && lim <= i * width + r ==> !ws[i][r]
    {
      forall r | 0 <= r < width && i * width + r < lim
        ensures marks[i * width + r] == ws[i][r]
      {
        FlatAt(ws, width, size, i, r);
      }
    }

    /** A word of ones lies within the limit, and nothing in it is freed. */
    lemma FullWord(b: nat, ws: Words, marks: seq<bool>, i: nat, lim: nat, chain0: seq<Addr>, cells0: map<Addr, Pair>)
      requires 0 < width && i < |ws| && ws[i] == seq(width, _ => true) && i * width < lim <= |marks|
      requires forall r :: 0 <= r < width && i * width + r < lim ==> marks[i * width + r] == ws[i][r]
      requires forall r :: 0 <= r < width && lim <= i * width + r ==> !ws[i][r]
      requires Swept(b, marks, i * width, chain0, cells0)
      ensures i * width + width <= lim
      ensures Swept(b, marks, i * width + width, chain0, cells0)
      ensures Freed(b, marks, i * width + width) == Freed(b, marks, i * width)
    {
      hide IsChain, Freed;
      assert ws[i][width - 1];
      assert i * width + width <= lim;
      WordMarked(ws, marks, i, lim);
      FreedNone(b, marks, i * width, width);
    }

    lemma WordMarked(ws: Words, marks: seq<bool>, i: nat, lim: nat)
      requires 0 < width && i < |ws| && ws[i] == seq(width, _ => true) && i * width + width <= lim <= |marks|
      requires forall r :: 0 <= r < width && i * width + r < lim ==> marks[i * width + r] == ws[i][r]
      ensures forall j :: i * width <= j < i * width + width ==> marks[j]
    {
      forall j | i * width <= j < i * width + width
        ensures marks[j]
      {
        var r := j - i * width;
        assert ws[i][r] && marks[i * width + r] == ws[i][r];
      }
    }

    lemma SameShape(ws: Words, ws': Words)
      requires WordsOk(ws, width, size) && |ws'| == |ws|
      requires forall k :: 0 <= k < |ws| ==> ws'[k] == ws[k] || ws'[k] == seq(width, _ => false)
      ensures WordsOk(ws', width, size)
    {
    }

    lemma EndBlock(ws: Words, ws': Words, lim: nat, ilim: nat)
      requires WordsOk(ws, width, size) && ClearFrom(ws, width, lim) && |ws'| == |ws|
      requires ilim == WordsFor(lim, width) <= |ws|
      requires forall k :: ilim <= k < |ws| ==> ws'[k] == ws[k]
      requires forall k :: 0 <= k < ilim ==> ws'[k] == seq(width, _ => false)
      ensures WordsOk(ws', width, size) && ClearFrom(ws', width, 0) && Reach(ilim, lim) == lim
    {
      WordsCover(lim, width);
      forall k, r | 0 <= k < |ws'| && 0 <= r < |ws'[k]|
        ensures !ws'[k][r]
      {
        if k >= ilim {
          Scale(ilim, k, width);
          assert !ws[k][r];
        }
      }
    }

    /** Sweeps a block a word at a time: its unmarked cells go to the free list, and its mark
        bits are cleared. */
    method SweepBlock(b: nat, lim: nat) returns (thisFree: nat, used: nat)
      requires BlockOk(b, lim) && IsChain(cells, free, chain)
      requires forall p :: p in chain ==> p.Cell? && p.block != b
      requires forall i :: 0 <= i < size ==> Cell(b, i) in cells
      modifies this`cells, this`bits, this`free, this`chain
      ensures Swept(b, old(Marks(b)), lim, old(chain), old(cells))
      ensures BlockOk(b, 0) && forall c :: c in old(bits) && c != b ==> c in bits && bits[c] == old(bits)[c]
      ensures bits.Keys == old(bits).Keys
      ensures thisFree == |Freed(b, old(Marks(b)), lim)| && used == lim - thisFree
    {
      hide *;
      BlockParts(b, lim);
      ghost var marks, chain0, cells0, ws := Marks(b), chain, cells, bits[b];
      thisFree, used := 0, 0;
      StartBlock(b, marks);
      WordsCover(lim, width);
      var full, zeros := seq(width, _ => true), seq(width, _ => false);
      var i, ilim := 0, WordsFor(lim, width);
      assert ilim <= |ws| by { EnoughWords(ws, lim); }
      while i < ilim
        invariant 0 <= i <= ilim && b in bits && |bits[b]| == |ws|
        invariant forall c :: c in old(bits) && c != b ==> c in bits && bits[c] == old(bits)[c]
        invariant bits.Keys == old(bits).Keys
        invariant forall k :: i <= k < |ws| ==> bits[b][k] == ws[k]
        invariant forall k :: 0 <= k < i ==> bits[b][k] == zeros
        invariant Swept(b, marks, Reach(i, lim), chain0, cells0)
        invariant thisFree == |Freed(b, marks, Reach(i, lim))| && used == Reach(i, lim) - thisFree
      {
        ReachNext(i, lim);
        MarksOfWord(ws, marks, i, lim);
        if bits[b][i] == full {
          FullWord(b, ws, marks, i, lim, chain0, cells0);
          bits := bits[b := bits[b][i := zeros]];
          used := used + width;
        } else {
          var start := i * width;
          var stop := lim - start;
          if stop > width { stop := width; }
          stop := stop + start;
          assert WordsOk(bits[b], width, size) by { SameShape(ws, bits[b]); }
          var f, u := SweepWord(b, i, start, stop, marks, chain0, cells0);
          thisFree, used := thisFree + f, used + u;
        }
        i := i + 1;
      }
      EndBlock(ws, bits[b], lim, ilim);
      BlockDone(b);
    }

    lemma BlockParts(b: nat, lim: nat)
      requires BlockOk(b, lim)
      ensures 0 < width && lim <= size && b in bits && WordsOk(bits[b], width, size) && ClearFrom(bits[b], width, lim)
      ensures Marks(b) == Flat(bits[b], width, size) && |Marks(b)| == size && Reach(0, lim) == 0
    {
    }

    lemma BlockDone(b: nat)
      requires 0 < width && b in bits && WordsOk(bits[b], width, size) && ClearFrom(bits[b], width, 0)
      ensures BlockOk(b, 0)
    {
    }

    /** How many cells the first i words cover. */
    ghost function Reach(i: nat, lim: nat): (n: nat)
      ensures n <= lim
    {
      if i * width <= lim then i * width else lim
    }

    lemma WordLength(b: nat, i: nat)
      requires b in bits && WordsOk(bits[b], width, size) && i < |bits[b]|
      ensures |bits[b][i]| == width
    {
    }

    lemma KeepsWords(b: nat, i: nat, r: nat)
      requires b in bits && WordsOk(bits[b], width, size) && i < |bits[b]| && r < width
      ensures |bits[b][i]| == width && WordsOk(bits[b][i := bits[b][i][r := false]], width, size)
    {
    }

    ghost function Now(): Store
      reads this`cells, this`bits, this`free, this`chain
    {
      Store(cells, bits, free, chain)
    }

    ghost predicate InBlocks(p: Addr, bs: seq<nat>) { p.Cell? && p.block in bs && p.i < size }

    /** The blocks swept and kept: their unmarked cells are free, the others are as they were. */
    ghost predicate Rebuilt(st: Store, kept: seq<nat>, was: Before) {
      && IsChain(st.cells, st.free, st.chain) && Distinct(st.chain)
      && (forall b :: b in kept ==> b in st.bits && WordsOk(st.bits[b], width, size) && ClearFrom(st.bits[b], width, 0))
      && (forall p :: InBlocks(p, kept) ==> p in st.cells)
      && (forall p :: p in st.chain <==> InBlocks(p, kept) && was.Garbage(p.block, p.i))
      && (forall p :: InBlocks(p, kept) && p !in st.chain ==> p in was.cells && st.cells[p] == was.cells[p])
    }

    /** The blocks not yet swept are as they were. */
    ghost predicate Untouched(st: Store, rest: seq<nat>, was: Before) {
      && (forall b :: b in rest ==>
            && b in st.bits && WordsOk(st.bits[b], width, size)
            && b in was.marks && was.marks[b] == Flat(st.bits[b], width, size)
            && b in was.limits && was.limits[b] <= size && ClearFrom(st.bits[b], width, was.limits[b]))
      && (forall p :: InBlocks(p, rest) ==> p in st.cells && p in was.cells && st.cells[p] == was.cells[p])
    }

    /** One block swept. */
    ghost predicate BlockSwept(st: Store, st': Store, b: nat, was: Before) {
      && b in was.marks && b in was.limits && was.limits[b] <= |was.marks[b]| == size
      && st'.chain == Freed(b, was.marks[b], was.limits[b]) + st.chain && IsChain(st'.cells, st'.free, st'.chain)
      && st'.cells.Keys == st.cells.Keys
      && (forall p :: p in st.cells && p !in Freed(b, was.marks[b], was.limits[b]) ==> st'.cells[p] == st.cells[p])
      && b in st'.bits && WordsOk(st'.bits[b], width, size) && ClearFrom(st'.bits[b], width, 0)
      && (forall c :: c in st.bits && c != b ==> c in st'.bits && st'.bits[c] == st.bits[c])
    }

    lemma KeepRest(st: Store, st': Store, b: nat, rest: seq<nat>, was: Before)
      requires BlockSwept(st, st', b, was) && Untouched(st, [b] + rest, was) && b !in rest
      ensures Untouched(st', rest, was)
    {
      hide Freed, WordsOk, ClearFrom, IsChain, Flat;
      forall p | InBlocks(p, rest)
        ensures p in st'.cells && p in was.cells && st'.cells[p] == was.cells[p]
      {
        FreedCells(b, was.marks[b], was.limits[b], p);
        assert InBlocks(p, [b] + rest);
      }
      assert forall c :: c in rest ==> c in [b] + rest;
    }

    lemma KeepBlock(st: Store, st': Store, kept: seq<nat>, b: nat, was: Before)
      requires BlockSwept(st, st', b, was) && Rebuilt(st, kept, was) && Untouched(st, [b], was) && b !in kept
      ensures Rebuilt(st', kept + [b], was)
    {
      hide Freed, WordsOk, ClearFrom, IsChain, Flat, Distinct;
      var marks, lim := was.marks[b], was.limits[b];
      var kept' := kept + [b];
      forall p
        ensures p in Freed(b, marks, lim) <==> InBlocks(p, [b]) && was.Garbage(p.block, p.i)
      {
        FreedCells(b, marks, lim, p);
      }
      FreedDistinct(b, marks, lim);
      DistinctJoin(Freed(b, marks, lim), st.chain);
      forall p
        ensures InBlocks(p, kept') <==> InBlocks(p, kept) || InBlocks(p, [b])
      {
      }
      forall p
        ensures p in st'.chain <==> InBlocks(p, kept') && was.Garbage(p.block, p.i)
      {
      }
      forall p | InBlocks(p, kept') && p !in st'.chain
        ensures p in was.cells && st'.cells[p] == was.cells[p]
      {
        assert p !in Freed(b, marks, lim);
        assert p in st.cells;
      }
    }

    lemma LastFreed(st: Store, st1: Store, b: nat, was: Before)
      requires BlockSwept(st, st1, b, was) && 0 < size && |Freed(b, was.marks[b], was.limits[b])| == size
      ensures Cell(b, 0) in st1.cells && st1.cells[Cell(b, 0)].link.Chain?
      ensures IsChain(st1.cells, st1.cells[Cell(b, 0)].link.next, st.chain)
    {
      hide Freed, WordsOk, ClearFrom, Flat, Distinct, IsChain;
      var f := Freed(b, was.marks[b], was.limits[b]);
      FreedCells(b, was.marks[b], was.limits[b], Cell(b, 0));
      FreedAll(b, was.marks[b], was.limits[b]);
      assert st1.chain[size - 1] == f[size - 1];
      ChainMember(st1.cells, st1.free, st1.chain, size - 1);
      ChainRest(st1.cells, st1.free, st1.chain, size - 1);
      assert st1.chain[size..] == st.chain;
    }

    /** A block whose cells are all free is unhooked from the free list and released. */
    lemma ReleaseBlock(st: Store, st1: Store, st': Store, kept: seq<nat>, b: nat, was: Before)
      requires BlockSwept(st, st1, b, was) && Rebuilt(st, kept, was) && b !in kept && 0 < size
      requires |Freed(b, was.marks[b], was.limits[b])| == size
      requires st'.chain == st.chain && st'.bits == st1.bits - {b}
      requires forall p :: p in st1.cells && !InBlocks(p, [b]) ==> p in st'.cells && st'.cells[p] == st1.cells[p]
      requires Cell(b, 0) in st1.cells && st1.cells[Cell(b, 0)].link.Chain? ==>
        st'.free == st1.cells[Cell(b, 0)].link.next
      ensures Cell(b, 0) in st1.cells && st1.cells[Cell(b, 0)].link.Chain?
      ensures Rebuilt(st', kept, was)
    {
      hide Freed, WordsOk, ClearFrom, Flat, Distinct, IsChain;
      var marks, lim := was.marks[b], was.limits[b];
      LastFreed(st, st1, b, was);
      forall p | p in st.chain
        ensures p in st1.cells && p in st'.cells && st'.cells[p] == st1.cells[p]
      {
        ChainIn(st.cells, st.free, st.chain, p);
      }
      ChainFrame(st1.cells, st'.cells, st'.free, st'.chain);
      forall p | InBlocks(p, kept)
        ensures p in st'.cells && (p !in st'.chain ==> p in was.cells && st'.cells[p] == was.cells[p])
      {
        FreedCells(b, marks, lim, p);
        assert p in st1.cells;
      }
    }

    lemma KeepRestReleased(st: Store, st': Store, b: nat, rest: seq<nat>, was: Before)
      requires Untouched(st, rest, was) && b !in rest && st'.bits == st.bits - {b}
      requires forall p :: p in st.cells && !InBlocks(p, [b]) ==> p in st'.cells && st'.cells[p] == st.cells[p]
      ensures Untouched(st', rest, was)
    {
      hide WordsOk, ClearFrom, Flat;
    }

    ghost function Start(): Before
      requires Shape()
      reads this`blocks, this`index, this`cells, this`bits
    {
      Before(map b | b in blocks :: Limit(b), map b | b in blocks :: Marks(b), cells)
    }

    /** How many cells the sweep frees in each block. */
    ghost function Counts(bs: seq<nat>, was: Before): seq<nat>
      requires Covers(bs, was)
    {
      seq(|bs|, k requires 0 <= k < |bs| => |Freed(bs[k], was.marks[bs[k]], was.limits[bs[k]])|)
    }

    ghost predicate Covers(bs: seq<nat>, was: Before) {
      forall b :: b in bs ==> b in was.limits && b in was.marks && was.limits[b] <= size == |was.marks[b]|
    }

    /** The sweep has dealt with the first j of the blocks bs, and kept the first k of the list. */
    ghost predicate Sweeping(k: nat, bs: seq<nat>, j: nat, was: Before)
      reads this`blocks, this`cells, this`bits, this`free, this`chain
    {
      && k <= |blocks| && j <= |bs| && blocks[k..] == bs[j..] && Distinct(blocks) && Covers(bs, was)
      && Rebuilt(Now(), blocks[..k], was) && Untouched(Now(), blocks[k..], was)
      && (forall b :: b in blocks ==> b in bs)
      && (forall b, i :: b in bs[..j] && b !in blocks[..k] && 0 <= i < size ==> was.Garbage(b, i))
      && (k == 0 <==> j == 0) && (k > 0 ==> blocks[0] == bs[0])
    }

    lemma BlockReady(k: nat, b: nat, was: Before)
      requires 0 < size && 0 < width && k < |blocks| && b == blocks[k] && b !in blocks[..k]
      requires Rebuilt(Now(), blocks[..k], was) && Untouched(Now(), blocks[k..], was)
      ensures b in was.limits && b in was.marks && BlockOk(b, was.limits[b]) && was.marks[b] == Marks(b)
      ensures IsChain(cells, free, chain) && forall p :: p in chain ==> p.Cell? && p.block != b
      ensures forall i :: 0 <= i < size ==> Cell(b, i) in cells
    {
      hide IsChain, WordsOk, ClearFrom, Flat, Distinct;
      assert b == blocks[k..][0];
      forall i | 0 <= i < size
        ensures Cell(b, i) in cells
      {
        assert InBlocks(Cell(b, i), blocks[k..]);
      }
    }

    /** Takes the k-th block off the list and its cells off the free list, and frees it. */
    method Release(k: nat, ghost st: Store, ghost was: Before)
      requires 0 < size && k < |blocks| && Distinct(blocks)
      requires BlockSwept(st, Now(), blocks[k], was) && Rebuilt(st, blocks[..k], was)
      requires Untouched(Now(), blocks[k + 1..], was)
      requires |Freed(blocks[k], was.marks[blocks[k]], was.limits[blocks[k]])| == size
      modifies this`blocks, this`cells, this`bits, this`free, this`chain
      ensures blocks == old(blocks)[..k] + old(blocks)[k + 1..] && Distinct(blocks) && chain == st.chain
      ensures Rebuilt(Now(), blocks[..k], was) && Untouched(Now(), blocks[k..], was)
    {
      hide IsChain, Freed, Flat, WordsOk, ClearFrom, Distinct, ConsHeap.Rebuilt, ConsHeap.Untouched,
        ConsHeap.BlockSwept;
      var b := blocks[k];
      ghost var st1 := Now();
      ghost var kept, rest := blocks[..k], blocks[k + 1..];
      NotTwice(blocks, k);
      LastFreed(st, st1, b, was);
      blocks := blocks[..k] + blocks[k + 1..];
      assert blocks[..k] == kept && blocks[k..] == rest;
      free := cells[Cell(b, 0)].link.next;
      chain := st.chain;
      cells := map p | p in cells && !(p.Cell? && p.block == b && p.i < size) :: cells[p];
      bits := bits - {b};
      ReleaseBlock(st, st1, Now(), kept, b, was);
      KeepRestReleased(st1, Now(), b, rest, was);
    }

    /** Sweeps a block, and keeps or releases it. */
    method SweepNext(k: nat, lim: nat, numFree: nat, ghost bs: seq<nat>, ghost j: nat, ghost was: Before)
        returns (k': nat, used: nat, numFree': nat)
      requires 0 < size && 0 < width && Sweeping(k, bs, j, was) && k < |blocks| && lim == was.limits[blocks[k]]
      requires numFree == |chain| && (j == 0 ==> numFree == 0)
      modifies this`blocks, this`cells, this`bits, this`free, this`chain
      ensures Sweeping(k', bs, j + 1, was) && k' <= |blocks| && |blocks| - k' == |old(blocks)| - k - 1
      ensures numFree' == |chain|
      ensures var c := Counts(bs, was)[j];
        if c == size && numFree > size then
          k' == k && blocks[..k'] == old(blocks)[..k] && numFree' == numFree && used == 0
        else
          k' == k + 1 && blocks[..k'] == old(blocks)[..k] + [bs[j]] && numFree' == numFree + c && used + c == lim
    {
      hide IsChain, Freed, Flat, WordsOk, ClearFrom, Distinct, ConsHeap.Rebuilt, ConsHeap.Untouched,
        ConsHeap.BlockSwept;
      var b := blocks[k];
      ghost var rest := blocks[k + 1..];
      assert blocks[k..] == [b] + rest && b == bs[j];
      NotTwice(blocks, k);
      ghost var st := Now();
      BlockReady(k, b, was);
      var thisFree;
      thisFree, used := SweepBlock(b, lim);
      ghost var st1 := Now();
      MakeSwept(st, st1, b, was);
      KeepRest(st, st1, b, rest, was);
      if thisFree == size && numFree > size {
        FreedCells(b, was.marks[b], was.limits[b], Cell(b, 0));
        FreedAll(b, was.marks[b], size);
        Release(k, st, was);
        k', numFree' := k, numFree;
      } else {
        UntouchedFirst(st, b, rest, was);
        KeepBlock(st, st1, blocks[..k], b, was);
        assert blocks[..k + 1] == blocks[..k] + [b];
        k', numFree' := k + 1, numFree + thisFree;
      }
      assert bs[..j + 1] == bs[..j] + [b];
      assert bs[j + 1..] == rest;
    }

    lemma MakeSwept(st: Store, st': Store, b: nat, was: Before)
      requires b in was.marks && b in was.limits && was.limits[b] <= |was.marks[b]| == size
      requires st'.chain == Freed(b, was.marks[b], was.limits[b]) + st.chain && IsChain(st'.cells, st'.free, st'.chain)
      requires st'.cells.Keys == st.cells.Keys
      requires forall p :: p in st.cells && p !in Freed(b, was.marks[b], was.limits[b]) ==> st'.cells[p] == st.cells[p]
      requires b in st'.bits && WordsOk(st'.bits[b], width, size) && ClearFrom(st'.bits[b], width, 0)
      requires forall c :: c in st.bits && c != b ==> c in st'.bits && st'.bits[c] == st.bits[c]
      ensures BlockSwept(st, st', b, was)
    {
    }

    lemma UntouchedFirst(st: Store, b: nat, rest: seq<nat>, was: Before)
      requires Untouched(st, [b] + rest, was)
      ensures Untouched(st, [b], was)
    {
      hide Flat, WordsOk, ClearFrom;
      assert forall p :: InBlocks(p, [b]) ==> InBlocks(p, [b] + rest);
    }

    ghost predicate LimitsOk(bs: seq<nat>, was: Before)
      reads this`index
    {
      was.limits == map b | b in bs :: if b == bs[0] then index else size
    }

    lemma StartOk()
      requires Shape()
      ensures Covers(blocks, Start()) && 0 < size && 0 < width && index <= size && Distinct(blocks)
      ensures blocks == [] ==> index == size
      ensures LimitsOk(blocks, Start())
    {
      hide Flat, WordsOk, ClearFrom, Distinct;
      assert forall b :: b in blocks ==> |Marks(b)| == size by { FlatLength(); }
    }

    lemma FlatLength()
      requires Shape()
      ensures forall b :: b in blocks ==> |Marks(b)| == size
    {
    }

    lemma StartSweep(bs: seq<nat>, was: Before)
      requires Shape() && bs == blocks && was == Start() && free == None && chain == []
      ensures Sweeping(0, bs, 0, was)
    {
      StartOk();
      hide WordsOk, ClearFrom, Flat, Distinct;
      assert blocks[0..] == blocks && bs[0..] == bs;
      assert Distinct<Addr>([]) by { NothingTwice<Addr>(); }
    }

    lemma NothingTwice<T>()
      ensures Distinct<T>([])
    {
    }

    lemma NextBlock(k: nat, bs: seq<nat>, j: nat, was: Before)
      requires k < |blocks| && j < |bs| && Sweeping(k, bs, j, was) && Distinct(bs) && index <= size
      requires LimitsOk(bs, was)
      ensures blocks[k] == bs[j] && bs[j] in was.limits && was.limits[bs[j]] == if j == 0 then index else size
      ensures k == 0 <==> j == 0
    {
      hide ConsHeap.Rebuilt, ConsHeap.Untouched;
      assert blocks[k] == blocks[k..][0] && bs[j] == bs[j..][0];
    }

    lemma CountsLength(bs: seq<nat>, was: Before)
      requires Covers(bs, was)
      ensures |Counts(bs, was)| == |bs|
    {
    }

    /** How many cells the first k blocks hold, the current one up to its index. */
    ghost function CellCount(k: nat): nat
      reads this`index
    {
      if k == 0 then 0 else index + size * (k - 1)
    }

    lemma CellCountStep(k: nat)
      ensures CellCount(k + 1) == CellCount(k) + if k == 0 then index else size
    {
      assert k > 0 ==> size * k == size * (k - 1) + size;
    }

    /** The cells that were marked, in terms of the state before the sweep. */
    lemma StartMarks(was: Before)
      requires Shape() && was == Start()
      ensures was.cells == cells
      ensures forall p :: IsCell(p) && Marked(p) <==>
        p.Cell? && p.block in blocks && p.i < was.limits[p.block] <= |was.marks[p.block]| && was.marks[p.block][p.i]
    {
      StartOk();
    }

    /** Frees the unmarked cells, clears the marks of the others, releases surplus blocks and
        rebuilds the free list. */
    method Sweep() returns (numUsed: nat, numFree: nat)
      requires Shape()
      modifies this`blocks, this`cells, this`bits, this`free, this`chain
      ensures Valid() && Clean()
      ensures forall p :: InUse(p) <==> old(IsCell(p) && Marked(p))
      ensures forall p :: InUse(p) ==> p in cells && p in old(cells) && cells[p] == old(cells)[p]
      ensures old(Covers(blocks, Start()))
      ensures blocks == Survivors(old(blocks), old(Counts(blocks, Start())), size, 0)
      ensures numFree == |chain| && numUsed + numFree == CellCount(|blocks|)
    {
      hide *;
      StartOk();
      StartMarks(Start());
      numUsed, numFree := SweepFrom(Start());
    }

    method SweepFrom(ghost was: Before) returns (numUsed: nat, numFree: nat)
      requires Shape() && was == Start() && Covers(blocks, was)
      modifies this`blocks, this`cells, this`bits, this`free, this`chain
      ensures Valid() && Clean()
      ensures forall p :: InUse(p) <==>
        p.Cell? && p.block in old(blocks) && p.i < was.limits[p.block] <= |was.marks[p.block]|
          && was.marks[p.block][p.i]
      ensures forall p :: InUse(p) ==> p in cells && p in was.cells && cells[p] == was.cells[p]
      ensures blocks == Survivors(old(blocks), Counts(old(blocks), was), size, 0)
      ensures numFree == |chain| && numUsed + numFree == CellCount(|blocks|)
    {
      hide *;
      StartOk();
      ghost var bs := blocks;
      CountsLength(bs, was);
      free, chain := None, [];
      StartSweep(bs, was);
      numUsed, numFree := SweepBlocks(bs, was);
      EndSweep(bs, was);
    }

    /** The counts agree with the part swept, and the outcome is settled but for the rest. */
    ghost predicate Tally(k: nat, j: nat, bs: seq<nat>, was: Before, numUsed: nat, numFree: nat)
      requires Covers(bs, was)
      reads this
    {
      && k <= |blocks| && j <= |bs| && |blocks| - k == |bs| - j
      && Sweeping(k, bs, j, was)
      && numFree == |chain| && (j == 0 ==> numFree == 0) && numUsed + numFree == CellCount(k)
      && Survivors(bs, Counts(bs, was), size, 0)
        == blocks[..k] + Survivors(bs[j..], Counts(bs, was)[j..], size, numFree)
    }

    method SweepBlocks(ghost bs: seq<nat>, ghost was: Before) returns (numUsed: nat, numFree: nat)
      requires Sweeping(0, bs, 0, was) && bs == blocks && chain == []
      requires 0 < size && 0 < width && index <= size && Distinct(bs)
      requires LimitsOk(bs, was)
      modifies this`blocks, this`cells, this`bits, this`free, this`chain
      ensures Sweeping(|blocks|, bs, |bs|, was) && Covers(bs, was)
      ensures blocks == Survivors(bs, Counts(bs, was), size, 0)
      ensures numFree == |chain| && numUsed + numFree == CellCount(|blocks|)
    {
      hide *;
      StartTally(bs, was);
      var k, lim := 0, index;
      ghost var j := 0;
      numUsed, numFree := 0, 0;
      while k < |blocks|
        invariant 0 <= k <= |blocks| && 0 <= j <= |bs| && |blocks| - k == |bs| - j
        invariant Covers(bs, was) && Tally(k, j, bs, was, numUsed, numFree)
        invariant lim == if j == 0 then index else size
        decreases |blocks| - k
      {
        k, numUsed, numFree := SweepOne(k, lim, numUsed, numFree, j, bs, was);
        lim := size;
        j := j + 1;
      }
      EndTally(bs, was, numUsed, numFree);
    }

    lemma StartTally(bs: seq<nat>, was: Before)
      requires Sweeping(0, bs, 0, was) && bs == blocks && chain == []
      ensures Covers(bs, was) && Tally(0, 0, bs, was, 0, 0)
    {
      hide Survivors, IsChain, Distinct, ConsHeap.Rebuilt, ConsHeap.Untouched;
      CountsLength(bs, was);
      assert bs[0..] == bs && Counts(bs, was)[0..] == Counts(bs, was) && blocks[..0] == [];
    }

    lemma EndTally(bs: seq<nat>, was: Before, numUsed: nat, numFree: nat)
      requires Covers(bs, was) && Tally(|blocks|, |bs|, bs, was, numUsed, numFree)
      ensures blocks == Survivors(bs, Counts(bs, was), size, 0)
      ensures Sweeping(|blocks|, bs, |bs|, was) && numFree == |chain| && numUsed + numFree == CellCount(|blocks|)
    {
      hide IsChain, Distinct, ConsHeap.Sweeping, ConsHeap.Counts;
      CountsLength(bs, was);
      assert bs[|bs|..] == [] && blocks[..|blocks|] == blocks;
    }

    method SweepOne(k: nat, lim: nat, numUsed: nat, numFree: nat, ghost j: nat, ghost bs: seq<nat>, ghost was: Before)
        returns (k': nat, numUsed': nat, numFree': nat)
      requires Covers(bs, was) && Tally(k, j, bs, was, numUsed, numFree) && k < |blocks| && j < |bs|
      requires 0 < size && 0 < width && index <= size && Distinct(bs)
      requires LimitsOk(bs, was)
      requires lim == if j == 0 then index else size
      modifies this`blocks, this`cells, this`bits, this`free, this`chain
      ensures Tally(k', j + 1, bs, was, numUsed', numFree')
      ensures k' <= |blocks| && |blocks| - k' == |old(blocks)| - k - 1
    {
      hide ConsHeap.LimitsOk;
      hide Freed, IsChain, Distinct, ConsHeap.Sweeping, ConsHeap.Counts, ConsHeap.CellCount, Survivors;
      CountsLength(bs, was);
      ghost var counts := Counts(bs, was);
      SurvivorsStep(bs, counts, size, numFree, j);
      NextBlock(k, bs, j, was);
      CellCountStep(k);
      ghost var kept := blocks[..k];
      var used;
      k', used, numFree' := SweepNext(k, lim, numFree, bs, j, was);
      numUsed' := numUsed + used;
      ConcatMiddle(kept, bs[j], Survivors(bs[j + 1..], counts[j + 1..], size, numFree'));
    }

    lemma ConcatMiddle(a: seq<nat>, x: nat, b: seq<nat>)
      ensures (a + [x]) + b == a + ([x] + b)
    {
    }

    lemma EndSweep(bs: seq<nat>, was: Before)
      requires 0 < size && 0 < width && index <= size && (bs == [] ==> index == size)
      requires Sweeping(|blocks|, bs, |bs|, was)
      requires LimitsOk(bs, was)
      ensures Valid() && Clean()
      ensures forall p :: InUse(p) <==>
        p.Cell? && p.block in bs && p.i < was.limits[p.block] <= |was.marks[p.block]| && was.marks[p.block][p.i]
      ensures forall p :: InUse(p) ==> p in cells && p in was.cells && cells[p] == was.cells[p]
    {
      assert blocks[..|blocks|] == blocks && bs[..|bs|] == bs;
      hide IsChain, Flat, WordsOk, ClearFrom, Distinct;
      forall b | b in blocks
        ensures ClearFrom(bits[b], width, Limit(b))
      {
        ClearMore(bits[b], width, 0, Limit(b));
      }
      forall p
        ensures InUse(p) <==> p.Cell? && p.block in bs && p.i < was.limits[p.block] && was.marks[p.block][p.i]
      {
        if p.Cell? && p.block in bs && p.i < was.limits[p.block] {
          assert p.block !in blocks ==> was.Garbage(p.block, p.i);
          assert p.block in blocks ==> InBlocks(p, blocks) && Limit(p.block) == was.limits[p.block];
        }
      }
    }

    lemma ClearMore(ws: Words, w: nat, n: nat, m: nat)
      requires ClearFrom(ws, w, n) && n <= m
      ensures ClearFrom(ws, w, m)
    {
    }
  }
}
