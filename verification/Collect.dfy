/** A full collection of the conses: marking from the roots, then sweeping. */
module Collect {
  import opened Lists
  import opened MarkGraph
  import opened MarkStack
  import opened ConsSweep

  /** The conses in use are those of the object graph, with the same contents. */
  ghost predicate Matches(h: ConsHeap, g: Graph)
    reads h
  {
    forall p ::
      && (h.InUse(p) <==> p in g.objs && g.objs[p].Cons?)
      && (p in g.objs ==> (p.Cell? <==> g.objs[p].Cons?))
      && (h.InUse(p) ==> p in h.cells && h.cells[p] == Pair(Lisp(g.objs[p].car), Cdr(g.objs[p].cdr)))
  }

  /** The roots: values of the program, nil among them. */
  ghost predicate Roots(g: Graph, roots: seq<Value>) {
    && (forall v :: v in roots ==> g.IsA(v))
    && Ref(g.nil) in roots && g.Markable(g.nil)
  }

  /** The conses that the program can reach. */
  ghost predicate Live(g: Graph, roots: seq<Value>, p: Addr) {
    p in Reachable(g, Of(roots)) && p in g.objs && g.objs[p].Cons?
  }

  /** The mark bits of the cells are those of the marked objects, but for the ones still to do. */
  ghost predicate BitsFor(h: ConsHeap, marked: set<Addr>, todo: set<Addr>)
    reads h
  {
    h.Valid() && forall p :: h.IsCell(p) ==> (h.Marked(p) <==> p in marked && p !in todo)
  }

  lemma CleanBits(h: ConsHeap, marked: set<Addr>)
    requires h.Valid() && h.Clean()
    ensures BitsFor(h, marked, marked)
  {
    forall p | h.IsCell(p)
      ensures !h.Marked(p)
    {
      h.Unmarked(p);
    }
  }

  /** Marking an object sets the bit of its cell, if it is a cons. */
  method SetBits(h: ConsHeap, marked: set<Addr>, ghost g: Graph)
    requires h.Valid() && h.Clean() && Matches(h, g)
    requires forall a :: a in marked ==> a in g.objs
    modifies h`bits
    ensures BitsFor(h, marked, {}) && Matches(h, g)
  {
    hide *;
    CleanBits(h, marked);
    var todo := marked;
    while todo != {}
      invariant todo <= marked && BitsFor(h, marked, todo) && Matches(h, g)
      decreases todo
    {
      var a :| a in todo;
      SetBit(h, a, marked, todo, g);
      todo := todo - {a};
    }
  }

  method SetBit(h: ConsHeap, a: Addr, ghost marked: set<Addr>, ghost todo: set<Addr>, ghost g: Graph)
    requires BitsFor(h, marked, todo) && Matches(h, g) && a in g.objs && a in todo && todo <= marked
    modifies h`bits
    ensures BitsFor(h, marked, todo - {a}) && Matches(h, g)
  {
    hide ConsHeap.Valid, ConsHeap.Marked, ConsHeap.InUse;
    CellIsCons(h, g, a);
    if a.Cell? {
      h.MarkCell(a);
    }
  }

  lemma CellIsCons(h: ConsHeap, g: Graph, a: Addr)
    requires h.Valid() && Matches(h, g) && a in g.objs
    ensures a.Cell? <==> h.IsCell(a) && h.InUse(a)
  {
  }

  /** What the sweep leaves after marking. */
  lemma Kept(h: ConsHeap, g: Graph, roots: seq<Value>, marked: set<Addr>)
    requires BitsFor(h, marked, {}) && Matches(h, g) && Roots(g, roots)
    requires marked == Final(g, {}, Of(roots))
    requires forall a :: a in marked ==> a in g.objs
    ensures h.Shape()
    ensures forall p :: h.IsCell(p) && h.Marked(p) <==> Live(g, roots, p)
    ensures forall p :: Live(g, roots, p) ==>
      p in h.cells && h.cells[p] == Pair(Lisp(g.objs[p].car), Cdr(g.objs[p].cdr))
  {
    hide Reachable, Final, ConsHeap.Marked, ConsHeap.FreeOk;
    FinalIsReachable(g, Of(roots));
    assert h.Valid();
  }

  /** A full collection.  Exactly the conses that the program can reach stay in use, with their
      car and cdr; every other cell of the blocks that stay is free; no mark bit is left; the head
      block stays, and so does every block with a reachable cons; and the counts account for every
      cell of the blocks that stay.  In particular no cons is freed that a root refers to, or that is
      held in a cons in use or in a reachable vector. */
  method FullCollection(h: ConsHeap, g: Graph, roots: seq<Value>) returns (numUsed: nat, numFree: nat)
    requires h.Valid() && h.Clean() && g.Valid() && Matches(h, g) && Roots(g, roots)
    modifies h
    ensures h.Valid() && h.Clean()
    ensures forall p :: h.InUse(p) <==> Live(g, roots, p)
    ensures forall p :: Live(g, roots, p) ==>
      p in h.cells && h.cells[p] == Pair(Lisp(g.objs[p].car), Cdr(g.objs[p].cdr))
    ensures forall p :: p in h.chain <==> h.IsCell(p) && !Live(g, roots, p)
    ensures old(h.blocks) != [] ==> h.blocks != [] && h.blocks[0] == old(h.blocks)[0]
    ensures forall b :: b in h.blocks ==> b in old(h.blocks)
    ensures numFree == |h.chain| && numUsed + numFree == h.CellCount(|h.blocks|)
    ensures forall b :: Ref(b) in roots && b in g.objs && g.objs[b].Cons? ==> h.InUse(b)
    ensures forall a, b ::
      Live(g, roots, a) && b in g.objs && g.objs[b].Cons? && Ref(b) in [g.objs[a].car, g.objs[a].cdr] ==> h.InUse(b)
    ensures forall a, b ::
      (&& (Ref(a) in roots || a in Reachable(g, Of(roots))) && a in g.objs && g.objs[a].Vector?
       && Ref(b) in g.objs[a].contents && b in g.objs && g.objs[b].Cons?) ==>
        h.InUse(b)
  {
    hide *;
    var marker := new Marker(g);
    RootsOk(g, roots);
    marker.MarkObjects(roots);
    MarkedObjects(marker);
    SetBits(h, marker.marked, g);
    Kept(h, g, roots, marker.marked);
    numUsed, numFree := SweepLive(h, g, roots);
    LiveClosed(g, roots);
  }

  /** The conses of the roots are live, and those that a live cons or a reachable vector holds. */
  lemma LiveClosed(g: Graph, roots: seq<Value>)
    requires Roots(g, roots)
    ensures forall b :: Ref(b) in roots && b in g.objs && g.objs[b].Cons? ==> Live(g, roots, b)
    ensures forall a, b ::
      Live(g, roots, a) && b in g.objs && g.objs[b].Cons? && Ref(b) in [g.objs[a].car, g.objs[a].cdr] ==>
        Live(g, roots, b)
    ensures forall a, b ::
      (&& (Ref(a) in roots || a in Reachable(g, Of(roots))) && a in g.objs && g.objs[a].Vector?
       && Ref(b) in g.objs[a].contents && b in g.objs && g.objs[b].Cons?) ==>
        Live(g, roots, b)
  {
    hide Reachable, Final, Graph.Kids;
    FinalIsReachable(g, Of(roots));
    forall b | Ref(b) in roots && b in g.objs && !g.objs[b].Subr?
      ensures b in Reachable(g, Of(roots))
    {
      FinalHolds(g, {}, Of(roots), b);
    }
    forall a, b | Live(g, roots, a) && b in g.objs && g.objs[b].Cons? && Ref(b) in [g.objs[a].car, g.objs[a].cdr]
      ensures Live(g, roots, b)
    {
      if b != g.nil { FinalFollows(g, {}, Of(roots), a, b); }
    }
    forall a, b | a in Reachable(g, Of(roots)) && a in g.objs && g.objs[a].Vector? && Ref(b) in g.objs[a].contents
      && b in g.objs && g.objs[b].Cons?
      ensures Live(g, roots, b)
    {
      FinalFollows(g, {}, Of(roots), a, b);
    }
  }

  lemma RootsOk(g: Graph, roots: seq<Value>)
    requires Roots(g, roots)
    ensures forall v :: v in roots ==> g.IsA(v)
  {
  }

  lemma MarkedObjects(marker: Marker)
    requires marker.Valid()
    ensures forall a :: a in marker.marked ==> a in marker.g.objs
  {
  }

  method SweepLive(h: ConsHeap, ghost g: Graph, ghost roots: seq<Value>) returns (numUsed: nat, numFree: nat)
    requires h.Shape() && forall p :: h.IsCell(p) && h.Marked(p) <==> Live(g, roots, p)
    requires forall p :: Live(g, roots, p) ==>
      p in h.cells && h.cells[p] == Pair(Lisp(g.objs[p].car), Cdr(g.objs[p].cdr))
    modifies h
    ensures h.Valid() && h.Clean()
    ensures forall p :: h.InUse(p) <==> Live(g, roots, p)
    ensures forall p :: Live(g, roots, p) ==>
      p in h.cells && h.cells[p] == Pair(Lisp(g.objs[p].car), Cdr(g.objs[p].cdr))
    ensures forall p :: p in h.chain <==> h.IsCell(p) && !Live(g, roots, p)
    ensures old(h.blocks) != [] ==> h.blocks != [] && h.blocks[0] == old(h.blocks)[0]
    ensures forall b :: b in h.blocks ==> b in old(h.blocks)
    ensures numFree == |h.chain| && numUsed + numFree == h.CellCount(|h.blocks|)
  {
    hide *;
    ghost var bs, was := h.blocks, h.Start();
    numUsed, numFree := h.Sweep();
    h.CountsLength(bs, was);
    SurvivorsHead(bs, h.Counts(bs, was), h.size);
    SurvivorsIn(bs, h.Counts(bs, was), h.size, 0);
    FreeOrUsed(h);
  }

  lemma FreeOrUsed(h: ConsHeap)
    requires h.Valid()
    ensures forall p :: p in h.chain <==> h.IsCell(p) && !h.InUse(p)
  {
  }

  /** A cons made after a collection is not one that the program can reach. */
  method ConsAfter(h: ConsHeap, ghost g: Graph, ghost roots: seq<Value>, car: Value, cdr: Value, extra: nat)
      returns (p: Addr)
    requires h.Valid() && h.Clean() && extra !in h.blocks
    requires forall q :: h.InUse(q) <==> Live(g, roots, q)
    requires forall q :: Live(g, roots, q) ==>
      q in h.cells && h.cells[q] == Pair(Lisp(g.objs[q].car), Cdr(g.objs[q].cdr))
    modifies h
    ensures h.Valid() && h.Clean() && !Live(g, roots, p) && p in h.cells && h.cells[p] == Pair(Lisp(car), Cdr(cdr))
    ensures forall q :: h.InUse(q) <==> Live(g, roots, q) || q == p
    ensures forall q :: Live(g, roots, q) ==>
      q in h.cells && h.cells[q] == Pair(Lisp(g.objs[q].car), Cdr(g.objs[q].cdr))
  {
    hide *;
    p := h.Cons(car, cdr, extra);
  }
}
