/** The red-black tree that indexes the regions of memory holding Lisp data. */
module MemTree {
  import opened Lists
  import opened Powers
  import opened MemTreeShape
  import opened MemTreeBalance
  import opened MemTreeSteps

  /** A node.  Its children are never null: a missing child is the tree's sentinel. */
  class MemNode {
    var left: MemNode
    var right: MemNode
    var parent: MemNode?
    var color: Color
    var region: Region

    constructor Sentinel()
      ensures left == this && right == this && parent == null && color == Black
    {
      left, right, parent, color := this, this, null, Black;
      region := Region(0, 0, 0);
    }

    constructor (nil: MemNode, parent: MemNode?, region: Region)
      ensures left == nil && right == nil && this.parent == parent && color == Red && this.region == region
    {
      left, right := nil, nil;
      this.parent, this.region := parent, region;
      color := Red;
    }
  }

  ghost function Opt(p: MemNode?): Option<MemNode> { if p == null then None else Some(p) }

  lemma {:induction false} PlugIsNode<N>(ctx: Ctx<N>, t: Tree<N>)
    requires t.Node?
    ensures Plug(ctx, t).Node?
    decreases ctx
  {
    if ctx.Frame? { PlugIsNode(ctx.up, Make(ctx.onLeft, t, ctx.n, ctx.color, ctx.region, ctx.sib)); }
  }

  lemma BlackenOrder<N>(ctx: Ctx<N>, t: Tree<N>)
    ensures t.Node? ==> Contents(ctx, t.(color := Black)) == Contents(ctx, t)
  {
    if t.Node? { assert InOrder(t.(color := Black)) == InOrder(t); }
  }

  /** A red-black tree satisfies the invariant of the deletion loop at its root. */
  lemma WholeIsDeleting<N>(t: Tree<N>) returns (h: nat)
    requires RedBlack(t)
    ensures Deleting(Top, t, h) && Contents(Top, t) == InOrder(t)
  {
    var b :| Balanced(t, b);
    HeightBlack(t, b);
    h := b;
  }

  lemma InsertEndTree<N>(ctx: Ctx<N>, t: Tree<N>, h: int, tree: Tree<N>)
    requires Inserting(ctx, t, h) && CtxColor(ctx).Black?
    requires Plug(ctx, t).Node? && tree == Plug(ctx, t).(color := Black)
    ensures RedBlack(tree)
  {
    InsertEnd(ctx, t, h);
    if ctx.Frame? {
      hide NoRed, Balanced, Inserting;
      assert RedBlack(Plug(ctx, t)) && tree == Plug(ctx, t);
    }
  }

  lemma InsertedEntries<N>(ctx: Ctx<N>, x: N, r: Region, was: seq<Entry<N>>)
    requires Contents(ctx, Leaf) == was
    ensures was == Before(ctx) + After(ctx)
    ensures Contents(ctx, Node(Leaf, x, Red, r, Leaf)) == Before(ctx) + [Entry(x, r)] + After(ctx)
    ensures Contents(ctx, Node(Leaf, x, Red, r, Leaf)) == was[..|Before(ctx)|] + [Entry(x, r)] + was[|Before(ctx)|..]
  {
  }

  ghost predicate Within<N>(s: seq<Entry<N>>, lo: int, hi: int) {
    forall i :: 0 <= i < |s| ==> lo <= s[i].region.start && s[i].region.end <= hi
  }

  lemma WithinInsert<N>(s: seq<Entry<N>>, k: nat, e: Entry<N>, lo: int, hi: int)
    requires Within(s, lo, hi) && k <= |s| && lo <= e.region.start && e.region.end <= hi
    ensures Within(s[..k] + [e] + s[k..], lo, hi)
  {
  }

  /** The black height of a red-black tree. */
  ghost function BlackHeight<N>(t: Tree<N>): (h: int)
    requires RedBlack(t)
    ensures Focus(Top, t, h)
  {
    var h :| Balanced(t, h);
    h
  }

  /** Regions in address order, nonempty and disjoint. */
  ghost predicate Ordered<N>(s: seq<Entry<N>>) {
    && (forall i :: 0 <= i < |s| ==> s[i].region.start < s[i].region.end)
    && (forall i, j :: 0 <= i < j < |s| ==> s[i].region.end <= s[j].region.start)
  }

  /** Everything left of the hole ends by lo, and everything right of it starts from hi on. */
  ghost predicate Cut<N>(ctx: Ctx<N>, lo: int, hi: int) {
    && (forall i :: 0 <= i < |Before(ctx)| ==> Before(ctx)[i].region.end <= lo)
    && (forall i :: 0 <= i < |After(ctx)| ==> hi <= After(ctx)[i].region.start)
  }

  /** The context of a child. */
  ghost function Down<N>(ctx: Ctx<N>, t: Tree<N>, onLeft: bool): Ctx<N>
    requires t.Node?
  {
    Frame(onLeft, t.n, t.color, t.region, if onLeft then t.right else t.left, ctx)
  }

  ghost function ChildTree<N>(t: Tree<N>, onLeft: bool): Tree<N>
    requires t.Node?
  {
    if onLeft then t.left else t.right
  }

  lemma DownContents<N>(ctx: Ctx<N>, t: Tree<N>, onLeft: bool)
    requires t.Node?
    ensures Contents(Down(ctx, t, onLeft), ChildTree(t, onLeft)) == Contents(ctx, t)
  {
    ContentsUp(Down(ctx, t, onLeft), ChildTree(t, onLeft));
  }

  /** The entries of the focus lie between those before and after it. */
  lemma FocusEntries<N>(ctx: Ctx<N>, t: Tree<N>)
    requires Ordered(Contents(ctx, t))
    ensures Ordered(InOrder(t))
  {
    var c, b, o := Contents(ctx, t), |Before(ctx)|, InOrder(t);
    assert forall i :: 0 <= i < |o| ==> o[i] == c[b + i];
  }

  lemma CutLeft<N>(ctx: Ctx<N>, t: Tree<N>, lo: int, hi: int)
    requires t.Node? && Cut(ctx, lo, hi) && Ordered(InOrder(t)) && hi <= t.region.start
    ensures Cut(Down(ctx, t, true), lo, hi)
  {
    var o, l, r := InOrder(t), |InOrder(t.left)|, InOrder(t.right);
    assert o[l] == Entry(t.n, t.region);
    assert forall i :: 0 <= i < |r| ==> r[i] == o[l + 1 + i];
    var a := [Entry(t.n, t.region)] + r;
    assert forall i :: 0 <= i < |a| ==> a[i] == o[l + i];
    assert After(Down(ctx, t, true)) == a + After(ctx);
  }

  lemma CutRight<N>(ctx: Ctx<N>, t: Tree<N>, lo: int, hi: int)
    requires t.Node? && Cut(ctx, lo, hi) && Ordered(InOrder(t)) && t.region.end <= lo
    ensures Cut(Down(ctx, t, false), lo, hi)
  {
    var o, l := InOrder(t), InOrder(t.left);
    var a := l + [Entry(t.n, t.region)];
    assert o[|l|] == Entry(t.n, t.region);
    assert forall i :: 0 <= i < |a| ==> a[i] == o[i];
    assert Before(Down(ctx, t, false)) == Before(ctx) + a;
  }

  lemma OrderedInsert<N>(ctx: Ctx<N>, x: N, r: Region)
    requires Ordered(Before(ctx) + After(ctx)) && Cut(ctx, r.start, r.end) && r.start < r.end
    ensures Ordered(Before(ctx) + [Entry(x, r)] + After(ctx))
  {
    hide Before, After, Ordered;
    OrderedAround(Before(ctx), Entry(x, r), After(ctx));
  }

  lemma OrderedAround<N>(a: seq<Entry<N>>, e: Entry<N>, b: seq<Entry<N>>)
    requires Ordered(a + b) && e.region.start < e.region.end
    requires forall i :: 0 <= i < |a| ==> a[i].region.end <= e.region.start
    requires forall i :: 0 <= i < |b| ==> e.region.end <= b[i].region.start
    ensures Ordered(a + [e] + b)
  {
    var s := a + [e] + b;
    forall i | 0 <= i < |s|
      ensures s[i].region.start < s[i].region.end
    {
      if i != |a| { assert s[i] == (a + b)[if i < |a| then i else i - 1]; }
    }
    forall i, j | 0 <= i < j < |s|
      ensures s[i].region.end <= s[j].region.start
    {
      if i != |a| && j != |a| {
        assert s[i] == (a + b)[if i < |a| then i else i - 1];
        assert s[j] == (a + b)[if j < |a| then j else j - 1];
      }
    }
  }

  // ---------- What a deletion leaves ----------

  /** The entries without the k-th region.  The node that goes is y: the region's own, or
      that of the next region, which moves into the node set free. */
  ghost function Removed<N>(s: seq<Entry<N>>, k: nat, y: N): seq<Entry<N>>
    requires k < |s| && (y == s[k].n || k + 1 < |s|)
  {
    if y == s[k].n then s[..k] + s[k + 1..]
    else s[..k] + [Entry(s[k].n, s[k + 1].region)] + s[k + 2..]
  }

  ghost function Regions<N>(s: seq<Entry<N>>): seq<Region> { seq(|s|, i requires 0 <= i < |s| => s[i].region) }

  /** Whichever node goes, exactly the k-th region goes. */
  lemma RemovedRegions<N>(s: seq<Entry<N>>, k: nat, y: N)
    requires k < |s| && (y == s[k].n || k + 1 < |s|)
    ensures Regions(Removed(s, k, y)) == Regions(s)[..k] + Regions(s)[k + 1..]
  {
  }

  lemma RemovedAt<N>(s: seq<Entry<N>>, k: nat, y: N, i: nat)
    requires k < |s| && (y == s[k].n || k + 1 < |s|) && i < |s| - 1
    ensures |Removed(s, k, y)| == |s| - 1
    ensures Removed(s, k, y)[i].region == s[if i < k then i else i + 1].region
  {
  }

  lemma RemovedOrdered<N>(s: seq<Entry<N>>, k: nat, y: N)
    requires k < |s| && (y == s[k].n || k + 1 < |s|) && Ordered(s)
    ensures Ordered(Removed(s, k, y))
  {
    var r := Removed(s, k, y);
    assert |r| == |s| - 1;
    hide Removed;
    forall i | 0 <= i < |r|
      ensures r[i].region == s[if i < k then i else i + 1].region
    {
      RemovedAt(s, k, y, i);
    }
  }

  lemma RemovedWithin<N>(s: seq<Entry<N>>, k: nat, y: N, lo: int, hi: int)
    requires k < |s| && (y == s[k].n || k + 1 < |s|) && Within(s, lo, hi)
    ensures Within(Removed(s, k, y), lo, hi)
  {
    var r := Removed(s, k, y);
    assert |r| == |s| - 1;
    hide Removed;
    forall i | 0 <= i < |r|
      ensures lo <= r[i].region.start && r[i].region.end <= hi
    {
      RemovedAt(s, k, y, i);
    }
  }

  /** Any node can be brought into focus. */
  lemma {:induction false} LocateFocus<N>(m: Mem<N>, nil: N, ctx: Ctx<N>, t: Tree<N>, h: int, p: N, z: N)
      returns (ctx': Ctx<N>, t': Tree<N>, h': int)
    requires Zip(m, nil, ctx, t, p) && Focus(ctx, t, h) && z in Nodes(t)
    ensures Zip(m, nil, ctx', t', z) && t'.Node? && Focus(ctx', t', h') && Contents(ctx', t') == Contents(ctx, t)
    decreases t
  {
    hide Zip, Focus, Contents;
    Around(m, nil, ctx, t, p);
    if z == t.n {
      ctx', t', h' := ctx, t, h;
    } else {
      var onLeft := z in Nodes(t.left);
      GoDown(m, nil, ctx, t, p, onLeft);
      FocusDown(ctx, t, h, onLeft);
      DownContents(ctx, t, onLeft);
      ctx', t', h' := LocateFocus(m, nil, Down(ctx, t, onLeft), ChildTree(t, onLeft), h - One(t.color),
        m.links[p].Child(onLeft), z);
    }
  }

  ghost function OnlyChild<N>(t: Tree<N>): Tree<N>
    requires t.Node?
  {
    if t.left.Node? then t.left else t.right
  }

  /** What is left where a node with at most one child is taken out: without a black node, the
      focus is short; without a red one, the tree is red-black as it is. */
  lemma OnlyChildFocus<N>(ctx: Ctx<N>, t: Tree<N>, h: int)
    requires Focus(ctx, t, h) && t.Node? && (t.left.Leaf? || t.right.Leaf?)
    ensures h == One(t.color)
    ensures t.color.Black? ==> Deleting(ctx, OnlyChild(t), 0)
    ensures t.color.Red? ==> Focus(ctx, OnlyChild(t), 0)
  {
    assert Balanced(t.left, h - One(t.color)) && Balanced(t.right, h - One(t.color));
    assert NoRed(t.left) && NoRed(t.right);
    assert h - One(t.color) == 0;
    assert Balanced(OnlyChild(t), 0) && NoRed(OnlyChild(t));
  }

  lemma WithRegionFocus<N>(ctx: Ctx<N>, z: N, r: Region, t: Tree<N>)
    ensures ParentOf(WithRegion(ctx, z, r)) == ParentOf(ctx)
    ensures Deleting(ctx, t, 0) ==> Deleting(WithRegion(ctx, z, r), t, 0)
    ensures Focus(ctx, t, 0) ==> Focus(WithRegion(ctx, z, r), t, 0)
  {
    WithRegionShape(ctx, z, r, 0);
    WithRegionShape(ctx, z, r, 1);
  }

  lemma TopContents<N>(t: Tree<N>)
    ensures Contents(Top, t) == InOrder(t)
  {
  }

  lemma FocusWhole<N>(ctx: Ctx<N>, t: Tree<N>, h: int)
    requires Focus(ctx, t, h)
    ensures RedBlack(Plug(ctx, t))
  {
    PlugRedBlack(ctx, t, h);
  }

  lemma SpliceKeeps<N>(m: Mem<N>, y: N, x: N)
    requires y in m.links && x in m.links && (m.links[y].parent.Some? ==> m.links[y].parent.value in m.links)
    requires x != y
    ensures var m' := Splice(m, y, x);
      y in m'.links && m'.links[y].color == m.links[y].color && m'.links[y].region == m.links[y].region
  {
  }

  lemma OnlyChildOrder<N>(t: Tree<N>)
    requires t.Node? && (t.left.Leaf? || t.right.Leaf?)
    ensures var e := [Entry(t.n, t.region)];
      if t.left.Leaf? then InOrder(t.left) == [] && InOrder(t) == e + InOrder(OnlyChild(t))
      else InOrder(t.left) == InOrder(OnlyChild(t)) && InOrder(t) == InOrder(OnlyChild(t)) + e
  {
    assert InOrder<N>(Leaf) == [];
  }

  /** The entries after the focus node itself is taken out. */
  lemma OwnRemoved<N>(ctx: Ctx<N>, t: Tree<N>) returns (k: nat)
    requires t.Node? && (t.left.Leaf? || t.right.Leaf?)
    ensures k < |Contents(ctx, t)| && Contents(ctx, t)[k].n == t.n
    ensures Contents(ctx, OnlyChild(t)) == Removed(Contents(ctx, t), k, t.n)
  {
    k := |Before(ctx)| + |InOrder(t.left)|;
    var c, b, o := Contents(ctx, t), Before(ctx), InOrder(OnlyChild(t));
    OnlyChildOrder(t);
    if t.left.Leaf? {
      assert c == b + [Entry(t.n, t.region)] + (o + After(ctx));
    } else {
      assert c == (b + o) + [Entry(t.n, t.region)] + After(ctx);
    }
  }

  /** The entries after the successor is taken out and its region moved to z. */
  lemma SuccessorRemoved<N>(ctx: Ctx<N>, t: Tree<N>, z: N) returns (k: nat)
    requires t.Node? && t.left.Leaf? && LeftSpine(ctx, z) && z != t.n
    ensures k + 1 < |Contents(ctx, t)| && Contents(ctx, t)[k].n == z && Contents(ctx, t)[k + 1].n == t.n
    ensures Contents(WithRegion(ctx, z, t.region), OnlyChild(t)) == Removed(Contents(ctx, t), k, t.n)
  {
    OnlyChildOrder(t);
    hide LeftSpine, WithRegion, Before, After, InOrder;
    WithRegionOrder(ctx, z, t.region);
    var b, a, o := Before(ctx), After(ctx), InOrder(t.right);
    k := |b| - 1;
    assert Contents(ctx, t) == b + [Entry(t.n, t.region)] + (o + a);
    RemoveNext(b, Entry(t.n, t.region), o + a);
    assert Contents(WithRegion(ctx, z, t.region), t.right) == b[..k] + [Entry(z, t.region)] + (o + a);
  }

  lemma RemoveNext<N>(b: seq<Entry<N>>, e: Entry<N>, a: seq<Entry<N>>)
    requires b != [] && b[|b| - 1].n != e.n
    ensures var k := |b| - 1; Removed(b + [e] + a, k, e.n) == b[..k] + [Entry(b[k].n, e.region)] + a
  {
    var c, k := b + [e] + a, |b| - 1;
    assert c[..k] == b[..k] && c[k + 2..] == a && c[k] == b[k] && c[k + 1] == e;
  }

  class MemTree {
    const nil: MemNode
    var root: MemNode
    var minHeap: Option<int>
    var maxHeap: Option<int>
    ghost var objs: set<MemNode>   // the sentinel and every node that has been in the tree
    ghost var tree: Tree<MemNode>  // the tree that the nodes form

    /** The stored regions with their nodes, in address order. */
    ghost function Entries(): seq<Entry<MemNode>>
      reads this`tree
    {
      InOrder(tree)
    }

    ghost predicate Valid()
      reads this, objs
    {
      && Zip(Heap(), nil, Top, tree, root) && RedBlack(tree)
      && Ordered(Entries()) && InBounds()
    }

    ghost predicate InBounds()
      reads this`tree, this`minHeap, this`maxHeap
    {
      if minHeap.None? || maxHeap.None? then minHeap == maxHeap && Entries() == []
      else Within(Entries(), minHeap.value, maxHeap.value)
    }

    /** The links of all the nodes, as a value. */
    ghost function Heap(): Mem<MemNode>
      reads this`root, this`objs, objs
    {
      Mem(map n | n in objs :: Links(n.left, n.right, Opt(n.parent), n.color, n.region), root)
    }

    constructor ()
      ensures fresh(nil) && objs == {nil} && Valid() && Entries() == []
    {
      var z := new MemNode.Sentinel();
      nil, root := z, z;
      minHeap, maxHeap := None, None;
      objs := {z};
      tree := Leaf;
      new;
      assert Balanced<MemNode>(Leaf, 0);
    }

    method PutLeft(n: MemNode, c: MemNode)
      requires n in objs
      modifies n`left
      ensures Heap() == SetChild(old(Heap()), n, true, c)
    {
      n.left := c;
      assert Heap().links == old(Heap()).links[n := old(Heap()).links[n].WithChild(true, c)];
    }

    method PutRight(n: MemNode, c: MemNode)
      requires n in objs
      modifies n`right
      ensures Heap() == SetChild(old(Heap()), n, false, c)
    {
      n.right := c;
      assert Heap().links == old(Heap()).links[n := old(Heap()).links[n].WithChild(false, c)];
    }

    method PutParent(n: MemNode, p: MemNode?)
      requires n in objs
      modifies n`parent
      ensures Heap() == SetParent(old(Heap()), n, Opt(p))
    {
      n.parent := p;
      assert Heap().links == old(Heap()).links[n := old(Heap()).links[n].(parent := Opt(p))];
    }

    method PutColor(n: MemNode, c: Color)
      requires n in objs
      modifies n`color
      ensures Heap() == SetColor(old(Heap()), n, c)
    {
      n.color := c;
      assert Heap().links == old(Heap()).links[n := old(Heap()).links[n].(color := c)];
    }

    method PutRegion(n: MemNode, r: Region)
      requires n in objs
      modifies n`region
      ensures Heap() == SetRegion(old(Heap()), n, r)
    {
      n.region := r;
      assert Heap().links == old(Heap()).links[n := old(Heap()).links[n].(region := r)];
    }

    method PutRoot(n: MemNode)
      modifies this`root
      ensures Heap() == old(Heap()).(root := n)
    {
      root := n;
    }

    lemma Read(n: MemNode)
      ensures Heap().root == root
      ensures n in Heap().links <==> n in objs
      ensures n in objs ==> Heap().links[n] == Links(n.left, n.right, Opt(n.parent), n.color, n.region)
    {
    }

    method RelinkParent(n: MemNode, x: MemNode, y: MemNode)
      requires n in objs && (n.parent != null ==> n.parent in objs)
      modifies this`root, objs
      ensures n in old(Heap()).links
      ensures old(Heap()).links[n].parent.Some? ==> old(Heap()).links[n].parent.value in old(Heap()).links
      ensures Heap() == Relink(old(Heap()), n, x, y, true)
    {
      hide Heap;
      Read(n);
      if n.parent != null {
        Read(n.parent);
        if x == n.parent.left { PutLeft(n.parent, y); } else { PutRight(n.parent, y); }
      } else {
        PutRoot(y);
      }
    }

    /** As `RelinkParent`, but asks first whether x is a right child. */
    method RelinkFromRight(x: MemNode, y: MemNode)
      requires x in objs && (x.parent != null ==> x.parent in objs)
      modifies this`root, objs
      ensures x in old(Heap()).links
      ensures old(Heap()).links[x].parent.Some? ==> old(Heap()).links[x].parent.value in old(Heap()).links
      ensures Heap() == Relink(old(Heap()), x, x, y, false)
    {
      hide Heap;
      Read(x);
      if x.parent != null {
        Read(x.parent);
        if x == x.parent.right { PutRight(x.parent, y); } else { PutLeft(x.parent, y); }
      } else {
        PutRoot(y);
      }
    }

    method RotateLeft(x: MemNode)
      requires CanRotate(Heap(), x, true)
      modifies this`root, objs
      ensures Heap() == Rotate(old(Heap()), nil, x, true)
    {
      hide Heap;
      Read(x);
      var y := x.right;
      Read(y);
      Read(y.left);
      PutRight(x, y.left);
      Read(y);
      if y.left != nil { PutParent(y.left, x); }
      Read(x);
      if y != nil { PutParent(y, x.parent); }
      Read(x);
      if x.parent != null { Read(x.parent); }
      RelinkParent(x, x, y);
      PutLeft(y, x);
      if x != nil { PutParent(x, y); }
    }

    method RotateRight(x: MemNode)
      requires CanRotate(Heap(), x, false)
      modifies this`root, objs
      ensures Heap() == Rotate(old(Heap()), nil, x, false)
    {
      hide Heap;
      Read(x);
      var y := x.left;
      Read(y);
      Read(y.right);
      PutLeft(x, y.right);
      Read(y);
      if y.right != nil { PutParent(y.right, x); }
      Read(x);
      if y != nil { PutParent(y, x.parent); }
      Read(x);
      if x.parent != null {
        Read(x.parent);
      }
      RelinkFromRight(x, y);
      PutRight(y, x);
      if x != nil { PutParent(x, y); }
    }

    function ChildOf(n: MemNode, onLeft: bool): MemNode
      reads n
    {
      if onLeft then n.left else n.right
    }

    method RotateAt(x: MemNode, toLeft: bool)
      requires CanRotate(Heap(), x, toLeft)
      modifies this`root, objs
      ensures Heap() == Rotate(old(Heap()), nil, x, toLeft)
    {
      if toLeft { RotateLeft(x); } else { RotateRight(x); }
    }

    /** The nodes the focus is linked to, read from memory. */
    lemma ReadAround(ctx: Ctx<MemNode>, t: Tree<MemNode>, x: MemNode)
      requires Zip(Heap(), nil, ctx, t, x)
      ensures nil in objs && nil.color == Black
      ensures t.Node? ==>
        && x in objs && x.color == t.color && x != nil && x.region == t.region
        && Opt(x.parent) == ParentOf(ctx)
        && t.n == x
      ensures t.Leaf? ==> x == nil
      ensures x == root <==> ctx.Top?
      ensures x in objs
      ensures ctx.Frame? ==>
        && ctx.n in objs && ctx.n != nil && ctx.n != x && ctx.n.color == ctx.color
          && Opt(ctx.n.parent) == ParentOf(ctx.up)
        && ctx.n.region == ctx.region
        && ChildOf(ctx.n, ctx.onLeft) == x
        && (if ctx.sib.Node? then ChildOf(ctx.n, !ctx.onLeft) == ctx.sib.n && ctx.sib.n in objs
              && ctx.sib.n.color == ctx.sib.color && ctx.sib.n != x
            else ChildOf(ctx.n, !ctx.onLeft) == nil)
        && (t.Node? ==> (ctx.n.left == x <==> ctx.onLeft))
    {
      Around(Heap(), nil, ctx, t, x);
    }

    // ---------- Insertion ----------

    /** Red parent and red uncle: both turn black, and the grandparent red. */
    method FixUncleRed(x: MemNode, ghost ctx: Ctx<MemNode>, ghost t: Tree<MemNode>) returns (g: MemNode)
      requires Zip(Heap(), nil, ctx, t, x) && t.Node?
      requires ctx.Frame? && ctx.up.Frame? && ctx.up.sib.Node?
      modifies objs
      ensures g == ctx.up.n && Zip(Heap(), nil, ctx.up.up, UncleRed(ctx, t), g)
    {
      hide Heap, Zip;
      UncleRedZip(Heap(), nil, ctx, t, x);
      ReadAround(ctx, t, x);
      GoUp(Heap(), nil, ctx, t, x);
      ReadAround(ctx.up, Make(ctx.onLeft, t, ctx.n, ctx.color, ctx.region, ctx.sib), ctx.n);
      var p := x.parent;
      g := p.parent;
      var y := if p == g.left then g.right else g.left;
      PutColor(p, Black);
      PutColor(y, Black);
      PutColor(g, Red);
    }

    /** Black uncle, inner grandchild. */
    method FixInner(x: MemNode, ghost ctx: Ctx<MemNode>, ghost t: Tree<MemNode>, ghost near: Tree<MemNode>,
                    ghost far: Tree<MemNode>)
        returns (p: MemNode)
      requires Zip(Heap(), nil, ctx, t, x) && t.Node? && ctx.Frame?
      requires t == Make(!ctx.onLeft, near, t.n, t.color, t.region, far)
      modifies this`root, objs
      ensures Zip(Heap(), nil, Frame(!ctx.onLeft, t.n, t.color, t.region, far, ctx.up),
                  Make(!ctx.onLeft, ctx.sib, ctx.n, ctx.color, ctx.region, near), p)
    {
      hide Heap, Zip;
      InnerZip(Heap(), nil, ctx, t, x, near, far);
      ReadAround(ctx, t, x);
      p := x.parent;
      RotateAt(p, x != p.left);
    }

    /** Black uncle, outer grandchild. */
    method FixOuter(x: MemNode, ghost ctx: Ctx<MemNode>, ghost t: Tree<MemNode>)
      requires Zip(Heap(), nil, ctx, t, x) && t.Node?
      requires ctx.Frame? && ctx.up.Frame? && ctx.onLeft == ctx.up.onLeft
      modifies this`root, objs
      ensures Zip(Heap(), nil, Frame(ctx.onLeft, ctx.n, Black, ctx.region,
                    Make(ctx.onLeft, ctx.sib, ctx.up.n, Red, ctx.up.region, ctx.up.sib), ctx.up.up), t, x)
    {
      hide Heap, Zip;
      OuterZip(Heap(), nil, ctx, t, x);
      ReadAround(ctx, t, x);
      GoUp(Heap(), nil, ctx, t, x);
      ReadAround(ctx.up, Make(ctx.onLeft, t, ctx.n, ctx.color, ctx.region, ctx.sib), ctx.n);
      var p := x.parent;
      var g := p.parent;
      var onLeft := p == g.left;
      PutColor(p, Black);
      PutColor(g, Red);
      RotateAt(g, !onLeft);
    }

    /** Memory holds Plug(ctx, t) with the focus at x, and the pointers next to x are as the
        zipper says. */
    ghost predicate At(ctx: Ctx<MemNode>, t: Tree<MemNode>, x: MemNode)
      reads this, objs
    {
      && Zip(Heap(), nil, ctx, t, x)
      && nil.color.Black?
      && (x == root <==> ctx.Top?)
      && (t.Node? ==> x in objs && x == t.n && x != nil && x.color == t.color && Opt(x.parent) == ParentOf(ctx))
      && (t.Leaf? ==> x == nil)
      && (ctx.Frame? ==> ctx.n in objs && ctx.n.color == ctx.color)
    }

    lemma Look(ctx: Ctx<MemNode>, t: Tree<MemNode>, x: MemNode)
      requires Zip(Heap(), nil, ctx, t, x)
      ensures At(ctx, t, x)
    {
      hide Heap, Zip;
      ReadAround(ctx, t, x);
    }

    /** The loop's invariant: the focus is the only possible violation, and the regions are
        those of the whole tree. */
    ghost predicate Repairing(ctx: Ctx<MemNode>, t: Tree<MemNode>, x: MemNode, h: int, entries: seq<Entry<MemNode>>)
      reads this, objs
    {
      At(ctx, t, x) && t.Node? && Inserting(ctx, t, h) && Contents(ctx, t) == entries
    }

    method InsertInner(x: MemNode, ghost ctx: Ctx<MemNode>, ghost t: Tree<MemNode>, ghost h: int,
                       ghost entries: seq<Entry<MemNode>>)
        returns (p: MemNode, ghost ctx': Ctx<MemNode>, ghost t': Tree<MemNode>)
      requires Repairing(ctx, t, x, h, entries) && CtxColor(ctx).Red? && ctx.up.Frame? && ctx.onLeft != ctx.up.onLeft
      modifies this`root, objs
      ensures Repairing(ctx', t', p, h, entries) && CtxColor(ctx').Red?
      ensures ctx'.up == ctx.up && ctx'.onLeft == ctx.up.onLeft && Depth(ctx') == Depth(ctx)
    {
      hide Heap, Zip, Inserting, Contents;
      Grandparent(ctx, t, h);
      ghost var near := if ctx.onLeft then t.right else t.left;
      ghost var far := if ctx.onLeft then t.left else t.right;
      ctx' := Frame(!ctx.onLeft, t.n, Red, t.region, far, ctx.up);
      t' := Make(!ctx.onLeft, ctx.sib, ctx.n, Red, ctx.region, near);
      InnerOk(ctx, t, h, near, far, ctx', t');
      InnerOrder(ctx, t, near, far, ctx', t');
      p := FixInner(x, ctx, t, near, far);
      Look(ctx', t', p);
    }

    method InsertOuter(x: MemNode, ghost ctx: Ctx<MemNode>, ghost t: Tree<MemNode>, ghost h: int,
                       ghost entries: seq<Entry<MemNode>>)
        returns (ghost ctx': Ctx<MemNode>, ghost t': Tree<MemNode>)
      requires Repairing(ctx, t, x, h, entries) && CtxColor(ctx).Red? && ctx.up.Frame? && ctx.onLeft == ctx.up.onLeft
      requires RootColor(ctx.up.sib).Black?
      modifies this`root, objs
      ensures Repairing(ctx', t', x, h, entries) && Depth(ctx') < Depth(ctx)
    {
      hide Heap, Zip, Inserting, Contents;
      Grandparent(ctx, t, h);
      ctx' := Frame(ctx.onLeft, ctx.n, Black, ctx.region,
                    Make(ctx.onLeft, ctx.sib, ctx.up.n, Red, ctx.up.region, ctx.up.sib), ctx.up.up);
      t' := t;
      OuterOk(ctx, t, h, ctx');
      OuterOrder(ctx, t, ctx');
      FixOuter(x, ctx, t);
      Look(ctx', t', x);
    }

    /** One round: the violation moves up, or goes away. */
    method InsertRound(x: MemNode, ghost ctx: Ctx<MemNode>, ghost t: Tree<MemNode>, ghost h: int,
                       ghost entries: seq<Entry<MemNode>>)
        returns (x': MemNode, ghost ctx': Ctx<MemNode>, ghost t': Tree<MemNode>, ghost h': int)
      requires Repairing(ctx, t, x, h, entries) && CtxColor(ctx).Red?
      modifies this`root, objs
      ensures Repairing(ctx', t', x', h', entries) && Depth(ctx') < Depth(ctx)
    {
      hide Heap, Zip, Inserting, Contents, UncleRed;
      Grandparent(ctx, t, h);
      GoUp(Heap(), nil, ctx, t, x);
      ReadAround(ctx, t, x);
      ReadAround(ctx.up, Make(ctx.onLeft, t, ctx.n, ctx.color, ctx.region, ctx.sib), ctx.n);
      var p := x.parent;
      var g := p.parent;
      var onLeft := p == g.left;
      var y := if onLeft then g.right else g.left;
      if y.color == Red {
        UncleRedOk(ctx, t, h);
        UncleRedOrder(ctx, t);
        x' := FixUncleRed(x, ctx, t);
        ctx', t', h' := ctx.up.up, UncleRed(ctx, t), h + 1;
        Look(ctx', t', x');
      } else {
        x', ctx', t', h' := x, ctx, t, h;
        if (x == p.left) != onLeft {
          x', ctx', t' := InsertInner(x, ctx, t, h, entries);
        }
        ctx', t' := InsertOuter(x', ctx', t', h, entries);
      }
    }

    method InsertFixup(x0: MemNode, ghost ctx0: Ctx<MemNode>, ghost t0: Tree<MemNode>, ghost h0: int)
        returns (ghost tree: Tree<MemNode>)
      requires Zip(Heap(), nil, ctx0, t0, x0) && t0.Node? && Inserting(ctx0, t0, h0)
      modifies this`root, objs
      ensures Zip(Heap(), nil, Top, tree, root) && RedBlack(tree) && InOrder(tree) == Contents(ctx0, t0)
    {
      hide Heap, Zip, Inserting, Contents;
      var x := x0;
      ghost var ctx, t, h := ctx0, t0, h0;
      Look(ctx, t, x);
      while x != root && x.parent.color == Red
        invariant Repairing(ctx, t, x, h, Contents(ctx0, t0))
        decreases Depth(ctx)
      {
        x, ctx, t, h := InsertRound(x, ctx, t, h, Contents(ctx0, t0));
      }
      tree := BlackenRoot(x, ctx, t);
      InsertEndTree(ctx, t, h, tree);
    }

    /** The last step of both repairs: the root is blackened. */
    method BlackenRoot(x: MemNode, ghost ctx: Ctx<MemNode>, ghost t: Tree<MemNode>)
        returns (ghost tree: Tree<MemNode>)
      requires Zip(Heap(), nil, ctx, t, x) && t.Node?
      modifies objs
      ensures Zip(Heap(), nil, Top, tree, root)
      ensures Plug(ctx, t).Node? && tree == Plug(ctx, t).(color := Black)
      ensures InOrder(tree) == Contents(ctx, t)
    {
      PlugIsNode(ctx, t);
      hide Heap, Zip, Contents, Plug;
      tree := Plug(ctx, t);
      ZipTop(Heap(), nil, ctx, t, x);
      ReadAround(Top, tree, root);
      RecolorZip(Heap(), nil, Top, tree, root, Black);
      PutColor(root, Black);
      PlugContents(ctx, t);
      tree := tree.(color := Black);
    }

    // ---------- Deletion ----------

    /** The sibling is red: after a rotation at the parent it is black. */
    method FixSiblingRed(x: MemNode, ghost ctx: Ctx<MemNode>, ghost t: Tree<MemNode>, ghost near: Tree<MemNode>,
                         ghost far: Tree<MemNode>)
      requires Zip(Heap(), nil, ctx, t, x) && ctx.Frame? && ctx.sib.Node? && Opt(x.parent) == ParentOf(ctx)
      requires ctx.sib == Make(ctx.onLeft, near, ctx.sib.n, ctx.sib.color, ctx.sib.region, far)
      modifies this`root, objs
      ensures Zip(Heap(), nil, Frame(ctx.onLeft, ctx.n, Red, ctx.region, near,
                    Frame(ctx.onLeft, ctx.sib.n, Black, ctx.sib.region, far, ctx.up)), t, x)
      ensures Opt(x.parent) == ParentOf(ctx)
    {
      hide Heap, Zip;
      SiblingRedZip(Heap(), nil, ctx, t, x, near, far);
      ReadAround(ctx, t, x);
      Read(nil);
      var p := x.parent;
      var onLeft := x == p.left;
      var w := ChildOf(p, !onLeft);
      PutColor(w, Black);
      PutColor(p, Red);
      RotateAt(p, onLeft);
      Read(nil);
      ReadAround(Frame(ctx.onLeft, ctx.n, Red, ctx.region, near,
                   Frame(ctx.onLeft, ctx.sib.n, Black, ctx.sib.region, far, ctx.up)), t, x);
    }

    /** The sibling and its children are black: the sibling turns red. */
    method FixSiblingBlack(x: MemNode, ghost ctx: Ctx<MemNode>, ghost t: Tree<MemNode>) returns (p: MemNode)
      requires Zip(Heap(), nil, ctx, t, x) && ctx.Frame? && ctx.sib.Node? && Opt(x.parent) == ParentOf(ctx)
      modifies objs
      ensures Zip(Heap(), nil, ctx.up, Make(ctx.onLeft, t, ctx.n, ctx.color, ctx.region, ctx.sib.(color := Red)), p)
    {
      hide Heap, Zip;
      SiblingBlackZip(Heap(), nil, ctx, t, x);
      ReadAround(ctx, t, x);
      p := x.parent;
      PutColor(ChildOf(p, x != p.left), Red);
    }

    /** The sibling's far child is black: a rotation at the sibling makes it red. */
    method FixFarBlack(x: MemNode, ghost ctx: Ctx<MemNode>, ghost t: Tree<MemNode>,
                       ghost near: Tree<MemNode>, ghost far: Tree<MemNode>, ghost a: Tree<MemNode>,
                         ghost b: Tree<MemNode>)
      requires Zip(Heap(), nil, ctx, t, x) && ctx.Frame? && ctx.sib.Node? && near.Node?
      requires Opt(x.parent) == ParentOf(ctx)
      requires ctx.sib == Make(ctx.onLeft, near, ctx.sib.n, ctx.sib.color, ctx.sib.region, far)
      requires near == Make(ctx.onLeft, a, near.n, near.color, near.region, b)
      modifies this`root, objs
      ensures Zip(Heap(), nil, ctx.(sib := Make(ctx.onLeft, a, near.n, Black, near.region,
                    Make(ctx.onLeft, b, ctx.sib.n, Red, ctx.sib.region, far))), t, x)
      ensures Opt(x.parent) == ParentOf(ctx)
    {
      hide Heap, Zip;
      FarBlackZip(Heap(), nil, ctx, t, x, near, far, a, b);
      ReadAround(ctx, t, x);
      ReadNephew(ctx, t, x, ctx.onLeft, near, far);
      Read(nil);
      var p := x.parent;
      var onLeft := x == p.left;
      var w := ChildOf(p, !onLeft);
      PutColor(ChildOf(w, onLeft), Black);
      PutColor(w, Red);
      RotateAt(w, !onLeft);
      Read(nil);
      ReadAround(ctx.(sib := Make(ctx.onLeft, a, near.n, Black, near.region,
                   Make(ctx.onLeft, b, ctx.sib.n, Red, ctx.sib.region, far))), t, x);
    }

    /** A child of the focus's sibling, read from memory. */
    lemma ReadNephew(ctx: Ctx<MemNode>, t: Tree<MemNode>, x: MemNode, onLeft: bool, f: Tree<MemNode>, g: Tree<MemNode>)
      requires Zip(Heap(), nil, ctx, t, x) && ctx.Frame? && ctx.sib.Node?
      requires ctx.sib == Make(onLeft, f, ctx.sib.n, ctx.sib.color, ctx.sib.region, g)
      ensures ctx.sib.n in objs && ctx.sib.n == ChildOf(ctx.n, !ctx.onLeft)
      ensures f.Node? ==> ChildOf(ctx.sib.n, onLeft) == f.n && f.n in objs && f.n.color == f.color
      ensures f.Leaf? ==> ChildOf(ctx.sib.n, onLeft) == nil
      ensures ChildOf(ctx.sib.n, onLeft).color == RootColor(f)
    {
      hide Heap, Zip;
      ReadAround(ctx, t, x);
      Read(ctx.n);
      Read(ctx.sib.n);
      GoUp(Heap(), nil, ctx, t, x);
      GoDown(Heap(), nil, ctx.up, Make(ctx.onLeft, t, ctx.n, ctx.color, ctx.region, ctx.sib), ctx.n, !ctx.onLeft);
      var c1 := Frame(!ctx.onLeft, ctx.n, ctx.color, ctx.region, t, ctx.up);
      GoDown(Heap(), nil, c1, ctx.sib, ctx.sib.n, onLeft);
      ReadAround(Frame(onLeft, ctx.sib.n, ctx.sib.color, ctx.sib.region, g, c1), f, ChildOf(ctx.sib.n, onLeft));
    }

    /** The sibling's far child is red: the last rotation, at the parent. */
    method FixFarRed(x: MemNode, ghost ctx: Ctx<MemNode>, ghost t: Tree<MemNode>, ghost near: Tree<MemNode>,
                     ghost far: Tree<MemNode>)
      requires Zip(Heap(), nil, ctx, t, x) && ctx.Frame? && ctx.sib.Node? && far.Node? && Opt(x.parent) == ParentOf(ctx)
      requires ctx.sib == Make(ctx.onLeft, near, ctx.sib.n, ctx.sib.color, ctx.sib.region, far)
      modifies this`root, objs
      ensures Zip(Heap(), nil, ctx.up, FarRed(ctx, t, near, far), ctx.sib.n)
    {
      hide Heap, Zip;
      FarRedZip(Heap(), nil, ctx, t, x, near, far);
      ReadAround(ctx, t, x);
      ReadNephew(ctx, t, x, !ctx.onLeft, far, near);
      var p := x.parent;
      var onLeft := x == p.left;
      var w := ChildOf(p, !onLeft);
      PutColor(w, p.color);
      PutColor(p, Black);
      PutColor(ChildOf(w, !onLeft), Black);
      RotateAt(p, onLeft);
    }

    ghost predicate Shrinking(ctx: Ctx<MemNode>, t: Tree<MemNode>, x: MemNode, h: nat, entries: seq<Entry<MemNode>>)
      reads this, objs
    {
      At(ctx, t, x) && Opt(x.parent) == ParentOf(ctx) && Deleting(ctx, t, h) && Contents(ctx, t) == entries
    }

    ghost function Measure(ctx: Ctx<MemNode>, t: Tree<MemNode>): nat {
      if RootColor(t).Black? then Depth(ctx) + 1 else 0
    }

    /** Makes the sibling black. */
    method DeleteSiblingRed(x: MemNode, ghost ctx: Ctx<MemNode>, ghost t: Tree<MemNode>, ghost h: nat,
                            ghost entries: seq<Entry<MemNode>>)
        returns (ghost ctx': Ctx<MemNode>)
      requires Shrinking(ctx, t, x, h, entries) && ctx.Frame? && ctx.sib.Node? && ctx.sib.color.Red?
      modifies this`root, objs
      ensures Shrinking(ctx', t, x, h, entries)
      ensures ctx'.Frame? && ctx'.sib.Node? && ctx'.sib.color.Black?
      ensures ctx'.color.Red? && Depth(ctx') == Depth(ctx) + 1
    {
      hide Heap, Zip, Deleting, Contents;
      ghost var near := if ctx.onLeft then ctx.sib.left else ctx.sib.right;
      ghost var far := if ctx.onLeft then ctx.sib.right else ctx.sib.left;
      ctx' := Frame(ctx.onLeft, ctx.n, Red, ctx.region, near,
                    Frame(ctx.onLeft, ctx.sib.n, Black, ctx.sib.region, far, ctx.up));
      SiblingRedOk(ctx, t, h, near, far, ctx');
      SiblingRedOrder(ctx, t, near, far, ctx');
      FixSiblingRed(x, ctx, t, near, far);
      Look(ctx', t, x);
    }

    /** Black sibling with black children. */
    method DeleteSiblingBlack(x: MemNode, ghost ctx: Ctx<MemNode>, ghost t: Tree<MemNode>, ghost h: nat,
                              ghost entries: seq<Entry<MemNode>>)
        returns (p: MemNode, ghost ctx': Ctx<MemNode>, ghost t': Tree<MemNode>, ghost h': nat)
      requires Shrinking(ctx, t, x, h, entries) && RootColor(t).Black? && ctx.Frame? && ctx.sib.Node?
      requires ctx.sib.color.Black?
      requires RootColor(ctx.sib.left).Black? && RootColor(ctx.sib.right).Black?
      modifies objs
      ensures Shrinking(ctx', t', p, h', entries)
      ensures RootColor(t') == ctx.color && ctx' == ctx.up
    {
      hide Heap, Zip, Deleting, Contents;
      SiblingBlackOk(ctx, t, h);
      SiblingBlackOrder(ctx, t);
      p := FixSiblingBlack(x, ctx, t);
      ctx', h' := ctx.up, h + One(ctx.color);
      t' := Make(ctx.onLeft, t, ctx.n, ctx.color, ctx.region, ctx.sib.(color := Red));
      Look(ctx', t', p);
    }

    /** Makes the sibling's far child red. */
    method DeleteFarBlack(x: MemNode, ghost ctx: Ctx<MemNode>, ghost t: Tree<MemNode>, ghost h: nat,
                          ghost entries: seq<Entry<MemNode>>,
                          ghost near: Tree<MemNode>, ghost far: Tree<MemNode>)
        returns (ghost ctx': Ctx<MemNode>, ghost near': Tree<MemNode>, ghost far': Tree<MemNode>)
      requires Shrinking(ctx, t, x, h, entries) && ctx.Frame? && ctx.sib.Node? && ctx.sib.color.Black?
      requires ctx.sib == Make(ctx.onLeft, near, ctx.sib.n, Black, ctx.sib.region, far)
      requires RootColor(far).Black? && near.Node? && near.color.Red?
      modifies this`root, objs
      ensures Shrinking(ctx', t, x, h, entries)
      ensures ctx'.Frame? && ctx'.sib.Node? && ctx'.sib.color.Black? && ctx'.onLeft == ctx.onLeft && ctx'.up == ctx.up
      ensures ctx'.sib == Make(ctx.onLeft, near', ctx'.sib.n, Black, ctx'.sib.region, far') && RootColor(far').Red?
    {
      hide Heap, Zip, Deleting, Contents;
      ghost var a := if ctx.onLeft then near.left else near.right;
      ghost var b := if ctx.onLeft then near.right else near.left;
      near', far' := a, Make(ctx.onLeft, b, ctx.sib.n, Red, ctx.sib.region, far);
      ghost var sib' := Make(ctx.onLeft, a, near.n, Black, near.region, far');
      FarBlackOk(ctx, t, h, near, far, a, b, sib');
      FarBlackOrder(ctx, t, near, far, a, b, sib');
      FixFarBlack(x, ctx, t, near, far, a, b);
      ctx' := ctx.(sib := sib');
      Look(ctx', t, x);
    }

    /** The shortage is made up, and the loop is told so by moving to the root. */
    method DeleteFarRed(x: MemNode, ghost ctx: Ctx<MemNode>, ghost t: Tree<MemNode>, ghost h: nat,
                        ghost entries: seq<Entry<MemNode>>,
                        ghost near: Tree<MemNode>, ghost far: Tree<MemNode>)
        returns (ghost t': Tree<MemNode>, ghost h': nat)
      requires Shrinking(ctx, t, x, h, entries) && RootColor(t).Black? && ctx.Frame? && ctx.sib.Node?
      requires ctx.sib.color.Black?
      requires ctx.sib == Make(ctx.onLeft, near, ctx.sib.n, Black, ctx.sib.region, far) && RootColor(far).Red?
      modifies this`root, objs
      ensures Shrinking(Top, t', root, h', entries)
    {
      hide Heap, Zip, Deleting, Contents, Plug, FarRed;
      FarRedOk(ctx, t, h, near, far);
      FarRedOrder(ctx, t, near, far);
      FixFarRed(x, ctx, t, near, far);
      t' := Plug(ctx.up, FarRed(ctx, t, near, far));
      PlugContents(ctx.up, FarRed(ctx, t, near, far));
      ZipTop(Heap(), nil, ctx.up, FarRed(ctx, t, near, far), ctx.sib.n);
      Read(nil);
      Look(Top, t', root);
      h' := WholeIsDeleting(t');
      PlugIsNode(ctx.up, FarRed(ctx, t, near, far));
    }

    /** One round with a black, short focus and a black sibling. */
    method DeleteBlackRound(x: MemNode, ghost ctx: Ctx<MemNode>, ghost t: Tree<MemNode>, ghost h: nat,
                            ghost entries: seq<Entry<MemNode>>)
        returns (x': MemNode, ghost ctx': Ctx<MemNode>, ghost t': Tree<MemNode>, ghost h': nat)
      requires Shrinking(ctx, t, x, h, entries) && RootColor(t).Black?
      requires ctx.Frame? && ctx.sib.Node? && ctx.sib.color.Black?
      modifies this`root, objs
      ensures Shrinking(ctx', t', x', h', entries)
      ensures (ctx' == ctx.up && RootColor(t') == ctx.color) || ctx'.Top?
    {
      hide Heap, Zip, Deleting, Contents;
      ghost var near := if ctx.onLeft then ctx.sib.left else ctx.sib.right;
      ghost var far := if ctx.onLeft then ctx.sib.right else ctx.sib.left;
      ReadAround(ctx, t, x);
      ReadNephew(ctx, t, x, ctx.onLeft, near, far);
      ReadNephew(ctx, t, x, !ctx.onLeft, far, near);
      var onLeft := x == x.parent.left;
      var w := ChildOf(x.parent, !onLeft);
      if w.left.color == Black && w.right.color == Black {
        x', ctx', t', h' := DeleteSiblingBlack(x, ctx, t, h, entries);
      } else {
        ctx' := ctx;
        if ChildOf(w, !onLeft).color == Black {
          ctx', near, far := DeleteFarBlack(x, ctx, t, h, entries, near, far);
        }
        t', h' := DeleteFarRed(x, ctx', t, h, entries, near, far);
        x', ctx' := root, Top;
      }
    }

    /** One round with a black, short focus. */
    method DeleteRound(x: MemNode, ghost ctx: Ctx<MemNode>, ghost t: Tree<MemNode>, ghost h: nat,
                       ghost entries: seq<Entry<MemNode>>)
        returns (x': MemNode, ghost ctx': Ctx<MemNode>, ghost t': Tree<MemNode>, ghost h': nat)
      requires Shrinking(ctx, t, x, h, entries) && RootColor(t).Black? && ctx.Frame?
      modifies this`root, objs
      ensures Shrinking(ctx', t', x', h', entries)
      ensures Measure(ctx', t') < Measure(ctx, t)
    {
      hide Heap, Zip, Deleting, Contents;
      Sibling(ctx, t, h);
      ReadAround(ctx, t, x);
      ctx' := ctx;
      if ChildOf(x.parent, x != x.parent.left).color == Red {
        ctx' := DeleteSiblingRed(x, ctx, t, h, entries);
      }
      x', ctx', t', h' := DeleteBlackRound(x, ctx', t, h, entries);
    }

    method DeleteFixup(x0: MemNode, ghost ctx0: Ctx<MemNode>, ghost t0: Tree<MemNode>, ghost h0: nat)
        returns (ghost tree: Tree<MemNode>)
      requires Zip(Heap(), nil, ctx0, t0, x0) && Deleting(ctx0, t0, h0) && Opt(x0.parent) == ParentOf(ctx0)
      modifies this`root, objs
      ensures Zip(Heap(), nil, Top, tree, root) && RedBlack(tree) && InOrder(tree) == Contents(ctx0, t0)
    {
      hide Heap, Zip, Deleting, Contents;
      var x := x0;
      ghost var ctx, t, h := ctx0, t0, h0;
      Look(ctx, t, x);
      while x != root && x.color == Black
        invariant Shrinking(ctx, t, x, h, Contents(ctx0, t0))
        decreases Measure(ctx, t)
      {
        x, ctx, t, h := DeleteRound(x, ctx, t, h, Contents(ctx0, t0));
      }
      DeleteEnd(ctx, t, h);
      tree := BlackenFocus(x, ctx, t);
    }

    method BlackenFocus(x: MemNode, ghost ctx: Ctx<MemNode>, ghost t: Tree<MemNode>) returns (ghost tree: Tree<MemNode>)
      requires Zip(Heap(), nil, ctx, t, x)
      modifies objs
      ensures Zip(Heap(), nil, Top, tree, root)
      ensures tree == Plug(ctx, if t.Node? then t.(color := Black) else t)
      ensures InOrder(tree) == Contents(ctx, t)
    {
      hide Heap, Zip, Contents, Plug;
      ReadAround(ctx, t, x);
      Read(x);
      ghost var t' := if t.Node? then t.(color := Black) else t;
      if t.Node? { RecolorZip(Heap(), nil, ctx, t, x, Black); }
      ghost var same := SetColor(Heap(), x, Black);
      assert t.Leaf? ==> same.links == Heap().links;
      PutColor(x, Black);
      Read(x);
      ZipTop(Heap(), nil, ctx, t', x);
      PlugContents(ctx, t');
      BlackenOrder(ctx, t);
      tree := Plug(ctx, t');
    }

    // ---------- The operations ----------

    ghost predicate Contains(r: Region, addr: int) { r.start <= addr < r.end }

    /** The node of the region that contains an address, or the sentinel if there is none.
        The sentinel is made to contain it, so that the search always succeeds. */
    method Find(addr: int) returns (p: MemNode, ghost levels: nat)
      requires Valid()
      modifies nil`region
      ensures Valid()
      ensures p == nil ==> forall i :: 0 <= i < |Entries()| ==> !Contains(Entries()[i].region, addr)
      ensures p != nil ==>
        exists i :: 0 <= i < |Entries()| && Entries()[i] == Entry(p, p.region) && Contains(p.region, addr)
      ensures levels <= Height(tree) && Pow(2, levels) <= (|Entries()| + 1) * (|Entries()| + 1)
    {
      levels := 0;
      if minHeap.None? || addr < minHeap.value || addr > maxHeap.value {
        return nil, 0;
      }
      PutSentinel(addr);
      p, levels := Search(addr);
      HeightBound(tree);
      PowMonotone(2, levels, Height(tree));
    }

    method Search(addr: int) returns (p: MemNode, ghost levels: nat)
      requires Valid() && nil.region == Region(addr, addr + 1, 0)
      ensures p == nil ==> forall i :: 0 <= i < |Entries()| ==> !Contains(Entries()[i].region, addr)
      ensures p != nil ==>
        exists i :: 0 <= i < |Entries()| && Entries()[i] == Entry(p, p.region) && Contains(p.region, addr)
      ensures levels <= Height(tree)
    {
      levels := 0;
      p := root;
      ghost var ctx, t := Top, tree;
      assert Cut<MemNode>(Top, addr, addr + 1) && Contents(Top, tree) == Entries();
      hide Heap, Zip, RedBlack, Height, Contents, Cut;
      Look(ctx, t, p);
      ReadAround(ctx, t, p);
      while addr < p.region.start || addr >= p.region.end
        invariant At(ctx, t, p) && Contents(ctx, t) == Entries() && Cut(ctx, addr, addr + 1)
        invariant t.Node? ==> p.region == t.region
        invariant levels + Height(t) <= Height(tree)
        decreases t
      {
        var onLeft := addr < p.region.start;
        p, ctx, t := FindDown(p, ctx, t, addr, onLeft);
        levels := levels + 1;
      }
      FindEnd(ctx, t, p, addr);
    }

    method PutSentinel(addr: int)
      requires Valid()
      modifies nil`region
      ensures Valid() && nil.region == Region(addr, addr + 1, 0)
    {
      ghost var m := Heap();
      nil.region := Region(addr, addr + 1, 0);
      SentinelFree(m, Heap(), nil, Top, tree, root);
    }

    method FindDown(p: MemNode, ghost ctx: Ctx<MemNode>, ghost t: Tree<MemNode>, addr: int, onLeft: bool)
        returns (q: MemNode, ghost ctx': Ctx<MemNode>, ghost t': Tree<MemNode>)
      requires At(ctx, t, p) && t.Node? && p.region == t.region
      requires Cut(ctx, addr, addr + 1) && Ordered(Contents(ctx, t))
      requires if onLeft then addr < t.region.start else t.region.end <= addr
      ensures At(ctx', t', q) && Contents(ctx', t') == Contents(ctx, t) && Cut(ctx', addr, addr + 1)
      ensures t'.Node? ==> q.region == t'.region
      ensures t' == ChildTree(t, onLeft) && Height(t') < Height(t)
    {
      hide Heap, Zip, Contents, Ordered, Cut;
      Read(p);
      q := if onLeft then p.left else p.right;
      ctx', t' := Down(ctx, t, onLeft), ChildTree(t, onLeft);
      FocusEntries(ctx, t);
      if onLeft { CutLeft(ctx, t, addr, addr + 1); } else { CutRight(ctx, t, addr, addr + 1); }
      GoDown(Heap(), nil, ctx, t, p, onLeft);
      DownContents(ctx, t, onLeft);
      Look(ctx', t', q);
      ReadAround(ctx', t', q);
    }

    lemma FindEnd(ctx: Ctx<MemNode>, t: Tree<MemNode>, p: MemNode, addr: int)
      requires At(ctx, t, p) && Contents(ctx, t) == Entries() && Cut(ctx, addr, addr + 1)
      requires t.Node? ==> p.region == t.region && Contains(p.region, addr)
      ensures p == nil ==> forall i :: 0 <= i < |Entries()| ==> !Contains(Entries()[i].region, addr)
      ensures p != nil ==>
        exists i :: 0 <= i < |Entries()| && Entries()[i] == Entry(p, p.region) && Contains(p.region, addr)
    {
      hide Heap, Zip;
      if t.Node? {
        var k := |Before(ctx)| + |InOrder(t.left)|;
        assert Contents(ctx, t)[k] == Entry(p, p.region);
      }
    }

    /** Walks down to the place of a new region, which overlaps no stored one. */
    method Place(start: int, end: int) returns (parent: MemNode?, ghost ctx: Ctx<MemNode>, ghost h: int)
      requires Valid() && start < end
      requires forall i :: 0 <= i < |Entries()| ==> Entries()[i].region.end <= start || end <= Entries()[i].region.start
      ensures At(ctx, Leaf, nil) && Focus(ctx, Leaf, h) && Contents(ctx, Leaf) == Entries() && Cut(ctx, start, end)
      ensures Opt(parent) == ParentOf(ctx) && (parent != null ==> (start < parent.region.start <==> ctx.onLeft))
    {
      hide *;
      PlaceStart(start, end);
      var c := root;
      parent := null;
      ctx := Top;
      h := BlackHeight(tree);
      ghost var t := tree;
      while c != nil
        invariant At(ctx, t, c) && Contents(ctx, t) == Entries() && Cut(ctx, start, end) && Focus(ctx, t, h)
        invariant t.Node? ==> c != nil && c.region == t.region
        invariant Opt(parent) == ParentOf(ctx) && (parent != null ==> ctx.Frame?)
        invariant parent != null ==> (start < parent.region.start <==> ctx.onLeft)
        invariant Ordered(Entries())
        decreases t
      {
        AtIs(ctx, t, c);
        EntryAt(ctx, t, c);
        ParentDown(ctx, t, true);
        ParentDown(ctx, t, false);
        parent := c;
        var onLeft := start < c.region.start;
        FocusDown(ctx, t, h, onLeft);
        h := h - One(t.color);
        c, ctx, t := PlaceDown(c, ctx, t, start, end, onLeft);
      }
    }

    lemma PlaceStart(start: int, end: int)
      requires Valid()
      ensures At(Top, tree, root) && Focus(Top, tree, BlackHeight(tree)) && Contents(Top, tree) == Entries()
      ensures Cut<MemNode>(Top, start, end) && Ordered(Entries()) && ParentOf<MemNode>(Top) == None == Opt(null)
      ensures tree.Node? ==> root != nil && root.region == tree.region
      ensures RedBlack(tree)
    {
      hide Heap, Zip, RedBlack, Ordered;
      Look(Top, tree, root);
      ReadAround(Top, tree, root);
    }

    lemma AtIs(ctx: Ctx<MemNode>, t: Tree<MemNode>, c: MemNode)
      requires At(ctx, t, c)
      ensures c == nil <==> t.Leaf?
      ensures t.Node? ==> t.n == c
    {
    }

    lemma ParentDown(ctx: Ctx<MemNode>, t: Tree<MemNode>, onLeft: bool)
      requires t.Node?
      ensures ParentOf(Down(ctx, t, onLeft)) == Some(t.n) == Opt(t.n) && Down(ctx, t, onLeft).Frame?
      ensures Down(ctx, t, onLeft) == Frame(onLeft, t.n, t.color, t.region, if onLeft then t.right else t.left, ctx)
      ensures ChildTree(t, onLeft) == if onLeft then t.left else t.right
    {
    }

    lemma EntryAt(ctx: Ctx<MemNode>, t: Tree<MemNode>, c: MemNode)
      requires At(ctx, t, c) && t.Node? && Contents(ctx, t) == Entries()
      ensures exists i :: 0 <= i < |Entries()| && Entries()[i].region == t.region
      ensures Ordered(Entries()) ==> t.region.start < t.region.end
    {
      hide Heap, Zip;
      var k := |Before(ctx)| + |InOrder(t.left)|;
      assert Contents(ctx, t)[k] == Entry(t.n, t.region);
    }

    method PlaceDown(p: MemNode, ghost ctx: Ctx<MemNode>, ghost t: Tree<MemNode>, start: int, end: int, onLeft: bool)
        returns (q: MemNode, ghost ctx': Ctx<MemNode>, ghost t': Tree<MemNode>)
      requires At(ctx, t, p) && t.Node? && p.region == t.region
      requires Cut(ctx, start, end) && Ordered(Contents(ctx, t))
      requires if onLeft then end <= t.region.start else t.region.end <= start
      ensures At(ctx', t', q) && Contents(ctx', t') == Contents(ctx, t) && Cut(ctx', start, end)
      ensures t'.Node? ==> q != nil && q.region == t'.region
      ensures t' == ChildTree(t, onLeft) && ctx' == Down(ctx, t, onLeft)
    {
      hide Heap, Zip, Contents, Ordered, Cut;
      Read(p);
      q := if onLeft then p.left else p.right;
      ctx', t' := Down(ctx, t, onLeft), ChildTree(t, onLeft);
      FocusEntries(ctx, t);
      if onLeft { CutLeft(ctx, t, start, end); } else { CutRight(ctx, t, start, end); }
      GoDown(Heap(), nil, ctx, t, p, onLeft);
      DownContents(ctx, t, onLeft);
      Look(ctx', t', q);
      ReadAround(ctx', t', q);
    }

    /** Adds a region, which must overlap no stored one; returns its node. */
    method Insert(start: int, end: int, kind: int) returns (x: MemNode, ghost k: int)
      requires Valid() && start < end
      requires forall i :: 0 <= i < |Entries()| ==> Entries()[i].region.end <= start || end <= Entries()[i].region.start
      modifies this, objs
      ensures Valid() && fresh(x) && objs == old(objs) + {x}
      ensures 0 <= k <= |old(Entries())|
      ensures Entries() == old(Entries())[..k] + [Entry(x, Region(start, end, kind))] + old(Entries())[k..]
    {
      hide Heap, Zip, RedBlack, Contents, Ordered, Within, Cut, Focus, Before, After, InOrder;
      WidenBounds(start, end);
      var parent, ctx, h := Place(start, end);
      var r := Region(start, end, kind);
      ghost var was := Entries();
      k := |Before(ctx)|;
      x := HangNode(parent, r, ctx);
      InsertStart(ctx, x, r, h);
      tree := InsertFixup(x, ctx, Node(Leaf, x, Red, r, Leaf), h);
      InsertedEntries(ctx, x, r, was);
      OrderedInsert(ctx, x, r);
      WithinInsert(was, k, Entry(x, r), minHeap.value, maxHeap.value);
    }

    method WidenBounds(start: int, end: int)
      requires Valid()
      modifies this`minHeap, this`maxHeap
      ensures Valid() && minHeap.Some? && maxHeap.Some? && minHeap.value <= start && end <= maxHeap.value
    {
      hide Heap, Zip, RedBlack, Ordered;
      if minHeap.None? || start < minHeap.value { minHeap := Some(start); }
      if maxHeap.None? || end > maxHeap.value { maxHeap := Some(end); }
    }

    /** Creates a red node and installs it at the place found for it. */
    method HangNode(parent: MemNode?, region: Region, ghost ctx: Ctx<MemNode>) returns (x: MemNode)
      requires At(ctx, Leaf, nil) && Opt(parent) == ParentOf(ctx)
      requires parent != null ==> (region.start < parent.region.start <==> ctx.onLeft)
      modifies this`root, this`objs, objs
      ensures fresh(x) && objs == old(objs) + {x}
      ensures Zip(Heap(), nil, ctx, Node(Leaf, x, Red, region, Leaf), x)
    {
      ghost var m := Heap();
      x := new MemNode(nil, parent, region);
      objs := objs + {x};
      assert Heap() == Fresh(m, nil, x, ParentOf(ctx), region);
      hide Heap, Zip;
      Read(x);
      AttachZip(m, nil, ctx, x, region);
      if parent != null {
        if region.start < parent.region.start { PutLeft(parent, x); } else { PutRight(parent, x); }
      } else {
        PutRoot(x);
      }
    }

    /** Deletes the node z; nothing happens for null or the sentinel.  The node that goes is y. */
    method Delete(z: MemNode?) returns (ghost k: nat, ghost y: MemNode?)
      requires Valid() && (z == null || z == nil || z in Nodes(tree))
      modifies this, objs
      ensures Valid() && objs == old(objs)
      ensures z == null || z == nil ==> Entries() == old(Entries())
      ensures z != null && z != nil ==>
        && k < |old(Entries())| && old(Entries())[k].n == z
        && (y == z || (k + 1 < |old(Entries())| && old(Entries())[k + 1].n == y))
        && Entries() == Removed(old(Entries()), k, y)
    {
      hide *;
      k, y := 0, z;
      if z == null || z == nil { return; }
      ghost var was := Entries();
      ghost var ctx, t, h := DeleteReady(z);
      k, y, tree := DeleteAt(z, ctx, t, h);
      StaysValid(was, k, y);
      EntriesAre();
    }

    lemma EntriesAre()
      ensures Entries() == InOrder(tree)
    {
    }

    /** The node to delete is at a focus of the tree. */
    lemma DeleteReady(z: MemNode) returns (ctx: Ctx<MemNode>, t: Tree<MemNode>, h: int)
      requires Valid() && z != nil && z in Nodes(tree)
      ensures Zip(Heap(), nil, ctx, t, z) && t.Node? && Focus(ctx, t, h) && Contents(ctx, t) == Entries()
      ensures Ordered(Entries()) && minHeap.Some? && maxHeap.Some? && Within(Entries(), minHeap.value, maxHeap.value)
    {
      hide Heap, Zip, RedBlack, Contents, Ordered, Within, Focus, Nodes, Plug, BlackHeight;
      TopContents(tree);
      ctx, t, h := LocateFocus(Heap(), nil, Top, tree, BlackHeight(tree), root, z);
      NotEmpty(z);
    }

    lemma NotEmpty(z: MemNode)
      requires z in Nodes(tree)
      ensures Entries() != []
    {
    }

    lemma StaysValid(was: seq<Entry<MemNode>>, k: nat, y: MemNode)
      requires Zip(Heap(), nil, Top, tree, root) && RedBlack(tree)
      requires k < |was| && (y == was[k].n || k + 1 < |was|) && InOrder(tree) == Removed(was, k, y)
      requires Ordered(was) && minHeap.Some? && maxHeap.Some? && Within(was, minHeap.value, maxHeap.value)
      ensures Valid()
    {
      hide Heap, Zip, RedBlack, Ordered, Within, InOrder, Removed;
      RemovedOrdered(was, k, y);
      RemovedWithin(was, k, y, minHeap.value, maxHeap.value);
    }

    method DeleteAt(z: MemNode, ghost ctx0: Ctx<MemNode>, ghost t0: Tree<MemNode>, ghost h0: int)
        returns (ghost k: nat, ghost y: MemNode, ghost tree: Tree<MemNode>)
      requires Zip(Heap(), nil, ctx0, t0, z) && t0.Node? && Focus(ctx0, t0, h0)
      modifies this`root, objs
      ensures Zip(Heap(), nil, Top, tree, root) && RedBlack(tree)
      ensures var was := Contents(ctx0, t0);
        && k < |was| && was[k].n == z && (y == z || (k + 1 < |was| && was[k + 1].n == y))
        && InOrder(tree) == Removed(was, k, y)
    {
      hide Heap, Zip, RedBlack, Contents, Focus, InOrder, LeftSpine, WithRegion, Removed;
      Look(ctx0, t0, z);
      ReadChildren(ctx0, t0, z);
      if z.left == nil || z.right == nil {
        k := OwnRemoved(ctx0, t0);
        y := z;
        tree := TakeOut(z, ctx0, t0, h0, z);
      } else {
        var next, ctx, t, h := Successor(z, ctx0, t0, h0);
        k := SuccessorRemoved(ctx, t, z);
        y := next;
        tree := TakeOut(next, ctx, t, h, z);
      }
    }

    lemma ReadChildren(ctx: Ctx<MemNode>, t: Tree<MemNode>, x: MemNode)
      requires At(ctx, t, x) && t.Node?
      ensures x.left == nil <==> t.left.Leaf?
      ensures x.right == nil <==> t.right.Leaf?
      ensures x.left != x && x.right != x
      ensures x.region == t.region
      ensures At(Down(ctx, t, true), t.left, x.left) && At(Down(ctx, t, false), t.right, x.right)
    {
      hide Heap, Zip;
      Read(x);
      ReadAround(ctx, t, x);
      GoDown(Heap(), nil, ctx, t, x, true);
      GoDown(Heap(), nil, ctx, t, x, false);
      ReadAround(Down(ctx, t, true), t.left, x.left);
      ReadAround(Down(ctx, t, false), t.right, x.right);
      Look(Down(ctx, t, true), t.left, x.left);
      Look(Down(ctx, t, false), t.right, x.right);
    }

    /** The leftmost node of z's right subtree. */
    method Successor(z: MemNode, ghost ctx0: Ctx<MemNode>, ghost t0: Tree<MemNode>, ghost h0: int)
        returns (y: MemNode, ghost ctx: Ctx<MemNode>, ghost t: Tree<MemNode>, ghost h: int)
      requires At(ctx0, t0, z) && t0.Node? && t0.right.Node? && Focus(ctx0, t0, h0)
      ensures At(ctx, t, y) && t.Node? && t.left.Leaf? && Focus(ctx, t, h) && y != z
      ensures Contents(ctx, t) == Contents(ctx0, t0) && LeftSpine(ctx, z)
    {
      hide Heap, Zip, Focus, Contents;
      ReadChildren(ctx0, t0, z);
      y := z.right;
      ctx, t, h := Down(ctx0, t0, false), t0.right, h0 - One(t0.color);
      FocusDown(ctx0, t0, h0, false);
      DownContents(ctx0, t0, false);
      ReadChildren(ctx, t, y);
      SpineApart(ctx, t, y, z);
      while y.left != nil
        invariant At(ctx, t, y) && t.Node? && Focus(ctx, t, h) && y != z
        invariant Contents(ctx, t) == Contents(ctx0, t0) && LeftSpine(ctx, z)
        invariant y.left == nil <==> t.left.Leaf?
        decreases t
      {
        ReadChildren(ctx, t, y);
        FocusDown(ctx, t, h, true);
        DownContents(ctx, t, true);
        y, ctx, t, h := y.left, Down(ctx, t, true), t.left, h - One(t.color);
        ReadChildren(ctx, t, y);
        SpineApart(ctx, t, y, z);
      }
    }

    lemma SpineApart(ctx: Ctx<MemNode>, t: Tree<MemNode>, y: MemNode, z: MemNode)
      requires At(ctx, t, y) && t.Node? && LeftSpine(ctx, z)
      ensures y != z
    {
      hide LeftSpine, CtxNodes, Heap;
      SpineInside(ctx, z);
    }

    /** Takes out y, which lacks a child, after moving its region to z, and repairs the tree. */
    method TakeOut(y: MemNode, ghost ctx: Ctx<MemNode>, ghost t: Tree<MemNode>, ghost h: int, z: MemNode)
        returns (ghost tree: Tree<MemNode>)
      requires At(ctx, t, y) && t.Node? && (t.left.Leaf? || t.right.Leaf?) && Focus(ctx, t, h)
      requires y != z ==> LeftSpine(ctx, z)
      modifies this`root, objs
      ensures Zip(Heap(), nil, Top, tree, root) && RedBlack(tree)
      ensures InOrder(tree) == Contents(if y == z then ctx else WithRegion(ctx, z, t.region), OnlyChild(t))
    {
      hide Heap, Zip, RedBlack, Contents, Focus, InOrder, LeftSpine, WithRegion, Deleting;
      OnlyChildFocus(ctx, t, h);
      var x := Unlink(y, ctx, t);
      ghost var ctx' := ctx;
      if y != z {
        MoveRegion(y, z, x, ctx, OnlyChild(t));
        WithRegionFocus(ctx, z, t.region, OnlyChild(t));
        ctx' := WithRegion(ctx, z, t.region);
      }
      if y.color == Black {
        tree := DeleteFixup(x, ctx', OnlyChild(t), 0);
      } else {
        Read(y);
        tree := Plug(ctx', OnlyChild(t));
        ZipTop(Heap(), nil, ctx', OnlyChild(t), x);
        PlugContents(ctx', OnlyChild(t));
        FocusWhole(ctx', OnlyChild(t), 0);
      }
    }

    /** The only child of y takes its place. */
    method Unlink(y: MemNode, ghost ctx: Ctx<MemNode>, ghost t: Tree<MemNode>) returns (x: MemNode)
      requires At(ctx, t, y) && t.Node? && (t.left.Leaf? || t.right.Leaf?)
      modifies this`root, objs
      ensures Zip(Heap(), nil, ctx, OnlyChild(t), x) && Opt(x.parent) == ParentOf(ctx)
      ensures y in objs && y.color == t.color && y.region == t.region
    {
      hide Heap, Zip;
      ReadChildren(ctx, t, y);
      x := if y.left != nil then y.left else y.right;
      Read(y);
      SpliceZip(Heap(), nil, ctx, t, y, x, OnlyChild(t));
      SpliceKeeps(Heap(), y, x);
      Read(x);
      ReadAround(ctx, t, y);
      PutParent(x, y.parent);
      Read(y);
      RelinkParent(y, y, x);
      Read(x);
      Read(y);
    }

    /** The deleted node z keeps its place, and gets the region of the successor y. */
    method MoveRegion(y: MemNode, z: MemNode, x: MemNode, ghost ctx: Ctx<MemNode>, ghost child: Tree<MemNode>)
      requires Zip(Heap(), nil, ctx, child, x) && Opt(x.parent) == ParentOf(ctx) && LeftSpine(ctx, z)
      requires y in objs && y != z
      modifies objs
      ensures Zip(Heap(), nil, WithRegion(ctx, z, y.region), child, x)
      ensures Opt(x.parent) == ParentOf(ctx) && y.color == old(y.color) && y.region == old(y.region)
    {
      hide Heap, Zip, LeftSpine, WithRegion;
      SetRegionZip(Heap(), nil, ctx, child, x, z, y.region);
      Read(x);
      Read(y);
      Read(z);
      PutRegion(z, y.region);
      Read(x);
      Read(y);
    }
  }
}
