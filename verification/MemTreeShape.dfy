/** Parent-pointer trees with a shared sentinel, as a map from nodes to their links.

    A tree in memory is described by a zipper: the subtree at the node in focus and the
    context around it.  Every step of the red-black algorithms changes the links at the
    focus only. */
module MemTreeShape {
  import opened Lists

  datatype Color = Red | Black
  datatype Region = Region(start: int, end: int, kind: int)

  datatype Links<N> = Links(left: N, right: N, parent: Option<N>, color: Color, region: Region)
  {
    function Child(onLeft: bool): N { if onLeft then left else right }

    function WithChild(onLeft: bool, c: N): Links<N> {
      if onLeft then this.(left := c) else this.(right := c)
    }
  }

  datatype Tree<N> = Leaf | Node(left: Tree<N>, n: N, color: Color, region: Region, right: Tree<N>)

  /** A node whose subtree on the given side is `a` and on the other side `b`. */
  function Make<N>(onLeft: bool, a: Tree<N>, n: N, color: Color, region: Region, b: Tree<N>): Tree<N> {
    if onLeft then Node(a, n, color, region, b) else Node(b, n, color, region, a)
  }

  /** The hole is the child of n on the given side; `sib` is the subtree on the other side. */
  datatype Ctx<N> = Top | Frame(onLeft: bool, n: N, color: Color, region: Region, sib: Tree<N>, up: Ctx<N>)

  ghost function ParentOf<N>(ctx: Ctx<N>): Option<N> { if ctx.Top? then None else Some(ctx.n) }

  function Plug<N>(ctx: Ctx<N>, t: Tree<N>): Tree<N> {
    if ctx.Top? then t else Plug(ctx.up, Make(ctx.onLeft, t, ctx.n, ctx.color, ctx.region, ctx.sib))
  }

  datatype Mem<N> = Mem(links: map<N, Links<N>>, root: N)

  ghost function Depth<N>(ctx: Ctx<N>): nat
    decreases ctx
  {
    if ctx.Top? then 0 else 1 + Depth(ctx.up)
  }

  // ---------- Which nodes ----------

  ghost function Nodes<N>(t: Tree<N>): set<N> {
    if t.Leaf? then {} else {t.n} + Nodes(t.left) + Nodes(t.right)
  }

  ghost function CtxNodes<N>(ctx: Ctx<N>): set<N> {
    if ctx.Top? then {} else {ctx.n} + Nodes(ctx.sib) + CtxNodes(ctx.up)
  }

  ghost predicate Distinct<N>(t: Tree<N>) {
    t.Leaf? ||
    (&& Distinct(t.left) && Distinct(t.right)
     && t.n !in Nodes(t.left) && t.n !in Nodes(t.right) && Nodes(t.left) !! Nodes(t.right))
  }

  ghost predicate CtxDistinct<N>(ctx: Ctx<N>)
    decreases ctx
  {
    ctx.Top? ||
    (&& Distinct(ctx.sib) && CtxDistinct(ctx.up)
     && ctx.n !in Nodes(ctx.sib) && ctx.n !in CtxNodes(ctx.up) && Nodes(ctx.sib) !! CtxNodes(ctx.up))
  }

  // ---------- A tree in memory ----------

  ghost predicate IsTree<N>(m: map<N, Links<N>>, nil: N, p: N, parent: Option<N>, t: Tree<N>)
    decreases t
  {
    if t.Leaf? then p == nil
    else
      && p == t.n && p != nil && p in m
      && m[p].parent == parent && m[p].color == t.color && m[p].region == t.region
      && IsTree(m, nil, m[p].left, Some(p), t.left)
      && IsTree(m, nil, m[p].right, Some(p), t.right)
  }

  ghost predicate IsCtx<N>(m: map<N, Links<N>>, nil: N, root: N, ctx: Ctx<N>, p: N)
    decreases ctx
  {
    if ctx.Top? then p == root
    else
      var n := ctx.n;
      && n != nil && n in m
      && m[n].Child(ctx.onLeft) == p
      && m[n].parent == ParentOf(ctx.up) && m[n].color == ctx.color && m[n].region == ctx.region
      && IsTree(m, nil, m[n].Child(!ctx.onLeft), Some(n), ctx.sib)
      && IsCtx(m, nil, root, ctx.up, n)
  }

  /** Memory holds the tree Plug(ctx, t), with p at the focus. */
  ghost predicate Zip<N>(m: Mem<N>, nil: N, ctx: Ctx<N>, t: Tree<N>, p: N) {
    && nil in m.links && m.links[nil].color == Black
    && IsTree(m.links, nil, p, ParentOf(ctx), t)
    && IsCtx(m.links, nil, m.root, ctx, p)
    && Distinct(t) && CtxDistinct(ctx) && Nodes(t) !! CtxNodes(ctx)
  }

  ghost predicate Same<N>(m: map<N, Links<N>>, m': map<N, Links<N>>, s: set<N>) {
    forall n :: n in s && n in m ==> n in m' && m'[n] == m[n]
  }

  lemma {:induction false} FrameTree<N>(m: map<N, Links<N>>, m': map<N, Links<N>>, nil: N, p: N, parent: Option<N>,
                                        t: Tree<N>)
    requires IsTree(m, nil, p, parent, t) && Same(m, m', Nodes(t))
    ensures IsTree(m', nil, p, parent, t)
    decreases t
  {
    if t.Node? {
      FrameTree(m, m', nil, m[p].left, Some(p), t.left);
      FrameTree(m, m', nil, m[p].right, Some(p), t.right);
    }
  }

  lemma {:induction false} FrameCtx<N>(m: map<N, Links<N>>, m': map<N, Links<N>>, nil: N, root: N, ctx: Ctx<N>, p: N)
    requires IsCtx(m, nil, root, ctx, p) && Same(m, m', CtxNodes(ctx))
    ensures IsCtx(m', nil, root, ctx, p)
    decreases ctx
  {
    if ctx.Frame? {
      FrameTree(m, m', nil, m[ctx.n].Child(!ctx.onLeft), Some(ctx.n), ctx.sib);
      FrameCtx(m, m', nil, root, ctx.up, ctx.n);
    }
  }

  /** A subtree that only changes parent. */
  lemma {:induction false} Reparent<N>(m: map<N, Links<N>>, m': map<N, Links<N>>, nil: N, p: N, from: Option<N>,
                                       to: Option<N>, t: Tree<N>)
    requires IsTree(m, nil, p, from, t) && Distinct(t)
    requires Same(m, m', Nodes(t) - {p})
    requires t.Node? ==> p in m' && m'[p] == m[p].(parent := to)
    ensures IsTree(m', nil, p, to, t)
  {
    if t.Node? {
      FrameTree(m, m', nil, m[p].left, Some(p), t.left);
      FrameTree(m, m', nil, m[p].right, Some(p), t.right);
    }
  }

  /** A context whose hole is filled by another node. */
  lemma {:induction false} Rehole<N>(m: Mem<N>, m': Mem<N>, nil: N, ctx: Ctx<N>, p: N, q: N)
    requires IsCtx(m.links, nil, m.root, ctx, p) && CtxDistinct(ctx)
    requires if ctx.Top? then m'.root == q
             else m'.root == m.root && ctx.n in m'.links
                  && m'.links[ctx.n] == m.links[ctx.n].WithChild(ctx.onLeft, q)
                  && Same(m.links, m'.links, CtxNodes(ctx) - {ctx.n})
    ensures IsCtx(m'.links, nil, m'.root, ctx, q)
  {
    if ctx.Frame? {
      FrameTree(m.links, m'.links, nil, m.links[ctx.n].Child(!ctx.onLeft), Some(ctx.n), ctx.sib);
      FrameCtx(m.links, m'.links, nil, m.root, ctx.up, ctx.n);
    }
  }

  // ---------- Moving the focus ----------

  lemma {:induction false} GoUp<N>(m: Mem<N>, nil: N, ctx: Ctx<N>, t: Tree<N>, p: N)
    requires Zip(m, nil, ctx, t, p) && ctx.Frame?
    ensures Zip(m, nil, ctx.up, Make(ctx.onLeft, t, ctx.n, ctx.color, ctx.region, ctx.sib), ctx.n)
  {
  }

  lemma {:induction false} GoDown<N>(m: Mem<N>, nil: N, ctx: Ctx<N>, t: Tree<N>, p: N, onLeft: bool)
    requires Zip(m, nil, ctx, t, p) && t.Node?
    ensures Zip(m, nil,
      Frame(onLeft, p, t.color, t.region, if onLeft then t.right else t.left, ctx),
      if onLeft then t.left else t.right, m.links[p].Child(onLeft))
  {
  }

  // ---------- The steps that change links ----------

  ghost function SetChild<N>(m: Mem<N>, n: N, onLeft: bool, c: N): Mem<N>
    requires n in m.links
  {
    m.(links := m.links[n := m.links[n].WithChild(onLeft, c)])
  }

  ghost function SetParent<N>(m: Mem<N>, n: N, parent: Option<N>): Mem<N>
    requires n in m.links
  {
    m.(links := m.links[n := m.links[n].(parent := parent)])
  }

  ghost function SetColor<N>(m: Mem<N>, n: N, c: Color): Mem<N>
    requires n in m.links
  {
    m.(links := m.links[n := m.links[n].(color := c)])
  }

  /** Gets n's parent, or the root, to point to y instead of x; the parent's child on the
      side `first` is looked at first. */
  ghost function Relink<N>(m: Mem<N>, n: N, x: N, y: N, first: bool): Mem<N>
    requires n in m.links && (m.links[n].parent.Some? ==> m.links[n].parent.value in m.links)
  {
    if m.links[n].parent.None? then m.(root := y)
    else
      var q := m.links[n].parent.value;
      SetChild(m, q, if m.links[q].Child(first) == x then first else !first, y)
  }

  ghost predicate CanRotate<N>(m: Mem<N>, x: N, up: bool) {
    && x in m.links
    && m.links[x].Child(!up) in m.links
    && m.links[m.links[x].Child(!up)].Child(up) in m.links
    && (m.links[x].parent.Some? ==> m.links[x].parent.value in m.links)
  }

  /** Rotation at x towards the side `up`: mem_rotate_left for the left side, and
      mem_rotate_right for the right one. */
  ghost function Rotate<N>(m: Mem<N>, nil: N, x: N, up: bool): Mem<N>
    requires CanRotate(m, x, up)
  {
    var y := m.links[x].Child(!up);
    var b := m.links[y].Child(up);
    var m1 := SetChild(m, x, !up, b);
    var m2 := if b != nil then SetParent(m1, b, Some(x)) else m1;
    var m3 := if y != nil then SetParent(m2, y, m2.links[x].parent) else m2;
    var m4 := Relink(m3, x, x, y, up);
    var m5 := SetChild(m4, y, up, x);
    if x != nil then SetParent(m5, x, Some(y)) else m5
  }

  lemma TreeRoot<N>(m: map<N, Links<N>>, nil: N, p: N, parent: Option<N>, t: Tree<N>)
    requires IsTree(m, nil, p, parent, t)
    ensures if t.Node? then p != nil && p == t.n && p in m && m[p].parent == parent && p in Nodes(t) else p == nil
  {
  }

  /** `Make` seen from either side. */
  lemma MakeIs<N>(m: map<N, Links<N>>, nil: N, p: N, parent: Option<N>,
                  onLeft: bool, a: Tree<N>, n: N, color: Color, region: Region, b: Tree<N>)
    ensures IsTree(m, nil, p, parent, Make(onLeft, a, n, color, region, b)) <==>
      && p == n && p != nil && p in m
      && m[p].parent == parent && m[p].color == color && m[p].region == region
      && IsTree(m, nil, m[p].Child(onLeft), Some(p), a) && IsTree(m, nil, m[p].Child(!onLeft), Some(p), b)
    ensures Distinct(Make(onLeft, a, n, color, region, b)) <==>
      Distinct(a) && Distinct(b) && n !in Nodes(a) && n !in Nodes(b) && Nodes(a) !! Nodes(b)
    ensures Nodes(Make(onLeft, a, n, color, region, b)) == {n} + Nodes(a) + Nodes(b)
  {
  }

  /** What a rotation does to each node, when x, y, the root of b and the parent differ. */
  lemma RotateLinks<N>(m: Mem<N>, nil: N, x: N, up: bool, ctx: Ctx<N>, y: N, b: N)
    requires CanRotate(m, x, up) && y == m.links[x].Child(!up) && b == m.links[y].Child(up)
    requires x != nil && y != nil && x != y && b != x && b != y && nil in m.links
    requires m.links[x].parent == ParentOf(ctx)
    requires ctx.Frame? ==>
      && ctx.n != x && ctx.n != y && ctx.n != b && ctx.n != nil
      && m.links[ctx.n].Child(ctx.onLeft) == x && m.links[ctx.n].Child(!ctx.onLeft) != x
    ensures var m' := Rotate(m, nil, x, up);
      && m'.links.Keys == m.links.Keys
      && m'.links[x] == m.links[x].WithChild(!up, b).(parent := Some(y))
      && m'.links[y] == m.links[y].WithChild(up, x).(parent := m.links[x].parent)
      && (b != nil ==> m'.links[b] == m.links[b].(parent := Some(x)))
      && (forall n :: n in m.links && n != x && n != y && (n == b ==> b == nil) && Some(n) != ParentOf(ctx)
            ==> m'.links[n] == m.links[n])
      && (if ctx.Top? then m'.root == y
          else m'.root == m.root && m'.links[ctx.n] == m.links[ctx.n].WithChild(ctx.onLeft, y))
  {
  }

  lemma {:induction false} RotateZip<N>(m: Mem<N>, nil: N, ctx: Ctx<N>, t: Tree<N>, x: N, up: bool,
                                        a: Tree<N>, y: N, cy: Color, ry: Region, b: Tree<N>, c: Tree<N>)
    requires Zip(m, nil, ctx, t, x) && t.Node?
    requires t == Make(up, a, x, t.color, t.region, Make(up, b, y, cy, ry, c))
    ensures CanRotate(m, x, up)
    ensures Zip(Rotate(m, nil, x, up), nil, ctx, Make(up, Make(up, a, x, t.color, t.region, b), y, cy, ry, c), y)
    ensures Rotate(m, nil, x, up).links.Keys == m.links.Keys
    ensures Rotate(m, nil, x, up).links[nil] == m.links[nil]
  {
    hide Rotate, IsCtx, IsTree, Distinct, Nodes, CtxNodes, CtxDistinct, Make;
    var ml := m.links;
    var inner := Make(up, b, y, cy, ry, c);
    MakeIs(ml, nil, x, ParentOf(ctx), !up, inner, x, t.color, t.region, a);
    MakeSwap(up, a, x, t.color, t.region, inner);
    MakeIs(ml, nil, ml[x].Child(!up), Some(x), up, b, y, cy, ry, c);
    var rb := ml[y].Child(up);
    TreeRoot(ml, nil, rb, Some(y), b);
    CtxHole(m, nil, ctx, x);
    RotateLinks(m, nil, x, up, ctx, y, rb);
    var m' := Rotate(m, nil, x, up);
    var ml' := m'.links;
    FrameTree(ml, ml', nil, ml[x].Child(up), Some(x), a);
    FrameTree(ml, ml', nil, ml[y].Child(!up), Some(y), c);
    Reparent(ml, ml', nil, rb, Some(y), Some(x), b);
    Rehole(m, m', nil, ctx, x, y);
    MakeIs(ml', nil, x, Some(y), up, a, x, t.color, t.region, b);
    MakeIs(ml', nil, y, ParentOf(ctx), up, Make(up, a, x, t.color, t.region, b), y, cy, ry, c);
  }

  lemma MakeSwap<N>(onLeft: bool, a: Tree<N>, n: N, color: Color, region: Region, b: Tree<N>)
    ensures Make(onLeft, a, n, color, region, b) == Make(!onLeft, b, n, color, region, a)
  {
  }

  lemma CtxHole<N>(m: Mem<N>, nil: N, ctx: Ctx<N>, p: N)
    requires IsCtx(m.links, nil, m.root, ctx, p) && CtxDistinct(ctx) && p !in CtxNodes(ctx) && p != nil
    ensures ctx.Frame? ==>
      && ctx.n in m.links && ctx.n != nil && ctx.n in CtxNodes(ctx)
      && m.links[ctx.n].Child(ctx.onLeft) == p && m.links[ctx.n].Child(!ctx.onLeft) != p
  {
    if ctx.Frame? {
      TreeRoot(m.links, nil, m.links[ctx.n].Child(!ctx.onLeft), Some(ctx.n), ctx.sib);
    }
  }

  lemma {:induction false} RecolorZip<N>(m: Mem<N>, nil: N, ctx: Ctx<N>, t: Tree<N>, p: N, c: Color)
    requires Zip(m, nil, ctx, t, p) && t.Node?
    ensures Zip(SetColor(m, p, c), nil, ctx, t.(color := c), p)
    ensures SetColor(m, p, c).links[nil] == m.links[nil]
  {
    var m' := SetColor(m, p, c);
    FrameTree(m.links, m'.links, nil, m.links[p].left, Some(p), t.left);
    FrameTree(m.links, m'.links, nil, m.links[p].right, Some(p), t.right);
    FrameCtx(m.links, m'.links, nil, m.root, ctx, p);
  }

  /** The whole tree, seen from its root. */
  lemma {:induction false} ZipTop<N>(m: Mem<N>, nil: N, ctx: Ctx<N>, t: Tree<N>, p: N)
    requires Zip(m, nil, ctx, t, p)
    ensures Zip(m, nil, Top, Plug(ctx, t), m.root)
    decreases ctx
  {
    if ctx.Frame? {
      GoUp(m, nil, ctx, t, p);
      ZipTop(m, nil, ctx.up, Make(ctx.onLeft, t, ctx.n, ctx.color, ctx.region, ctx.sib), ctx.n);
    }
  }

  lemma {:induction false} PlugNodes<N>(ctx: Ctx<N>, t: Tree<N>)
    ensures Nodes(Plug(ctx, t)) == Nodes(t) + CtxNodes(ctx)
    decreases ctx
  {
    if ctx.Frame? {
      PlugNodes(ctx.up, Make(ctx.onLeft, t, ctx.n, ctx.color, ctx.region, ctx.sib));
    }
  }

  /** Any node of the tree can be brought into focus. */
  lemma {:induction false} Locate<N>(m: Mem<N>, nil: N, ctx: Ctx<N>, t: Tree<N>, p: N, z: N)
      returns (ctx': Ctx<N>, t': Tree<N>)
    requires Zip(m, nil, ctx, t, p) && z in Nodes(t)
    ensures Zip(m, nil, ctx', t', z) && t'.Node? && Plug(ctx', t') == Plug(ctx, t)
    decreases t
  {
    if z == t.n {
      ctx', t' := ctx, t;
    } else {
      var onLeft := z in Nodes(t.left);
      GoDown(m, nil, ctx, t, p, onLeft);
      ctx', t' := Locate(m, nil, Frame(onLeft, p, t.color, t.region, if onLeft then t.right else t.left, ctx),
                         if onLeft then t.left else t.right, m.links[p].Child(onLeft), z);
    }
  }

  // ---------- In-order contents ----------

  /** A region and the node that stands for it. */
  datatype Entry<N> = Entry(n: N, region: Region)

  ghost function InOrder<N>(t: Tree<N>): seq<Entry<N>> {
    if t.Leaf? then [] else InOrder(t.left) + [Entry(t.n, t.region)] + InOrder(t.right)
  }

  ghost function Before<N>(ctx: Ctx<N>): seq<Entry<N>>
    decreases ctx
  {
    if ctx.Top? then []
    else if ctx.onLeft then Before(ctx.up)
    else Before(ctx.up) + InOrder(ctx.sib) + [Entry(ctx.n, ctx.region)]
  }

  ghost function After<N>(ctx: Ctx<N>): seq<Entry<N>>
    decreases ctx
  {
    if ctx.Top? then []
    else if ctx.onLeft then [Entry(ctx.n, ctx.region)] + InOrder(ctx.sib) + After(ctx.up)
    else After(ctx.up)
  }

  ghost function Contents<N>(ctx: Ctx<N>, t: Tree<N>): seq<Entry<N>> {
    Before(ctx) + InOrder(t) + After(ctx)
  }

  lemma {:induction false} PlugContents<N>(ctx: Ctx<N>, t: Tree<N>)
    ensures InOrder(Plug(ctx, t)) == Contents(ctx, t)
    decreases ctx
  {
    if ctx.Frame? {
      PlugContents(ctx.up, Make(ctx.onLeft, t, ctx.n, ctx.color, ctx.region, ctx.sib));
    }
  }
}
