/** What the recolorings and rotations of each case of the repair loops do to the tree that
    memory holds. */
module MemTreeSteps {
  import opened Lists
  import opened MemTreeShape
  import opened MemTreeBalance

  /** The pointers around the focus. */
  lemma Around<N>(m: Mem<N>, nil: N, ctx: Ctx<N>, t: Tree<N>, x: N)
    requires Zip(m, nil, ctx, t, x)
    ensures ctx.Frame? ==>
      && ctx.n in m.links && ctx.n != nil && ctx.n != x
      && m.links[ctx.n].color == ctx.color && m.links[ctx.n].parent == ParentOf(ctx.up)
      && m.links[ctx.n].region == ctx.region
      && m.links[ctx.n].Child(ctx.onLeft) == x
      && (ctx.sib.Node? ==>
            && m.links[ctx.n].Child(!ctx.onLeft) == ctx.sib.n && ctx.sib.n in m.links
            && ctx.sib.n != nil && m.links[ctx.sib.n].color == ctx.sib.color && ctx.sib.n != x)
      && (ctx.sib.Leaf? ==> m.links[ctx.n].Child(!ctx.onLeft) == nil)
      && (t.Node? ==> m.links[ctx.n].Child(!ctx.onLeft) != x)
    ensures t.Node? ==>
      && t.n == x && x in m.links && x != nil && m.links[x].parent == ParentOf(ctx) && m.links[x].color == t.color
      && m.links[x].region == t.region
    ensures m.root == x <==> ctx.Top?
    ensures t.Leaf? ==> x == nil
    ensures ctx.Top? ==> m.root == x
    ensures nil in m.links && m.links[nil].color == Black
  {
    RootOf(m, nil, ctx, t, x);
  }

  /** The root of the tree is the focus, or a node of the context. */
  lemma {:induction false} RootOf<N>(m: Mem<N>, nil: N, ctx: Ctx<N>, t: Tree<N>, x: N)
    requires IsCtx(m.links, nil, m.root, ctx, x)
    ensures if ctx.Top? then m.root == x else m.root in CtxNodes(ctx) && m.root != nil
    decreases ctx
  {
    if ctx.Frame? { RootOf(m, nil, ctx.up, t, ctx.n); }
  }

  lemma RecolorParent<N>(m: Mem<N>, nil: N, ctx: Ctx<N>, t: Tree<N>, x: N, c: Color)
    requires Zip(m, nil, ctx, t, x) && ctx.Frame?
    ensures ctx.n in m.links && Zip(SetColor(m, ctx.n, c), nil, ctx.(color := c), t, x)
    ensures SetColor(m, ctx.n, c).links[nil] == m.links[nil]
  {
    hide Zip;
    var p := Make(ctx.onLeft, t, ctx.n, ctx.color, ctx.region, ctx.sib);
    GoUp(m, nil, ctx, t, x);
    Around(m, nil, ctx, t, x);
    RecolorZip(m, nil, ctx.up, p, ctx.n, c);
    GoDown(SetColor(m, ctx.n, c), nil, ctx.up, p.(color := c), ctx.n, ctx.onLeft);
  }

  lemma RecolorSibling<N>(m: Mem<N>, nil: N, ctx: Ctx<N>, t: Tree<N>, x: N, c: Color)
    requires Zip(m, nil, ctx, t, x) && ctx.Frame? && ctx.sib.Node?
    ensures ctx.sib.n in m.links && Zip(SetColor(m, ctx.sib.n, c), nil, ctx.(sib := ctx.sib.(color := c)), t, x)
    ensures SetColor(m, ctx.sib.n, c).links[nil] == m.links[nil]
  {
    hide Zip;
    var p := Make(ctx.onLeft, t, ctx.n, ctx.color, ctx.region, ctx.sib);
    GoUp(m, nil, ctx, t, x);
    Around(m, nil, ctx, t, x);
    GoDown(m, nil, ctx.up, p, ctx.n, !ctx.onLeft);
    var ctx' := Frame(!ctx.onLeft, ctx.n, ctx.color, ctx.region, t, ctx.up);
    RecolorZip(m, nil, ctx', ctx.sib, ctx.sib.n, c);
    var m' := SetColor(m, ctx.sib.n, c);
    GoUp(m', nil, ctx', ctx.sib.(color := c), ctx.sib.n);
    GoDown(m', nil, ctx.up, Make(!ctx.onLeft, ctx.sib.(color := c), ctx.n, ctx.color, ctx.region, t), ctx.n,
      ctx.onLeft);
  }

  /** Rotation at the focus's parent, towards the focus: the sibling moves up. */
  lemma RotateParent<N>(m: Mem<N>, nil: N, ctx: Ctx<N>, t: Tree<N>, x: N, near: Tree<N>, far: Tree<N>)
    requires Zip(m, nil, ctx, t, x) && ctx.Frame? && ctx.sib.Node?
    requires ctx.sib == Make(ctx.onLeft, near, ctx.sib.n, ctx.sib.color, ctx.sib.region, far)
    ensures CanRotate(m, ctx.n, ctx.onLeft)
    ensures var m' := Rotate(m, nil, ctx.n, ctx.onLeft);
      && m'.links[nil] == m.links[nil]
      && Zip(m', nil, Frame(ctx.onLeft, ctx.n, ctx.color, ctx.region, near,
                            Frame(ctx.onLeft, ctx.sib.n, ctx.sib.color, ctx.sib.region, far, ctx.up)), t, x)
  {
    hide Zip, Rotate, CanRotate;
    var w := ctx.sib;
    var p := Make(ctx.onLeft, t, ctx.n, ctx.color, ctx.region, w);
    GoUp(m, nil, ctx, t, x);
    Around(m, nil, ctx, t, x);
    RotateZip(m, nil, ctx.up, p, ctx.n, ctx.onLeft, t, w.n, w.color, w.region, near, far);
    var m' := Rotate(m, nil, ctx.n, ctx.onLeft);
    var p' := Make(ctx.onLeft, t, ctx.n, ctx.color, ctx.region, near);
    GoDown(m', nil, ctx.up, Make(ctx.onLeft, p', w.n, w.color, w.region, far), w.n, ctx.onLeft);
    var up' := Frame(ctx.onLeft, w.n, w.color, w.region, far, ctx.up);
    assert Zip(m', nil, up', p', ctx.n) by {
      Around(m', nil, up', p', m'.links[w.n].Child(ctx.onLeft));
    }
    GoDown(m', nil, up', p', ctx.n, ctx.onLeft);
    var ctx' := Frame(ctx.onLeft, ctx.n, ctx.color, ctx.region, near, up');
    Around(m', nil, ctx', t, m'.links[ctx.n].Child(ctx.onLeft));
    Around(m, nil, ctx, t, x);
  }

  /** Rotation at the sibling, away from the focus: its near child moves up. */
  lemma RotateSibling<N>(m: Mem<N>, nil: N, ctx: Ctx<N>, t: Tree<N>, x: N,
                         near: Tree<N>, far: Tree<N>, a: Tree<N>, b: Tree<N>)
    requires Zip(m, nil, ctx, t, x) && ctx.Frame? && ctx.sib.Node? && near.Node?
    requires ctx.sib == Make(ctx.onLeft, near, ctx.sib.n, ctx.sib.color, ctx.sib.region, far)
    requires near == Make(ctx.onLeft, a, near.n, near.color, near.region, b)
    ensures CanRotate(m, ctx.sib.n, !ctx.onLeft)
    ensures var m' := Rotate(m, nil, ctx.sib.n, !ctx.onLeft);
      && m'.links[nil] == m.links[nil]
      && Zip(m', nil, ctx.(sib := Make(ctx.onLeft, a, near.n, near.color, near.region,
                                       Make(ctx.onLeft, b, ctx.sib.n, ctx.sib.color, ctx.sib.region, far))), t, x)
  {
    hide Zip, Rotate, CanRotate;
    var w := ctx.sib;
    var p := Make(ctx.onLeft, t, ctx.n, ctx.color, ctx.region, w);
    GoUp(m, nil, ctx, t, x);
    Around(m, nil, ctx, t, x);
    GoDown(m, nil, ctx.up, p, ctx.n, !ctx.onLeft);
    var ctx' := Frame(!ctx.onLeft, ctx.n, ctx.color, ctx.region, t, ctx.up);
    RotateZip(m, nil, ctx', w, w.n, !ctx.onLeft, far, near.n, near.color, near.region, b, a);
    var m' := Rotate(m, nil, w.n, !ctx.onLeft);
    var w' := Make(ctx.onLeft, a, near.n, near.color, near.region, Make(ctx.onLeft, b, w.n, w.color, w.region, far));
    GoUp(m', nil, ctx', w', near.n);
    GoDown(m', nil, ctx.up, Make(!ctx.onLeft, w', ctx.n, ctx.color, ctx.region, t), ctx.n, ctx.onLeft);
    Around(m', nil, ctx.(sib := w'), t, m'.links[ctx.n].Child(ctx.onLeft));
  }

  /** Rotation at the focus's parent, away from the focus: the focus moves up. */
  lemma RotateAway<N>(m: Mem<N>, nil: N, ctx: Ctx<N>, t: Tree<N>, x: N, outer: Tree<N>, inner: Tree<N>)
    requires Zip(m, nil, ctx, t, x) && ctx.Frame? && t.Node?
    requires t == Make(ctx.onLeft, outer, x, t.color, t.region, inner)
    ensures CanRotate(m, ctx.n, !ctx.onLeft)
    ensures var m' := Rotate(m, nil, ctx.n, !ctx.onLeft);
      Zip(m', nil, ctx.up, Make(ctx.onLeft, outer, x, t.color, t.region,
                                Make(ctx.onLeft, inner, ctx.n, ctx.color, ctx.region, ctx.sib)), x)
  {
    hide Zip, Rotate, CanRotate;
    GoUp(m, nil, ctx, t, x);
    var p := Make(ctx.onLeft, t, ctx.n, ctx.color, ctx.region, ctx.sib);
    RotateZip(m, nil, ctx.up, p, ctx.n, !ctx.onLeft, ctx.sib, x, t.color, t.region, inner, outer);
  }

  // ---------- Insertion cases ----------

  lemma UncleRedZip<N>(m: Mem<N>, nil: N, ctx: Ctx<N>, t: Tree<N>, x: N)
    requires Zip(m, nil, ctx, t, x) && ctx.Frame? && ctx.up.Frame? && ctx.up.sib.Node?
    ensures ctx.n in m.links && ctx.up.n in m.links && ctx.up.sib.n in m.links
    ensures Zip(SetColor(SetColor(SetColor(m, ctx.n, Black), ctx.up.sib.n, Black), ctx.up.n, Red),
                nil, ctx.up.up, UncleRed(ctx, t), ctx.up.n)
  {
    hide Zip;
    RecolorParent(m, nil, ctx, t, x, Black);
    var m1 := SetColor(m, ctx.n, Black);
    GoUp(m1, nil, ctx.(color := Black), t, x);
    var p := Make(ctx.onLeft, t, ctx.n, Black, ctx.region, ctx.sib);
    RecolorSibling(m1, nil, ctx.up, p, ctx.n, Black);
    var g := ctx.up.(sib := ctx.up.sib.(color := Black));
    var m2 := SetColor(m1, ctx.up.sib.n, Black);
    RecolorParent(m2, nil, g, p, ctx.n, Red);
    GoUp(SetColor(m2, ctx.up.n, Red), nil, g.(color := Red), p, ctx.n);
  }

  /** Inner grandchild: rotating at the parent makes the parent an outer grandchild. */
  lemma InnerZip<N>(m: Mem<N>, nil: N, ctx: Ctx<N>, t: Tree<N>, x: N, near: Tree<N>, far: Tree<N>)
    requires Zip(m, nil, ctx, t, x) && ctx.Frame? && t.Node?
    requires t == Make(!ctx.onLeft, near, t.n, t.color, t.region, far)
    ensures CanRotate(m, ctx.n, !ctx.onLeft)
    ensures Zip(Rotate(m, nil, ctx.n, !ctx.onLeft), nil,
                Frame(!ctx.onLeft, t.n, t.color, t.region, far, ctx.up),
                Make(!ctx.onLeft, ctx.sib, ctx.n, ctx.color, ctx.region, near), ctx.n)
  {
    hide Zip, Rotate, CanRotate;
    Around(m, nil, ctx, t, x);
    RotateAway(m, nil, ctx, t, x, far, near);
    var m' := Rotate(m, nil, ctx.n, !ctx.onLeft);
    var p := Make(ctx.onLeft, near, ctx.n, ctx.color, ctx.region, ctx.sib);
    Around(m', nil, ctx.up, Make(ctx.onLeft, far, x, t.color, t.region, p), x);
    GoDown(m', nil, ctx.up, Make(ctx.onLeft, far, x, t.color, t.region, p), x, !ctx.onLeft);
    Around(m', nil, Frame(!ctx.onLeft, x, t.color, t.region, far, ctx.up), p, m'.links[x].Child(!ctx.onLeft));
  }

  lemma OuterZip<N>(m: Mem<N>, nil: N, ctx: Ctx<N>, t: Tree<N>, x: N)
    requires Zip(m, nil, ctx, t, x) && ctx.Frame? && ctx.up.Frame? && t.Node? && ctx.onLeft == ctx.up.onLeft
    ensures ctx.n in m.links && ctx.up.n in m.links
    ensures var m2 := SetColor(SetColor(m, ctx.n, Black), ctx.up.n, Red);
      && CanRotate(m2, ctx.up.n, !ctx.onLeft)
      && Zip(Rotate(m2, nil, ctx.up.n, !ctx.onLeft), nil,
             Frame(ctx.onLeft, ctx.n, Black, ctx.region,
                   Make(ctx.onLeft, ctx.sib, ctx.up.n, Red, ctx.up.region, ctx.up.sib), ctx.up.up), t, x)
  {
    hide Zip, Rotate, CanRotate;
    RecolorParent(m, nil, ctx, t, x, Black);
    var m1 := SetColor(m, ctx.n, Black);
    GoUp(m1, nil, ctx.(color := Black), t, x);
    var p := Make(ctx.onLeft, t, ctx.n, Black, ctx.region, ctx.sib);
    RecolorParent(m1, nil, ctx.up, p, ctx.n, Red);
    var m2 := SetColor(m1, ctx.up.n, Red);
    var g := ctx.up.(color := Red);
    RotateAway(m2, nil, g, p, ctx.n, t, ctx.sib);
    var m' := Rotate(m2, nil, ctx.up.n, !ctx.onLeft);
    var sib' := Make(ctx.onLeft, ctx.sib, ctx.up.n, Red, ctx.up.region, ctx.up.sib);
    Around(m', nil, ctx.up.up, Make(ctx.onLeft, t, ctx.n, Black, ctx.region, sib'), ctx.n);
    GoDown(m', nil, ctx.up.up, Make(ctx.onLeft, t, ctx.n, Black, ctx.region, sib'), ctx.n, ctx.onLeft);
    Around(m', nil, Frame(ctx.onLeft, ctx.n, Black, ctx.region, sib', ctx.up.up), t, m'.links[ctx.n].Child(ctx.onLeft));
    Around(m, nil, ctx, t, x);
  }

  // ---------- Deletion cases ----------

  lemma SiblingRedZip<N>(m: Mem<N>, nil: N, ctx: Ctx<N>, t: Tree<N>, x: N, near: Tree<N>, far: Tree<N>)
    requires Zip(m, nil, ctx, t, x) && ctx.Frame? && ctx.sib.Node?
    requires ctx.sib == Make(ctx.onLeft, near, ctx.sib.n, ctx.sib.color, ctx.sib.region, far)
    ensures ctx.n in m.links && ctx.sib.n in m.links
    ensures var m2 := SetColor(SetColor(m, ctx.sib.n, Black), ctx.n, Red);
      && CanRotate(m2, ctx.n, ctx.onLeft)
      && Rotate(m2, nil, ctx.n, ctx.onLeft).links[nil] == m.links[nil]
      && Zip(Rotate(m2, nil, ctx.n, ctx.onLeft), nil,
             Frame(ctx.onLeft, ctx.n, Red, ctx.region, near,
                   Frame(ctx.onLeft, ctx.sib.n, Black, ctx.sib.region, far, ctx.up)), t, x)
  {
    hide Zip, Rotate, CanRotate;
    RecolorSibling(m, nil, ctx, t, x, Black);
    var m1 := SetColor(m, ctx.sib.n, Black);
    var ctx1 := ctx.(sib := ctx.sib.(color := Black));
    RecolorParent(m1, nil, ctx1, t, x, Red);
    RotateParent(SetColor(m1, ctx.n, Red), nil, ctx1.(color := Red), t, x, near, far);
  }

  lemma SiblingBlackZip<N>(m: Mem<N>, nil: N, ctx: Ctx<N>, t: Tree<N>, x: N)
    requires Zip(m, nil, ctx, t, x) && ctx.Frame? && ctx.sib.Node?
    ensures ctx.sib.n in m.links
    ensures Zip(SetColor(m, ctx.sib.n, Red), nil, ctx.up,
                Make(ctx.onLeft, t, ctx.n, ctx.color, ctx.region, ctx.sib.(color := Red)), ctx.n)
  {
    hide Zip;
    RecolorSibling(m, nil, ctx, t, x, Red);
    GoUp(SetColor(m, ctx.sib.n, Red), nil, ctx.(sib := ctx.sib.(color := Red)), t, x);
  }

  /** A child of the sibling can be recolored. */
  lemma RecolorNephew<N>(m: Mem<N>, nil: N, ctx: Ctx<N>, t: Tree<N>, x: N, onLeft: bool, f: Tree<N>, g: Tree<N>,
                         c: Color)
    requires Zip(m, nil, ctx, t, x) && ctx.Frame? && ctx.sib.Node? && f.Node?
    requires ctx.sib == Make(onLeft, f, ctx.sib.n, ctx.sib.color, ctx.sib.region, g)
    ensures f.n in m.links && SetColor(m, f.n, c).links[nil] == m.links[nil]
    ensures Zip(SetColor(m, f.n, c), nil,
                ctx.(sib := Make(onLeft, f.(color := c), ctx.sib.n, ctx.sib.color, ctx.sib.region, g)), t, x)
  {
    hide Zip;
    var w := ctx.sib;
    var p := Make(ctx.onLeft, t, ctx.n, ctx.color, ctx.region, w);
    Around(m, nil, ctx, t, x);
    GoUp(m, nil, ctx, t, x);
    GoDown(m, nil, ctx.up, p, ctx.n, !ctx.onLeft);
    var c1 := Frame(!ctx.onLeft, ctx.n, ctx.color, ctx.region, t, ctx.up);
    GoDown(m, nil, c1, w, w.n, onLeft);
    var c2 := Frame(onLeft, w.n, w.color, w.region, g, c1);
    var fn := m.links[w.n].Child(onLeft);
    Around(m, nil, c2, f, fn);
    RecolorZip(m, nil, c2, f, f.n, c);
    var m' := SetColor(m, f.n, c);
    GoUp(m', nil, c2, f.(color := c), f.n);
    var w' := Make(onLeft, f.(color := c), w.n, w.color, w.region, g);
    GoUp(m', nil, c1, w', w.n);
    GoDown(m', nil, ctx.up, Make(!ctx.onLeft, w', ctx.n, ctx.color, ctx.region, t), ctx.n, ctx.onLeft);
  }

  lemma FarBlackZip<N>(m: Mem<N>, nil: N, ctx: Ctx<N>, t: Tree<N>, x: N, near: Tree<N>, far: Tree<N>, a: Tree<N>,
                       b: Tree<N>)
    requires Zip(m, nil, ctx, t, x) && ctx.Frame? && ctx.sib.Node? && near.Node?
    requires ctx.sib == Make(ctx.onLeft, near, ctx.sib.n, ctx.sib.color, ctx.sib.region, far)
    requires near == Make(ctx.onLeft, a, near.n, near.color, near.region, b)
    ensures near.n in m.links && ctx.sib.n in m.links
    ensures var m2 := SetColor(SetColor(m, near.n, Black), ctx.sib.n, Red);
      && CanRotate(m2, ctx.sib.n, !ctx.onLeft)
      && Rotate(m2, nil, ctx.sib.n, !ctx.onLeft).links[nil] == m.links[nil]
      && Zip(Rotate(m2, nil, ctx.sib.n, !ctx.onLeft), nil,
             ctx.(sib := Make(ctx.onLeft, a, near.n, Black, near.region,
                              Make(ctx.onLeft, b, ctx.sib.n, Red, ctx.sib.region, far))), t, x)
  {
    hide Zip, Rotate, CanRotate;
    RecolorNephew(m, nil, ctx, t, x, ctx.onLeft, near, far, Black);
    var m1 := SetColor(m, near.n, Black);
    var near' := near.(color := Black);
    var ctx1 := ctx.(sib := Make(ctx.onLeft, near', ctx.sib.n, ctx.sib.color, ctx.sib.region, far));
    RecolorSibling(m1, nil, ctx1, t, x, Red);
    RotateSibling(SetColor(m1, ctx.sib.n, Red), nil, ctx1.(sib := ctx1.sib.(color := Red)), t, x, near', far, a, b);
  }

  lemma FarRedZip<N>(m: Mem<N>, nil: N, ctx: Ctx<N>, t: Tree<N>, x: N, near: Tree<N>, far: Tree<N>)
    requires Zip(m, nil, ctx, t, x) && ctx.Frame? && ctx.sib.Node? && far.Node?
    requires ctx.sib == Make(ctx.onLeft, near, ctx.sib.n, ctx.sib.color, ctx.sib.region, far)
    ensures ctx.n in m.links && ctx.sib.n in m.links && far.n in m.links
    ensures var m3 := SetColor(SetColor(SetColor(m, ctx.sib.n, ctx.color), ctx.n, Black), far.n, Black);
      && CanRotate(m3, ctx.n, ctx.onLeft)
      && Zip(Rotate(m3, nil, ctx.n, ctx.onLeft), nil, ctx.up, FarRed(ctx, t, near, far), ctx.sib.n)
  {
    hide Zip, Rotate, CanRotate;
    RecolorSibling(m, nil, ctx, t, x, ctx.color);
    var m1 := SetColor(m, ctx.sib.n, ctx.color);
    var ctx1 := ctx.(sib := ctx.sib.(color := ctx.color));
    RecolorParent(m1, nil, ctx1, t, x, Black);
    var m2 := SetColor(m1, ctx.n, Black);
    var ctx2 := ctx1.(color := Black);
    RecolorNephew(m2, nil, ctx2, t, x, !ctx.onLeft, far, near, Black);
    var m3 := SetColor(m2, far.n, Black);
    var far' := far.(color := Black);
    var ctx3 := ctx2.(sib := Make(!ctx.onLeft, far', ctx.sib.n, ctx.color, ctx.sib.region, near));
    RotateParent(m3, nil, ctx3, t, x, near, far');
    var m' := Rotate(m3, nil, ctx.n, ctx.onLeft);
    var up' := Frame(ctx.onLeft, ctx.sib.n, ctx.color, ctx.sib.region, far', ctx.up);
    GoUp(m', nil, Frame(ctx.onLeft, ctx.n, Black, ctx.region, near, up'), t, x);
    GoUp(m', nil, up', Make(ctx.onLeft, t, ctx.n, Black, ctx.region, near), ctx.n);
  }

  // ---------- Adding and removing a node ----------

  lemma {:induction false} TreeInMem<N>(m: map<N, Links<N>>, nil: N, p: N, parent: Option<N>, t: Tree<N>)
    requires IsTree(m, nil, p, parent, t)
    ensures Nodes(t) <= m.Keys && nil !in Nodes(t)
    decreases t
  {
    if t.Node? {
      TreeInMem(m, nil, m[p].left, Some(p), t.left);
      TreeInMem(m, nil, m[p].right, Some(p), t.right);
    }
  }

  lemma {:induction false} CtxInMem<N>(m: map<N, Links<N>>, nil: N, root: N, ctx: Ctx<N>, p: N)
    requires IsCtx(m, nil, root, ctx, p)
    ensures CtxNodes(ctx) <= m.Keys && nil !in CtxNodes(ctx)
    decreases ctx
  {
    if ctx.Frame? {
      TreeInMem(m, nil, m[ctx.n].Child(!ctx.onLeft), Some(ctx.n), ctx.sib);
      CtxInMem(m, nil, root, ctx.up, ctx.n);
    }
  }

  /** A change of the sentinel that keeps it black is not seen by the tree. */
  lemma SentinelFree<N>(m: Mem<N>, m': Mem<N>, nil: N, ctx: Ctx<N>, t: Tree<N>, p: N)
    requires Zip(m, nil, ctx, t, p) && m'.root == m.root
    requires nil in m'.links && m'.links[nil].color.Black?
    requires Same(m.links, m'.links, m.links.Keys - {nil})
    ensures Zip(m', nil, ctx, t, p)
  {
    TreeInMem(m.links, nil, p, ParentOf(ctx), t);
    CtxInMem(m.links, nil, m.root, ctx, p);
    FrameTree(m.links, m'.links, nil, p, ParentOf(ctx), t);
    FrameCtx(m.links, m'.links, nil, m.root, ctx, p);
  }

  ghost function Fresh<N>(m: Mem<N>, nil: N, x: N, parent: Option<N>, region: Region): Mem<N> {
    m.(links := m.links[x := Links(nil, nil, parent, Red, region)])
  }

  ghost function Hook<N>(m: Mem<N>, ctx: Ctx<N>, x: N): Mem<N>
    requires ctx.Frame? ==> ctx.n in m.links
  {
    if ctx.Top? then m.(root := x) else SetChild(m, ctx.n, ctx.onLeft, x)
  }

  /** A new red node takes the place of a missing child. */
  lemma {:induction false} AttachZip<N>(m: Mem<N>, nil: N, ctx: Ctx<N>, x: N, region: Region)
    requires Zip(m, nil, ctx, Leaf, nil) && x !in m.links
    ensures ctx.Frame? ==> ctx.n in m.links && ctx.n != x
    ensures Zip(Hook(Fresh(m, nil, x, ParentOf(ctx), region), ctx, x), nil, ctx, Node(Leaf, x, Red, region, Leaf), x)
  {
    CtxInMem(m.links, nil, m.root, ctx, nil);
    var m' := Hook(Fresh(m, nil, x, ParentOf(ctx), region), ctx, x);
    Rehole(m, m', nil, ctx, nil, x);
  }

  /** The only child of a node takes its place. */
  ghost function Splice<N>(m: Mem<N>, y: N, x: N): Mem<N>
    requires y in m.links && x in m.links
    requires m.links[y].parent.Some? ==> m.links[y].parent.value in m.links
  {
    Relink(SetParent(m, x, m.links[y].parent), y, y, x, true)
  }

  lemma {:induction false} SpliceZip<N>(m: Mem<N>, nil: N, ctx: Ctx<N>, t: Tree<N>, y: N, x: N, child: Tree<N>)
    requires Zip(m, nil, ctx, t, y) && t.Node?
    requires if t.left.Leaf? then child == t.right && x == m.links[y].right
             else t.right.Leaf? && child == t.left && x == m.links[y].left
    ensures x in m.links && (m.links[y].parent.Some? ==> m.links[y].parent.value in m.links)
    ensures var m' := Splice(m, y, x);
      Zip(m', nil, ctx, child, x) && nil in m'.links && m'.links[x].parent == ParentOf(ctx)
  {
    CtxHole(m, nil, ctx, y);
    TreeRoot(m.links, nil, x, Some(y), child);
    CtxInMem(m.links, nil, m.root, ctx, y);
    var m' := Splice(m, y, x);
    Reparent(m.links, m'.links, nil, x, Some(y), ParentOf(ctx), child);
    Rehole(m, m', nil, ctx, y, x);
  }

  // ---------- Moving a region to the ancestor it succeeds ----------

  /** From the hole, only left links lead up to the right child of z. */
  ghost predicate LeftSpine<N>(ctx: Ctx<N>, z: N)
    decreases ctx
  {
    ctx.Frame? && if ctx.n == z then !ctx.onLeft else ctx.onLeft && LeftSpine(ctx.up, z)
  }

  ghost function WithRegion<N>(ctx: Ctx<N>, z: N, r: Region): Ctx<N>
    decreases ctx
  {
    if ctx.Top? then ctx
    else if ctx.n == z then ctx.(region := r)
    else ctx.(up := WithRegion(ctx.up, z, r))
  }

  lemma {:induction false} WithRegionShape<N>(ctx: Ctx<N>, z: N, r: Region, h: int)
    ensures ParentOf(WithRegion(ctx, z, r)) == ParentOf(ctx)
    ensures CtxNodes(WithRegion(ctx, z, r)) == CtxNodes(ctx)
    ensures CtxDistinct(ctx) ==> CtxDistinct(WithRegion(ctx, z, r))
    ensures CtxBalanced(ctx, h) ==> CtxBalanced(WithRegion(ctx, z, r), h)
    ensures CtxColor(WithRegion(ctx, z, r)) == CtxColor(ctx)
    ensures WithRegion(ctx, z, r).Top? <==> ctx.Top?
    ensures CtxNoRed(ctx) ==> CtxNoRed(WithRegion(ctx, z, r))
    decreases ctx
  {
    if ctx.Frame? && ctx.n != z { WithRegionShape(ctx.up, z, r, h + One(ctx.color)); }
  }

  /** The region just before the hole is z's; replacing it changes nothing else. */
  lemma {:induction false} WithRegionOrder<N>(ctx: Ctx<N>, z: N, r: Region)
    requires LeftSpine(ctx, z)
    ensures Before(ctx) != []
    ensures Before(ctx)[|Before(ctx)| - 1].n == z
    ensures Before(WithRegion(ctx, z, r)) == Before(ctx)[..|Before(ctx)| - 1] + [Entry(z, r)]
    ensures After(WithRegion(ctx, z, r)) == After(ctx)
    decreases ctx
  {
    if ctx.n != z { WithRegionOrder(ctx.up, z, r); }
  }

  ghost function SetRegion<N>(m: Mem<N>, z: N, r: Region): Mem<N>
    requires z in m.links
  {
    m.(links := m.links[z := m.links[z].(region := r)])
  }

  lemma {:induction false} SetRegionCtx<N>(m: map<N, Links<N>>, nil: N, root: N, ctx: Ctx<N>, p: N, z: N, r: Region)
    requires IsCtx(m, nil, root, ctx, p) && CtxDistinct(ctx) && LeftSpine(ctx, z) && z in m
    ensures IsCtx(m[z := m[z].(region := r)], nil, root, WithRegion(ctx, z, r), p)
    decreases ctx
  {
    var m' := m[z := m[z].(region := r)];
    if ctx.n != z { SpineInside(ctx.up, z); }
    FrameTree(m, m', nil, m[ctx.n].Child(!ctx.onLeft), Some(ctx.n), ctx.sib);
    if ctx.n == z {
      FrameCtx(m, m', nil, root, ctx.up, ctx.n);
    } else {
      SetRegionCtx(m, nil, root, ctx.up, ctx.n, z, r);
      WithRegionShape(ctx.up, z, r, 0);
    }
  }

  lemma {:induction false} SpineInside<N>(ctx: Ctx<N>, z: N)
    requires LeftSpine(ctx, z)
    ensures z in CtxNodes(ctx)
    decreases ctx
  {
    if ctx.n != z { SpineInside(ctx.up, z); }
  }

  lemma SetRegionZip<N>(m: Mem<N>, nil: N, ctx: Ctx<N>, t: Tree<N>, p: N, z: N, r: Region)
    requires Zip(m, nil, ctx, t, p) && LeftSpine(ctx, z)
    ensures z in m.links && z != nil
    ensures Zip(SetRegion(m, z, r), nil, WithRegion(ctx, z, r), t, p)
    ensures SetRegion(m, z, r).links[nil] == m.links[nil]
  {
    SpineInside(ctx, z);
    CtxInMem(m.links, nil, m.root, ctx, p);
    SetRegionCtx(m.links, nil, m.root, ctx, p, z, r);
    WithRegionShape(ctx, z, r, 0);
    FrameTree(m.links, SetRegion(m, z, r).links, nil, p, ParentOf(ctx), t);
  }
}
