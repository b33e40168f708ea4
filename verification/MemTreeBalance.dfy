/** The red-black properties of a tree seen through a zipper, and what each case of the
    two repair loops does to them.  A case is given once, for both of its mirror images. */
module MemTreeBalance {
  import opened Lists
  import opened Powers
  import opened MemTreeShape

  ghost function RootColor<N>(t: Tree<N>): Color { if t.Leaf? then Black else t.color }
  ghost function CtxColor<N>(ctx: Ctx<N>): Color { if ctx.Top? then Black else ctx.color }
  ghost function One(c: Color): nat { if c.Black? then 1 else 0 }

  /** Every path to a leaf has h black nodes. */
  ghost predicate Balanced<N>(t: Tree<N>, h: int) {
    if t.Leaf? then h == 0
    else Balanced(t.left, h - One(t.color)) && Balanced(t.right, h - One(t.color))
  }

  /** Below the root, no red node has a red child. */
  ghost predicate NoRedBelow<N>(t: Tree<N>) {
    t.Leaf? || (NoRed(t.left) && NoRed(t.right))
  }

  ghost predicate NoRed<N>(t: Tree<N>) {
    t.Leaf? ||
    (&& NoRed(t.left) && NoRed(t.right)
     && (t.color.Red? ==> RootColor(t.left).Black? && RootColor(t.right).Black?))
  }

  ghost predicate RedBlack<N>(t: Tree<N>) {
    NoRed(t) && RootColor(t).Black? && exists h :: Balanced(t, h)
  }

  // ---------- The same for contexts ----------

  /** Filling the hole with a tree of black height h balances the whole. */
  ghost predicate CtxBalanced<N>(ctx: Ctx<N>, h: int)
    decreases ctx
  {
    ctx.Top? || (Balanced(ctx.sib, h) && CtxBalanced(ctx.up, h + One(ctx.color)))
  }

  ghost predicate CtxNoRed<N>(ctx: Ctx<N>)
    decreases ctx
  {
    ctx.Top? ||
    (&& NoRed(ctx.sib) && CtxNoRed(ctx.up)
     && (ctx.color.Red? ==> RootColor(ctx.sib).Black? && ctx.up.Frame? && CtxColor(ctx.up).Black?))
  }

  lemma {:induction false} PlugRedBlack<N>(ctx: Ctx<N>, t: Tree<N>, h: int)
    requires Balanced(t, h) && CtxBalanced(ctx, h) && NoRed(t) && CtxNoRed(ctx)
    requires RootColor(t).Red? ==> ctx.Frame? && ctx.color.Black?
    ensures RedBlack(Plug(ctx, t))
    decreases ctx
  {
    if ctx.Frame? {
      PlugRedBlack(ctx.up, Make(ctx.onLeft, t, ctx.n, ctx.color, ctx.region, ctx.sib), h + One(ctx.color));
    }
  }

  /** A focus in a red-black tree. */
  ghost predicate Focus<N>(ctx: Ctx<N>, t: Tree<N>, h: int) {
    && Balanced(t, h) && CtxBalanced(ctx, h) && NoRed(t) && CtxNoRed(ctx)
    && (RootColor(t).Red? ==> ctx.Frame? && ctx.color.Black?)
  }

  lemma {:induction false} FocusDown<N>(ctx: Ctx<N>, t: Tree<N>, h: int, onLeft: bool)
    requires Focus(ctx, t, h) && t.Node?
    ensures Focus(Frame(onLeft, t.n, t.color, t.region, if onLeft then t.right else t.left, ctx),
                  if onLeft then t.left else t.right, h - One(t.color))
  {
  }

  // ---------- Insertion: a red focus that may have a red parent ----------

  ghost predicate Inserting<N>(ctx: Ctx<N>, t: Tree<N>, h: int) {
    && t.Node? && t.color.Red? && NoRed(t) && Balanced(t, h)
    && CtxBalanced(ctx, h) && CtxNoRed(ctx)
  }

  lemma {:induction false} InsertStart<N>(ctx: Ctx<N>, n: N, region: Region, h: int)
    requires Focus(ctx, Leaf, h)
    ensures Inserting(ctx, Node(Leaf, n, Red, region, Leaf), h)
  {
  }

  /** The parent is red, so there is a grandparent, and it is black. */
  lemma {:induction false} Grandparent<N>(ctx: Ctx<N>, t: Tree<N>, h: int)
    requires Inserting(ctx, t, h) && CtxColor(ctx).Red?
    ensures t.Node? && t.color.Red?
    ensures ctx.Frame? && ctx.up.Frame? && ctx.up.color.Black?
    ensures RootColor(ctx.sib).Black?
  {
  }

  /** What is known about the parent and grandparent frames. */
  lemma {:induction false} TwoFrames<N>(ctx: Ctx<N>, h: int)
    requires ctx.Frame? && ctx.up.Frame? && CtxBalanced(ctx, h) && CtxNoRed(ctx)
    ensures Balanced(ctx.sib, h) && Balanced(ctx.up.sib, h + One(ctx.color))
    ensures CtxBalanced(ctx.up.up, h + One(ctx.color) + One(ctx.up.color))
    ensures NoRed(ctx.sib) && NoRed(ctx.up.sib) && CtxNoRed(ctx.up.up)
  {
    assert CtxBalanced(ctx.up, h + One(ctx.color)) && CtxNoRed(ctx.up);
  }

  /** The tree and the order of `Make`, from either side. */
  lemma MakeBalanced<N>(onLeft: bool, a: Tree<N>, n: N, color: Color, region: Region, b: Tree<N>, h: int)
    ensures var t := Make(onLeft, a, n, color, region, b);
      && (Balanced(t, h) <==> Balanced(a, h - One(color)) && Balanced(b, h - One(color)))
      && (NoRed(t) <==> NoRed(a) && NoRed(b) && (color.Red? ==> RootColor(a).Black? && RootColor(b).Black?))
  {
  }

  lemma MakeOrder<N>(onLeft: bool, a: Tree<N>, n: N, color: Color, region: Region, b: Tree<N>)
    ensures InOrder(Make(onLeft, a, n, color, region, b))
         == if onLeft then InOrder(a) + [Entry(n, region)] + InOrder(b)
           else InOrder(b) + [Entry(n, region)] + InOrder(a)
  {
  }

  /** Red uncle: recolor, and go on with the grandparent. */
  ghost function UncleRed<N>(ctx: Ctx<N>, t: Tree<N>): Tree<N>
    requires ctx.Frame? && ctx.up.Frame? && ctx.up.sib.Node?
  {
    var g := ctx.up;
    Make(g.onLeft, Make(ctx.onLeft, t, ctx.n, Black, ctx.region, ctx.sib), g.n, Red, g.region, g.sib.(color := Black))
  }

  lemma {:induction false} UncleRedOk<N>(ctx: Ctx<N>, t: Tree<N>, h: int)
    requires Inserting(ctx, t, h) && CtxColor(ctx).Red? && RootColor(ctx.up.sib).Red?
    ensures Inserting(ctx.up.up, UncleRed(ctx, t), h + 1)
  {
    Grandparent(ctx, t, h);
    TwoFrames(ctx, h);
    var g := ctx.up;
    var p := Make(ctx.onLeft, t, ctx.n, Black, ctx.region, ctx.sib);
    MakeBalanced(ctx.onLeft, t, ctx.n, Black, ctx.region, ctx.sib, h + 1);
    assert Balanced(g.sib.(color := Black), h + 1);
    MakeBalanced(g.onLeft, p, g.n, Red, g.region, g.sib.(color := Black), h + 1);
  }

  lemma UncleRedOrder<N>(ctx: Ctx<N>, t: Tree<N>)
    requires ctx.Frame? && ctx.up.Frame? && ctx.up.sib.Node?
    ensures Contents(ctx.up.up, UncleRed(ctx, t)) == Contents(ctx, t)
  {
    hide Make, Before, After;
    ContentsUp2(ctx, t);
    MakeOrder(ctx.onLeft, t, ctx.n, Black, ctx.region, ctx.sib);
    MakeOrder(ctx.onLeft, t, ctx.n, ctx.color, ctx.region, ctx.sib);
    var g := ctx.up;
    MakeOrder(g.onLeft, Make(ctx.onLeft, t, ctx.n, Black, ctx.region, ctx.sib), g.n, Red, g.region,
      g.sib.(color := Black));
    MakeOrder(g.onLeft, Make(ctx.onLeft, t, ctx.n, ctx.color, ctx.region, ctx.sib), g.n, g.color, g.region, g.sib);
  }

  lemma ContentsUp2<N>(ctx: Ctx<N>, t: Tree<N>)
    requires ctx.Frame? && ctx.up.Frame?
    ensures var p := Make(ctx.onLeft, t, ctx.n, ctx.color, ctx.region, ctx.sib);
      Contents(ctx, t) == Contents(ctx.up.up, Make(ctx.up.onLeft, p, ctx.up.n, ctx.up.color, ctx.up.region, ctx.up.sib))
  {
    ContentsUp(ctx, t);
    ContentsUp(ctx.up, Make(ctx.onLeft, t, ctx.n, ctx.color, ctx.region, ctx.sib));
  }

  lemma ContentsUp<N>(ctx: Ctx<N>, t: Tree<N>)
    requires ctx.Frame?
    ensures Contents(ctx, t) == Contents(ctx.up, Make(ctx.onLeft, t, ctx.n, ctx.color, ctx.region, ctx.sib))
  {
  }

  /** Black uncle, inner grandchild: the rotation at the parent. */
  lemma {:induction false} InnerOk<N>(ctx: Ctx<N>, t: Tree<N>, h: int,
                                      near: Tree<N>, far: Tree<N>, ctx': Ctx<N>, t': Tree<N>)
    requires Inserting(ctx, t, h) && CtxColor(ctx).Red? && ctx.onLeft != ctx.up.onLeft
    requires t == Make(ctx.up.onLeft, near, t.n, Red, t.region, far)
    requires ctx' == Frame(ctx.up.onLeft, t.n, Red, t.region, far, ctx.up)
    requires t' == Make(ctx.up.onLeft, ctx.sib, ctx.n, Red, ctx.region, near)
    ensures Inserting(ctx', t', h)
  {
    Grandparent(ctx, t, h);
    MakeBalanced(ctx.up.onLeft, near, t.n, Red, t.region, far, h);
    MakeBalanced(ctx.up.onLeft, ctx.sib, ctx.n, Red, ctx.region, near, h);
  }

  lemma InnerOrder<N>(ctx: Ctx<N>, t: Tree<N>, near: Tree<N>, far: Tree<N>, ctx': Ctx<N>, t': Tree<N>)
    requires ctx.Frame? && ctx.up.Frame? && t.Node? && ctx.onLeft != ctx.up.onLeft
    requires t == Make(ctx.up.onLeft, near, t.n, Red, t.region, far)
    requires ctx' == Frame(ctx.up.onLeft, t.n, Red, t.region, far, ctx.up)
    requires t' == Make(ctx.up.onLeft, ctx.sib, ctx.n, Red, ctx.region, near)
    ensures Contents(ctx', t') == Contents(ctx, t)
  {
    hide InOrder, Make;
    MakeOrder(ctx.up.onLeft, near, t.n, Red, t.region, far);
    MakeOrder(ctx.up.onLeft, ctx.sib, ctx.n, Red, ctx.region, near);
    var l, r := Before(ctx.up), After(ctx.up);
    if ctx.onLeft {
      Regroup(l, InOrder(far), Entry(t.n, t.region), InOrder(near), Entry(ctx.n, ctx.region), InOrder(ctx.sib), r);
    } else {
      Regroup(l, InOrder(ctx.sib), Entry(ctx.n, ctx.region), InOrder(near), Entry(t.n, t.region), InOrder(far), r);
    }
  }

  /** Two ways to cut five consecutive stretches. */
  lemma Regroup<T>(l: seq<T>, a: seq<T>, x: T, b: seq<T>, y: T, c: seq<T>, r: seq<T>)
    ensures (l + a + [x]) + (b + [y] + c) + r == l + (a + [x] + b) + ([y] + c + r)
    ensures (l + (a + [x] + b + [y] + c)) + r == l + (a + [x] + b) + ([y] + c + r)
    ensures l + ((a + [x] + b) + [y] + c) + r == (l + a + [x]) + b + ([y] + c + r)
    ensures l + (a + [x] + (b + [y] + c)) + r == l + (a + [x] + b) + ([y] + c + r)
  {
  }

  /** Black uncle, outer grandchild: recolor and rotate at the grandparent; that is all. */
  lemma {:induction false} OuterOk<N>(ctx: Ctx<N>, t: Tree<N>, h: int, ctx': Ctx<N>)
    requires Inserting(ctx, t, h) && CtxColor(ctx).Red? && ctx.onLeft == ctx.up.onLeft
    requires RootColor(ctx.up.sib).Black?
    requires ctx' == Frame(ctx.onLeft, ctx.n, Black, ctx.region,
                           Make(ctx.onLeft, ctx.sib, ctx.up.n, Red, ctx.up.region, ctx.up.sib), ctx.up.up)
    ensures Inserting(ctx', t, h)
  {
    Grandparent(ctx, t, h);
    TwoFrames(ctx, h);
    MakeBalanced(ctx.onLeft, ctx.sib, ctx.up.n, Red, ctx.up.region, ctx.up.sib, h);
  }

  lemma OuterOrder<N>(ctx: Ctx<N>, t: Tree<N>, ctx': Ctx<N>)
    requires ctx.Frame? && ctx.up.Frame? && ctx.onLeft == ctx.up.onLeft
    requires ctx' == Frame(ctx.onLeft, ctx.n, Black, ctx.region,
                           Make(ctx.onLeft, ctx.sib, ctx.up.n, Red, ctx.up.region, ctx.up.sib), ctx.up.up)
    ensures Contents(ctx', t) == Contents(ctx, t)
  {
    MakeOrder(ctx.onLeft, ctx.sib, ctx.up.n, Red, ctx.up.region, ctx.up.sib);
    assert Before(ctx') == Before(ctx);
    assert After(ctx') == After(ctx);
  }

  /** When the loop ends, the root is blackened. */
  lemma {:induction false} InsertEnd<N>(ctx: Ctx<N>, t: Tree<N>, h: int)
    requires Inserting(ctx, t, h) && CtxColor(ctx).Black?
    ensures ctx.Top? ==> RedBlack(t.(color := Black))
    ensures ctx.Frame? ==> RedBlack(Plug(ctx, t))
  {
    if ctx.Frame? {
      PlugRedBlack(ctx, t, h);
    } else {
      assert Balanced(t.(color := Black), h + 1);
    }
  }

  // ---------- Deletion: a focus one black node short ----------

  /** The rest of the tree expects black height h + 1 where the focus has h.  The focus may
      be red with a red parent, or a red root: the last step blackens it. */
  ghost predicate Deleting<N>(ctx: Ctx<N>, t: Tree<N>, h: nat) {
    && Balanced(t, h) && NoRedBelow(t)
    && CtxBalanced(ctx, h + 1) && CtxNoRed(ctx)
  }

  /** The sibling of a black, short focus is a real node. */
  lemma {:induction false} Sibling<N>(ctx: Ctx<N>, t: Tree<N>, h: nat)
    requires Deleting(ctx, t, h) && ctx.Frame?
    ensures ctx.sib.Node? && Balanced(ctx.sib, h + 1) && NoRed(ctx.sib)
    ensures CtxBalanced(ctx.up, h + 1 + One(ctx.color)) && CtxNoRed(ctx.up)
    ensures ctx.sib.color.Red? ==> ctx.color.Black? && ctx.sib.left.Node? && ctx.sib.right.Node?
  {
    assert Balanced(ctx.sib, h + 1);
    if ctx.sib.color.Red? {
      assert Balanced(ctx.sib.left, h + 1) && Balanced(ctx.sib.right, h + 1);
    }
  }

  /** Red sibling: after the recoloring and the rotation at the parent, the sibling is black. */
  lemma {:induction false} SiblingRedOk<N>(ctx: Ctx<N>, t: Tree<N>, h: nat, near: Tree<N>, far: Tree<N>, ctx': Ctx<N>)
    requires Deleting(ctx, t, h) && ctx.Frame? && ctx.sib.Node? && ctx.sib.color.Red?
    requires ctx.sib == Make(ctx.onLeft, near, ctx.sib.n, Red, ctx.sib.region, far)
    requires ctx' == Frame(ctx.onLeft, ctx.n, Red, ctx.region, near,
                           Frame(ctx.onLeft, ctx.sib.n, Black, ctx.sib.region, far, ctx.up))
    ensures Deleting(ctx', t, h) && near.Node? && near.color.Black?
  {
    Sibling(ctx, t, h);
    MakeBalanced(ctx.onLeft, near, ctx.sib.n, Red, ctx.sib.region, far, h + 1);
    assert CtxBalanced(ctx'.up, h + 1) && CtxNoRed(ctx'.up);
  }

  /** Black sibling with black children: it turns red, and the parent is short now. */
  lemma {:induction false} SiblingBlackOk<N>(ctx: Ctx<N>, t: Tree<N>, h: nat)
    requires Deleting(ctx, t, h) && RootColor(t).Black? && ctx.Frame? && ctx.sib.Node? && ctx.sib.color.Black?
    requires RootColor(ctx.sib.left).Black? && RootColor(ctx.sib.right).Black?
    ensures var t' := Make(ctx.onLeft, t, ctx.n, ctx.color, ctx.region, ctx.sib.(color := Red));
      Deleting(ctx.up, t', h + One(ctx.color))
  {
    Sibling(ctx, t, h);
    var w := ctx.sib.(color := Red);
    assert Balanced(w, h) && NoRed(w);
    assert NoRed(t);
    MakeBalanced(ctx.onLeft, t, ctx.n, ctx.color, ctx.region, w, h + One(ctx.color));
    assert NoRedBelow(Make(ctx.onLeft, t, ctx.n, ctx.color, ctx.region, w));
  }

  /** Black sibling, far child black: the rotation at the sibling makes the far child red. */
  lemma {:induction false} FarBlackOk<N>(ctx: Ctx<N>, t: Tree<N>, h: nat, near: Tree<N>, far: Tree<N>,
                                         a: Tree<N>, b: Tree<N>, sib': Tree<N>)
    requires Deleting(ctx, t, h) && ctx.Frame? && ctx.sib.Node? && ctx.sib.color.Black?
    requires ctx.sib == Make(ctx.onLeft, near, ctx.sib.n, Black, ctx.sib.region, far)
    requires RootColor(far).Black? && near.Node? && near.color.Red?
    requires near == Make(ctx.onLeft, a, near.n, Red, near.region, b)
    requires sib'
      == Make(ctx.onLeft, a, near.n, Black, near.region, Make(ctx.onLeft, b, ctx.sib.n, Red, ctx.sib.region, far))
    ensures Deleting(ctx.(sib := sib'), t, h)
  {
    Sibling(ctx, t, h);
    MakeBalanced(ctx.onLeft, near, ctx.sib.n, Black, ctx.sib.region, far, h + 1);
    MakeBalanced(ctx.onLeft, a, near.n, Red, near.region, b, h);
    MakeBalanced(ctx.onLeft, b, ctx.sib.n, Red, ctx.sib.region, far, h);
    MakeBalanced(ctx.onLeft, a, near.n, Black, near.region, Make(ctx.onLeft, b, ctx.sib.n, Red, ctx.sib.region, far),
      h + 1);
  }

  /** Black sibling, far child red: the last rotation, at the parent, makes up the shortage. */
  ghost function FarRed<N>(ctx: Ctx<N>, t: Tree<N>, near: Tree<N>, far: Tree<N>): Tree<N>
    requires ctx.Frame? && ctx.sib.Node? && far.Node?
  {
    Make(ctx.onLeft, Make(ctx.onLeft, t, ctx.n, Black, ctx.region, near), ctx.sib.n, ctx.color, ctx.sib.region,
         far.(color := Black))
  }

  lemma {:induction false} FarRedOk<N>(ctx: Ctx<N>, t: Tree<N>, h: nat, near: Tree<N>, far: Tree<N>)
    requires Deleting(ctx, t, h) && RootColor(t).Black? && ctx.Frame? && ctx.sib.Node? && ctx.sib.color.Black?
    requires ctx.sib == Make(ctx.onLeft, near, ctx.sib.n, Black, ctx.sib.region, far)
    requires far.Node? && far.color.Red?
    ensures var t' := FarRed(ctx, t, near, far);
      && Balanced(t', h + 1 + One(ctx.color)) && NoRed(t')
      && (ctx.Frame? && ctx.color.Red? ==> ctx.up.Frame? && ctx.up.color.Black?)
      && RedBlack(Plug(ctx.up, t'))
  {
    Sibling(ctx, t, h);
    MakeBalanced(ctx.onLeft, near, ctx.sib.n, Black, ctx.sib.region, far, h + 1);
    var p := Make(ctx.onLeft, t, ctx.n, Black, ctx.region, near);
    MakeBalanced(ctx.onLeft, t, ctx.n, Black, ctx.region, near, h + 1);
    var f := far.(color := Black);
    assert Balanced(f, h + 1) && NoRed(f);
    MakeBalanced(ctx.onLeft, p, ctx.sib.n, ctx.color, ctx.sib.region, f, h + 1 + One(ctx.color));
    PlugRedBlack(ctx.up, FarRed(ctx, t, near, far), h + 1 + One(ctx.color));
  }

  /** When the loop ends, the focus is blackened. */
  lemma {:induction false} DeleteEnd<N>(ctx: Ctx<N>, t: Tree<N>, h: nat)
    requires Deleting(ctx, t, h) && (ctx.Top? || RootColor(t).Red?)
    ensures var t' := if t.Node? then t.(color := Black) else t;
      RedBlack(Plug(ctx, t'))
  {
    var t' := if t.Node? then t.(color := Black) else t;
    if t.Leaf? {
      assert Balanced(t', 0);
    } else {
      assert Balanced(t', h - One(t.color) + 1);
      PlugRedBlack(ctx, t', h - One(t.color) + 1);
    }
  }

  lemma SiblingRedOrder<N>(ctx: Ctx<N>, t: Tree<N>, near: Tree<N>, far: Tree<N>, ctx': Ctx<N>)
    requires ctx.Frame? && ctx.sib.Node?
    requires ctx.sib == Make(ctx.onLeft, near, ctx.sib.n, ctx.sib.color, ctx.sib.region, far)
    requires ctx' == Frame(ctx.onLeft, ctx.n, Red, ctx.region, near,
                           Frame(ctx.onLeft, ctx.sib.n, Black, ctx.sib.region, far, ctx.up))
    ensures Contents(ctx', t) == Contents(ctx, t)
  {
    hide InOrder, Make;
    MakeOrder(ctx.onLeft, near, ctx.sib.n, ctx.sib.color, ctx.sib.region, far);
    assert Before(ctx') == Before(ctx);
    assert After(ctx') == After(ctx);
  }

  lemma SiblingBlackOrder<N>(ctx: Ctx<N>, t: Tree<N>)
    requires ctx.Frame? && ctx.sib.Node?
    ensures Contents(ctx.up, Make(ctx.onLeft, t, ctx.n, ctx.color, ctx.region, ctx.sib.(color := Red)))
      == Contents(ctx, t)
  {
    ContentsUp(ctx.(sib := ctx.sib.(color := Red)), t);
    assert InOrder(ctx.sib.(color := Red)) == InOrder(ctx.sib);
  }

  lemma FarBlackOrder<N>(ctx: Ctx<N>, t: Tree<N>, near: Tree<N>, far: Tree<N>, a: Tree<N>, b: Tree<N>, sib': Tree<N>)
    requires ctx.Frame? && ctx.sib.Node? && near.Node?
    requires ctx.sib == Make(ctx.onLeft, near, ctx.sib.n, ctx.sib.color, ctx.sib.region, far)
    requires near == Make(ctx.onLeft, a, near.n, near.color, near.region, b)
    requires sib'
      == Make(ctx.onLeft, a, near.n, Black, near.region, Make(ctx.onLeft, b, ctx.sib.n, Red, ctx.sib.region, far))
    ensures Contents(ctx.(sib := sib'), t) == Contents(ctx, t)
  {
    hide InOrder, Make;
    MakeOrder(ctx.onLeft, near, ctx.sib.n, ctx.sib.color, ctx.sib.region, far);
    MakeOrder(ctx.onLeft, a, near.n, near.color, near.region, b);
    MakeOrder(ctx.onLeft, b, ctx.sib.n, Red, ctx.sib.region, far);
    MakeOrder(ctx.onLeft, a, near.n, Black, near.region, Make(ctx.onLeft, b, ctx.sib.n, Red, ctx.sib.region, far));
    assert InOrder(sib') == InOrder(ctx.sib);
    assert Before(ctx.(sib := sib')) == Before(ctx);
    assert After(ctx.(sib := sib')) == After(ctx);
  }

  lemma FarRedOrder<N>(ctx: Ctx<N>, t: Tree<N>, near: Tree<N>, far: Tree<N>)
    requires ctx.Frame? && ctx.sib.Node? && far.Node?
    requires ctx.sib == Make(ctx.onLeft, near, ctx.sib.n, ctx.sib.color, ctx.sib.region, far)
    ensures Contents(ctx.up, FarRed(ctx, t, near, far)) == Contents(ctx, t)
  {
    ContentsUp(ctx, t);
    FarRedInOrder(ctx, t, near, far);
  }

  lemma FarRedInOrder<N>(ctx: Ctx<N>, t: Tree<N>, near: Tree<N>, far: Tree<N>)
    requires ctx.Frame? && ctx.sib.Node? && far.Node?
    requires ctx.sib == Make(ctx.onLeft, near, ctx.sib.n, ctx.sib.color, ctx.sib.region, far)
    ensures InOrder(FarRed(ctx, t, near, far)) == InOrder(Make(ctx.onLeft, t, ctx.n, ctx.color, ctx.region, ctx.sib))
  {
    var f := far.(color := Black);
    assert InOrder(f) == InOrder(far);
    hide InOrder, Make;
    MakeOrder(ctx.onLeft, t, ctx.n, ctx.color, ctx.region, ctx.sib);
    MakeOrder(ctx.onLeft, near, ctx.sib.n, ctx.sib.color, ctx.sib.region, far);
    MakeOrder(ctx.onLeft, t, ctx.n, Black, ctx.region, near);
    MakeOrder(ctx.onLeft, Make(ctx.onLeft, t, ctx.n, Black, ctx.region, near), ctx.sib.n, ctx.color, ctx.sib.region, f);
    Assoc(InOrder(t), Entry(ctx.n, ctx.region), InOrder(near), Entry(ctx.sib.n, ctx.sib.region), InOrder(far));
    Assoc(InOrder(far), Entry(ctx.sib.n, ctx.sib.region), InOrder(near), Entry(ctx.n, ctx.region), InOrder(t));
  }

  lemma Assoc<T>(a: seq<T>, x: T, b: seq<T>, y: T, c: seq<T>)
    ensures (a + [x] + b) + [y] + c == a + [x] + (b + [y] + c)
  {
  }

  // ---------- Height ----------

  ghost function Height<N>(t: Tree<N>): nat {
    if t.Leaf? then 0 else 1 + if Height(t.left) > Height(t.right) then Height(t.left) else Height(t.right)
  }

  lemma {:induction false} HeightBlack<N>(t: Tree<N>, h: int)
    requires NoRed(t) && Balanced(t, h)
    ensures h >= 0 && Height(t) <= 2 * h + (if RootColor(t).Red? then 1 else 0)
    ensures Pow(2, h) <= |InOrder(t)| + 1
  {
    if t.Node? {
      HeightBlack(t.left, h - One(t.color));
      HeightBlack(t.right, h - One(t.color));
    }
  }

  /** A red-black tree with n nodes has at most 2 log2(n + 1) levels. */
  lemma HeightBound<N>(t: Tree<N>)
    requires RedBlack(t)
    ensures Pow(2, Height(t)) <= (|InOrder(t)| + 1) * (|InOrder(t)| + 1)
  {
    var h :| Balanced(t, h);
    HeightBlack(t, h);
    PowMonotone(2, Height(t), h + h);
    PowSum(2, h, h);
    var n := |InOrder(t)| + 1;
    assert Pow(2, h) * Pow(2, h) <= n * n by { SquareMonotone(Pow(2, h), n); }
  }

  lemma SquareMonotone(a: nat, b: nat)
    requires a <= b
    ensures a * a <= b * b
  {
  }
}
