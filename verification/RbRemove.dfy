/** Taking a node out of a red-black tree and repairing it, as steps on a focused graph. */
module RbRemove {
  import opened RbShape
  import opened RbGraph
  import opened RbInsert

  /* ---- the state of the repair ---- */

  function Blackened(t: Tree): Tree { if t.E? then E else t.(c := Black) }

  // The focus is one black node short, and may be red below a red node.
  predicate Short(k: Ctx, t: Tree, h: nat) {
    Bal(t, h) && CtxBal(k, h + 1) && NoRedRed(Blackened(t)) && CtxOk(k)
  }

  // A lawful focus: the tree below, the path above, and no red pair between them.
  predicate Lawful(k: Ctx, t: Tree, h: nat) {
    Bal(t, h) && CtxBal(k, h) && NoRedRed(t) && CtxOk(k) && (IsRed(t) ==> k.In? && k.c == Black)
  }

  lemma LawfulUp(d: Dir, c: Color, x: Node, sib: Tree, up: Ctx, t: Tree, h: nat)
    ensures Lawful(In(d, c, x, sib, up), t, h) <==>
            Bal(t, h) && Bal(sib, h) && Lawful(up, Mk(d, c, t, x, sib), if c == Black then h + 1 else h)
  {
    MkLaws(d, c, t, x, sib, if c == Black then h + 1 else h);
  }

  /* ---- the four cases of RB_REMOVE_COLOR ---- */

  // Red sibling: recolour and rotate, which gives a black one.
  ghost function RedSibCtx(k: Ctx): Ctx
    requires k.In? && k.sib.N?
  {
    In(k.d, Red, k.x, Sub(k.sib, k.d), In(k.d, Black, k.sib.x, Sub(k.sib, Other(k.d)), k.up))
  }

  lemma RedSib(g: Graph, top: Node?, k: Ctx, t: Tree, h: nat)
    requires Focus(g, top, k, t) && Short(k, t, h) && k.In? && IsRed(k.sib)
    ensures k.sib.x in g && k.x in g
    ensures var g1 := Painted(Painted(g, k.sib.x, Black), k.x, Red);
            CanRot(g1, k.x, k.d) &&
            var (g', top') := Rot(g1, top, k.x, k.d);
            Focus(g', top', RedSibCtx(k), t)
    ensures Short(RedSibCtx(k), t, h) && !IsRed(RedSibCtx(k).sib)
    ensures Contents(RedSibCtx(k), t) == Contents(k, t)
  {
    var d, p, s := k.d, k.x, k.sib.x;
    var sl, sr := Sub(k.sib, d), Sub(k.sib, Other(d));
    assert k.sib == Mk(d, Red, sl, s, sr);
    PaintSibling(g, top, k, t, Black);
    var g0 := Painted(g, s, Black);
    PaintParent(g0, top, k.(sib := k.sib.(c := Black)), t, Red);
    var g1 := Painted(g0, p, Red);
    Up(g1, top, d, Red, p, Mk(d, Black, sl, s, sr), k.up, t);
    RotFocus(g1, top, k.up, d, Red, t, p, Black, sl, s, sr);
    var (g', top') := Rot(g1, top, p, d);
    var low := Mk(d, Red, t, p, sl);
    Up(g', top', d, Black, s, sr, k.up, low);
    Up(g', top', d, Red, p, sl, In(d, Black, s, sr, k.up), t);
    RedSibContents(k, t);
    RedSibLaws(k, t, h);
  }

  lemma RedSibLaws(k: Ctx, t: Tree, h: nat)
    requires Short(k, t, h) && k.In? && IsRed(k.sib)
    ensures Short(RedSibCtx(k), t, h) && !IsRed(RedSibCtx(k).sib)
  {
    var d := k.d;
    assert k.sib == Mk(d, Red, Sub(k.sib, d), k.sib.x, Sub(k.sib, Other(d)));
    MkLaws(d, Red, Sub(k.sib, d), k.sib.x, Sub(k.sib, Other(d)), h + 1);
  }

  lemma RedSibContents(k: Ctx, t: Tree)
    requires k.In? && k.sib.N?
    ensures Contents(RedSibCtx(k), t) == Contents(k, t)
  {
    var d, p, s := k.d, k.x, k.sib.x;
    var sl, sr := Sub(k.sib, d), Sub(k.sib, Other(d));
    assert k.sib == Mk(d, k.sib.c, sl, s, sr);
    UpContents(d, k.c, p, k.sib, k.up, t);
    UpContents(d, Red, p, sl, In(d, Black, s, sr, k.up), t);
    UpContents(d, Black, s, sr, k.up, Mk(d, Red, t, p, sl));
    RotInOrder(d, k.c, t, p, k.sib.c, sl, s, sr, Black, Red);
  }

  // Black sibling without red children: it turns red, and the shortage moves up.
  ghost function LiftTree(k: Ctx, t: Tree): Tree
    requires k.In? && k.sib.N?
  {
    Mk(k.d, k.c, t, k.x, k.sib.(c := Red))
  }

  lemma Lift(g: Graph, top: Node?, k: Ctx, t: Tree, h: nat)
    requires Focus(g, top, k, t) && Short(k, t, h) && k.In? && !IsRed(t) && !IsRed(k.sib)
    requires k.sib.N? ==> !IsRed(k.sib.l) && !IsRed(k.sib.r)
    ensures k.sib.N? && k.sib.x in g && Focus(Painted(g, k.sib.x, Red), top, k.up, LiftTree(k, t))
    ensures Short(k.up, LiftTree(k, t), if k.c == Red then h else h + 1)
    ensures Contents(k.up, LiftTree(k, t)) == Contents(k, t)
  {
    PaintSibling(g, top, k, t, Red);
    Up(Painted(g, k.sib.x, Red), top, k.d, k.c, k.x, k.sib.(c := Red), k.up, t);
    LiftLaws(k, t, h);
  }

  lemma LiftLaws(k: Ctx, t: Tree, h: nat)
    requires Short(k, t, h) && k.In? && !IsRed(t) && k.sib.N? && k.sib.c == Black && !IsRed(k.sib.l) && !IsRed(k.sib.r)
    ensures Short(k.up, LiftTree(k, t), if k.c == Red then h else h + 1)
    ensures Contents(k.up, LiftTree(k, t)) == Contents(k, t)
  {
    var sib := k.sib.(c := Red);
    assert Bal(sib, h);
    MkLaws(k.d, k.c, t, k.x, sib, if k.c == Red then h else h + 1);
    MkLaws(k.d, Black, t, k.x, sib, h + 1);
    assert Blackened(LiftTree(k, t)) == Mk(k.d, Black, t, k.x, sib);
    UpContents(k.d, k.c, k.x, k.sib, k.up, t);
    MkInOrder(k.d, k.c, t, k.x, k.sib);
    MkInOrder(k.d, k.c, t, k.x, sib);
  }

  // Black sibling whose near child alone is red: a rotation at the sibling makes it the far one.
  ghost function NearCtx(k: Ctx): Ctx
    requires k.In? && k.sib.N? && Sub(k.sib, k.d).N?
  {
    var near := Sub(k.sib, k.d);
    k.(sib := Mk(k.d, Black, Sub(near, k.d), near.x,
                 Mk(k.d, Red, Sub(near, Other(k.d)), k.sib.x, Sub(k.sib, Other(k.d)))))
  }

  lemma NearLaws(k: Ctx, t: Tree, h: nat)
    requires Short(k, t, h) && k.In? && k.sib.N? && k.sib.c == Black
    requires IsRed(Sub(k.sib, k.d)) && !IsRed(Sub(k.sib, Other(k.d)))
    ensures Short(NearCtx(k), t, h) && Contents(NearCtx(k), t) == Contents(k, t)
  {
    var d, r, s := k.d, Other(k.d), k.sib.x;
    var near, far := Sub(k.sib, d), Sub(k.sib, r);
    var b, e := Sub(near, r), Sub(near, d);
    assert near == Mk(r, Red, b, near.x, e) && k.sib == Mk(r, Black, far, s, near);
    assert NearCtx(k).sib == Mk(r, Black, Mk(r, Red, far, s, b), near.x, e);
    MkLaws(r, Black, far, s, near, h + 1);
    MkLaws(r, Red, b, near.x, e, h);
    MkLaws(r, Red, far, s, b, h);
    MkLaws(r, Black, Mk(r, Red, far, s, b), near.x, e, h + 1);
    RotInOrder(r, Black, far, s, Red, b, near.x, e, Black, Red);
    NewSibling(k, t, NearCtx(k).sib);
  }

  lemma NearRed(g: Graph, top: Node?, k: Ctx, t: Tree, h: nat)
    requires Focus(g, top, k, t) && Short(k, t, h) && k.In? && k.sib.N? && k.sib.c == Black
    requires IsRed(Sub(k.sib, k.d)) && !IsRed(Sub(k.sib, Other(k.d)))
    ensures var near, s := Sub(k.sib, k.d).x, k.sib.x;
            near in g && s in g &&
            var g1 := Painted(Painted(g, near, Black), s, Red);
            CanRot(g1, s, Other(k.d)) &&
            var (g', top') := Rot(g1, top, s, Other(k.d));
            top' == top && Focus(g', top', NearCtx(k), t)
    ensures Short(NearCtx(k), t, h)
    ensures Contents(NearCtx(k), t) == Contents(k, t)
  {
    var d, r, s := k.d, Other(k.d), k.sib.x;
    var near, far := Sub(k.sib, d), Sub(k.sib, r);
    var b, e := Sub(near, r), Sub(near, d);
    assert near == Mk(r, Red, b, near.x, e) && k.sib == Mk(r, Black, far, s, near);
    Across(g, top, d, k.c, k.x, k.sib, k.up, t);
    var k2 := In(r, k.c, k.x, t, k.up);
    PaintKid(g, top, k2, r, Black, far, s, near, Black);
    var g0 := Painted(g, near.x, Black);
    var near2 := Mk(r, Black, b, near.x, e);
    PaintRoot(g0, top, k2, Mk(r, Black, far, s, near2), Red);
    var g1 := Painted(g0, s, Red);
    assert Mk(r, Black, far, s, near2).(c := Red) == Mk(r, Red, far, s, near2);
    RotFocus(g1, top, k2, r, Red, far, s, Black, b, near.x, e);
    RotFields0(g1, top, k2, r, Red, far, s, Black, b, near.x, e);
    var (g', top') := Rot(g1, top, s, r);
    assert NearCtx(k).sib == Mk(r, Black, Mk(r, Red, far, s, b), near.x, e);
    Across(g', top', d, k.c, k.x, NearCtx(k).sib, k.up, t);
    NearLaws(k, t, h);
  }

  lemma NewSibling(k: Ctx, t: Tree, sib: Tree)
    requires k.In? && InOrder(sib) == InOrder(k.sib)
    ensures Contents(k.(sib := sib), t) == Contents(k, t)
  {
  }

  // Painting the child b of the focused node.
  lemma PaintKid(g: Graph, top: Node?, k: Ctx, d: Dir, c: Color, a: Tree, x: Node, b: Tree, c2: Color)
    requires b.N? && Focus(g, top, k, Mk(d, c, a, x, b))
    ensures b.x in g && Focus(Painted(g, b.x, c2), top, k, Mk(d, c, a, x, b.(c := c2)))
  {
    Up(g, top, d, c, x, b, k, a);
    PaintSibling(g, top, In(d, c, x, b, k), a, c2);
    Up(Painted(g, b.x, c2), top, d, c, x, b.(c := c2), k, a);
  }

  // Black sibling whose far child is red: colours and one rotation settle it.
  ghost function FarTree(k: Ctx, t: Tree): Tree
    requires k.In? && k.sib.N? && Sub(k.sib, Other(k.d)).N?
  {
    Mk(k.d, k.c, Mk(k.d, Black, t, k.x, Sub(k.sib, k.d)), k.sib.x, Sub(k.sib, Other(k.d)).(c := Black))
  }

  lemma FarRed(g: Graph, top: Node?, k: Ctx, t: Tree, h: nat)
    requires Focus(g, top, k, t) && Short(k, t, h) && k.In? && !IsRed(t) && k.sib.N? && k.sib.c == Black
    requires IsRed(Sub(k.sib, Other(k.d)))
    ensures var p, s, far := k.x, k.sib.x, Sub(k.sib, Other(k.d)).x;
            p in g && s in g && far in g && g[p].color == k.c &&
            var g1 := Painted(Painted(Painted(g, s, k.c), p, Black), far, Black);
            CanRot(g1, p, k.d) &&
            var (g', top') := Rot(g1, top, p, k.d);
            Focus(g', top', k.up, FarTree(k, t))
    ensures Lawful(k.up, FarTree(k, t), if k.c == Black then h + 2 else h + 1)
    ensures Contents(k.up, FarTree(k, t)) == Contents(k, t)
  {
    var d, r, p, s := k.d, Other(k.d), k.x, k.sib.x;
    var near, far := Sub(k.sib, d), Sub(k.sib, r);
    assert k.sib == Mk(d, Black, near, s, far);
    PaintSibling(g, top, k, t, k.c);
    var g0 := Painted(g, s, k.c);
    var k0 := k.(sib := Mk(d, k.c, near, s, far));
    PaintParent(g0, top, k0, t, Black);
    var g1 := Painted(g0, p, Black);
    var k1 := k0.(c := Black);
    Across(g1, top, d, Black, p, k1.sib, k.up, t);
    var k2 := In(r, Black, p, t, k.up);
    PaintKid(g1, top, k2, d, k.c, near, s, far, Black);
    var g2 := Painted(g1, far.x, Black);
    var sib2 := Mk(d, k.c, near, s, far.(c := Black));
    Across(g2, top, d, Black, p, sib2, k.up, t);
    Up(g2, top, d, Black, p, sib2, k.up, t);
    RotFocus(g2, top, k.up, d, Black, t, p, k.c, near, s, far.(c := Black));
    FarLaws(k, t, h);
  }

  lemma FarLaws(k: Ctx, t: Tree, h: nat)
    requires Short(k, t, h) && k.In? && !IsRed(t) && k.sib.N? && k.sib.c == Black && IsRed(Sub(k.sib, Other(k.d)))
    ensures Lawful(k.up, FarTree(k, t), if k.c == Black then h + 2 else h + 1)
    ensures Contents(k.up, FarTree(k, t)) == Contents(k, t)
  {
    var d, r, p, s := k.d, Other(k.d), k.x, k.sib.x;
    var near, far := Sub(k.sib, d), Sub(k.sib, r);
    assert k.sib == Mk(d, Black, near, s, far);
    MkLaws(d, Black, near, s, far, h + 1);
    assert Bal(far.(c := Black), h + 1) && NoRedRed(far.(c := Black));
    MkLaws(d, Black, t, p, near, h + 1);
    MkLaws(d, k.c, Mk(d, Black, t, p, near), s, far.(c := Black), if k.c == Black then h + 2 else h + 1);
    UpContents(d, k.c, p, k.sib, k.up, t);
    RotInOrder(d, k.c, t, p, Black, near, s, far, k.c, Black);
    MkInOrder(d, k.c, Mk(d, Black, t, p, near), s, far);
    MkInOrder(d, k.c, Mk(d, Black, t, p, near), s, far.(c := Black));
  }

  /* ---- the end of the repair ---- */

  lemma LawfulIsRedBlack(g: Graph, top: Node?, k: Ctx, t: Tree, h: nat)
    requires Focus(g, top, k, t) && Lawful(k, t, h)
    ensures exists t' :: Focus(g, top, Top, t') && RedBlack(t') && InOrder(t') == Contents(k, t)
  {
    ToTop(g, top, k, t);
    PlugInOrder(k, t);
    PlugLaws(k, t, h);
  }

  // Painting what is left short black pays the debt, or there is none at the root.
  lemma Paid(k: Ctx, t: Tree, h: nat)
    requires Short(k, t, h) && (k.Top? || IsRed(t))
    ensures exists h': nat :: Lawful(k, Blackened(t), h')
  {
    if IsRed(t) {
      assert Lawful(k, Blackened(t), h + 1);
    } else {
      assert Lawful(k, Blackened(t), h);
    }
  }

  /* ---- splicing a node with at most one child out of the tree ---- */

  function Spliced(g: Graph, top: Node?, y: Node, child: Node?): (Graph, Node?)
    requires y in g && (child != null ==> child in g) && (g[y].parent != null ==> g[y].parent in g)
  {
    var p := g[y].parent;
    Replaced(if child != null then g[child := g[child].(parent := p)] else g, top, p, y, child)
  }

  lemma SpliceFocus(g: Graph, top: Node?, k: Ctx, t: Tree, ch: Tree)
    requires Focus(g, top, k, t) && t.N?
    requires (t.l.E? && ch == t.r) || (t.r.E? && ch == t.l)
    ensures t.x in g && (ch.N? ==> ch.x in g) && g[t.x].parent == Par(k) && (k.In? ==> k.x in g)
    ensures var (g', top') := Spliced(g, top, t.x, Root(ch));
            Focus(g' - {t.x}, top', k, ch)
  {
    var y := t.x;
    RealNodes(g, ch, y);
    if k.In? { NotBoth(g, k, y); }
    var (g', top') := Spliced(g, top, y, Root(ch));
    var g2 := g' - {y};
    assert Nodes(t) == Nodes(ch) + {y};
    assert y !in Nodes(ch) && y !in CtxNodes(k);
    Reparented(g, g2, ch, y, Par(k));
    Refilled(g, g2, k, y, Root(ch));
  }

  /* ---- putting node y in the place of node x ---- */

  function Seated(g: Graph, top: Node?, x: Node, y: Node): (Graph, Node?)
    requires x in g && (g[x].parent != null ==> g[x].parent in g)
    requires (g[x].left != null ==> g[x].left in g) && (g[x].right != null ==> g[x].right in g)
  {
    var old_ := g[x];
    var (g2, top') := Replaced(g[y := old_], top, old_.parent, x, y);
    var g3 := if old_.left != null then g2[old_.left := g2[old_.left].(parent := y)] else g2;
    (if old_.right != null then g3[old_.right := g3[old_.right].(parent := y)] else g3, top')
  }

  lemma SeatFields(g: Graph, top: Node?, k: Ctx, t: Tree, y: Node)
    requires Focus(g, top, k, t) && t.N? && y !in g
    ensures t.x in g && (t.l.N? ==> t.l.x in g) && (t.r.N? ==> t.r.x in g) && (k.In? ==> k.x in g)
    ensures g[t.x] == Rec(Root(t.l), Root(t.r), Par(k), t.c)
    ensures var (g', top') := Seated(g, top, t.x, y);
            && g'.Keys == g.Keys + {y} && top' == (if k.Top? then y else top)
            && g'[y] == g[t.x]
            && (k.In? ==> g'[k.x] == WithKid(g[k.x], k.d, y))
            && (t.l.N? ==> g'[t.l.x] == g[t.l.x].(parent := y))
            && (t.r.N? ==> g'[t.r.x] == g[t.r.x].(parent := y))
            && (forall z :: z in g && z != t.x && z != Par(k) && z != Root(t.l) && z != Root(t.r) ==> g'[z] == g[z])
  {
    if k.In? { NotBoth(g, k, t.x); }
    RealNodes(g, t.l, t.x);
    RealNodes(g, t.r, t.x);
  }

  lemma SeatFocus(g: Graph, top: Node?, k: Ctx, t: Tree, y: Node)
    requires Focus(g, top, k, t) && t.N? && y !in g
    ensures t.x in g && (t.l.N? ==> t.l.x in g) && (t.r.N? ==> t.r.x in g) && (k.In? ==> k.x in g)
    ensures g[t.x] == Rec(Root(t.l), Root(t.r), Par(k), t.c)
    ensures var (g', top') := Seated(g, top, t.x, y);
            Focus(g' - {t.x}, top', k, t.(x := y))
  {
    hide Seated;
    SeatFields(g, top, k, t, y);
    var (g', top') := Seated(g, top, t.x, y);
    var g2 := g' - {t.x};
    Reparented(g, g2, t.l, t.x, y);
    Reparented(g, g2, t.r, t.x, y);
    Refilled(g, g2, k, t.x, y);
    RealNodes(g, t, Par(k));
  }

  /* ---- paths inside a subtree ---- */

  function Join(inner: Ctx, outer: Ctx): Ctx {
    if inner.Top? then outer else inner.(up := Join(inner.up, outer))
  }

  lemma {:induction false} JoinFocus(g: Graph, top: Node?, inner: Ctx, outer: Ctx, t: Tree)
    ensures Focus(g, top, Join(inner, outer), t) <==> Focus(g, top, outer, Plug(inner, t))
    decreases inner
  {
    if inner.In? {
      Up(g, top, inner.d, inner.c, inner.x, inner.sib, Join(inner.up, outer), t);
      JoinFocus(g, top, inner.up, outer, Mk(inner.d, inner.c, t, inner.x, inner.sib));
    }
  }

  lemma {:induction false} JoinContents(inner: Ctx, outer: Ctx)
    ensures Before(Join(inner, outer)) == Before(outer) + Before(inner)
    ensures After(Join(inner, outer)) == After(inner) + After(outer)
    decreases inner
  {
    if inner.In? { JoinContents(inner.up, outer); }
  }

  // The node at the bottom of the path plays no part in the laws.
  lemma {:induction false} JoinLaws(inner: Ctx, d: Dir, c: Color, x: Node, y: Node, sib: Tree, up: Ctx, h: nat)
    ensures CtxBal(Join(inner, In(d, c, x, sib, up)), h) <==> CtxBal(Join(inner, In(d, c, y, sib, up)), h)
    ensures CtxOk(Join(inner, In(d, c, x, sib, up))) <==> CtxOk(Join(inner, In(d, c, y, sib, up)))
    decreases inner
  {
    if inner.In? {
      JoinLaws(inner.up, d, c, x, y, sib, up, if inner.c == Black then h + 1 else h);
    }
  }

  predicate AllLeft(k: Ctx) { k.In? ==> k.d == Left && AllLeft(k.up) }

  lemma {:induction false} AllLeftBefore(k: Ctx)
    requires AllLeft(k)
    ensures Before(k) == []
    decreases k
  {
    if k.In? { AllLeftBefore(k.up); }
  }

  /* ---- finding a node's path ---- */

  lemma {:induction false} PathTo(k: Ctx, t: Tree, x: Node) returns (k': Ctx, t': Tree)
    requires x in Nodes(t)
    ensures Plug(k', t') == Plug(k, t) && t'.N? && t'.x == x
    decreases t
  {
    if t.x == x {
      k', t' := k, t;
    } else if x in Nodes(t.l) {
      k', t' := PathTo(In(Left, t.c, t.x, t.r, k), t.l, x);
    } else {
      k', t' := PathTo(In(Right, t.c, t.x, t.l, k), t.r, x);
    }
  }

  lemma {:induction false} FromTop(g: Graph, top: Node?, k: Ctx, t: Tree)
    requires Focus(g, top, Top, Plug(k, t))
    ensures Focus(g, top, k, t)
    decreases k
  {
    if k.In? {
      FromTop(g, top, k.up, Mk(k.d, k.c, t, k.x, k.sib));
      Up(g, top, k.d, k.c, k.x, k.sib, k.up, t);
    }
  }

  lemma {:induction false} LawfulFromTop(k: Ctx, t: Tree) returns (h: nat)
    requires RedBlack(Plug(k, t))
    ensures Lawful(k, t, h)
    decreases k
  {
    if k.Top? {
      h :| Bal(t, h);
    } else {
      var m := Mk(k.d, k.c, t, k.x, k.sib);
      h := LawfulFromTop(k.up, m);
      if k.c == Black {
        MkLaws(k.d, k.c, t, k.x, k.sib, h);
        h := h - 1;
        LawfulUp(k.d, k.c, k.x, k.sib, k.up, t, h);
      } else {
        MkLaws(k.d, k.c, t, k.x, k.sib, h);
        LawfulUp(k.d, k.c, k.x, k.sib, k.up, t, h);
      }
    }
  }
}
