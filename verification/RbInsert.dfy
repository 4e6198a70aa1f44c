/** Repairing a red-black tree after an insertion, as steps on a focused graph. */
module RbInsert {
  import opened Collections
  import opened RbShape
  import opened RbGraph

  /* ---- painting off the focus ---- */

  lemma PaintParent(g: Graph, top: Node?, k: Ctx, t: Tree, c: Color)
    requires k.In? && Focus(g, top, k, t)
    ensures k.x in g && Focus(Painted(g, k.x, c), top, k.(c := c), t)
  {
    Up(g, top, k.d, k.c, k.x, k.sib, k.up, t);
    PaintRoot(g, top, k.up, Mk(k.d, k.c, t, k.x, k.sib), c);
    Up(Painted(g, k.x, c), top, k.d, c, k.x, k.sib, k.up, t);
  }

  // Looking at the sibling instead: the hole moves to the other side of the same node.
  lemma Across(g: Graph, top: Node?, d: Dir, c: Color, x: Node, sib: Tree, up: Ctx, t: Tree)
    ensures Focus(g, top, In(d, c, x, sib, up), t) <==> Focus(g, top, In(Other(d), c, x, t, up), sib)
  {
    Up(g, top, d, c, x, sib, up, t);
    Up(g, top, Other(d), c, x, t, up, sib);
    assert Mk(d, c, t, x, sib) == Mk(Other(d), c, sib, x, t);
  }

  lemma PaintSibling(g: Graph, top: Node?, k: Ctx, t: Tree, c: Color)
    requires k.In? && k.sib.N? && Focus(g, top, k, t)
    ensures k.sib.x in g && Focus(Painted(g, k.sib.x, c), top, k.(sib := k.sib.(c := c)), t)
  {
    Across(g, top, k.d, k.c, k.x, k.sib, k.up, t);
    PaintRoot(g, top, In(Other(k.d), k.c, k.x, t, k.up), k.sib, c);
    Across(Painted(g, k.sib.x, c), top, k.d, k.c, k.x, k.sib.(c := c), k.up, t);
  }

  /* ---- the state of the repair ---- */

  // A red tree in a lawful path: the only law in doubt is a red parent above it.
  predicate Pending(k: Ctx, t: Tree, h: nat) {
    IsRed(t) && Bal(t, h) && NoRedRed(t) && CtxBal(k, h) && CtxOk(k)
  }

  function Contents(k: Ctx, t: Tree): seq<Node> { Before(k) + InOrder(t) + After(k) }

  lemma MkInOrder(d: Dir, c: Color, a: Tree, x: Node, b: Tree)
    ensures InOrder(Mk(d, c, a, x, b)) ==
            if d == Left then InOrder(a) + [x] + InOrder(b) else InOrder(b) + [x] + InOrder(a)
  {
  }

  lemma RotInOrder(d: Dir, c1: Color, a: Tree, x: Node, c2: Color, b: Tree, y: Node, e: Tree, c3: Color, c4: Color)
    ensures InOrder(Mk(d, c1, a, x, Mk(d, c2, b, y, e))) == InOrder(Mk(d, c3, Mk(d, c4, a, x, b), y, e))
  {
    if d == Left {
      Regroup(InOrder(a), [x], InOrder(b), [y], InOrder(e));
      assert InOrder(a) + [x] + (InOrder(b) + [y] + InOrder(e)) == (InOrder(a) + [x] + InOrder(b)) + [y] + InOrder(e);
    } else {
      assert (InOrder(e) + [y] + InOrder(b)) + [x] + InOrder(a) == InOrder(e) + [y] + (InOrder(b) + [x] + InOrder(a));
    }
  }

  lemma UpContents(d: Dir, c: Color, x: Node, sib: Tree, up: Ctx, t: Tree)
    ensures Contents(In(d, c, x, sib, up), t) == Contents(up, Mk(d, c, t, x, sib))
  {
    if d == Left { Regroup(Before(up), InOrder(t), [x], InOrder(sib), After(up)); }
    else { Regroup(Before(up), InOrder(sib), [x], InOrder(t), After(up)); }
  }

  /* ---- the three cases of RB_INSERT_COLOR ---- */

  // Red uncle: parent and uncle turn black, grandparent red, and the doubt moves up two levels.
  ghost function RecolorTree(k: Ctx, t: Tree): Tree
    requires RedAbove(k) && k.up.In? && IsRed(k.up.sib)
  {
    Mk(k.up.d, Red, Mk(k.d, Black, t, k.x, k.sib), k.up.x, k.up.sib.(c := Black))
  }

  lemma Recolor(g: Graph, top: Node?, k: Ctx, t: Tree, h: nat)
    requires Focus(g, top, k, t) && Pending(k, t, h) && RedAbove(k) && IsRed(k.up.sib)
    ensures var p, q, u := k.x, k.up.x, k.up.sib.x;
            p in g && q in g && u in g &&
            Focus(Painted(Painted(Painted(g, u, Black), p, Black), q, Red), top, k.up.up, RecolorTree(k, t))
    ensures Pending(k.up.up, RecolorTree(k, t), h + 1)
    ensures Contents(k.up.up, RecolorTree(k, t)) == Contents(k, t)
  {
    var p, q, u := k.x, k.up.x, k.up.sib.x;
    var t1 := Mk(k.d, Red, t, p, k.sib);
    Up(g, top, k.d, Red, p, k.sib, k.up, t);
    PaintSibling(g, top, k.up, t1, Black);
    var g1 := Painted(g, u, Black);
    var k1 := k.up.(sib := k.up.sib.(c := Black));
    PaintRoot(g1, top, k1, t1, Black);
    var g2 := Painted(g1, p, Black);
    var t2 := Mk(k.d, Black, t, p, k.sib);
    assert t1.(c := Black) == t2;
    PaintParent(g2, top, k1, t2, Red);
    Up(Painted(g2, q, Red), top, k1.d, Red, q, k1.sib, k1.up, t2);
    RecolorContents(k, t);
    RecolorLaws(k, t, h);
  }

  lemma RecolorLaws(k: Ctx, t: Tree, h: nat)
    requires Pending(k, t, h) && RedAbove(k) && IsRed(k.up.sib)
    ensures Pending(k.up.up, RecolorTree(k, t), h + 1)
  {
    var t2 := Mk(k.d, Black, t, k.x, k.sib);
    var u2 := k.up.sib.(c := Black);
    assert CtxBal(k.up, h) && CtxOk(k.up) && CtxBal(k.up.up, h + 1);
    MkLaws(k.d, Black, t, k.x, k.sib, h + 1);
    assert Bal(u2, h + 1) && NoRedRed(u2);
    MkLaws(k.up.d, Red, t2, k.up.x, u2, h + 1);
  }

  lemma RecolorContents(k: Ctx, t: Tree)
    requires RedAbove(k) && k.up.In? && IsRed(k.up.sib)
    ensures Contents(k.up.up, RecolorTree(k, t)) == Contents(k, t)
  {
    var t1 := Mk(k.d, Red, t, k.x, k.sib);
    UpContents(k.d, Red, k.x, k.sib, k.up, t);
    UpContents(k.up.d, k.up.c, k.up.x, k.up.sib, k.up.up, t1);
    MkInOrder(k.d, Red, t, k.x, k.sib);
    MkInOrder(k.d, Black, t, k.x, k.sib);
    var t2 := Mk(k.d, Black, t, k.x, k.sib);
    MkInOrder(k.up.d, k.up.c, t1, k.up.x, k.up.sib);
    MkInOrder(k.up.d, Red, t2, k.up.x, k.up.sib.(c := Black));
  }

  // Inner grandchild: a rotation at the parent makes it an outer one.
  ghost function InnerCtx(k: Ctx, t: Tree): Ctx
    requires RedAbove(k) && k.up.In? && t.N?
  {
    In(k.up.d, Red, t.x, Sub(t, Other(k.up.d)), k.up)
  }

  ghost function InnerTree(k: Ctx, t: Tree): Tree
    requires RedAbove(k) && k.up.In? && t.N?
  {
    Mk(k.up.d, Red, k.sib, k.x, Sub(t, k.up.d))
  }

  lemma Inner(g: Graph, top: Node?, k: Ctx, t: Tree, h: nat)
    requires Focus(g, top, k, t) && Pending(k, t, h) && RedAbove(k) && k.d != k.up.d
    ensures CanRot(g, k.x, k.up.d)
    ensures var (g', top') := Rot(g, top, k.x, k.up.d);
            top' == top && Focus(g', top', InnerCtx(k, t), InnerTree(k, t))
    ensures Pending(InnerCtx(k, t), InnerTree(k, t), h)
    ensures Contents(InnerCtx(k, t), InnerTree(k, t)) == Contents(k, t)
  {
    var d, p, y := k.up.d, k.x, t.x;
    var b, e := Sub(t, d), Sub(t, Other(d));
    assert t == Mk(d, Red, b, y, e) && Mk(k.d, Red, t, p, k.sib) == Mk(d, Red, k.sib, p, t);
    Up(g, top, k.d, Red, p, k.sib, k.up, t);
    RotFocus(g, top, k.up, d, Red, k.sib, p, Red, b, y, e);
    RotFields0(g, top, k.up, d, Red, k.sib, p, Red, b, y, e);
    var (g', top') := Rot(g, top, p, d);
    Up(g', top', d, Red, y, e, k.up, InnerTree(k, t));
    UpContents(k.d, Red, p, k.sib, k.up, t);
    UpContents(d, Red, y, e, k.up, InnerTree(k, t));
    RotInOrder(d, Red, k.sib, p, Red, b, y, e, Red, Red);
  }

  // Below the root a rotation leaves the head pointer alone.
  lemma RotFields0(g: Graph, top: Node?, k: Ctx, d: Dir, c1: Color, a: Tree, x: Node, c2: Color, b: Tree, y: Node, e: Tree)
    requires Focus(g, top, k, Mk(d, c1, a, x, Mk(d, c2, b, y, e)))
    ensures CanRot(g, x, d) && Rot(g, top, x, d).1 == if k.Top? then y else top
  {
    FocusIsPair(g, top, k, d, c1, a, x, c2, b, y, e);
    RotFields(g, top, k, d, c1, a, x, c2, b, y, e);
  }

  // Outer grandchild under a black uncle: two colours and one rotation settle it.
  ghost function OuterCtx(k: Ctx): Ctx
    requires RedAbove(k) && k.up.In?
  {
    In(k.up.d, Black, k.x, Mk(Other(k.up.d), Red, k.up.sib, k.up.x, k.sib), k.up.up)
  }

  lemma Outer(g: Graph, top: Node?, k: Ctx, t: Tree, h: nat)
    requires Focus(g, top, k, t) && Pending(k, t, h) && RedAbove(k) && k.d == k.up.d && !IsRed(k.up.sib)
    ensures k.x in g && k.up.x in g
    ensures var g1 := Painted(Painted(g, k.x, Black), k.up.x, Red);
            CanRot(g1, k.up.x, Other(k.up.d)) &&
            var (g', top') := Rot(g1, top, k.up.x, Other(k.up.d));
            Focus(g', top', OuterCtx(k), t)
    ensures Pending(OuterCtx(k), t, h) && !RedAbove(OuterCtx(k))
    ensures Contents(OuterCtx(k), t) == Contents(k, t)
  {
    var d, p, q, s := k.d, k.x, k.up.x, k.up.sib;
    PaintParent(g, top, k, t, Black);
    var g0 := Painted(g, p, Black);
    var t1 := Mk(d, Black, t, p, k.sib);
    Up(g0, top, d, Black, p, k.sib, k.up, t);
    PaintParent(g0, top, k.up, t1, Red);
    var g1 := Painted(g0, q, Red);
    Up(g1, top, d, Red, q, s, k.up.up, t1);
    var r := Other(d);
    assert Mk(d, Red, t1, q, s) == Mk(r, Red, s, q, Mk(r, Black, k.sib, p, t));
    RotFocus(g1, top, k.up.up, r, Red, s, q, Black, k.sib, p, t);
    var (g', top') := Rot(g1, top, q, r);
    var low := Mk(r, Red, s, q, k.sib);
    assert Mk(r, Black, low, p, t) == Mk(d, Black, t, p, low);
    Up(g', top', d, Black, p, low, k.up.up, t);
    OuterContents(k, t);
    OuterLaws(k, t, h);
  }

  lemma OuterLaws(k: Ctx, t: Tree, h: nat)
    requires Pending(k, t, h) && RedAbove(k) && k.d == k.up.d && !IsRed(k.up.sib)
    ensures Pending(OuterCtx(k), t, h)
  {
    assert CtxBal(k.up, h) && CtxOk(k.up) && CtxBal(k.up.up, h + 1);
    MkLaws(Other(k.up.d), Red, k.up.sib, k.up.x, k.sib, h);
  }

  lemma OuterContents(k: Ctx, t: Tree)
    requires RedAbove(k) && k.up.In? && k.d == k.up.d
    ensures Contents(OuterCtx(k), t) == Contents(k, t)
  {
    var d, p, q, s := k.d, k.x, k.up.x, k.up.sib;
    var r := Other(d);
    UpContents(d, Red, p, k.sib, k.up, t);
    UpContents(d, k.up.c, q, s, k.up.up, Mk(d, Red, t, p, k.sib));
    UpContents(d, Black, p, Mk(r, Red, s, q, k.sib), k.up.up, t);
    assert Mk(d, k.up.c, Mk(d, Red, t, p, k.sib), q, s) == Mk(r, k.up.c, s, q, Mk(r, Red, k.sib, p, t));
    assert Mk(d, Black, t, p, Mk(r, Red, s, q, k.sib)) == Mk(r, Black, Mk(r, Red, s, q, k.sib), p, t);
    RotInOrder(r, k.up.c, s, q, Red, k.sib, p, t, Black, Red);
  }

  /* ---- the end of the repair ---- */

  lemma {:induction false} ToTop(g: Graph, top: Node?, k: Ctx, t: Tree)
    requires Focus(g, top, k, t)
    ensures Focus(g, top, Top, Plug(k, t)) && top == Root(Plug(k, t))
    decreases k
  {
    if k.In? {
      Up(g, top, k.d, k.c, k.x, k.sib, k.up, t);
      ToTop(g, top, k.up, Mk(k.d, k.c, t, k.x, k.sib));
    }
  }

  // Blackening the head finishes the repair.
  lemma Finished(g: Graph, top: Node?, k: Ctx, t: Tree, h: nat) returns (t': Tree)
    requires Focus(g, top, k, t) && Pending(k, t, h) && !RedAbove(k)
    ensures top != null && top in g
    ensures Focus(Painted(g, top, Black), top, Top, t') && RedBlack(t') && InOrder(t') == Contents(k, t)
  {
    ToTop(g, top, k, t);
    PlugInOrder(k, t);
    var whole := Plug(k, t);
    PlugNonempty(k, t);
    PaintRoot(g, top, Top, whole, Black);
    t' := whole.(c := Black);
    if k.Top? {
      assert Bal(t', h + 1);
    } else {
      PlugLaws(k, t, h);
      assert t' == whole;
    }
    assert InOrder(t') == InOrder(whole);
  }

  lemma {:induction false} PlugNonempty(k: Ctx, t: Tree)
    requires t.N?
    ensures Plug(k, t).N?
    decreases k
  {
    if k.In? { PlugNonempty(k.up, Mk(k.d, k.c, t, k.x, k.sib)); }
  }

  /* ---- hanging a new node ---- */

  // RB_SET, then the link from the parent.
  function Hung(g: Graph, x: Node, p: Node?, d: Dir): Graph
    requires p != null ==> p in g
  {
    var g1 := g[x := Rec(null, null, p, Red)];
    if p == null then g1 else g1[p := WithKid(g1[p], d, x)]
  }

  lemma HangNode(g: Graph, top: Node?, k: Ctx, x: Node)
    requires Focus(g, top, k, E) && x !in g
    ensures k.In? ==> k.x in g
    ensures Focus(Hung(g, x, Par(k), if k.In? then k.d else Left), if k.Top? then x else top, k, N(Red, E, x, E))
  {
    var d := if k.In? then k.d else Left;
    var g' := Hung(g, x, Par(k), d);
    assert x !in CtxNodes(k);
    if k.In? {
      Refilled(g, g', k, null, x);
    }
    assert Nodes(N(Red, E, x, E)) == {x};
  }
}
