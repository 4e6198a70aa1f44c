/** The pointer fields of all nodes as one value, what it means for them to form a tree, and what a
    rotation or a colour change does to that tree. */
module RbGraph {
  import opened RbShape

  datatype Rec = Rec(left: Node?, right: Node?, parent: Node?, color: Color)

  type Graph = map<Node, Rec>

  function Kid(r: Rec, d: Dir): Node? { if d == Left then r.left else r.right }

  function WithKid(r: Rec, d: Dir, n: Node?): Rec { if d == Left then r.(left := n) else r.(right := n) }

  function MkRec(d: Dir, a: Node?, b: Node?, p: Node?, c: Color): Rec {
    if d == Left then Rec(a, b, p, c) else Rec(b, a, p, c)
  }

  function Root(t: Tree): Node? { if t.E? then null else t.x }

  function Par(k: Ctx): Node? { if k.Top? then null else k.x }

  // The nodes of t are linked as t says, below parent p.
  ghost predicate Real(g: Graph, t: Tree, p: Node?) {
    t.N? ==>
      && t.x in g && g[t.x] == Rec(Root(t.l), Root(t.r), p, t.c)
      && Real(g, t.l, t.x) && Real(g, t.r, t.x)
  }

  // The path k is linked around a hole filled by h.
  ghost predicate RealCtx(g: Graph, k: Ctx, h: Node?) {
    k.In? ==>
      && k.x in g && g[k.x] == MkRec(k.d, h, Root(k.sib), Par(k.up), k.c)
      && Real(g, k.sib, k.x) && RealCtx(g, k.up, k.x)
  }

  function RootOf(k: Ctx, h: Node?): Node? { if k.Top? then h else RootOf(k.up, k.x) }

  // The whole graph is the tree t hanging in the path k, under the head pointer `top`.
  ghost predicate Focus(g: Graph, top: Node?, k: Ctx, t: Tree) {
    && Real(g, t, Par(k)) && RealCtx(g, k, Root(t)) && top == RootOf(k, Root(t))
    && Distinct(t) && CtxDistinct(k) && Nodes(t) !! CtxNodes(k)
    && g.Keys == Nodes(t) + CtxNodes(k)
  }

  /* ---- framing ---- */

  lemma {:induction false} RealFrame(g: Graph, g': Graph, t: Tree, p: Node?)
    requires Real(g, t, p)
    requires forall x :: x in Nodes(t) ==> x in g' && x in g && g'[x] == g[x]
    ensures Real(g', t, p)
  {
    if t.N? {
      RealFrame(g, g', t.l, t.x);
      RealFrame(g, g', t.r, t.x);
    }
  }

  lemma {:induction false} RealNodes(g: Graph, t: Tree, p: Node?)
    requires Real(g, t, p)
    ensures Nodes(t) <= g.Keys
  {
    if t.N? {
      RealNodes(g, t.l, t.x);
      RealNodes(g, t.r, t.x);
    }
  }

  lemma {:induction false} CtxFrame(g: Graph, g': Graph, k: Ctx, h: Node?)
    requires RealCtx(g, k, h)
    requires forall x :: x in CtxNodes(k) ==> x in g' && x in g && g'[x] == g[x]
    ensures RealCtx(g', k, h)
    decreases k
  {
    if k.In? {
      RealFrame(g, g', k.sib, k.x);
      CtxFrame(g, g', k.up, k.x);
    }
  }

  // Giving a tree a new parent touches its root only.
  lemma Reparented(g: Graph, g': Graph, t: Tree, p: Node?, p': Node?)
    requires Real(g, t, p) && Distinct(t)
    requires t.N? ==> t.x in g' && g'[t.x] == g[t.x].(parent := p')
    requires forall x :: x in Nodes(t) && x != t.x ==> x in g' && x in g && g'[x] == g[x]
    ensures Real(g', t, p')
  {
    if t.N? {
      RealFrame(g, g', t.l, t.x);
      RealFrame(g, g', t.r, t.x);
    }
  }

  // Filling the hole of a path anew touches the node above it only.
  lemma Refilled(g: Graph, g': Graph, k: Ctx, h: Node?, h': Node?)
    requires RealCtx(g, k, h) && CtxDistinct(k)
    requires k.In? ==> k.x in g' && g'[k.x] == WithKid(g[k.x], k.d, h')
    requires forall x :: x in CtxNodes(k) && x != k.x ==> x in g' && x in g && g'[x] == g[x]
    ensures RealCtx(g', k, h')
  {
    if k.In? {
      RealFrame(g, g', k.sib, k.x);
      CtxFrame(g, g', k.up, k.x);
    }
  }

  /* ---- moving the focus ---- */

  lemma Up(g: Graph, top: Node?, d: Dir, c: Color, x: Node, sib: Tree, up: Ctx, t: Tree)
    ensures Focus(g, top, In(d, c, x, sib, up), t) <==> Focus(g, top, up, Mk(d, c, t, x, sib))
  {
    var m := Mk(d, c, t, x, sib);
    assert Nodes(m) == Nodes(t) + {x} + Nodes(sib);
    assert CtxNodes(In(d, c, x, sib, up)) == {x} + Nodes(sib) + CtxNodes(up);
  }

  /* ---- colours ---- */

  function Painted(g: Graph, x: Node, c: Color): Graph
    requires x in g
  {
    g[x := g[x].(color := c)]
  }

  lemma PaintRoot(g: Graph, top: Node?, k: Ctx, t: Tree, c: Color)
    requires Focus(g, top, k, t) && t.N?
    ensures Focus(Painted(g, t.x, c), top, k, t.(c := c))
  {
    var g' := Painted(g, t.x, c);
    RealFrame(g, g', t.l, t.x);
    RealFrame(g, g', t.r, t.x);
    CtxFrame(g, g', k, t.x);
  }

  /* ---- rotation ---- */

  // First half: x takes over y's inner subtree.
  function RotLow(g: Graph, x: Node, y: Node, d: Dir): Graph
    requires x in g && y in g && (Kid(g[y], d) != null ==> Kid(g[y], d) in g)
  {
    var b := Kid(g[y], d);
    var g1 := g[x := WithKid(g[x], Other(d), b)];
    if b != null then g1[b := g1[b].(parent := x)] else g1
  }

  // Where p, or the head pointer when there is no p, pointed at x, it points at n.
  function Replaced(g: Graph, top: Node?, p: Node?, x: Node, n: Node?): (Graph, Node?)
    requires p != null ==> p in g
  {
    if p == null then (g, n)
    else if g[p].left == x then (g[p := g[p].(left := n)], top)
    else (g[p := g[p].(right := n)], top)
  }

  // Second half: y takes x's place under x's parent, and x hangs from y.
  function RotHigh(g: Graph, top: Node?, x: Node, y: Node, d: Dir): (Graph, Node?)
    requires x in g && y in g && (g[x].parent != null ==> g[x].parent in g)
  {
    var p := g[x].parent;
    var (g1, top') := Replaced(g[y := g[y].(parent := p)], top, p, x, y);
    var g2 := g1[y := WithKid(g1[y], d, x)];
    (g2[x := g2[x].(parent := y)], top')
  }

  // RB_ROTATE_LEFT (d is Left) or RB_ROTATE_RIGHT (d is Right) at x.
  function Rot(g: Graph, top: Node?, x: Node, d: Dir): (Graph, Node?)
    requires CanRot(g, x, d)
  {
    var y: Node := Kid(g[x], Other(d));
    RotHigh(RotLow(g, x, y, d), top, x, y, d)
  }

  // What a rotation dereferences is there.
  predicate CanRot(g: Graph, x: Node, d: Dir) {
    && x in g
    && var y := Kid(g[x], Other(d));
    && y != null && y in g && y != x
    && (Kid(g[y], d) != null ==> Kid(g[y], d) in g && Kid(g[y], d) != x)
    && (g[x].parent != null ==> g[x].parent in g)
  }

  lemma RealMk(g: Graph, d: Dir, c: Color, a: Tree, x: Node, b: Tree, p: Node?)
    ensures Real(g, Mk(d, c, a, x, b), p) <==>
      x in g && g[x] == MkRec(d, Root(a), Root(b), p, c) && Real(g, a, x) && Real(g, b, x)
  {
  }

  lemma RotLowFields(g: Graph, x: Node, d: Dir, y: Node, a: Node?, b: Node?, p: Node?, c1: Color)
    requires x in g && y in g && x != y && (b != null ==> b in g && b != x && b != y)
    requires g[x] == MkRec(d, a, y, p, c1) && Kid(g[y], d) == b
    ensures var g' := RotLow(g, x, y, d);
            && g'.Keys == g.Keys
            && g'[x] == MkRec(d, a, b, p, c1)
            && (b != null ==> g'[b] == g[b].(parent := x))
            && (forall z :: z in g && z != x && z != b ==> g'[z] == g[z])
  {
  }

  lemma RotHighFields(g: Graph, top: Node?, x: Node, d: Dir, y: Node, a: Node?, b: Node?, e: Node?, p: Node?, dp: Dir, c1: Color, c2: Color)
    requires x in g && y in g && x != y
    requires g[x] == MkRec(d, a, b, p, c1) && g[y] == MkRec(d, b, e, x, c2)
    requires p != null ==> p in g && p != x && p != y && (g[p].left == x <==> dp == Left)
    ensures var (g', top') := RotHigh(g, top, x, y, d);
            && g'.Keys == g.Keys
            && g'[x] == MkRec(d, a, b, y, c1)
            && g'[y] == MkRec(d, x, e, p, c2)
            && (p != null ==> g'[p] == WithKid(g[p], dp, y))
            && (forall z :: z in g && z != x && z != y && z != p ==> g'[z] == g[z])
            && top' == if p == null then y else top
  {
  }

  // A focus on two nodes, taken apart: x with a on side d, and below it y with b on side d and e.
  ghost predicate Linked(g: Graph, top: Node?, k: Ctx, d: Dir, c1: Color, a: Tree, x: Node, c2: Color, b: Tree, y: Node, e: Tree) {
    && x in g && y in g && g[x] == MkRec(d, Root(a), y, Par(k), c1) && g[y] == MkRec(d, Root(b), Root(e), x, c2)
    && Real(g, a, x) && Real(g, b, y) && Real(g, e, y) && RealCtx(g, k, x) && top == RootOf(k, x)
  }

  predicate Clear(n: Node, k: Ctx, a: Tree, b: Tree, e: Tree) {
    n !in Nodes(a) && n !in Nodes(b) && n !in Nodes(e) && n !in CtxNodes(k)
  }

  predicate Apart(keys: set<Node>, k: Ctx, a: Tree, x: Node, b: Tree, y: Node, e: Tree) {
    && Distinct(a) && Distinct(b) && Distinct(e) && CtxDistinct(k)
    && x != y && Clear(x, k, a, b, e) && Clear(y, k, a, b, e)
    && Nodes(a) !! Nodes(b) && Nodes(a) !! Nodes(e) && Nodes(b) !! Nodes(e)
    && CtxNodes(k) !! Nodes(a) + Nodes(b) + Nodes(e)
    && keys == {x, y} + Nodes(a) + Nodes(b) + Nodes(e) + CtxNodes(k)
  }

  lemma ApartIs(keys: set<Node>, k: Ctx, d: Dir, c1: Color, a: Tree, x: Node, c2: Color, b: Tree, y: Node, e: Tree)
    ensures var t := Mk(d, c1, a, x, Mk(d, c2, b, y, e));
            Distinct(t) && CtxDistinct(k) && Nodes(t) !! CtxNodes(k) && keys == Nodes(t) + CtxNodes(k) <==>
            Apart(keys, k, a, x, b, y, e)
  {
    var low := Mk(d, c2, b, y, e);
    MkParts(d, c2, b, y, e);
    MkParts(d, c1, a, x, low);
    var t := Mk(d, c1, a, x, low);
    assert Nodes(t) == {x, y} + Nodes(a) + Nodes(b) + Nodes(e);
  }

  lemma FocusIsPair(g: Graph, top: Node?, k: Ctx, d: Dir, c1: Color, a: Tree, x: Node, c2: Color, b: Tree, y: Node, e: Tree)
    ensures Focus(g, top, k, Mk(d, c1, a, x, Mk(d, c2, b, y, e))) <==>
            Linked(g, top, k, d, c1, a, x, c2, b, y, e) && Apart(g.Keys, k, a, x, b, y, e)
  {
    ApartIs(g.Keys, k, d, c1, a, x, c2, b, y, e);
    LinkedIs(g, top, k, d, c1, a, x, c2, b, y, e);
  }

  lemma LinkedIs(g: Graph, top: Node?, k: Ctx, d: Dir, c1: Color, a: Tree, x: Node, c2: Color, b: Tree, y: Node, e: Tree)
    ensures var t := Mk(d, c1, a, x, Mk(d, c2, b, y, e));
            Real(g, t, Par(k)) && RealCtx(g, k, Root(t)) && top == RootOf(k, Root(t)) <==>
            Linked(g, top, k, d, c1, a, x, c2, b, y, e)
  {
    RealMk(g, d, c1, a, x, Mk(d, c2, b, y, e), Par(k));
    RealMk(g, d, c2, b, y, e, x);
  }

  // What a rotation at the focus leaves in the fields.
  ghost predicate Rotated(g: Graph, g': Graph, k: Ctx, d: Dir, c1: Color, a: Tree, x: Node, c2: Color, b: Tree, y: Node, e: Tree) {
    && g'.Keys == g.Keys && x in g && y in g
    && g'[x] == MkRec(d, Root(a), Root(b), y, c1)
    && g'[y] == MkRec(d, x, Root(e), Par(k), c2)
    && (b.N? ==> b.x in g && g'[b.x] == g[b.x].(parent := x))
    && (k.In? ==> k.x in g && g'[k.x] == WithKid(g[k.x], k.d, y))
    && (forall z :: z in g && z != x && z != y && z != Root(b) && z != Par(k) ==> g'[z] == g[z])
  }

  lemma RotFields(g: Graph, top: Node?, k: Ctx, d: Dir, c1: Color, a: Tree, x: Node, c2: Color, b: Tree, y: Node, e: Tree)
    requires Linked(g, top, k, d, c1, a, x, c2, b, y, e) && Apart(g.Keys, k, a, x, b, y, e)
    ensures CanRot(g, x, d)
    ensures var (g', top') := Rot(g, top, x, d);
            Rotated(g, g', k, d, c1, a, x, c2, b, y, e) && top' == if k.Top? then y else top
  {
    if k.In? { NotBoth(g, k, x); }
    var dp := if k.In? then k.d else Left;
    RotLowFields(g, x, d, y, Root(a), Root(b), Par(k), c1);
    RotHighFields(RotLow(g, x, y, d), top, x, d, y, Root(a), Root(b), Root(e), Par(k), dp, c1, c2);
  }

  lemma RotRelinks(g: Graph, top: Node?, g': Graph, k: Ctx, d: Dir, c1: Color, a: Tree, x: Node, c2: Color, b: Tree, y: Node, e: Tree)
    requires Linked(g, top, k, d, c1, a, x, c2, b, y, e) && Apart(g.Keys, k, a, x, b, y, e)
    requires Rotated(g, g', k, d, c1, a, x, c2, b, y, e)
    ensures Linked(g', if k.Top? then y else top, k, Other(d), c2, e, y, c1, b, x, a)
  {
    hide Real, RealCtx, Distinct, CtxDistinct;
    forall z | z in Nodes(a) + Nodes(e) ensures z in g' && g'[z] == g[z] { }
    RealFrame(g, g', a, x);
    RealFrame(g, g', e, y);
    forall z | z in Nodes(b) && z != b.x ensures z in g' && g'[z] == g[z] { }
    Reparented(g, g', b, y, x);
    forall z | z in CtxNodes(k) && z != k.x ensures z in g' && g'[z] == g[z] { }
    Refilled(g, g', k, x, y);
  }

  lemma ApartSwaps(keys: set<Node>, k: Ctx, a: Tree, x: Node, b: Tree, y: Node, e: Tree)
    requires Apart(keys, k, a, x, b, y, e)
    ensures Apart(keys, k, e, y, b, x, a)
  {
    hide Nodes, CtxNodes, Distinct, CtxDistinct;
  }

  /** A rotation at the focus is the textbook exchange of two nodes, wherever the focus hangs. */
  lemma RotFocus(g: Graph, top: Node?, k: Ctx, d: Dir, c1: Color, a: Tree, x: Node, c2: Color, b: Tree, y: Node, e: Tree)
    requires Focus(g, top, k, Mk(d, c1, a, x, Mk(d, c2, b, y, e)))
    ensures CanRot(g, x, d)
    ensures var (g', top') := Rot(g, top, x, d);
            Focus(g', top', k, Mk(d, c2, Mk(d, c1, a, x, b), y, e))
  {
    FocusIsPair(g, top, k, d, c1, a, x, c2, b, y, e);
    RotFields(g, top, k, d, c1, a, x, c2, b, y, e);
    var (g', top') := Rot(g, top, x, d);
    RotRelinks(g, top, g', k, d, c1, a, x, c2, b, y, e);
    ApartSwaps(g.Keys, k, a, x, b, y, e);
    FocusIsPair(g', top', k, Other(d), c2, e, y, c1, b, x, a);
  }

  // The node above the hole has h on the hole's side only.
  lemma NotBoth(g: Graph, k: Ctx, h: Node)
    requires k.In? && RealCtx(g, k, h) && h !in CtxNodes(k)
    ensures Kid(g[k.x], k.d) == h && Kid(g[k.x], Other(k.d)) != h
    ensures (g[k.x].left == h) <==> k.d == Left
  {
  }
}
