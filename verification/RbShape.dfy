/** Red-black trees as values: coloured trees, zippers into them, and the balance laws. A node is
    an object, but nothing here reads its mutable fields. */
module RbShape {
  import opened Collections

  datatype Color = Black | Red

  datatype Dir = Left | Right

  function Other(d: Dir): Dir { if d == Left then Right else Left }

  class Node {
    const key: int
    var left: Node?
    var right: Node?
    var parent: Node?
    var color: Color

    constructor (key: int)
      ensures this.key == key
    {
      this.key := key;
      left, right, parent, color := null, null, null, Black;
    }
  }

  datatype Tree = E | N(c: Color, l: Tree, x: Node, r: Tree)

  // The tree with a on side d of x and b on the other side.
  function Mk(d: Dir, c: Color, a: Tree, x: Node, b: Tree): Tree {
    if d == Left then N(c, a, x, b) else N(c, b, x, a)
  }

  function Sub(t: Tree, d: Dir): Tree
    requires t.N?
  {
    if d == Left then t.l else t.r
  }

  // A path from the root to a hole: the hole is the d child of x, whose other child is sib.
  datatype Ctx = Top | In(d: Dir, c: Color, x: Node, sib: Tree, up: Ctx)

  function Plug(k: Ctx, t: Tree): Tree {
    match k
    case Top => t
    case In(d, c, x, sib, up) => Plug(up, Mk(d, c, t, x, sib))
  }

  /* ---- contents ---- */

  function InOrder(t: Tree): seq<Node> {
    if t.E? then [] else InOrder(t.l) + [t.x] + InOrder(t.r)
  }

  // What stands before and after the hole.
  function Before(k: Ctx): seq<Node> {
    match k
    case Top => []
    case In(d, c, x, sib, up) => if d == Left then Before(up) else Before(up) + InOrder(sib) + [x]
  }

  function After(k: Ctx): seq<Node> {
    match k
    case Top => []
    case In(d, c, x, sib, up) => if d == Left then [x] + InOrder(sib) + After(up) else After(up)
  }

  lemma {:induction false} PlugInOrder(k: Ctx, t: Tree)
    ensures InOrder(Plug(k, t)) == Before(k) + InOrder(t) + After(k)
    decreases k
  {
    match k
    case Top =>
    case In(d, c, x, sib, up) =>
      PlugInOrder(up, Mk(d, c, t, x, sib));
      if d == Left {
        Regroup(Before(up), InOrder(t), [x], InOrder(sib), After(up));
      } else {
        Regroup(Before(up), InOrder(sib), [x], InOrder(t), After(up));
      }
  }

  function Nodes(t: Tree): set<Node> {
    if t.E? then {} else Nodes(t.l) + {t.x} + Nodes(t.r)
  }

  function CtxNodes(k: Ctx): set<Node> {
    if k.Top? then {} else {k.x} + Nodes(k.sib) + CtxNodes(k.up)
  }

  // No node occurs twice.
  predicate Distinct(t: Tree) {
    t.N? ==> Distinct(t.l) && Distinct(t.r) && t.x !in Nodes(t.l) && t.x !in Nodes(t.r) && Nodes(t.l) !! Nodes(t.r)
  }

  predicate CtxDistinct(k: Ctx) {
    k.In? ==>
      && Distinct(k.sib) && CtxDistinct(k.up)
      && k.x !in Nodes(k.sib) && k.x !in CtxNodes(k.up) && Nodes(k.sib) !! CtxNodes(k.up)
  }

  lemma {:induction false} PlugNodes(k: Ctx, t: Tree)
    ensures Nodes(Plug(k, t)) == CtxNodes(k) + Nodes(t)
    ensures Distinct(Plug(k, t)) <==> Distinct(t) && CtxDistinct(k) && Nodes(t) !! CtxNodes(k)
    decreases k
  {
    match k
    case Top =>
    case In(d, c, x, sib, up) =>
      PlugNodes(up, Mk(d, c, t, x, sib));
  }

  lemma MkParts(d: Dir, c: Color, a: Tree, x: Node, b: Tree)
    ensures var t := Mk(d, c, a, x, b);
            Nodes(t) == Nodes(a) + {x} + Nodes(b) &&
            (Distinct(t) <==> Distinct(a) && Distinct(b) && x !in Nodes(a) && x !in Nodes(b) && Nodes(a) !! Nodes(b))
  {
  }

  /* ---- the laws ---- */

  // Search order, strict because insert refuses equal keys.
  ghost predicate Sorted(s: seq<Node>) {
    forall i, j :: 0 <= i < j < |s| ==> s[i].key < s[j].key
  }

  predicate IsRed(t: Tree) { t.N? && t.c == Red }

  // Every path down from t passes h black nodes.
  predicate Bal(t: Tree, h: nat) {
    match t
    case E => h == 0
    case N(Red, l, x, r) => Bal(l, h) && Bal(r, h)
    case N(Black, l, x, r) => h > 0 && Bal(l, h - 1) && Bal(r, h - 1)
  }

  // No red node has a red child.
  predicate NoRedRed(t: Tree) {
    t.N? ==> NoRedRed(t.l) && NoRedRed(t.r) && (t.c == Red ==> !IsRed(t.l) && !IsRed(t.r))
  }

  // The hole may be filled by any tree of black height h.
  predicate CtxBal(k: Ctx, h: nat) {
    k.In? ==> Bal(k.sib, h) && CtxBal(k.up, if k.c == Black then h + 1 else h)
  }

  // Red-red free around the hole, with a black root.
  predicate CtxOk(k: Ctx) {
    k.In? ==> NoRedRed(k.sib) && CtxOk(k.up) && (k.c == Red ==> !IsRed(k.sib) && k.up.In? && k.up.c == Black)
  }

  lemma MkLaws(d: Dir, c: Color, a: Tree, x: Node, b: Tree, h: nat)
    ensures Bal(Mk(d, c, a, x, b), h) <==>
      if c == Red then Bal(a, h) && Bal(b, h) else h > 0 && Bal(a, h - 1) && Bal(b, h - 1)
    ensures NoRedRed(Mk(d, c, a, x, b)) <==>
      NoRedRed(a) && NoRedRed(b) && (c == Red ==> !IsRed(a) && !IsRed(b))
  {
  }

  predicate RedAbove(k: Ctx) { k.In? && k.c == Red }

  ghost predicate RedBlack(t: Tree) {
    !IsRed(t) && NoRedRed(t) && exists h: nat :: Bal(t, h)
  }

  lemma {:induction false} PlugLaws(k: Ctx, t: Tree, h: nat)
    requires Bal(t, h) && CtxBal(k, h) && NoRedRed(t) && CtxOk(k)
    requires IsRed(t) ==> k.In? && k.c == Black
    ensures RedBlack(Plug(k, t))
    decreases k
  {
    match k
    case Top =>
    case In(d, c, x, sib, up) =>
      PlugLaws(up, Mk(d, c, t, x, sib), if c == Black then h + 1 else h);
  }

  /* ---- height ---- */

  function Size(t: Tree): nat { if t.E? then 0 else Size(t.l) + 1 + Size(t.r) }

  function Max(a: nat, b: nat): nat { if a >= b then a else b }

  function Height(t: Tree): nat { if t.E? then 0 else 1 + Max(Height(t.l), Height(t.r)) }

  function Pow2(n: nat): nat { if n == 0 then 1 else 2 * Pow2(n - 1) }

  lemma {:induction false} HeightByBlacks(t: Tree, h: nat)
    requires Bal(t, h) && NoRedRed(t)
    ensures Height(t) <= 2 * h + if IsRed(t) then 1 else 0
    ensures Size(t) + 1 >= Pow2(h)
  {
    match t
    case E =>
    case N(Red, l, x, r) =>
      HeightByBlacks(l, h);
      HeightByBlacks(r, h);
    case N(Black, l, x, r) =>
      HeightByBlacks(l, h - 1);
      HeightByBlacks(r, h - 1);
  }

  lemma {:induction false} Pow2Grows(m: nat, n: nat)
    requires m <= n
    ensures Pow2(m) <= Pow2(n)
  {
    if m < n { Pow2Grows(m, n - 1); }
  }

  lemma {:induction false} Pow2Double(h: nat)
    ensures Pow2(2 * h) == Pow2(h) * Pow2(h)
  {
    if h > 0 {
      Pow2Double(h - 1);
      assert Pow2(2 * h) == 2 * Pow2(2 * h - 1) == 4 * Pow2(2 * (h - 1));
      var p := Pow2(h - 1);
      assert 4 * (p * p) == (2 * p) * (2 * p);
    }
  }

  /** The height of a red-black tree of n nodes is at most 2 lg (n + 1). */
  lemma HeightBound(t: Tree)
    requires RedBlack(t)
    ensures Pow2(Height(t)) <= (Size(t) + 1) * (Size(t) + 1)
  {
    var h: nat :| Bal(t, h);
    HeightByBlacks(t, h);
    Pow2Grows(Height(t), 2 * h);
    Pow2Double(h);
    SquareGrows(Pow2(h), Size(t) + 1);
  }

  lemma SquareGrows(p: nat, n: nat)
    requires p <= n
    ensures p * p <= n * n
  {
    assert p * p <= p * n;
    assert p * n <= n * n;
  }

  lemma {:induction false} SizeIsCount(t: Tree)
    ensures |InOrder(t)| == Size(t)
  {
    if t.N? { SizeIsCount(t.l); SizeIsCount(t.r); }
  }
}
