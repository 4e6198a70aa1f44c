/** Searching a tree by key, and what insert, remove and next mean on the list of its nodes. */
module RbSearch {
  import opened RbShape
  import opened RbGraph
  import opened RbInsert
  import opened RbRemove

  /* ---- the list of nodes ---- */

  // s with x put before the first node of a larger key.
  function Placed(s: seq<Node>, x: Node): seq<Node> {
    if s == [] || x.key < s[0].key then [x] + s else [s[0]] + Placed(s[1..], x)
  }

  // s without the first x.
  function Without(s: seq<Node>, x: Node): seq<Node> {
    if s == [] then [] else if s[0] == x then s[1..] else [s[0]] + Without(s[1..], x)
  }

  function First(s: seq<Node>): Node? { if s == [] then null else s[0] }

  function Last(s: seq<Node>): Node? { if s == [] then null else s[|s| - 1] }

  // What stands after x in s.
  function Following(s: seq<Node>, x: Node): Node? {
    if s == [] then null else if s[0] == x then First(s[1..]) else Following(s[1..], x)
  }

  lemma {:induction false} PlacedSplit(a: seq<Node>, b: seq<Node>, x: Node)
    requires forall y :: y in a ==> y.key < x.key
    requires forall y :: y in b ==> x.key < y.key
    ensures Placed(a + b, x) == a + [x] + b
  {
    if a == [] {
      assert a + b == b;
    } else {
      assert (a + b)[0] == a[0] && (a + b)[1..] == a[1..] + b;
      PlacedSplit(a[1..], b, x);
      assert a + [x] + b == [a[0]] + (a[1..] + [x] + b);
    }
  }

  lemma {:induction false} WithoutSplit(a: seq<Node>, b: seq<Node>, x: Node)
    requires x !in a
    ensures Without(a + [x] + b, x) == a + b
    ensures Following(a + [x] + b, x) == First(b)
  {
    var s := a + [x] + b;
    if a == [] {
      assert s[1..] == b;
    } else {
      assert s[0] == a[0] && s[1..] == a[1..] + [x] + b;
      WithoutSplit(a[1..], b, x);
      assert a + b == [a[0]] + (a[1..] + b);
    }
  }

  /** Removing what was inserted gives the list back. */
  lemma {:induction false} WithoutUndoesPlaced(s: seq<Node>, x: Node)
    requires x !in s
    ensures Without(Placed(s, x), x) == s
  {
    if s == [] || x.key < s[0].key {
    } else {
      WithoutUndoesPlaced(s[1..], x);
    }
  }

  /** The node after x is the one with the least larger key, if any key is larger. */
  lemma {:induction false} FollowingIsNextKey(s: seq<Node>, x: Node)
    requires Sorted(s) && x in s
    ensures var y := Following(s, x);
            if y == null then forall z :: z in s ==> z.key <= x.key
            else y in s && x.key < y.key && forall z :: z in s && x.key < z.key ==> y.key <= z.key
  {
    var i :| 0 <= i < |s| && s[i] == x;
    assert s == s[..i] + [x] + s[i + 1..];
    WithoutSplit(s[..i], s[i + 1..], x);
  }

  lemma SortedPlaced(a: seq<Node>, b: seq<Node>, x: Node)
    requires Sorted(a + b)
    requires forall y :: y in a ==> y.key < x.key
    requires forall y :: y in b ==> x.key < y.key
    ensures Sorted(a + [x] + b)
  {
    var s := a + [x] + b;
    forall i, j | 0 <= i < j < |s| ensures s[i].key < s[j].key {
      if j < |a| {
        assert s[i] == (a + b)[i] && s[j] == (a + b)[j];
      } else if i > |a| {
        assert s[i] == (a + b)[i - 1] && s[j] == (a + b)[j - 1];
      } else {
        assert i < |a| ==> s[i] in a;
        assert j > |a| ==> s[j] in b;
        if i < |a| < j {
          assert s[i] == (a + b)[i] && s[j] == (a + b)[j - 1];
        }
      }
    }
  }

  lemma SortedWithout(a: seq<Node>, b: seq<Node>, x: Node)
    requires Sorted(a + [x] + b)
    ensures Sorted(a + b) && x !in a
  {
    var s, u := a + [x] + b, a + b;
    forall i, j | 0 <= i < j < |u| ensures u[i].key < u[j].key {
      var i', j' := if i < |a| then i else i + 1, if j < |a| then j else j + 1;
      assert u[i] == s[i'] && u[j] == s[j'];
    }
    forall i | 0 <= i < |a| ensures a[i] != x {
      assert s[i].key < s[|a|].key;
    }
  }

  lemma {:induction false} InOrderNodes(t: Tree)
    ensures forall x :: x in InOrder(t) <==> x in Nodes(t)
  {
    if t.N? { InOrderNodes(t.l); InOrderNodes(t.r); }
  }

  // The graph's nodes are those of the ordered list.
  lemma AllNodes(g: Graph, top: Node?, t: Tree)
    requires Focus(g, top, Top, t)
    ensures forall x :: x in g <==> x in InOrder(t)
  {
    InOrderNodes(t);
  }

  // In a sorted list the node met with a key is the only one with it.
  lemma OnlyKey(k: Ctx, t: Tree, x: Node)
    requires Sorted(Contents(k, t)) && t.N? && t.x.key == x.key
    ensures t.x in Contents(k, t) && (x in Contents(k, t) ==> t.x == x)
  {
    var l, j := Contents(k, t), |Before(k)| + |InOrder(t.l)|;
    assert l == Before(k) + InOrder(t.l) + [t.x] + (InOrder(t.r) + After(k));
    assert l[j] == t.x;
    if x in l {
      var i :| 0 <= i < |l| && l[i] == x;
    }
  }

  /* ---- descending by key ---- */

  // The key belongs in the hole of k.
  ghost predicate Between(k: Ctx, key: int) {
    && (forall x :: x in Before(k) ==> x.key < key)
    && (forall x :: x in After(k) ==> key < x.key)
  }

  function Down(k: Ctx, t: Tree, d: Dir): Ctx
    requires t.N?
  {
    In(d, t.c, t.x, Sub(t, Other(d)), k)
  }

  lemma Step(g: Graph, top: Node?, k: Ctx, t: Tree, d: Dir)
    requires Focus(g, top, k, t) && t.N?
    ensures Focus(g, top, Down(k, t, d), Sub(t, d)) && Contents(Down(k, t, d), Sub(t, d)) == Contents(k, t)
  {
    Up(g, top, d, t.c, t.x, Sub(t, Other(d)), k, Sub(t, d));
    UpContents(d, t.c, t.x, Sub(t, Other(d)), k, Sub(t, d));
    assert Mk(d, t.c, Sub(t, d), t.x, Sub(t, Other(d))) == t;
  }

  lemma StepKeys(k: Ctx, t: Tree, d: Dir, key: int)
    requires t.N? && Sorted(Contents(k, t)) && Between(k, key)
    requires if d == Left then key < t.x.key else t.x.key < key
    ensures Between(Down(k, t, d), key)
  {
    var s := Contents(k, t);
    var m := |Before(k)| + |InOrder(t.l)|;
    assert s[m] == t.x;
    if d == Left {
      forall x | x in InOrder(t.r) ensures key < x.key {
        var i :| 0 <= i < |InOrder(t.r)| && InOrder(t.r)[i] == x;
        assert s[m + 1 + i] == x;
      }
    } else {
      forall x | x in InOrder(t.l) ensures x.key < key {
        var i :| 0 <= i < |InOrder(t.l)| && InOrder(t.l)[i] == x;
        assert s[|Before(k)| + i] == x;
      }
    }
  }

  /* ---- removing ---- */

  lemma {:induction false} JoinPlug(inner: Ctx, outer: Ctx, t: Tree)
    ensures Plug(Join(inner, outer), t) == Plug(outer, Plug(inner, t))
    decreases inner
  {
    if inner.In? { JoinPlug(inner.up, outer, Mk(inner.d, inner.c, t, inner.x, inner.sib)); }
  }

  // What is left when a node with at most one child goes.
  lemma SpliceLaws(k: Ctx, t: Tree, ch: Tree, h: nat)
    requires Lawful(k, t, h) && t.N? && ((t.l.E? && ch == t.r) || (t.r.E? && ch == t.l))
    ensures if t.c == Black then h > 0 && Short(k, ch, h - 1) else Lawful(k, ch, h)
  {
    if t.c == Black {
      assert NoRedRed(ch);
      if ch.N? { assert NoRedRed(ch.l) && NoRedRed(ch.r); }
    }
  }

  lemma SpliceContents(k: Ctx, t: Tree, ch: Tree)
    requires t.N? && ((t.l.E? && ch == t.r) || (t.r.E? && ch == t.l))
    requires Sorted(Contents(k, t))
    ensures Contents(k, ch) == Without(Contents(k, t), t.x) && Sorted(Contents(k, ch))
  {
    CutOut(Before(k), InOrder(t.l), t.x, InOrder(t.r), After(k), Contents(k, t));
    if t.l.E? {
      assert InOrder(t.l) + InOrder(t.r) == InOrder(ch);
    } else {
      assert InOrder(t.l) + InOrder(t.r) == InOrder(ch);
    }
  }

  lemma CutOut(p: seq<Node>, a: seq<Node>, x: Node, b: seq<Node>, q: seq<Node>, s: seq<Node>)
    requires s == p + (a + [x] + b) + q && Sorted(s)
    ensures p + (a + b) + q == Without(s, x) && Sorted(Without(s, x))
  {
    assert s == (p + a) + [x] + (b + q);
    SortedWithout(p + a, b + q, x);
    WithoutSplit(p + a, b + q, x);
    assert p + (a + b) + q == (p + a) + (b + q);
  }

  // The path below a node with two children: to its successor y, once y sits where x sat.
  function Below(ki: Ctx, k: Ctx, t: Tree, y: Node): Ctx
    requires t.N?
  {
    Join(ki, In(Right, t.c, y, t.l, k))
  }

  lemma SuccessorContents(ki: Ctx, k: Ctx, t: Tree, s: Tree)
    requires t.N? && s.N? && s.l.E? && AllLeft(ki) && Plug(ki, s) == t.r && Sorted(Contents(k, t))
    ensures Contents(Below(ki, k, t, s.x), s.r) == Without(Contents(k, t), t.x)
    ensures Sorted(Without(Contents(k, t), t.x))
  {
    JoinContents(ki, In(Right, t.c, s.x, t.l, k));
    AllLeftBefore(ki);
    PlugInOrder(ki, s);
    CutOut(Before(k), InOrder(t.l), t.x, InOrder(t.r), After(k), Contents(k, t));
    Regrouped(Before(k), InOrder(t.l), s.x, InOrder(s.r), After(ki), After(k), InOrder(t.r));
  }

  lemma Regrouped(p: seq<Node>, l: seq<Node>, y: Node, r: seq<Node>, z: seq<Node>, q: seq<Node>, tr: seq<Node>)
    requires tr == [] + ([] + [y] + r) + z
    ensures p + (l + tr) + q == (p + (l + [y])) + r + (z + q) == (p + l + [y]) + r + (z + q)
  {
    assert tr == [y] + r + z;
    assert p + (l + tr) + q == p + l + tr + q;
  }

  lemma {:induction false} InCtxNodes(inner: Ctx, d: Dir, c: Color, x: Node, sib: Tree, up: Ctx)
    ensures x in CtxNodes(Join(inner, In(d, c, x, sib, up)))
    decreases inner
  {
    if inner.In? { InCtxNodes(inner.up, d, c, x, sib, up); }
  }

  // Only the child itself hangs directly from the node.
  lemma ParBelow(ki: Ctx, k: Ctx, t: Tree)
    requires t.N? && CtxDistinct(Below(ki, k, t, t.x))
    ensures Par(Below(ki, k, t, t.x)) == t.x <==> ki.Top?
  {
    if ki.In? { InCtxNodes(ki.up, Right, t.c, t.x, t.l, k); }
  }

  // Lowering the path to the successor, and lifting it once the successor has moved.
  lemma ToBelow(g: Graph, top: Node?, ki: Ctx, k: Ctx, t: Tree, s: Tree, y: Node)
    requires t.N?
    ensures Focus(g, top, Below(ki, k, t, y), s) <==> Focus(g, top, k, N(t.c, t.l, y, Plug(ki, s)))
  {
    JoinFocus(g, top, ki, In(Right, t.c, y, t.l, k), s);
    Up(g, top, Right, t.c, y, t.l, k, Plug(ki, s));
  }

  // The same laws hold around the hole whichever node sits above.
  lemma BelowLaws(ki: Ctx, k: Ctx, t: Tree, y: Node, s: Tree, h: nat)
    requires t.N?
    ensures Lawful(Below(ki, k, t, t.x), s, h) ==> Lawful(Below(ki, k, t, y), s, h)
    ensures Short(Below(ki, k, t, t.x), s, h) ==> Short(Below(ki, k, t, y), s, h)
  {
    JoinLaws(ki, Right, t.c, t.x, y, t.l, k, h);
    JoinLaws(ki, Right, t.c, t.x, y, t.l, k, h + 1);
  }

  // The laws once the successor has gone from below and sits above.
  lemma SuccessorLaws(ki: Ctx, k: Ctx, t: Tree, s: Tree) returns (h: nat)
    requires RedBlack(Plug(k, t)) && t.N? && s.N? && s.l.E? && Plug(ki, s) == t.r
    ensures var ky := Below(ki, k, t, s.x);
            if s.c == Black then h > 0 && Short(ky, s.r, h - 1) else Lawful(ky, s.r, h)
  {
    JoinPlug(ki, In(Right, t.c, t.x, t.l, k), s);
    h := LawfulFromTop(Below(ki, k, t, t.x), s);
    SpliceLaws(Below(ki, k, t, t.x), s, s.r, h);
    BelowLaws(ki, k, t, s.x, s.r, if s.c == Black then h - 1 else h);
  }
}
