/** The tree that callers use: insert, remove, find, next and min/max over linked nodes. */
module RbTree {
  import opened RbShape
  import opened RbGraph
  import opened RbInsert
  import opened RbRemove
  import opened RbSearch

  function Depth(k: Ctx): nat { if k.Top? then 0 else 1 + Depth(k.up) }

  // What the loops read around the focus.
  lemma Around(g: Graph, top: Node?, k: Ctx, t: Tree)
    requires Focus(g, top, k, t)
    ensures t.N? ==> t.x in g && g[t.x] == Rec(Root(t.l), Root(t.r), Par(k), t.c)
    ensures k.In? ==>
      && k.x in g && g[k.x].color == k.c && g[k.x].parent == Par(k.up)
      && Kid(g[k.x], k.d) == Root(t) && Kid(g[k.x], Other(k.d)) == Root(k.sib)
      && (k.sib.N? ==> k.sib.x in g && g[k.sib.x] == Rec(Root(k.sib.l), Root(k.sib.r), k.x, k.sib.c))
      && (t.N? || k.sib.N? ==> (g[k.x].left == Root(t) <==> k.d == Left))
      && top != null
    ensures k.Top? ==> top == Root(t)
    ensures k.In? ==> top in g && top != Root(t)
  {
    if k.In? {
      RootInCtx(g, k, Root(t));
    }
  }

  lemma {:induction false} RootInCtx(g: Graph, k: Ctx, h: Node?)
    requires k.In? && RealCtx(g, k, h)
    ensures RootOf(k, h) != null && RootOf(k, h) in CtxNodes(k) && RootOf(k, h) in g
    decreases k
  {
    if k.up.In? { RootInCtx(g, k.up, k.x); }
  }

  // What the loop of RB_INSERT_COLOR tests.
  lemma Above(g: Graph, top: Node?, k: Ctx, t: Tree, h: nat)
    requires Focus(g, top, k, t) && Pending(k, t, h)
    ensures t.x in g && g[t.x].parent == Par(k)
    ensures k.In? ==> k.x in g && g[k.x].color == k.c
    ensures RedAbove(k) ==>
      k.up.In? && k.up.x in g && g[k.x].parent == k.up.x && (g[k.up.x].left == k.x <==> k.up.d == Left)
  {
    Around(g, top, k, t);
    if RedAbove(k) {
      Up(g, top, k.d, k.c, k.x, k.sib, k.up, t);
      Around(g, top, k.up, Mk(k.d, k.c, t, k.x, k.sib));
    }
  }

  // What one turn of it reads.
  lemma Uncle(g: Graph, top: Node?, k: Ctx, t: Tree, h: nat)
    requires Focus(g, top, k, t) && Pending(k, t, h) && RedAbove(k)
    ensures t.x in g && k.x in g && k.up.x in g && (Kid(g[k.x], Other(k.up.d)) == t.x <==> k.d != k.up.d)
    ensures Kid(g[k.up.x], Other(k.up.d)) == Root(k.up.sib)
    ensures k.up.sib.N? ==> k.up.sib.x in g && g[k.up.sib.x].color == k.up.sib.c
  {
    Around(g, top, k, t);
    Up(g, top, k.d, k.c, k.x, k.sib, k.up, t);
    Around(g, top, k.up, Mk(k.d, k.c, t, k.x, k.sib));
  }

  // What one turn of RB_REMOVE_COLOR reads.
  lemma Sibling(g: Graph, top: Node?, k: Ctx, t: Tree, h: nat)
    requires Focus(g, top, k, t) && Short(k, t, h)
    ensures t.N? ==> t.x in g && g[t.x].color == t.c
    ensures k.Top? <==> top == Root(t)
    ensures k.In? ==>
      && k.x in g && k.sib.N? && k.sib.x in g && g[k.x].parent == Par(k.up) && g[k.x].color == k.c
      && (g[k.x].left == Root(t) <==> k.d == Left) && Kid(g[k.x], Other(k.d)) == k.sib.x
      && g[k.sib.x] == Rec(Root(k.sib.l), Root(k.sib.r), k.x, k.sib.c)
      && (k.sib.l.N? ==> k.sib.l.x in g && g[k.sib.l.x].color == k.sib.l.c)
      && (k.sib.r.N? ==> k.sib.r.x in g && g[k.sib.r.x].color == k.sib.r.c)
  {
    Around(g, top, k, t);
    if k.In? {
      assert Real(g, k.sib, k.x);
      assert Real(g, k.sib.l, k.sib.x) && Real(g, k.sib.r, k.sib.x);
    }
  }

  // A repaired tree seen from the head is not short of anything.
  lemma Whole(g: Graph, top: Node?, k: Ctx, t: Tree, h: nat) returns (k': Ctx, t': Tree, h': nat)
    requires Focus(g, top, k, t) && Lawful(k, t, h)
    ensures k' == Top && Focus(g, top, k', t') && Short(k', t', h') && !IsRed(t')
    ensures Contents(k', t') == Contents(k, t)
  {
    LawfulIsRedBlack(g, top, k, t, h);
    k' := Top;
    t' :| Focus(g, top, Top, t') && RedBlack(t') && InOrder(t') == Contents(k, t);
    h' :| Bal(t', h');
  }

  // The last step of RB_REMOVE_COLOR.
  lemma Repaid(g: Graph, top: Node?, k: Ctx, t: Tree, h: nat) returns (t': Tree)
    requires Focus(g, top, k, t) && Short(k, t, h) && (k.Top? || IsRed(t))
    ensures t.N? ==> t.x in g
    ensures Focus(if t.N? then Painted(g, t.x, Black) else g, top, Top, t') && RedBlack(t') && InOrder(t') == Contents(k, t)
  {
    Paid(k, t, h);
    var h': nat :| Lawful(k, Blackened(t), h');
    if t.N? { PaintRoot(g, top, k, t, Black); }
    var g' := if t.N? then Painted(g, t.x, Black) else g;
    LawfulIsRedBlack(g', top, k, Blackened(t), h');
    assert InOrder(Blackened(t)) == InOrder(t);
    t' :| Focus(g', top, Top, t') && RedBlack(t') && InOrder(t') == Contents(k, Blackened(t));
  }

  // A node is neither its own child nor its own parent.
  lemma NotItsOwn(g: Graph, top: Node?, k: Ctx, t: Tree, ch: Tree)
    requires Focus(g, top, k, t) && t.N? && ((t.l.E? && ch == t.r) || (t.r.E? && ch == t.l))
    ensures Root(ch) != t.x && Par(k) != t.x
  {
    assert t.x !in CtxNodes(k) && t.x !in Nodes(ch);
  }

  // One more than the depth, or nothing when the loop is about to stop at a red node.
  function Turns(k: Ctx, t: Tree): nat { if IsRed(t) then 0 else 1 + Depth(k) }

  class RBTree {
    var root: Node?
    ghost var nodes: set<Node>
    ghost var tree: Tree

    // The link and colour fields of all nodes.
    ghost function View(): Graph
      reads this`nodes, nodes
    {
      map x | x in nodes :: Rec(x.left, x.right, x.parent, x.color)
    }

    ghost predicate Valid()
      reads this, nodes
    {
      Focus(View(), root, Top, tree) && RedBlack(tree) && Sorted(InOrder(tree))
    }

    constructor ()
      ensures Valid() && tree == E && nodes == {}
    {
      root, nodes, tree := null, {}, E;
      new;
      assert Bal(tree, 0);
    }

    /* ---- field writes, seen on the whole graph ---- */

    method SetLeft(x: Node, n: Node?)
      requires x in nodes
      modifies x`left
      ensures View() == old(View())[x := old(View())[x].(left := n)]
    {
      x.left := n;
    }

    method SetRight(x: Node, n: Node?)
      requires x in nodes
      modifies x`right
      ensures View() == old(View())[x := old(View())[x].(right := n)]
    {
      x.right := n;
    }

    method SetParent(x: Node, n: Node?)
      requires x in nodes
      modifies x`parent
      ensures View() == old(View())[x := old(View())[x].(parent := n)]
    {
      x.parent := n;
    }

    method SetColor(x: Node, c: Color)
      requires x in nodes
      modifies x`color
      ensures View() == Painted(old(View()), x, c)
    {
      x.color := c;
    }

    method SetBlackRed(black: Node, red: Node)
      requires black in nodes && red in nodes
      modifies black`color, red`color
      ensures View() == Painted(Painted(old(View()), black, Black), red, Red)
    {
      black.color := Black;
      red.color := Red;
    }

    // Where p, or the head pointer when there is no p, pointed at x, it now points at n.
    method Replace(p: Node?, x: Node, n: Node?)
      requires p != null ==> p in nodes
      modifies this`root, nodes`left, nodes`right
      ensures (View(), root) == Replaced(old(View()), old(root), p, x, n)
    {
      if p != null {
        if p.left == x {
          SetLeft(p, n);
        } else {
          SetRight(p, n);
        }
      } else {
        root := n;
      }
    }

    method RotateLeft(elm: Node)
      requires CanRot(View(), elm, Left)
      modifies this`root, nodes`left, nodes`right, nodes`parent
      ensures (View(), root) == Rot(old(View()), old(root), elm, Left)
    {
      ghost var g := View();
      var tmp: Node := elm.right;
      SetRight(elm, tmp.left);
      if elm.right != null {
        SetParent(tmp.left, elm);
      }
      assert View() == RotLow(g, elm, tmp, Left);
      SetParent(tmp, elm.parent);
      Replace(tmp.parent, elm, tmp);
      SetLeft(tmp, elm);
      SetParent(elm, tmp);
    }

    method RotateRight(elm: Node)
      requires CanRot(View(), elm, Right)
      modifies this`root, nodes`left, nodes`right, nodes`parent
      ensures (View(), root) == Rot(old(View()), old(root), elm, Right)
    {
      ghost var g := View();
      var tmp: Node := elm.left;
      SetLeft(elm, tmp.right);
      if elm.left != null {
        SetParent(tmp.right, elm);
      }
      assert View() == RotLow(g, elm, tmp, Right);
      SetParent(tmp, elm.parent);
      Replace(tmp.parent, elm, tmp);
      SetRight(tmp, elm);
      SetParent(elm, tmp);
    }

    /* ---- RB_INSERT_COLOR ---- */

    // Red uncle.
    method PushUp(tmp: Node, parent: Node, gparent: Node, ghost k: Ctx, ghost t: Tree, ghost h: nat)
      requires Focus(View(), root, k, t) && Pending(k, t, h) && RedAbove(k) && IsRed(k.up.sib)
      requires parent == k.x && gparent == k.up.x && tmp == k.up.sib.x
      modifies nodes`color
      ensures Focus(View(), root, k.up.up, RecolorTree(k, t)) && Pending(k.up.up, RecolorTree(k, t), h + 1)
      ensures Contents(k.up.up, RecolorTree(k, t)) == Contents(k, t)
    {
      Recolor(View(), root, k, t, h);
      SetColor(tmp, Black);
      SetBlackRed(parent, gparent);
    }

    // Black uncle, outer grandchild.
    method SettleLeft(parent: Node, gparent: Node, ghost k: Ctx, ghost t: Tree, ghost h: nat)
      requires Focus(View(), root, k, t) && Pending(k, t, h) && RedAbove(k) && !IsRed(k.up.sib)
      requires k.d == k.up.d == Left && parent == k.x && gparent == k.up.x
      modifies this`root, nodes
      ensures Focus(View(), root, OuterCtx(k), t) && Pending(OuterCtx(k), t, h)
      ensures Contents(OuterCtx(k), t) == Contents(k, t)
    {
      Outer(View(), root, k, t, h);
      SetBlackRed(parent, gparent);
      RotateRight(gparent);
    }

    // One turn of the loop for a parent that is a left child.
    method InsertColorLeft(elm0: Node, parent0: Node, gparent: Node, ghost k0: Ctx, ghost t0: Tree, ghost h0: nat)
      returns (elm: Node, ghost k: Ctx, ghost t: Tree, ghost h: nat)
      requires Focus(View(), root, k0, t0) && Pending(k0, t0, h0) && RedAbove(k0) && k0.up.d == Left
      requires elm0 == t0.x && parent0 == k0.x && gparent == k0.up.x
      modifies this`root, nodes
      ensures Focus(View(), root, k, t) && Pending(k, t, h) && t.x == elm
      ensures Contents(k, t) == Contents(k0, t0) && Depth(k) < Depth(k0)
    {
      hide Focus, Contents;
      elm, k, t, h := elm0, k0, t0, h0;
      var parent := parent0;
      Uncle(View(), root, k, t, h);
      var tmp := gparent.right;
      if tmp != null && tmp.color == Red {
        PushUp(tmp, parent, gparent, k, t, h);
        elm := gparent;
        k, t, h := k.up.up, RecolorTree(k, t), h + 1;
        return;
      }
      if parent.right == elm {
        Inner(View(), root, k, t, h);
        RotateLeft(parent);
        tmp := parent;
        parent := elm;
        elm := tmp;
        k, t := InnerCtx(k, t), InnerTree(k, t);
      }
      SettleLeft(parent, gparent, k, t, h);
      k := OuterCtx(k);
    }

    // Black uncle, outer grandchild.
    method SettleRight(parent: Node, gparent: Node, ghost k: Ctx, ghost t: Tree, ghost h: nat)
      requires Focus(View(), root, k, t) && Pending(k, t, h) && RedAbove(k) && !IsRed(k.up.sib)
      requires k.d == k.up.d == Right && parent == k.x && gparent == k.up.x
      modifies this`root, nodes
      ensures Focus(View(), root, OuterCtx(k), t) && Pending(OuterCtx(k), t, h)
      ensures Contents(OuterCtx(k), t) == Contents(k, t)
    {
      Outer(View(), root, k, t, h);
      SetBlackRed(parent, gparent);
      RotateLeft(gparent);
    }

    // One turn of the loop for a parent that is a right child.
    method InsertColorRight(elm0: Node, parent0: Node, gparent: Node, ghost k0: Ctx, ghost t0: Tree, ghost h0: nat)
      returns (elm: Node, ghost k: Ctx, ghost t: Tree, ghost h: nat)
      requires Focus(View(), root, k0, t0) && Pending(k0, t0, h0) && RedAbove(k0) && k0.up.d == Right
      requires elm0 == t0.x && parent0 == k0.x && gparent == k0.up.x
      modifies this`root, nodes
      ensures Focus(View(), root, k, t) && Pending(k, t, h) && t.x == elm
      ensures Contents(k, t) == Contents(k0, t0) && Depth(k) < Depth(k0)
    {
      hide Focus, Contents;
      elm, k, t, h := elm0, k0, t0, h0;
      var parent := parent0;
      Uncle(View(), root, k, t, h);
      var tmp := gparent.left;
      if tmp != null && tmp.color == Red {
        PushUp(tmp, parent, gparent, k, t, h);
        elm := gparent;
        k, t, h := k.up.up, RecolorTree(k, t), h + 1;
        return;
      }
      if parent.left == elm {
        Inner(View(), root, k, t, h);
        RotateRight(parent);
        tmp := parent;
        parent := elm;
        elm := tmp;
        k, t := InnerCtx(k, t), InnerTree(k, t);
      }
      SettleRight(parent, gparent, k, t, h);
      k := OuterCtx(k);
    }

    method InsertColor(elm0: Node, ghost k0: Ctx, ghost t0: Tree, ghost h0: nat)
      requires Focus(View(), root, k0, t0) && Pending(k0, t0, h0) && t0.x == elm0
      modifies this`root, this`tree, nodes
      ensures Focus(View(), root, Top, tree) && RedBlack(tree) && InOrder(tree) == Contents(k0, t0)
    {
      var elm := elm0;
      ghost var k, t, h, all := k0, t0, h0, Contents(k0, t0);
      while true
        invariant Focus(View(), root, k, t) && Pending(k, t, h) && t.x == elm && Contents(k, t) == all
        decreases Depth(k)
      {
        Above(View(), root, k, t, h);
        var parent := elm.parent;
        if parent == null || parent.color != Red { break; }
        var gparent: Node := parent.parent;
        if parent == gparent.left {
          elm, k, t, h := InsertColorLeft(elm, parent, gparent, k, t, h);
        } else {
          elm, k, t, h := InsertColorRight(elm, parent, gparent, k, t, h);
        }
      }
      PaintHead(k, t, h);
    }

    method PaintHead(ghost k: Ctx, ghost t: Tree, ghost h: nat)
      requires Focus(View(), root, k, t) && Pending(k, t, h) && !RedAbove(k)
      modifies this`tree, nodes`color
      ensures Focus(View(), root, Top, tree) && RedBlack(tree) && InOrder(tree) == Contents(k, t)
    {
      tree := Finished(View(), root, k, t, h);
      SetColor(root, Black);
    }

    /* ---- RB_REMOVE_COLOR ---- */

    // Black sibling without red children.
    method TurnUp(tmp: Node, parent: Node, ghost k0: Ctx, ghost t0: Tree, ghost h0: nat)
      returns (elm: Node, parent': Node?, ghost k: Ctx, ghost t: Tree, ghost h: nat)
      requires Focus(View(), root, k0, t0) && Short(k0, t0, h0) && k0.In? && !IsRed(t0) && k0.sib.N? && k0.sib.c == Black
      requires !IsRed(k0.sib.l) && !IsRed(k0.sib.r) && parent == k0.x && tmp == k0.sib.x
      modifies nodes`color
      ensures Focus(View(), root, k, t) && Short(k, t, h) && elm == Root(t) && parent' == Par(k)
      ensures k == k0.up && (IsRed(t) <==> k0.c == Red) && Contents(k, t) == Contents(k0, t0)
    {
      Sibling(View(), root, k0, t0, h0);
      Lift(View(), root, k0, t0, h0);
      SetColor(tmp, Red);
      elm := parent;
      parent' := elm.parent;
      k, t, h := k0.up, LiftTree(k0, t0), if k0.c == Red then h0 else h0 + 1;
    }

    // The sibling takes the parent's colour; parent and far nephew turn black.
    method PaintFar(tmp: Node, parent: Node, far: Node?)
      requires tmp in nodes && parent in nodes && (far != null ==> far in nodes)
      modifies nodes`color
      ensures var g := old(View()); var g1 := Painted(Painted(g, tmp, g[parent].color), parent, Black);
              View() == if far == null then g1 else Painted(g1, far, Black)
    {
      SetColor(tmp, parent.color);
      SetColor(parent, Black);
      if far != null {
        SetColor(far, Black);
      }
    }

    // Red sibling of a left child.
    method TurnSiblingLeft(tmp0: Node, parent: Node, ghost k: Ctx, ghost t: Tree, ghost h: nat) returns (tmp: Node)
      requires Focus(View(), root, k, t) && Short(k, t, h) && k.In? && k.d == Left && IsRed(k.sib)
      requires parent == k.x && tmp0 == k.sib.x
      modifies this`root, nodes
      ensures Focus(View(), root, RedSibCtx(k), t) && Short(RedSibCtx(k), t, h) && !IsRed(RedSibCtx(k).sib)
      ensures Contents(RedSibCtx(k), t) == Contents(k, t) && RedSibCtx(k).sib.N? && tmp == RedSibCtx(k).sib.x
    {
      RedSib(View(), root, k, t, h);
      SetBlackRed(tmp0, parent);
      RotateLeft(parent);
      Sibling(View(), root, RedSibCtx(k), t, h);
      tmp := parent.right;
    }

    // Black sibling whose near child alone is red.
    method TurnNearLeft(tmp0: Node, parent: Node, ghost k: Ctx, ghost t: Tree, ghost h: nat) returns (tmp: Node)
      requires Focus(View(), root, k, t) && Short(k, t, h) && k.In? && k.d == Left && k.sib.N? && k.sib.c == Black
      requires IsRed(k.sib.l) && !IsRed(k.sib.r) && parent == k.x && tmp0 == k.sib.x
      modifies this`root, nodes
      ensures Focus(View(), root, NearCtx(k), t) && Short(NearCtx(k), t, h)
      ensures Contents(NearCtx(k), t) == Contents(k, t) && tmp == NearCtx(k).sib.x
    {
      hide Focus, Contents, Short;
      Sibling(View(), root, k, t, h);
      NearRed(View(), root, k, t, h);
      var oleft := tmp0.left;
      if oleft != null {
        SetColor(oleft, Black);
      }
      SetColor(tmp0, Red);
      RotateRight(tmp0);
      Sibling(View(), root, NearCtx(k), t, h);
      tmp := parent.right;
    }

    // Black sibling whose far child is red.
    method TurnFarLeft(tmp: Node, parent: Node, ghost k: Ctx, ghost t: Tree, ghost h: nat)
      requires Focus(View(), root, k, t) && Short(k, t, h) && k.In? && k.d == Left && !IsRed(t) && k.sib.N? && k.sib.c == Black
      requires IsRed(k.sib.r) && parent == k.x && tmp == k.sib.x
      modifies this`root, nodes
      ensures Focus(View(), root, k.up, FarTree(k, t))
      ensures Lawful(k.up, FarTree(k, t), if k.c == Black then h + 2 else h + 1)
      ensures Contents(k.up, FarTree(k, t)) == Contents(k, t)
    {
      Sibling(View(), root, k, t, h);
      FarRed(View(), root, k, t, h);
      PaintFar(tmp, parent, tmp.right);
      RotateLeft(parent);
    }

    // Red sibling of a right child.
    method TurnSiblingRight(tmp0: Node, parent: Node, ghost k: Ctx, ghost t: Tree, ghost h: nat) returns (tmp: Node)
      requires Focus(View(), root, k, t) && Short(k, t, h) && k.In? && k.d == Right && IsRed(k.sib)
      requires parent == k.x && tmp0 == k.sib.x
      modifies this`root, nodes
      ensures Focus(View(), root, RedSibCtx(k), t) && Short(RedSibCtx(k), t, h) && !IsRed(RedSibCtx(k).sib)
      ensures Contents(RedSibCtx(k), t) == Contents(k, t) && RedSibCtx(k).sib.N? && tmp == RedSibCtx(k).sib.x
    {
      RedSib(View(), root, k, t, h);
      SetBlackRed(tmp0, parent);
      RotateRight(parent);
      Sibling(View(), root, RedSibCtx(k), t, h);
      tmp := parent.left;
    }

    // Black sibling whose near child alone is red.
    method TurnNearRight(tmp0: Node, parent: Node, ghost k: Ctx, ghost t: Tree, ghost h: nat) returns (tmp: Node)
      requires Focus(View(), root, k, t) && Short(k, t, h) && k.In? && k.d == Right && k.sib.N? && k.sib.c == Black
      requires IsRed(k.sib.r) && !IsRed(k.sib.l) && parent == k.x && tmp0 == k.sib.x
      modifies this`root, nodes
      ensures Focus(View(), root, NearCtx(k), t) && Short(NearCtx(k), t, h)
      ensures Contents(NearCtx(k), t) == Contents(k, t) && tmp == NearCtx(k).sib.x
    {
      hide Focus, Contents, Short;
      Sibling(View(), root, k, t, h);
      NearRed(View(), root, k, t, h);
      var oright := tmp0.right;
      if oright != null {
        SetColor(oright, Black);
      }
      SetColor(tmp0, Red);
      RotateLeft(tmp0);
      Sibling(View(), root, NearCtx(k), t, h);
      tmp := parent.left;
    }

    // Black sibling whose far child is red.
    method TurnFarRight(tmp: Node, parent: Node, ghost k: Ctx, ghost t: Tree, ghost h: nat)
      requires Focus(View(), root, k, t) && Short(k, t, h) && k.In? && k.d == Right && !IsRed(t) && k.sib.N? && k.sib.c == Black
      requires IsRed(k.sib.l) && parent == k.x && tmp == k.sib.x
      modifies this`root, nodes
      ensures Focus(View(), root, k.up, FarTree(k, t))
      ensures Lawful(k.up, FarTree(k, t), if k.c == Black then h + 2 else h + 1)
      ensures Contents(k.up, FarTree(k, t)) == Contents(k, t)
    {
      Sibling(View(), root, k, t, h);
      FarRed(View(), root, k, t, h);
      PaintFar(tmp, parent, tmp.left);
      RotateRight(parent);
    }

    // Black sibling with a red child.
    method TurnRedLeft(tmp0: Node, parent: Node, ghost k0: Ctx, ghost t0: Tree, ghost h0: nat)
      returns (ghost k: Ctx, ghost t: Tree, ghost h: nat)
      requires Focus(View(), root, k0, t0) && Short(k0, t0, h0) && k0.In? && k0.d == Left && !IsRed(t0)
      requires k0.sib.N? && k0.sib.c == Black && (IsRed(k0.sib.l) || IsRed(k0.sib.r)) && parent == k0.x && tmp0 == k0.sib.x
      modifies this`root, nodes
      ensures k == Top && Focus(View(), root, k, t) && Short(k, t, h) && !IsRed(t)
      ensures Contents(k, t) == Contents(k0, t0)
    {
      k, t, h := k0, t0, h0;
      Sibling(View(), root, k, t, h);
      var tmp := tmp0;
      if tmp.right == null || tmp.right.color == Black {
        tmp := TurnNearLeft(tmp, parent, k, t, h);
        k := NearCtx(k);
      }
      TurnFarLeft(tmp, parent, k, t, h);
      k, t, h := Whole(View(), root, k.up, FarTree(k, t), if k.c == Black then h + 2 else h + 1);
    }

    // One turn of the loop for a left child. Setting elm to the head ends the loop.
    method RemoveColorLeft(parent0: Node, elm0: Node?, ghost k0: Ctx, ghost t0: Tree, ghost h0: nat)
      returns (parent: Node?, elm: Node?, ghost k: Ctx, ghost t: Tree, ghost h: nat)
      requires Focus(View(), root, k0, t0) && Short(k0, t0, h0) && !IsRed(t0) && k0.In? && k0.d == Left
      requires parent0 == k0.x && elm0 == Root(t0)
      modifies this`root, nodes
      ensures Focus(View(), root, k, t) && Short(k, t, h) && elm == Root(t) && parent == Par(k)
      ensures Contents(k, t) == Contents(k0, t0) && Turns(k, t) < Turns(k0, t0)
    {
      hide Focus, Contents;
      parent, elm, k, t, h := parent0, elm0, k0, t0, h0;
      Sibling(View(), root, k, t, h);
      var tmp: Node := parent.right;
      if tmp.color == Red {
        tmp := TurnSiblingLeft(tmp, parent0, k, t, h);
        k := RedSibCtx(k);
        Sibling(View(), root, k, t, h);
      }
      if (tmp.left == null || tmp.left.color == Black) && (tmp.right == null || tmp.right.color == Black) {
        elm, parent, k, t, h := TurnUp(tmp, parent0, k, t, h);
      } else {
        k, t, h := TurnRedLeft(tmp, parent0, k, t, h);
        Sibling(View(), root, k, t, h);
        parent, elm := null, root;
      }
    }

    // Black sibling with a red child.
    method TurnRedRight(tmp0: Node, parent: Node, ghost k0: Ctx, ghost t0: Tree, ghost h0: nat)
      returns (ghost k: Ctx, ghost t: Tree, ghost h: nat)
      requires Focus(View(), root, k0, t0) && Short(k0, t0, h0) && k0.In? && k0.d == Right && !IsRed(t0)
      requires k0.sib.N? && k0.sib.c == Black && (IsRed(k0.sib.l) || IsRed(k0.sib.r)) && parent == k0.x && tmp0 == k0.sib.x
      modifies this`root, nodes
      ensures k == Top && Focus(View(), root, k, t) && Short(k, t, h) && !IsRed(t)
      ensures Contents(k, t) == Contents(k0, t0)
    {
      k, t, h := k0, t0, h0;
      Sibling(View(), root, k, t, h);
      var tmp := tmp0;
      if tmp.left == null || tmp.left.color == Black {
        tmp := TurnNearRight(tmp, parent, k, t, h);
        k := NearCtx(k);
      }
      TurnFarRight(tmp, parent, k, t, h);
      k, t, h := Whole(View(), root, k.up, FarTree(k, t), if k.c == Black then h + 2 else h + 1);
    }

    // One turn of the loop for a right child. Setting elm to the head ends the loop.
    method RemoveColorRight(parent0: Node, elm0: Node?, ghost k0: Ctx, ghost t0: Tree, ghost h0: nat)
      returns (parent: Node?, elm: Node?, ghost k: Ctx, ghost t: Tree, ghost h: nat)
      requires Focus(View(), root, k0, t0) && Short(k0, t0, h0) && !IsRed(t0) && k0.In? && k0.d == Right
      requires parent0 == k0.x && elm0 == Root(t0)
      modifies this`root, nodes
      ensures Focus(View(), root, k, t) && Short(k, t, h) && elm == Root(t) && parent == Par(k)
      ensures Contents(k, t) == Contents(k0, t0) && Turns(k, t) < Turns(k0, t0)
    {
      hide Focus, Contents;
      parent, elm, k, t, h := parent0, elm0, k0, t0, h0;
      Sibling(View(), root, k, t, h);
      var tmp: Node := parent.left;
      if tmp.color == Red {
        tmp := TurnSiblingRight(tmp, parent0, k, t, h);
        k := RedSibCtx(k);
        Sibling(View(), root, k, t, h);
      }
      if (tmp.left == null || tmp.left.color == Black) && (tmp.right == null || tmp.right.color == Black) {
        elm, parent, k, t, h := TurnUp(tmp, parent0, k, t, h);
      } else {
        k, t, h := TurnRedRight(tmp, parent0, k, t, h);
        Sibling(View(), root, k, t, h);
        parent, elm := null, root;
      }
    }

    method RemoveColor(parent0: Node?, elm0: Node?, ghost k0: Ctx, ghost t0: Tree, ghost h0: nat)
      requires Focus(View(), root, k0, t0) && Short(k0, t0, h0) && parent0 == Par(k0) && elm0 == Root(t0)
      modifies this`root, this`tree, nodes
      ensures Focus(View(), root, Top, tree) && RedBlack(tree) && InOrder(tree) == Contents(k0, t0)
    {
      var parent, elm := parent0, elm0;
      ghost var k, t, h, all := k0, t0, h0, Contents(k0, t0);
      while true
        invariant Focus(View(), root, k, t) && Short(k, t, h) && elm == Root(t) && parent == Par(k)
        invariant Contents(k, t) == all
        decreases Turns(k, t)
      {
        Sibling(View(), root, k, t, h);
        if !((elm == null || elm.color == Black) && elm != root) { break; }
        if parent.left == elm {
          parent, elm, k, t, h := RemoveColorLeft(parent, elm, k, t, h);
        } else {
          parent, elm, k, t, h := RemoveColorRight(parent, elm, k, t, h);
        }
      }
      PayBack(elm, k, t, h);
    }

    // The shortage ends at a red node, or at the head.
    method PayBack(elm: Node?, ghost k: Ctx, ghost t: Tree, ghost h: nat)
      requires Focus(View(), root, k, t) && Short(k, t, h) && elm == Root(t) && (k.Top? || IsRed(t))
      modifies this`tree, nodes`color
      ensures Focus(View(), root, Top, tree) && RedBlack(tree) && InOrder(tree) == Contents(k, t)
    {
      tree := Repaid(View(), root, k, t, h);
      if elm != null {
        SetColor(elm, Black);
      }
    }

    /* ---- the operations ---- */

    // The node with the key of elm, if any.
    method Find(elm: Node) returns (tmp: Node?)
      requires Valid()
      ensures tmp != null ==> tmp in InOrder(tree) && tmp.key == elm.key
      ensures tmp == null ==> forall x :: x in InOrder(tree) ==> x.key != elm.key
    {
      tmp := root;
      ghost var k, t := Top, tree;
      while tmp != null
        invariant Focus(View(), root, k, t) && tmp == Root(t)
        invariant Contents(k, t) == InOrder(tree) && Between(k, elm.key)
        decreases t
      {
        Around(View(), root, k, t);
        if elm.key == tmp.key { return; }
        ghost var d := if elm.key < tmp.key then Left else Right;
        StepKeys(k, t, d, elm.key);
        Step(View(), root, k, t, d);
        k, t := Down(k, t, d), Sub(t, d);
        if elm.key < tmp.key {
          tmp := tmp.left;
        } else {
          tmp := tmp.right;
        }
      }
    }

    // The search of RB_INSERT: the node with the key of elm, or the place k for it.
    method Search(elm: Node) returns (r: Node?, parent: Node?, comp: int, ghost k: Ctx)
      requires Valid()
      ensures r != null ==> r in InOrder(tree) && r.key == elm.key && (elm in InOrder(tree) ==> r == elm)
      ensures r == null ==> forall x :: x in InOrder(tree) ==> x.key != elm.key
      ensures r == null ==>
                Focus(View(), root, k, E) && parent == Par(k) && (k.In? ==> (comp < 0 <==> k.d == Left)) &&
                Contents(k, E) == InOrder(tree) && Between(k, elm.key) && Plug(k, E) == tree
    {
      hide Real, RealCtx, RedBlack;
      r, parent, comp := root, null, 0;
      ghost var t := tree;
      k := Top;
      while r != null
        invariant Focus(View(), root, k, t) && r == Root(t) && parent == Par(k)
        invariant Contents(k, t) == InOrder(tree) && Between(k, elm.key)
        invariant k.In? ==> (comp < 0 <==> k.d == Left)
        invariant Plug(k, t) == tree
        decreases t
      {
        Around(View(), root, k, t);
        parent := r;
        comp := elm.key - parent.key;
        if comp == 0 {
          OnlyKey(k, t, elm);
          return;
        }
        ghost var d := if comp < 0 then Left else Right;
        StepKeys(k, t, d, elm.key);
        Step(View(), root, k, t, d);
        k, t := Down(k, t, d), Sub(t, d);
        if comp < 0 {
          r := r.left;
        } else {
          r := r.right;
        }
      }
    }

    /** Put elm into the tree, unless its key is there already: then return that node. */
    method Insert(elm: Node) returns (r: Node?)
      requires Valid()
      modifies this, nodes, elm
      ensures Valid()
      ensures r == null <==> forall x :: x in old(InOrder(tree)) ==> x.key != elm.key
      ensures r == null ==> InOrder(tree) == Placed(old(InOrder(tree)), elm) && nodes == old(nodes) + {elm}
      ensures r != null ==> r in nodes && r.key == elm.key && (tree, nodes) == old((tree, nodes))
      ensures old(elm in nodes) ==> r == elm
    {
      var parent, comp;
      ghost var k;
      r, parent, comp, k := Search(elm);
      AllNodes(View(), root, tree);
      assert forall x :: x in nodes <==> x in InOrder(tree);
      hide Focus, Sorted, RedBlack, Between, View, Placed;
      if r == null {
        InsertAt(elm, parent, comp, k);
      }
    }

    // RB_SET and the link to it.
    method Hang(elm: Node, parent: Node?, comp: int, ghost k: Ctx)
      requires elm !in nodes
      requires Focus(View(), root, k, E) && parent == Par(k) && (k.In? ==> (comp < 0 <==> k.d == Left))
      modifies this`root, this`nodes, nodes, elm
      ensures nodes == old(nodes) + {elm} && Focus(View(), root, k, N(Red, E, elm, E))
    {
      HangNode(View(), root, k, elm);
      ghost var g := View();
      elm.parent := parent;
      elm.left, elm.right := null, null;
      elm.color := Red;
      nodes := nodes + {elm};
      assert View() == g[elm := Rec(null, null, parent, Red)];
      if parent != null {
        if comp < 0 {
          SetLeft(parent, elm);
        } else {
          SetRight(parent, elm);
        }
      } else {
        root := elm;
      }
      assert View() == Hung(g, elm, Par(k), if k.In? then k.d else Left);
    }

    // The second half of RB_INSERT: the place is known to be the hole of k.
    method InsertAt(elm: Node, parent: Node?, comp: int, ghost k: Ctx)
      requires Valid() && elm !in nodes
      requires Focus(View(), root, k, E) && parent == Par(k) && (k.In? ==> (comp < 0 <==> k.d == Left))
      requires Contents(k, E) == InOrder(tree) && Between(k, elm.key) && Plug(k, E) == tree
      modifies this, nodes, elm
      ensures Valid() && nodes == old(nodes) + {elm}
      ensures InOrder(tree) == Placed(old(InOrder(tree)), elm)
    {
      ghost var h := LawfulFromTop(k, E);
      ghost var was := InOrder(tree);
      Hang(elm, parent, comp, k);
      Grown(k, elm, was, h);
      InsertColor(elm, k, N(Red, E, elm, E), 0);
    }

    // y is no longer one of the tree's nodes.
    ghost method Drop(y: Node)
      modifies this`nodes
      ensures nodes == old(nodes) - {y} && View() == old(View()) - {y}
    {
      nodes := nodes - {y};
    }

    // Take y, which has at most the child ch, out of the tree.
    method Unlink(y: Node, child: Node?, parent: Node?, ghost k: Ctx, ghost t: Tree, ghost ch: Tree)
      requires Focus(View(), root, k, t) && t.N? && t.x == y && child == Root(ch) && parent == Par(k)
      requires (t.l.E? && ch == t.r) || (t.r.E? && ch == t.l)
      modifies this`root, this`nodes, nodes`left, nodes`right, nodes`parent
      ensures nodes == old(nodes) - {y} && Focus(View(), root, k, ch) && y.parent == parent
    {
      SpliceFocus(View(), root, k, t, ch);
      ghost var g := View();
      ghost var (g', top') := Spliced(g, root, y, child);
      NotItsOwn(g, root, k, t, ch);
      hide Focus, Nodes, CtxNodes;
      if child != null {
        SetParent(child, parent);
        assert View()[y].parent == g[y].parent;
      }
      Replace(parent, y, child);
      assert (View(), root) == (g', top');
      assert View()[y].parent == parent;
      Drop(y);
    }

    // The links and the colour of x go to y, and what pointed at x points at y.
    method TakeOver(x: Node, y: Node)
      requires x in nodes && y !in nodes && x.left != null && x.left in nodes && (x.right != null ==> x.right in nodes)
      requires x.parent != null ==> x.parent in nodes
      requires x.left != x && x.right != x && x.parent != x
      modifies this`root, this`nodes, nodes`left, nodes`right, nodes`parent, y
      ensures nodes == old(nodes) + {y} && (View(), root) == Seated(old(View()), old(root), x, y)
    {
      ghost var g := View();
      y.left, y.right, y.parent, y.color := x.left, x.right, x.parent, x.color;
      nodes := nodes + {y};
      assert View() == g[y := g[x]];
      Replace(x.parent, x, y);
      assert View()[x] == g[x];
      SetParent(x.left, y);
      assert View()[x] == g[x];
      if x.right != null {
        SetParent(x.right, y);
      }
    }

    // The unlinked y comes back where x is.
    method TakePlace(x: Node, y: Node, ghost ki: Ctx, ghost k: Ctx, ghost t: Tree, ghost r: Tree)
      requires t.N? && t.x == x && t.l.N? && y !in nodes && Focus(View(), root, Below(ki, k, t, x), r)
      modifies this`root, this`nodes, nodes`left, nodes`right, nodes`parent, y
      ensures nodes == old(nodes) - {x} + {y} && Focus(View(), root, Below(ki, k, t, y), r)
    {
      hide Focus;
      ToBelow(View(), root, ki, k, t, r, x);
      Seat(x, y, k, N(t.c, t.l, x, Plug(ki, r)));
      ToBelow(View(), root, ki, k, t, r, y);
    }

    // Put y where x is.
    method Seat(x: Node, y: Node, ghost k: Ctx, ghost t: Tree)
      requires Focus(View(), root, k, t) && t.N? && t.x == x && t.l.N? && y !in nodes
      modifies this`root, this`nodes, nodes`left, nodes`right, nodes`parent, y
      ensures nodes == old(nodes) - {x} + {y} && Focus(View(), root, k, t.(x := y))
    {
      SeatFocus(View(), root, k, t, y);
      ghost var g' := Seated(View(), root, x, y).0;
      assert View()[x] == Rec(Root(t.l), Root(t.r), Par(k), t.c);
      assert x !in Nodes(t.l) && x !in Nodes(t.r) && x !in CtxNodes(k);
      hide Focus, Real, RealCtx;
      TakeOver(x, y);
      Drop(x);
    }

    // The end of RB_REMOVE: repair if a black node went.
    method Mend(parent: Node?, child: Node?, color: Color, ghost k: Ctx, ghost t: Tree, ghost h: nat)
      requires Focus(View(), root, k, t) && parent == Par(k) && child == Root(t)
      requires if color == Black then h > 0 && Short(k, t, h - 1) else Lawful(k, t, h)
      modifies this`root, this`tree, nodes
      ensures Focus(View(), root, Top, tree) && RedBlack(tree) && InOrder(tree) == Contents(k, t)
    {
      if color == Black {
        RemoveColor(parent, child, k, t, h - 1);
      } else {
        LawfulIsRedBlack(View(), root, k, t, h);
        ghost var t' :| Focus(View(), root, Top, t') && RedBlack(t') && InOrder(t') == Contents(k, t);
        tree := t';
      }
    }

    // RB_REMOVE of a node with at most one child.
    method RemoveOuter(elm: Node, child: Node?, ghost k: Ctx, ghost t: Tree, ghost ch: Tree, ghost h: nat)
      requires Focus(View(), root, k, t) && Lawful(k, t, h) && t.N? && t.x == elm && child == Root(ch)
      requires (t.l.E? && ch == t.r) || (t.r.E? && ch == t.l)
      requires Sorted(Contents(k, t))
      modifies this, nodes
      ensures Valid() && nodes == old(nodes) - {elm} && InOrder(tree) == Without(Contents(k, t), elm)
    {
      Around(View(), root, k, t);
      SpliceLaws(k, t, ch, h);
      SpliceContents(k, t, ch);
      var parent, color := elm.parent, elm.color;
      Unlink(elm, child, parent, k, t, ch);
      Mend(parent, child, color, k, ch, h);
    }

    // The leftmost node below the right child.
    method Successor(elm: Node, ghost k: Ctx, ghost t: Tree) returns (y: Node, ghost ki: Ctx, ghost s: Tree)
      requires Focus(View(), root, k, t) && t.N? && t.r.N? && t.x == elm
      ensures s.N? && s.l.E? && s.x == y && AllLeft(ki) && Plug(ki, s) == t.r
    {
      Around(View(), root, k, t);
      y := elm.right;
      ki, s := Top, t.r;
      ToBelow(View(), root, ki, k, t, s, t.x);
      Around(View(), root, Below(ki, k, t, t.x), s);
      var left := y.left;
      while left != null
        invariant s.N? && s.x == y && AllLeft(ki) && Plug(ki, s) == t.r
        invariant left == Root(s.l)
        decreases s
      {
        y := left;
        ki, s := In(Left, s.c, s.x, s.r, ki), s.l;
        ToBelow(View(), root, ki, k, t, s, t.x);
        Around(View(), root, Below(ki, k, t, t.x), s);
        left := y.left;
      }
    }

    // The successor leaves its place below and takes the place of x.
    method Promote(x: Node, elm: Node, ghost ki: Ctx, ghost k: Ctx, ghost t: Tree, ghost s: Tree)
      returns (child: Node?, parent: Node?, color: Color)
      requires Focus(View(), root, k, t) && t.N? && t.x == x && t.l.N?
      requires s.N? && s.l.E? && s.x == elm && Plug(ki, s) == t.r
      modifies this`root, this`nodes, nodes
      ensures Focus(View(), root, Below(ki, k, t, elm), s.r) && nodes == old(nodes) - {x}
      ensures child == Root(s.r) && parent == Par(Below(ki, k, t, elm)) && color == s.c
    {
      ghost var kx := Below(ki, k, t, x);
      ToBelow(View(), root, ki, k, t, s, x);
      Around(View(), root, kx, s);
      ParBelow(ki, k, t);
      hide Focus, Real, RealCtx;
      child, parent, color := elm.right, elm.parent, elm.color;
      Unlink(elm, child, parent, kx, s, s.r);
      if elm.parent == x { parent := elm; }
      TakePlace(x, elm, ki, k, t, s.r);
    }

    // RB_REMOVE of a node with two children: its successor moves into its place.
    method RemoveInner(x: Node, ghost k: Ctx, ghost t: Tree)
      requires Focus(View(), root, k, t) && Plug(k, t) == tree && RedBlack(tree) && t.N? && t.x == x && t.l.N? && t.r.N?
      requires Sorted(Contents(k, t))
      modifies this, nodes
      ensures Valid() && nodes == old(nodes) - {x} && InOrder(tree) == Without(Contents(k, t), x)
    {
      var elm: Node;
      ghost var ki: Ctx, s: Tree;
      elm, ki, s := Successor(x, k, t);
      ghost var h := SuccessorLaws(ki, k, t, s);
      SuccessorContents(ki, k, t, s);
      var child, parent, color := Promote(x, elm, ki, k, t, s);
      Mend(parent, child, color, Below(ki, k, t, elm), s.r, h);
    }

    /** Take elm out of the tree. */
    method Remove(elm: Node) returns (r: Node)
      requires Valid() && elm in nodes
      modifies this, nodes
      ensures Valid() && r == elm && nodes == old(nodes) - {elm}
      ensures InOrder(tree) == Without(old(InOrder(tree)), elm)
    {
      ghost var k, t := PathTo(Top, tree, elm);
      FromTop(View(), root, k, t);
      PlugInOrder(k, t);
      ghost var h := LawfulFromTop(k, t);
      Around(View(), root, k, t);
      if elm.left == null {
        RemoveOuter(elm, elm.right, k, t, t.r, h);
      } else if elm.right == null {
        RemoveOuter(elm, elm.left, k, t, t.l, h);
      } else {
        RemoveInner(elm, k, t);
      }
      r := elm;
    }

    // The leftmost node of the right subtree.
    method NextBelow(elm: Node, ghost k0: Ctx, ghost t0: Tree) returns (r: Node)
      requires Focus(View(), root, k0, t0) && t0.N? && t0.x == elm && t0.r.N?
      ensures r == First(InOrder(t0.r) + After(k0))
    {
      ghost var k, t := Down(k0, t0, Right), t0.r;
      Around(View(), root, k0, t0);
      Step(View(), root, k0, t0, Right);
      Around(View(), root, k, t);
      r := elm.right;
      while r.left != null
        invariant Focus(View(), root, k, t) && t.N? && r == t.x && r.left == Root(t.l)
        invariant First(InOrder(t) + After(k)) == First(InOrder(t0.r) + After(k0))
        decreases t
      {
        Step(View(), root, k, t, Left);
        k, t := Down(k, t, Left), t.l;
        r := r.left;
        Around(View(), root, k, t);
      }
    }

    // The nearest node above that lies to the right.
    method NextAbove(elm: Node, ghost k0: Ctx, ghost t0: Tree) returns (r: Node?)
      requires Focus(View(), root, k0, t0) && t0.N? && t0.x == elm
      ensures r == First(After(k0))
    {
      ghost var k, t := k0, t0;
      var e := elm;
      Around(View(), root, k, t);
      while e.parent != null && e == e.parent.right
        invariant Focus(View(), root, k, t) && t.N? && e == t.x && e.parent == Par(k)
        invariant k.In? ==> k.x in nodes && (k.x.right == e <==> k.d == Right)
        invariant First(After(k)) == First(After(k0))
        decreases k
      {
        Up(View(), root, k.d, k.c, k.x, k.sib, k.up, t);
        k, t := k.up, Mk(k.d, k.c, t, k.x, k.sib);
        e := e.parent;
        Around(View(), root, k, t);
      }
      r := e.parent;
    }

    /** The node after elm in key order. */
    method Next(elm: Node) returns (r: Node?)
      requires Valid() && elm in nodes
      ensures r == Following(InOrder(tree), elm)
    {
      ghost var k, t := PathTo(Top, tree, elm);
      FromTop(View(), root, k, t);
      PlugInOrder(k, t);
      AfterFocus(k, t);
      Around(View(), root, k, t);
      if elm.right != null {
        r := NextBelow(elm, k, t);
      } else if elm.parent != null && elm == elm.parent.left {
        r := elm.parent;
      } else {
        r := NextAbove(elm, k, t);
      }
    }

    /** The first node (val < 0) or the last. */
    method MinMax(val: int) returns (parent: Node?)
      requires Valid()
      ensures parent == if val < 0 then First(InOrder(tree)) else Last(InOrder(tree))
    {
      var tmp := root;
      parent := null;
      ghost var k, t := Top, tree;
      while tmp != null
        invariant Focus(View(), root, k, t) && tmp == Root(t) && parent == Par(k)
        invariant Contents(k, t) == InOrder(tree)
        invariant if val < 0 then Before(k) == [] && First(After(k)) == Par(k) else After(k) == [] && Last(Before(k)) == Par(k)
        decreases t
      {
        Around(View(), root, k, t);
        Step(View(), root, k, t, if val < 0 then Left else Right);
        k, t := Down(k, t, if val < 0 then Left else Right), Sub(t, if val < 0 then Left else Right);
        parent := tmp;
        if val < 0 {
          tmp := tmp.left;
        } else {
          tmp := tmp.right;
        }
      }
    }
  }

  lemma AfterFocus(k: Ctx, t: Tree)
    requires t.N? && Sorted(Contents(k, t))
    ensures First(InOrder(t.r) + After(k)) == Following(Contents(k, t), t.x)
  {
    var a, b := Before(k) + InOrder(t.l), InOrder(t.r) + After(k);
    assert Contents(k, t) == a + [t.x] + b;
    SortedWithout(a, b, t.x);
    WithoutSplit(a, b, t.x);
  }

  // The list and the laws once elm hangs in the hole of k.
  lemma Grown(k: Ctx, elm: Node, was: seq<Node>, h: nat)
    requires Contents(k, E) == was && Sorted(was) && Between(k, elm.key) && Lawful(k, E, h)
    ensures Pending(k, N(Red, E, elm, E), 0)
    ensures Contents(k, N(Red, E, elm, E)) == Placed(was, elm) && Sorted(Placed(was, elm))
  {
    assert was == Before(k) + After(k);
    assert InOrder(N(Red, E, elm, E)) == [elm];
    PlacedSplit(Before(k), After(k), elm);
    SortedPlaced(Before(k), After(k), elm);
  }
}
