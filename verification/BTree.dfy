/** The B-tree over linked nodes: splitting a child and inserting a key, in place. */
module BTree {
  import opened BTreeShape

  /* ---- nodes that hold a tree ---- */

  function Nodes(t: Tree): set<BNode> {
    {t.x} + set i, y | 0 <= i < |t.kids| && y in Nodes(t.kids[i]) :: y
  }

  // No node occurs twice.
  predicate Apart(t: Tree) {
    && (forall i :: 0 <= i < |t.kids| ==> Apart(t.kids[i]) && t.x !in Nodes(t.kids[i]))
    && (forall i, j :: 0 <= i < j < |t.kids| ==> Nodes(t.kids[i]) !! Nodes(t.kids[j]))
  }

  // The fields of t's own node; places 1 to n of the keys and 1 to n + 1 of the children count.
  ghost predicate NodeIs(x: BNode, t: Tree)
    reads x
  {
    && x.leaf == t.leaf && x.n == |t.keys| && |x.keys| == 2 * T + 1 && |x.childs| == 2 * T + 1
    && |t.keys| < 2 * T && |t.kids| <= 2 * T
    && (forall i :: 0 <= i < |t.keys| ==> x.keys[i + 1] == t.keys[i])
    && (forall i :: 0 <= i < |t.kids| ==> x.childs[i + 1] == t.kids[i].x)
  }

  ghost predicate Real(t: Tree)
    reads Nodes(t)
  {
    NodeIs(t.x, t) && forall i :: 0 <= i < |t.kids| ==> Real(t.kids[i])
  }

  // A tree none of whose nodes changed.
  twostate lemma {:induction false} RealStays(t: Tree)
    requires old(Real(t)) && forall n :: n in Nodes(t) ==> old(allocated(n)) && unchanged(n)
    ensures Real(t)
  {
    RootIn(t);
    forall i | 0 <= i < |t.kids| ensures Real(t.kids[i]) {
      forall n | n in Nodes(t.kids[i]) ensures old(allocated(n)) && unchanged(n) { InKid(t, i, n); }
      RealStays(t.kids[i]);
    }
  }

  /* ---- btree_split_child ---- */

  // Copies the upper keys and children of y to z.
  method CopyUpper(y: BNode, z: BNode)
    requires y != z && |y.keys| == |z.keys| == |y.childs| == |z.childs| == 2 * T + 1
    modifies z`keys, z`childs
    ensures |z.keys| == |z.childs| == 2 * T + 1
    ensures forall k :: 1 <= k < T ==> z.keys[k] == y.keys[k + T]
    ensures !y.leaf ==> forall k :: 1 <= k <= T ==> z.childs[k] == y.childs[k + T]
  {
    var j := 1;
    while j < T
      invariant 1 <= j <= T && |z.keys| == 2 * T + 1
      invariant forall k :: 1 <= k < j ==> z.keys[k] == y.keys[k + T]
      modifies z`keys
    {
      z.keys := z.keys[j := y.keys[j + T]];
      j := j + 1;
    }
    if !y.leaf {
      j := 1;
      while j <= T
        invariant 1 <= j <= T + 1 && |z.childs| == 2 * T + 1
        invariant forall k :: 1 <= k < j ==> z.childs[k] == y.childs[k + T]
        modifies z`childs
      {
        z.childs := z.childs[j := y.childs[j + T]];
        j := j + 1;
      }
    }
  }

  // Puts z at place i + 1 of the children and key at place i of the keys of x.
  method MakeRoom(x: BNode, i: nat, z: BNode, key: int)
    requires |x.keys| == |x.childs| == 2 * T + 1 && 0 <= x.n < 2 * T - 1 && 1 <= i <= x.n + 1
    modifies x`keys, x`childs, x`n
    ensures |x.keys| == |x.childs| == 2 * T + 1 && x.n == old(x.n) + 1
    ensures forall k :: 1 <= k <= x.n + 1 ==>
              x.childs[k] == if k == i + 1 then z else old(x.childs)[if k <= i then k else k - 1]
    ensures forall k :: 1 <= k <= x.n ==>
              x.keys[k] == if k == i then key else old(x.keys)[if k < i then k else k - 1]
  {
    var j := x.n + 1;
    while j >= i + 1
      invariant i <= j <= x.n + 1 && |x.childs| == 2 * T + 1
      invariant forall k :: 1 <= k <= j ==> x.childs[k] == old(x.childs)[k]
      invariant forall k :: j + 2 <= k <= x.n + 2 ==> x.childs[k] == old(x.childs)[k - 1]
      modifies x`childs
    {
      x.childs := x.childs[j + 1 := x.childs[j]];
      j := j - 1;
    }
    x.childs := x.childs[i + 1 := z];
    j := x.n;
    while j >= i
      invariant i - 1 <= j <= x.n && |x.keys| == 2 * T + 1
      invariant forall k :: 1 <= k <= j ==> x.keys[k] == old(x.keys)[k]
      invariant forall k :: j + 2 <= k <= x.n + 1 ==> x.keys[k] == old(x.keys)[k - 1]
      modifies x`keys
    {
      x.keys := x.keys[j + 1 := x.keys[j]];
      j := j - 1;
    }
    x.keys := x.keys[i := key];
    x.n := x.n + 1;
  }

  /** Cuts the full child at place i in two; the tree keeps its nodes and gets one more. */
  method SplitChild(x: BNode, i: nat, ghost t: Tree) returns (ghost t': Tree, ghost z': BNode)
    requires Real(t) && Apart(t) && t.x == x && Inner(t) && |t.keys| < 2 * T - 1
    requires 1 <= i <= |t.kids| && Full(t.kids[i - 1]) && Whole(t.kids[i - 1])
    modifies x, t.kids[i - 1].x
    ensures fresh(z') && t' == SplitKid(t, i - 1, z') && t'.x == x
    ensures Real(t') && Apart(t') && Nodes(t') == Nodes(t) + {z'}
  {
    hide Nodes, Apart, SplitKid, LeftHalf, RightHalf;
    SplitFrame(t, i - 1);
    RealParts(t);
    RealParts(t.kids[i - 1]);
    AllAllocated(t);
    var z := new BNode();
    NewNodeFrame(t, i - 1, z);
    var y: BNode := x.childs[i];
    t', z' := SplitKid(t, i - 1, z), z;
    z.leaf := y.leaf;
    z.n := T - 1;
    CopyUpper(y, z);
    y.n := T - 1;
    MakeRoom(x, i, z, y.keys[T]);
    NodesSplit(x, y, z, old(x.keys), old(x.childs), t, i - 1, t');
    forall j | 0 <= j < |t.kids| && j != i - 1 ensures Real(t.kids[j]) {
      forall n | n in Nodes(t.kids[j]) ensures old(allocated(n)) && unchanged(n) { InKid(t, j, n); }
      RealStays(t.kids[j]);
    }
    ghost var yt := t.kids[i - 1];
    forall j | 0 <= j < |yt.kids| ensures Real(yt.kids[j]) {
      forall n | n in Nodes(yt.kids[j]) ensures old(allocated(n)) && unchanged(n) { InKid(yt, j, n); InKid(t, i - 1, n); }
      RealStays(yt.kids[j]);
    }
    SplitIsReal(t, i - 1, z, t');
    SplitApart(t, i - 1, z, t');
  }

  lemma {:induction false} AllAllocated(t: Tree)
    ensures forall n :: n in Nodes(t) ==> allocated(n)
  {
    forall n | n in Nodes(t) ensures allocated(n) {
      if n != t.x {
        var i := WhichKid(t, n);
        AllAllocated(t.kids[i]);
      }
    }
  }

  lemma NewNodeFrame(t: Tree, i: nat, z: BNode)
    requires i < |t.kids| && z !in Nodes(t)
    ensures forall j :: 0 <= j < |t.kids| ==> z !in Nodes(t.kids[j])
    ensures forall j :: 0 <= j < |t.kids[i].kids| ==> z !in Nodes(t.kids[i].kids[j])
  {
    hide Nodes;
    forall j | 0 <= j < |t.kids| ensures z !in Nodes(t.kids[j]) { NotInKid(t, j, z); }
    forall j | 0 <= j < |t.kids[i].kids| ensures z !in Nodes(t.kids[i].kids[j]) { NotInKid(t.kids[i], j, z); }
  }

  lemma RealParts(t: Tree)
    requires Real(t)
    ensures NodeIs(t.x, t) && forall j :: 0 <= j < |t.kids| ==> Real(t.kids[j])
  {
  }

  // Neither the parent nor the child that is cut lies in any other part of the tree.
  lemma SplitFrame(t: Tree, i: nat)
    requires Apart(t) && i < |t.kids|
    ensures t.x in Nodes(t) && t.kids[i].x in Nodes(t) && t.x != t.kids[i].x
    ensures forall j :: 0 <= j < |t.kids| && j != i ==> t.x !in Nodes(t.kids[j]) && t.kids[i].x !in Nodes(t.kids[j])
    ensures forall j :: 0 <= j < |t.kids[i].kids| ==>
              t.x !in Nodes(t.kids[i].kids[j]) && t.kids[i].x !in Nodes(t.kids[i].kids[j])
  {
    hide Nodes, Apart;
    var y := t.kids[i];
    KidsApart(t);
    KidsApart(y);
    RootIn(t);
    RootIn(y);
    InKid(t, i, y.x);
    forall j | 0 <= j < |y.kids| ensures t.x !in Nodes(y.kids[j]) { NotInKid(y, j, t.x); }
  }

  // The fields of the three nodes after the split.
  lemma NodesSplit(x: BNode, y: BNode, z: BNode, keys: seq<int>, childs: seq<BNode?>, t: Tree, i: nat, t': Tree)
    requires Inner(t) && i < |t.kids| && |t.keys| < 2 * T - 1 && Full(t.kids[i]) && Whole(t.kids[i])
    requires t' == SplitKid(t, i, z) && x == t.x && y == t.kids[i].x
    requires !t.leaf && !x.leaf && y.leaf == t.kids[i].leaf == z.leaf
    requires |keys| == |childs| == |x.keys| == |x.childs| == |y.keys| == |y.childs| == |z.keys| == |z.childs| == 2 * T + 1
    requires x.n == |t.keys| + 1 && y.n == z.n == T - 1
    requires forall k :: 0 <= k < |t.keys| ==> keys[k + 1] == t.keys[k]
    requires forall k :: 0 <= k < |t.kids| ==> childs[k + 1] == t.kids[k].x
    requires forall k :: 0 <= k < |t.kids[i].keys| ==> y.keys[k + 1] == t.kids[i].keys[k]
    requires forall k :: 0 <= k < |t.kids[i].kids| ==> y.childs[k + 1] == t.kids[i].kids[k].x
    requires forall k :: 1 <= k < T ==> z.keys[k] == y.keys[k + T]
    requires !y.leaf ==> forall k :: 1 <= k <= T ==> z.childs[k] == y.childs[k + T]
    requires forall k :: 1 <= k <= x.n + 1 ==>
              x.childs[k] == if k == i + 2 then z else childs[if k <= i + 1 then k else k - 1]
    requires forall k :: 1 <= k <= x.n ==>
              x.keys[k] == if k == i + 1 then y.keys[T] else keys[if k < i + 1 then k else k - 1]
    ensures NodeIs(x, t') && NodeIs(y, LeftHalf(t.kids[i])) && NodeIs(z, RightHalf(t.kids[i], z))
  {
    var u := t.kids[i];
    assert u.keys[T - 1] == y.keys[T];
    forall k | 0 <= k < |t'.keys| ensures x.keys[k + 1] == t'.keys[k] { }
    forall k | 0 <= k < |t'.kids| ensures x.childs[k + 1] == t'.kids[k].x { }
  }

  lemma NotInKid(t: Tree, i: nat, n: BNode)
    requires i < |t.kids| && n !in Nodes(t)
    ensures n !in Nodes(t.kids[i])
  {
  }

  lemma SplitIsReal(t: Tree, i: nat, z: BNode, t': Tree)
    requires Inner(t) && i < |t.kids| && Full(t.kids[i]) && Whole(t.kids[i]) && t' == SplitKid(t, i, z)
    requires NodeIs(t.x, t') && NodeIs(t.kids[i].x, LeftHalf(t.kids[i])) && NodeIs(z, RightHalf(t.kids[i], z))
    requires forall j :: 0 <= j < |t.kids| && j != i ==> Real(t.kids[j])
    requires forall j :: 0 <= j < |t.kids[i].kids| ==> Real(t.kids[i].kids[j])
    ensures Real(t') && t'.x == t.x
  {
    hide NodeIs;
    var y := t.kids[i];
    var l, r := LeftHalf(y), RightHalf(y, z);
    forall j | 0 <= j < |l.kids| ensures Real(l.kids[j]) { assert l.kids[j] == y.kids[j]; }
    forall j | 0 <= j < |r.kids| ensures Real(r.kids[j]) { assert r.kids[j] == y.kids[j + T]; }
    forall j | 0 <= j < |t'.kids| ensures Real(t'.kids[j]) {
      if j < i { assert t'.kids[j] == t.kids[j]; } else if j > i + 1 { assert t'.kids[j] == t.kids[j - 1]; }
    }
  }

  lemma InKid(t: Tree, i: nat, n: BNode)
    requires i < |t.kids| && n in Nodes(t.kids[i])
    ensures n in Nodes(t)
  {
  }

  lemma WhichKid(t: Tree, n: BNode) returns (i: nat)
    requires n in Nodes(t) && n != t.x
    ensures i < |t.kids| && n in Nodes(t.kids[i])
  {
    i :| 0 <= i < |t.kids| && n in Nodes(t.kids[i]);
  }

  // h holds kids of y from place `off` on.
  predicate HoldsKids(y: Tree, h: Tree, off: nat) {
    off + |h.kids| <= |y.kids| && forall j :: 0 <= j < |h.kids| ==> h.kids[j] == y.kids[j + off]
  }

  lemma HalfNode(y: Tree, h: Tree, off: nat, n: BNode) returns (j: nat)
    requires HoldsKids(y, h, off) && n in Nodes(h) && n != h.x
    ensures off <= j < off + |h.kids| <= |y.kids| && n in Nodes(y.kids[j]) && n in Nodes(y)
  {
    hide Nodes;
    j := WhichKid(h, n);
    j := j + off;
    InKid(y, j, n);
  }

  lemma NodeInOneHalf(y: Tree, l: Tree, r: Tree, n: BNode)
    requires Apart(y) && HoldsKids(y, l, 0) && HoldsKids(y, r, |l.kids|) && l.x == y.x && r.x !in Nodes(y)
    requires n in Nodes(l)
    ensures n !in Nodes(r) && n in Nodes(y)
  {
    hide Apart, Nodes, HoldsKids;
    KidsApart(y);
    RootIn(y);
    var i: nat := 0;
    if n != y.x { i := HalfNode(y, l, 0, n); }
    if n in Nodes(r) {
      var j := HalfNode(y, r, |l.kids|, n);
    }
  }

  lemma HalvesNodes(y: Tree, l: Tree, r: Tree)
    requires Apart(y) && HoldsKids(y, l, 0) && HoldsKids(y, r, |l.kids|) && l.x == y.x && r.x !in Nodes(y)
    requires |l.kids| + |r.kids| == |y.kids|
    ensures Nodes(l) !! Nodes(r) && Nodes(l) + Nodes(r) == Nodes(y) + {r.x}
  {
    RootIn(r);
    hide Apart, Nodes;
    forall n | n in Nodes(l) ensures n in Nodes(y) && n !in Nodes(r) { NodeInOneHalf(y, l, r, n); }
    forall n | n in Nodes(r) ensures n in Nodes(y) || n == r.x {
      if n != r.x { var j := HalfNode(y, r, |l.kids|, n); }
    }
    forall n | n in Nodes(y) ensures n in Nodes(l) || n in Nodes(r) { NodeInSomeHalf(y, l, r, n); }
    PartsMakeWhole(Nodes(l), Nodes(r), Nodes(y), r.x);
  }

  lemma NodeInSomeHalf(y: Tree, l: Tree, r: Tree, n: BNode)
    requires HoldsKids(y, l, 0) && HoldsKids(y, r, |l.kids|) && l.x == y.x && |l.kids| + |r.kids| == |y.kids|
    requires n in Nodes(y)
    ensures n in Nodes(l) || n in Nodes(r)
  {
    hide Nodes, HoldsKids;
    RootIn(l);
    if n != y.x {
      var j := WhichKid(y, n);
      if j < |l.kids| { KidHeld(y, l, 0, j, n); } else { KidHeld(y, r, |l.kids|, j, n); }
    }
  }

  lemma KidHeld(y: Tree, h: Tree, off: nat, j: nat, n: BNode)
    requires HoldsKids(y, h, off) && off <= j < off + |h.kids| && n in Nodes(y.kids[j])
    ensures n in Nodes(h)
  {
    hide Nodes;
    assert h.kids[j - off] == y.kids[j];
    InKid(h, j - off, n);
  }

  lemma PartsMakeWhole(a: set<BNode>, b: set<BNode>, whole: set<BNode>, z: BNode)
    requires (forall n :: n in a ==> n in whole && n !in b) && (forall n :: n in b ==> n in whole || n == z)
    requires (forall n :: n in whole ==> n in a || n in b) && z in b
    ensures a !! b && a + b == whole + {z}
  {
  }

  lemma HalvesApart(y: Tree, z: BNode)
    requires Full(y) && Whole(y) && Apart(y) && z !in Nodes(y)
    ensures var l, r := LeftHalf(y), RightHalf(y, z);
            Apart(l) && Apart(r) && Nodes(l) !! Nodes(r) && Nodes(l) + Nodes(r) == Nodes(y) + {z}
  {
    hide Nodes;
    var l, r := LeftHalf(y), RightHalf(y, z);
    assert HoldsKids(y, l, 0) && HoldsKids(y, r, |l.kids|);
    HalvesNodes(y, l, r);
    forall j | 0 <= j < |r.kids| ensures z !in Nodes(r.kids[j]) { NotInKid(y, j + T, z); }
  }

  lemma SplitApart(t: Tree, i: nat, z: BNode, t': Tree)
    requires Inner(t) && i < |t.kids| && Full(t.kids[i]) && Whole(t.kids[i]) && t' == SplitKid(t, i, z)
    requires Apart(t) && z !in Nodes(t)
    ensures Apart(t') && Nodes(t') == Nodes(t) + {z}
  {
    hide Nodes, Apart, LeftHalf, RightHalf;
    var y := t.kids[i];
    var l, r := LeftHalf(y), RightHalf(y, z);
    KidsApart(t);
    forall j | 0 <= j < |t.kids| ensures z !in Nodes(t.kids[j]) { NotInKid(t, j, z); }
    RootIn(t);
    HalvesApart(y, z);
    SplitNodes(t, i, z, t', l, r);
    SplitKidsApart(t, i, z, t', l, r);
  }

  lemma KidsApart(t: Tree)
    requires Apart(t)
    ensures forall i :: 0 <= i < |t.kids| ==> Apart(t.kids[i]) && t.x !in Nodes(t.kids[i])
    ensures forall i, j :: 0 <= i < |t.kids| && 0 <= j < |t.kids| && i != j ==> Nodes(t.kids[i]) !! Nodes(t.kids[j])
  {
  }

  lemma SplitKidsApart(t: Tree, i: nat, z: BNode, t': Tree, l: Tree, r: Tree)
    requires i < |t.kids| && t'.x == t.x && t'.kids == t.kids[..i] + [l, r] + t.kids[i + 1..]
    requires Apart(t) && Apart(l) && Apart(r) && Nodes(l) !! Nodes(r) && Nodes(l) + Nodes(r) == Nodes(t.kids[i]) + {z}
    requires t.x != z && forall j :: 0 <= j < |t.kids| ==> z !in Nodes(t.kids[j])
    ensures Apart(t')
  {
    KidsApart(t);
    hide Nodes;
    forall a | 0 <= a < |t'.kids| ensures Apart(t'.kids[a]) && t'.x !in Nodes(t'.kids[a]) {
      SplitKidFrom(t, i, z, t', l, r, a);
    }
    forall a, b | 0 <= a < b < |t'.kids| ensures Nodes(t'.kids[a]) !! Nodes(t'.kids[b]) {
      SplitKidFrom(t, i, z, t', l, r, a);
      SplitKidFrom(t, i, z, t', l, r, b);
    }
  }

  // Each child of the split node is a half of the old child i, or another old child.
  lemma SplitKidFrom(t: Tree, i: nat, z: BNode, t': Tree, l: Tree, r: Tree, a: nat)
    requires i < |t.kids| && t'.x == t.x && t'.kids == t.kids[..i] + [l, r] + t.kids[i + 1..] && a < |t'.kids|
    requires Nodes(l) + Nodes(r) == Nodes(t.kids[i]) + {z}
    ensures t'.kids[a] == if a < i then t.kids[a] else if a == i then l else if a == i + 1 then r else t.kids[a - 1]
    ensures a == i || a == i + 1 ==> Nodes(t'.kids[a]) <= Nodes(t.kids[i]) + {z}
  {
  }

  lemma RootIn(t: Tree)
    ensures t.x in Nodes(t)
  {
  }

  lemma SplitNodes(t: Tree, i: nat, z: BNode, t': Tree, l: Tree, r: Tree)
    requires i < |t.kids| && t'.x == t.x && t'.kids == t.kids[..i] + [l, r] + t.kids[i + 1..]
    requires Nodes(l) + Nodes(r) == Nodes(t.kids[i]) + {z}
    ensures Nodes(t') == Nodes(t) + {z}
  {
    hide Nodes;
    forall n | n in Nodes(t') ensures n in Nodes(t) + {z} { SplitNode(t, i, z, t', l, r, n); }
    forall n | n in Nodes(t) + {z} ensures n in Nodes(t') { SplitNodeBack(t, i, z, t', l, r, n); }
  }

  lemma SplitNode(t: Tree, i: nat, z: BNode, t': Tree, l: Tree, r: Tree, n: BNode)
    requires i < |t.kids| && t'.x == t.x && t'.kids == t.kids[..i] + [l, r] + t.kids[i + 1..]
    requires Nodes(l) + Nodes(r) == Nodes(t.kids[i]) + {z} && n in Nodes(t')
    ensures n in Nodes(t) + {z}
  {
    hide Nodes;
    RootIn(t);
    if n != t.x && n != z {
      var j := WhichKid(t', n);
      var k := if j <= i then j else j - 1;
      if j == i { assert t'.kids[j] == l; } else if j == i + 1 { assert t'.kids[j] == r; } else { assert t'.kids[j] == t.kids[k]; }
      InKid(t, k, n);
    }
  }

  lemma SplitNodeBack(t: Tree, i: nat, z: BNode, t': Tree, l: Tree, r: Tree, n: BNode)
    requires i < |t.kids| && t'.x == t.x && t'.kids == t.kids[..i] + [l, r] + t.kids[i + 1..]
    requires Nodes(l) + Nodes(r) == Nodes(t.kids[i]) + {z} && n in Nodes(t) + {z}
    ensures n in Nodes(t')
  {
    hide Nodes;
    RootIn(t');
    if n in Nodes(l) {
      assert t'.kids[i] == l;
      InKid(t', i, n);
    } else if n in Nodes(r) {
      assert t'.kids[i + 1] == r;
      InKid(t', i + 1, n);
    } else if n != t.x {
      var j := WhichKid(t, n);
      var k := if j < i then j else j + 1;
      assert t'.kids[k] == t.kids[j];
      InKid(t', k, n);
    }
  }

  /* ---- btree_insert_nonfull ---- */

  // Shifts the larger keys of a leaf and puts key before them.
  method InsertInLeaf(p: BNode, key: int, ghost t: Tree)
    requires NodeIs(p, t) && t.leaf && t.kids == [] && |t.keys| < 2 * T - 1 && Sorted(t.keys)
    modifies p`keys, p`n
    ensures NodeIs(p, t.(keys := Placed(t.keys, key)))
  {
    var i := p.n;
    while i >= 1 && key < p.keys[i]
      invariant 0 <= i <= p.n && |p.keys| == 2 * T + 1
      invariant forall k :: 1 <= k <= i ==> p.keys[k] == t.keys[k - 1]
      invariant forall k :: i + 2 <= k <= p.n + 1 ==> p.keys[k] == t.keys[k - 2]
      invariant i < p.n ==> key < t.keys[i]
      modifies p`keys
    {
      p.keys := p.keys[i + 1 := p.keys[i]];
      i := i - 1;
    }
    p.keys := p.keys[i + 1 := key];
    p.n := p.n + 1;
    Inserted(t.keys, i, key);
  }

  lemma Inserted(s: seq<int>, i: nat, key: int)
    requires i <= |s| && Sorted(s) && (i > 0 ==> s[i - 1] <= key) && (i < |s| ==> key < s[i])
    ensures Placed(s, key) == s[..i] + [key] + s[i..]
  {
    assert s == s[..i] + s[i..];
    PlacedLast(s[..i], s[i..], key);
  }

  // What holds of the tree below a node, and what inserting a key makes of it.
  ghost predicate Sound(t: Tree, d: nat, isRoot: bool)
    reads Nodes(t)
  {
    Real(t) && Apart(t) && Shape(t, d, isRoot) && Sorted(Flat(t))
  }

  method InsertNonFull(p: BNode, key: int, ghost t: Tree, ghost d: nat, ghost isRoot: bool) returns (ghost t': Tree)
    requires Sound(t, d, isRoot) && t.x == p && !Full(t)
    modifies Nodes(t)
    ensures Sound(t', d, isRoot) && t'.x == p && fresh(Nodes(t') - Nodes(t))
    ensures Flat(t') == Placed(Flat(t), key)
    decreases d, 0
  {
    RootIn(t);
    if p.leaf {
      InsertInLeaf(p, key, t);
      t' := t.(keys := Placed(t.keys, key));
      PlacedSorted(t.keys, key);
      LeafGrows(t, key, d, isRoot);
    } else {
      t' := InsertInner(p, key, t, d, isRoot);
    }
  }

  lemma LeafGrows(t: Tree, key: int, d: nat, isRoot: bool)
    requires t.leaf && Shape(t, d, isRoot) && !Full(t)
    ensures var u := t.(keys := Placed(t.keys, key));
            Shape(u, d, isRoot) && Flat(u) == Placed(Flat(t), key) && Nodes(u) == Nodes(t) && Apart(u)
  {
    PlacedCount(t.keys, key);
    assert |multiset(Placed(t.keys, key))| == |multiset(t.keys)| + 1;
  }

  method InsertInner(p: BNode, key: int, ghost t: Tree, ghost d: nat, ghost isRoot: bool) returns (ghost t': Tree)
    requires Sound(t, d, isRoot) && t.x == p && !t.leaf && d > 0 && !Full(t)
    modifies Nodes(t)
    ensures Sound(t', d, isRoot) && t'.x == p && fresh(Nodes(t') - Nodes(t))
    ensures Flat(t') == Placed(Flat(t), key)
    decreases d - 1, 2
  {
    hide Nodes, Apart, Flat, Real, SplitKid, Sorted, Shape;
    ShapeParts(t, d, isRoot);
    RealParts(t);
    RootIn(t);
    var i := p.n;
    while i >= 1 && key < p.keys[i]
      invariant 0 <= i <= p.n && (i < p.n ==> key < t.keys[i])
    {
      i := i - 1;
    }
    i := i + 1;
    ghost var u;
    i, u := SplitIfFull(p, key, i, t, d, isRoot);
    ghost var all := Nodes(u);
    t' := InsertKid(p, i, key, u, d, isRoot);
    assert Nodes(t') - Nodes(t) <= (Nodes(t') - all) + (all - Nodes(t));
  }

  // Makes room in child i, and tells which child the key goes to.
  method SplitIfFull(p: BNode, key: int, i0: nat, ghost t: Tree, ghost d: nat, ghost isRoot: bool) returns (i: nat, ghost u: Tree)
    requires Sound(t, d, isRoot) && t.x == p && !t.leaf && d > 0 && Inner(t) && !Full(t)
    requires 1 <= i0 <= |t.kids| && GoesTo(t, i0 - 1, key)
    modifies Nodes(t)
    ensures Sound(u, d, isRoot) && u.x == p && !u.leaf && Inner(u) && Flat(u) == Flat(t)
    ensures 1 <= i <= |u.kids| && GoesTo(u, i - 1, key) && !Full(u.kids[i - 1]) && fresh(Nodes(u) - Nodes(t))
  {
    hide Nodes, Apart, Flat, Real, SplitKid, Sorted, Shape;
    i, u := i0, t;
    ShapeParts(t, d, isRoot);
    RealParts(t);
    RootIn(t);
    RealParts(t.kids[i - 1]);
    if p.childs[i].n == 2 * T - 1 {
      SplitFrame(t, i - 1);
      ghost var z;
      u, z := SplitChild(p, i, t);
      RealParts(u);
      SplitIsSound(t, i - 1, z, u, d, isRoot, key);
      ShapeParts(u, d, isRoot);
      if key > p.keys[i] { i := i + 1; }
    }
  }

  lemma ShapeParts(t: Tree, d: nat, isRoot: bool)
    requires Shape(t, d, isRoot) && !t.leaf
    ensures d > 0 && Inner(t) && forall j :: 0 <= j < |t.kids| ==> Shape(t.kids[j], d - 1, false) && Whole(t.kids[j])
  {
  }

  // After the split the key goes to one of the halves, which has room.
  lemma SplitIsSound(t: Tree, i: nat, z: BNode, u: Tree, d: nat, isRoot: bool, key: int)
    requires Shape(t, d, isRoot) && Sorted(Flat(t)) && !t.leaf && !Full(t) && i < |t.kids| && Full(t.kids[i])
    requires Inner(t) && Whole(t.kids[i]) && u == SplitKid(t, i, z) && GoesTo(t, i, key)
    ensures Shape(u, d, isRoot) && Flat(u) == Flat(t) && Inner(u) && !u.leaf
    ensures i < |u.keys| && i + 1 < |u.kids| && !Full(u.kids[i]) && !Full(u.kids[i + 1])
    ensures if key > u.keys[i] then GoesTo(u, i + 1, key) else GoesTo(u, i, key)
  {
    hide Flat, Sorted;
    ShapeParts(t, d, isRoot);
    SplitShape(t, i, z, d, isRoot);
    SplitFlat(t, i, z);
  }

  method InsertKid(p: BNode, i: nat, key: int, ghost u: Tree, ghost d: nat, ghost isRoot: bool) returns (ghost t': Tree)
    requires Sound(u, d, isRoot) && u.x == p && !u.leaf && Inner(u) && d > 0
    requires 1 <= i <= |u.kids| && GoesTo(u, i - 1, key) && !Full(u.kids[i - 1])
    modifies Nodes(u)
    ensures Sound(t', d, isRoot) && t'.x == p && fresh(Nodes(t') - Nodes(u))
    ensures Flat(t') == Placed(Flat(u), key)
    decreases d - 1, 1
  {
    hide Nodes, Apart, Flat, Real, Sorted, Shape;
    ghost var c := u.kids[i - 1];
    RealParts(u);
    ShapeParts(u, d, isRoot);
    KidsApart(u);
    KidSorted(u, i - 1);
    AllAllocated(u);
    forall n | n in Nodes(c) ensures n in Nodes(u) { InKid(u, i - 1, n); }
    RootIn(u);
    ghost var c' := InsertNonFull(p.childs[i], key, c, d - 1, false);
    t' := WithKid(u, i - 1, c');
    assert unchanged(p);
    forall j | 0 <= j < |u.kids| && j != i - 1 ensures Real(u.kids[j]) {
      forall n | n in Nodes(u.kids[j]) ensures old(allocated(n)) && unchanged(n) { InKid(u, j, n); }
      RealStays(u.kids[j]);
    }
    KidReplaced(u, i - 1, c', t');
    forall n | n in Nodes(c') ensures n in Nodes(c) || n !in Nodes(u) { }
    KidApart(u, i - 1, c', t');
    WithKidShape(u, i - 1, c', d, isRoot);
    InsertBelow(u, i - 1, c', key);
    PlacedSorted(Flat(u), key);
  }

  lemma KidReplaced(u: Tree, i: nat, c: Tree, t': Tree)
    requires i < |u.kids| && t' == WithKid(u, i, c) && c.x == u.kids[i].x && NodeIs(u.x, u) && Real(c)
    requires forall j :: 0 <= j < |u.kids| && j != i ==> Real(u.kids[j])
    ensures Real(t')
  {
    forall j | 0 <= j < |t'.kids| ensures Real(t'.kids[j]) { }
    assert NodeIs(t'.x, t');
  }

  // The new child has nodes of the old one and nodes from outside the tree.
  lemma KidApart(u: Tree, i: nat, c: Tree, t': Tree)
    requires i < |u.kids| && t' == WithKid(u, i, c) && Apart(u) && Apart(c)
    requires forall n :: n in Nodes(c) ==> n in Nodes(u.kids[i]) || n !in Nodes(u)
    ensures Apart(t') && forall n :: n in Nodes(t') ==> n in Nodes(u) || n in Nodes(c)
  {
    hide Nodes;
    KidsApart(u);
    RootIn(u);
    forall j, n | 0 <= j < |u.kids| && n in Nodes(u.kids[j]) ensures n in Nodes(u) { InKid(u, j, n); }
    assert u.x !in Nodes(c);
    forall a, b | 0 <= a < b < |t'.kids| ensures Nodes(t'.kids[a]) !! Nodes(t'.kids[b]) {
      assert Nodes(u.kids[a]) !! Nodes(u.kids[b]);
    }
    forall a | 0 <= a < |t'.kids| ensures Apart(t'.kids[a]) && t'.x !in Nodes(t'.kids[a]) {
      assert Apart(u.kids[a]) && u.x !in Nodes(u.kids[a]);
    }
    forall n | n in Nodes(t') ensures n in Nodes(u) || n in Nodes(c) {
      if n != t'.x {
        var j := WhichKid(t', n);
        assert n in Nodes(if j == i then c else u.kids[j]);
      }
    }
  }

  /* ---- btree_insert ---- */

  method CopyNode(p: BNode, ghost t: Tree) returns (node: BNode)
    requires NodeIs(p, t) && |t.keys| <= 2 * T - 1 && Whole(t)
    ensures fresh(node) && NodeIs(node, t.(x := node))
  {
    node := new BNode();
    node.n := p.n;
    node.leaf := p.leaf;
    var i := 1;
    while i <= node.n
      invariant 1 <= i <= node.n + 1 && |node.keys| == 2 * T + 1
      invariant forall k :: 1 <= k < i ==> node.keys[k] == p.keys[k]
      modifies node`keys
    {
      node.keys := node.keys[i := p.keys[i]];
      i := i + 1;
    }
    i := 1;
    while i <= node.n + 1
      invariant 1 <= i <= node.n + 2 && |node.childs| == 2 * T + 1
      invariant forall k :: 1 <= k < i ==> node.childs[k] == p.childs[k]
      modifies node`childs
    {
      node.childs := node.childs[i := p.childs[i]];
      i := i + 1;
    }
  }

  class Root {
    var root: BNode
    ghost var tree: Tree
    ghost var depth: nat

    ghost predicate Valid()
      reads this, Nodes(tree)
    {
      tree.x == root && Sound(tree, depth, true)
    }

    constructor ()
      ensures Valid() && Flat(tree) == []
    {
      var node := new BNode();
      root, tree, depth := node, N(node, true, [], []), 0;
    }

    /** The keys in order grow by key; the depth grows by one when the root was full. */
    method Insert(key: int)
      requires Valid()
      modifies this, Nodes(tree)
      ensures Valid() && Flat(tree) == Placed(old(Flat(tree)), key)
      ensures depth == old(if Full(tree) then depth + 1 else depth)
    {
      hide Nodes, Apart, Flat, Real, Sorted, Shape, SplitKid;
      RealParts(tree);
      if root.n == 2 * T - 1 {
        var node, w := NewRoot();
        root := node;
        ghost var u, z := SplitChild(node, 1, w);
        RootSplit(w, z, u, depth + 1);
        RealParts(u);
        depth := depth + 1;
        tree := InsertNonFull(node, key, u, depth, true);
      } else {
        tree := InsertNonFull(root, key, tree, depth, true);
      }
    }

    // A copy of the root below a new node without keys.
    method NewRoot() returns (node: BNode, ghost w: Tree)
      requires Valid() && Full(tree)
      ensures fresh(node) && w.x == node && Real(w) && Apart(w) && Inner(w) && w.keys == [] && fresh(Nodes(w) - Nodes(tree))
      ensures fresh(w.kids[0].x) && w.kids[0].keys == tree.keys && Whole(w.kids[0]) && Shape(w.kids[0], depth, false) && Flat(w) == Flat(tree)
    {
      hide Sorted, Flat, Apart, Nodes;
      RealParts(tree);
      AllAllocated(tree);
      RootIn(tree);
      var oldRoot := CopyNode(root, tree);
      node := new BNode();
      node.leaf := false;
      node.n := 0;
      node.childs := node.childs[1 := oldRoot];
      ghost var copy := tree.(x := oldRoot);
      w := N(node, false, [], [copy]);
      forall j | 0 <= j < |copy.kids| ensures Real(copy.kids[j]) {
        forall n | n in Nodes(tree.kids[j]) ensures old(allocated(n)) && unchanged(n) { InKid(tree, j, n); }
        RealStays(tree.kids[j]);
      }
      assert NodeIs(oldRoot, copy);
      assert Real(copy);
      assert NodeIs(node, w);
      CopyApart(tree, oldRoot, copy);
      WrapApart(copy, node, w);
      WrapFlat(tree, copy, w);
    }
  }

  lemma CopyApart(t: Tree, x: BNode, copy: Tree)
    requires Apart(t) && x !in Nodes(t) && copy == t.(x := x)
    ensures Apart(copy) && Nodes(copy) <= Nodes(t) + {x}
  {
    forall j | 0 <= j < |copy.kids| ensures x !in Nodes(copy.kids[j]) { NotInKid(t, j, x); }
  }

  lemma WrapApart(copy: Tree, node: BNode, w: Tree)
    requires Apart(copy) && node !in Nodes(copy) && w.x == node && w.kids == [copy]
    ensures Apart(w) && Nodes(w) == Nodes(copy) + {node}
  {
    assert forall j :: 0 <= j < |w.kids| ==> w.kids[j] == copy;
    forall n | n in Nodes(copy) ensures n in Nodes(w) {
      assert w.kids[0] == copy;
      InKid(w, 0, n);
    }
  }

  lemma WrapFlat(t: Tree, copy: Tree, w: Tree)
    requires copy.leaf == t.leaf && copy.keys == t.keys && copy.kids == t.kids && !w.leaf && w.keys == [] && w.kids == [copy]
    ensures Flat(copy) == Flat(t) && Flat(w) == Flat(t)
  {
    FlatFrom(copy, t, 1);
    assert Flat(copy) == Flat(t);
    assert FlatAfter(w, 1) == [];
  }

  lemma {:induction false} FlatFrom(a: Tree, b: Tree, i: nat)
    requires a.keys == b.keys && a.kids == b.kids
    ensures FlatAfter(a, i) == FlatAfter(b, i)
    decreases |a.kids| - i
  {
    if 1 <= i <= |a.keys| && i < |a.kids| { FlatFrom(a, b, i + 1); }
  }

  // The split of the only child makes a root.
  lemma RootSplit(w: Tree, z: BNode, u: Tree, d: nat)
    requires d > 0 && Inner(w) && w.keys == [] && Full(w.kids[0]) && Shape(w.kids[0], d - 1, false)
    requires Whole(w.kids[0]) && u == SplitKid(w, 0, z)
    ensures Shape(u, d, true) && Flat(u) == Flat(w) && !Full(u)
  {
    SplitShape(w, 0, z, d, true);
    SplitFlat(w, 0, z);
  }
}
