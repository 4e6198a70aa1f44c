/** B-trees as values: shape, order, and what splitting a child and inserting a key do to them. */
module BTreeShape {
  import opened Collections

  // MAX_NODE_KEY: nodes but the root hold T - 1 to 2 T - 1 keys.
  const T: nat := 2

  class BNode {
    var leaf: bool
    var n: int
    var keys: seq<int>
    var childs: seq<BNode?>

    constructor ()
      ensures leaf && n == 0 && |keys| == 2 * T + 1 && |childs| == 2 * T + 1
    {
      leaf, n := true, 0;
      keys := seq(2 * T + 1, _ => 0);
      childs := seq(2 * T + 1, _ => null);
    }
  }

  // A tree together with the nodes that hold it.
  datatype Tree = N(x: BNode, leaf: bool, keys: seq<int>, kids: seq<Tree>)

  /* ---- shape ---- */

  // Every leaf lies d levels down, and every node below the root holds at least T - 1 keys.
  predicate Shape(t: Tree, d: nat, isRoot: bool)
    decreases d
  {
    && |t.keys| <= 2 * T - 1 && (!isRoot ==> |t.keys| >= T - 1)
    && (t.leaf <==> d == 0)
    && (if t.leaf then t.kids == [] else
          |t.kids| == |t.keys| + 1 && t.keys != [] && forall i :: 0 <= i < |t.kids| ==> Shape(t.kids[i], d - 1, false))
  }

  /* ---- contents ---- */

  // Kids and keys in turn, from the left.
  function Flat(t: Tree): seq<int>
    decreases t, 0
  {
    if t.leaf || t.kids == [] then t.keys else Flat(t.kids[0]) + FlatAfter(t, 1)
  }

  // What stands from the key before kid i on.
  function FlatAfter(t: Tree, i: nat): seq<int>
    decreases t, 0, |t.kids| - i
  {
    if 1 <= i <= |t.keys| && i < |t.kids| then [t.keys[i - 1]] + Flat(t.kids[i]) + FlatAfter(t, i + 1) else []
  }

  // What stands before kid i.
  function FlatBefore(t: Tree, i: nat): seq<int>
    requires i <= |t.keys| && i <= |t.kids|
    decreases t, 0, i
  {
    if i == 0 then [] else FlatBefore(t, i - 1) + Flat(t.kids[i - 1]) + [t.keys[i - 1]]
  }

  predicate Inner(t: Tree) { !t.leaf && |t.kids| == |t.keys| + 1 }

  lemma {:induction false} FlatAt(t: Tree, i: nat)
    requires Inner(t) && i < |t.kids|
    ensures Flat(t) == FlatBefore(t, i) + Flat(t.kids[i]) + FlatAfter(t, i + 1)
  {
    if i > 0 {
      FlatAt(t, i - 1);
      Regroup(FlatBefore(t, i - 1), Flat(t.kids[i - 1]), [t.keys[i - 1]], Flat(t.kids[i]), FlatAfter(t, i + 1));
    } else {
      assert FlatBefore(t, 0) == [];
    }
  }

  // Trees that agree around place i.
  lemma {:induction false} SameBefore(t: Tree, u: Tree, i: nat)
    requires i <= |t.keys| && i <= |t.kids| && i <= |u.keys| && i <= |u.kids|
    requires forall j :: 0 <= j < i ==> t.kids[j] == u.kids[j] && t.keys[j] == u.keys[j]
    ensures FlatBefore(t, i) == FlatBefore(u, i)
  {
    if i > 0 { SameBefore(t, u, i - 1); }
  }

  lemma {:induction false} SameAfter(t: Tree, i: nat, u: Tree, off: int)
    requires Inner(t) && Inner(u) && 1 <= i <= |t.kids| && 1 <= i + off && |t.kids| + off == |u.kids|
    requires forall j :: i <= j < |t.kids| ==> t.kids[j] == u.kids[j + off]
    requires forall j :: i - 1 <= j < |t.keys| ==> t.keys[j] == u.keys[j + off]
    ensures FlatAfter(t, i) == FlatAfter(u, i + off)
    decreases |t.kids| - i
  {
    if i < |t.kids| { SameAfter(t, i + 1, u, off); }
  }

  /* ---- sorted lists ---- */

  predicate Sorted(s: seq<int>) { forall i, j :: 0 <= i < j < |s| ==> s[i] <= s[j] }

  // s with key put where it belongs.
  function Placed(s: seq<int>, key: int): seq<int> {
    if s == [] || key < s[0] then [key] + s else [s[0]] + Placed(s[1..], key)
  }

  lemma {:induction false} PlacedCount(s: seq<int>, key: int)
    ensures multiset(Placed(s, key)) == multiset(s) + multiset{key}
  {
    if s != [] && key >= s[0] {
      PlacedCount(s[1..], key);
      assert s == [s[0]] + s[1..];
    }
  }

  predicate AtLeast(s: seq<int>, key: int) { forall i :: 0 <= i < |s| ==> key <= s[i] }

  predicate AtMost(s: seq<int>, key: int) { forall i :: 0 <= i < |s| ==> s[i] <= key }

  lemma {:induction false} PlacedSorted(s: seq<int>, key: int)
    requires Sorted(s)
    ensures Sorted(Placed(s, key))
    ensures forall low :: low <= key && AtLeast(s, low) ==> AtLeast(Placed(s, key), low)
  {
    if s != [] && key >= s[0] {
      PlacedSorted(s[1..], key);
      assert AtLeast(s[1..], s[0]);
      assert AtLeast(Placed(s[1..], key), s[0]);
    }
  }

  // What is at least key stays behind it: equal keys cannot be told apart.
  lemma {:induction false} PlacedInFront(m: seq<int>, b: seq<int>, key: int)
    requires AtLeast(b, key)
    ensures Placed(m + b, key) == Placed(m, key) + b
    decreases |m| + |b|
  {
    var s := m + b;
    if m != [] {
      assert s[0] == m[0] && s[1..] == m[1..] + b;
      PlacedInFront(m[1..], b, key);
    } else if b != [] && key >= b[0] {
      assert s == b && b[0] == key;
      PlacedInFront([], b[1..], key);
      assert [] + b[1..] == b[1..] && b == [key] + b[1..];
    } else {
      assert s == b;
    }
  }

  // What is at most key stays before it.
  lemma {:induction false} PlacedBetween(a: seq<int>, m: seq<int>, b: seq<int>, key: int)
    requires AtMost(a, key) && AtLeast(b, key)
    ensures Placed(a + m + b, key) == a + Placed(m, key) + b
    decreases |a|
  {
    if a == [] {
      PlacedInFront(m, b, key);
      assert a + m + b == m + b && a + Placed(m, key) + b == Placed(m, key) + b;
    } else {
      var s := a + m + b;
      assert s[0] == a[0] && s[1..] == a[1..] + m + b;
      PlacedBetween(a[1..], m, b, key);
      assert a == [a[0]] + a[1..];
    }
  }

  lemma PlacedLast(a: seq<int>, b: seq<int>, key: int)
    requires AtMost(a, key) && (b == [] || key < b[0])
    ensures Placed(a + b, key) == a + [key] + b
    decreases |a|
  {
    if a == [] {
      assert a + b == b && a + [key] + b == [key] + b;
    } else {
      assert (a + b)[0] == a[0] && (a + b)[1..] == a[1..] + b;
      PlacedLast(a[1..], b, key);
      assert a == [a[0]] + a[1..];
    }
  }

  /* ---- splitting a full child ---- */

  predicate Full(t: Tree) { |t.keys| == 2 * T - 1 }

  predicate Whole(t: Tree) { if t.leaf then t.kids == [] else Inner(t) }

  function LeftHalf(y: Tree): Tree
    requires Full(y) && Whole(y)
  {
    y.(keys := y.keys[..T - 1], kids := if y.leaf then [] else y.kids[..T])
  }

  function RightHalf(y: Tree, z: BNode): Tree
    requires Full(y) && Whole(y)
  {
    N(z, y.leaf, y.keys[T..], if y.leaf then [] else y.kids[T..])
  }

  // Child i of t, which is full, is cut in two around its middle key.
  function SplitKid(t: Tree, i: nat, z: BNode): Tree
    requires Inner(t) && i < |t.kids| && Full(t.kids[i]) && Whole(t.kids[i])
  {
    var y := t.kids[i];
    t.(keys := t.keys[..i] + [y.keys[T - 1]] + t.keys[i..],
       kids := t.kids[..i] + [LeftHalf(y), RightHalf(y, z)] + t.kids[i + 1..])
  }

  lemma HalvesFlat(y: Tree, z: BNode)
    requires Full(y) && Whole(y)
    ensures Flat(y) == Flat(LeftHalf(y)) + [y.keys[T - 1]] + Flat(RightHalf(y, z))
  {
    var l, r := LeftHalf(y), RightHalf(y, z);
    if y.leaf {
      assert y.keys == y.keys[..T - 1] + [y.keys[T - 1]] + y.keys[T..];
    } else {
      InnerHalvesFlat(y, l, r);
    }
  }

  lemma InnerHalvesFlat(y: Tree, l: Tree, r: Tree)
    requires Full(y) && Inner(y) && l == LeftHalf(y) && r == RightHalf(y, r.x)
    ensures Flat(y) == Flat(l) + [y.keys[T - 1]] + Flat(r)
  {
    hide FlatBefore, FlatAfter, Flat;
    FlatAt(y, T - 1);
    FlatAt(l, T - 1);
    FlatAt(r, 0);
    SameBefore(y, l, T - 1);
    SameAfter(y, T + 1, r, 0 - T);
    Ends(l, T);
    Ends(r, 0);
    NextAfter(y, T);
    Cut(Flat(y), Flat(l), Flat(r), FlatBefore(y, T - 1), Flat(y.kids[T - 1]), [y.keys[T - 1]], Flat(y.kids[T]), FlatAfter(y, T + 1));
  }

  lemma Cut(fy: seq<int>, fl: seq<int>, fr: seq<int>, a: seq<int>, b: seq<int>, m: seq<int>, c: seq<int>, e: seq<int>)
    requires fy == a + b + (m + c + e) && fl == a + b + [] && fr == [] + c + e
    ensures fy == fl + m + fr
  {
  }

  lemma Ends(t: Tree, k: nat)
    ensures FlatBefore(t, 0) == [] && (k == |t.kids| ==> FlatAfter(t, k) == [])
  {
  }

  lemma NextAfter(t: Tree, i: nat)
    requires Inner(t) && 1 <= i < |t.kids|
    ensures FlatAfter(t, i) == [t.keys[i - 1]] + Flat(t.kids[i]) + FlatAfter(t, i + 1)
  {
  }

  /** Splitting a child does not touch the contents. */
  lemma SplitFlat(t: Tree, i: nat, z: BNode)
    requires Inner(t) && i < |t.kids| && Full(t.kids[i]) && Whole(t.kids[i])
    ensures Inner(SplitKid(t, i, z)) && Flat(SplitKid(t, i, z)) == Flat(t)
  {
    hide Flat, FlatBefore;
    var u, y := SplitKid(t, i, z), t.kids[i];
    var l, r := LeftHalf(y), RightHalf(y, z);
    FlatAt(t, i);
    FlatAt(u, i);
    SameBefore(t, u, i);
    SameAfter(t, i + 1, u, 1);
    HalvesFlat(y, z);
    assert FlatAfter(u, i + 1) == [y.keys[T - 1]] + Flat(r) + FlatAfter(u, i + 2);
    Regroup(FlatBefore(t, i), Flat(l), [y.keys[T - 1]], Flat(r), FlatAfter(t, i + 1));
    assert FlatBefore(t, i) + (Flat(l) + [y.keys[T - 1]] + Flat(r)) + FlatAfter(t, i + 1)
        == (FlatBefore(t, i) + Flat(l) + [y.keys[T - 1]]) + Flat(r) + FlatAfter(t, i + 1);
  }

  lemma HalvesShape(y: Tree, z: BNode, d: nat)
    requires Shape(y, d, false) && Full(y)
    ensures Whole(y) && Shape(LeftHalf(y), d, false) && Shape(RightHalf(y, z), d, false)
  {
  }

  // Splitting keeps the shape of a parent with room, and makes a root of a node that has one child only.
  lemma SplitShape(t: Tree, i: nat, z: BNode, d: nat, isRoot: bool)
    requires d > 0 && Inner(t) && i < |t.kids| && Full(t.kids[i]) && |t.keys| < 2 * T - 1
    requires isRoot || |t.keys| >= T - 1
    requires forall j :: 0 <= j < |t.kids| ==> Shape(t.kids[j], d - 1, false)
    ensures Whole(t.kids[i]) && Shape(SplitKid(t, i, z), d, isRoot)
  {
    HalvesShape(t.kids[i], z, d - 1);
    var u := SplitKid(t, i, z);
    forall j | 0 <= j < |u.kids| ensures Shape(u.kids[j], d - 1, false) {
      if j < i { assert u.kids[j] == t.kids[j]; } else if j > i + 1 { assert u.kids[j] == t.kids[j - 1]; }
    }
  }

  /* ---- inserting below ---- */

  function WithKid(t: Tree, i: nat, c: Tree): Tree
    requires i < |t.kids|
  {
    t.(kids := t.kids[i := c])
  }

  // The key goes below child i: it lies between the keys around it.
  predicate GoesTo(t: Tree, i: nat, key: int)
    requires Inner(t)
  {
    i < |t.kids| && (i > 0 ==> t.keys[i - 1] <= key) && (i < |t.keys| ==> key <= t.keys[i])
  }

  /** Inserting into the right child inserts into the tree. */
  lemma InsertBelow(t: Tree, i: nat, c: Tree, key: int)
    requires Inner(t) && GoesTo(t, i, key) && Sorted(Flat(t)) && Flat(c) == Placed(Flat(t.kids[i]), key)
    ensures Flat(WithKid(t, i, c)) == Placed(Flat(t), key)
  {
    hide Flat, FlatBefore, FlatAfter, Placed, Sorted, AtMost, AtLeast;
    var u := WithKid(t, i, c);
    var a, m, b := FlatBefore(t, i), Flat(t.kids[i]), FlatAfter(t, i + 1);
    FlatAt(t, i);
    FlatAt(u, i);
    SameBefore(t, u, i);
    SameAfter(t, i + 1, u, 0);
    KeysAround(t, i);
    Between(a, m, b, key);
    PlacedBetween(a, m, b, key);
  }

  lemma KeysAround(t: Tree, i: nat)
    requires Inner(t) && i < |t.kids|
    ensures var a, b := FlatBefore(t, i), FlatAfter(t, i + 1);
            (i > 0 ==> a != [] && a[|a| - 1] == t.keys[i - 1]) && (i == 0 ==> a == []) &&
            (i < |t.keys| ==> b != [] && b[0] == t.keys[i]) && (i == |t.keys| ==> b == [])
  {
  }

  lemma Between(a: seq<int>, m: seq<int>, b: seq<int>, key: int)
    requires Sorted(a + m + b)
    requires a == [] || a[|a| - 1] <= key
    requires b == [] || key <= b[0]
    ensures AtMost(a, key) && AtLeast(b, key)
  {
    var s := a + m + b;
    forall i | 0 <= i < |a| ensures a[i] <= key { assert s[i] == a[i] && s[|a| - 1] == a[|a| - 1]; }
    var k := |a| + |m|;
    forall i | 0 <= i < |b| ensures key <= b[i] { assert s[k + i] == b[i] && s[k] == b[0]; }
  }

  // A child's contents are sorted when the whole is.
  lemma KidSorted(t: Tree, i: nat)
    requires Inner(t) && i < |t.kids| && Sorted(Flat(t))
    ensures Sorted(Flat(t.kids[i]))
  {
    FlatAt(t, i);
    var a, m, s := FlatBefore(t, i), Flat(t.kids[i]), Flat(t);
    forall j, k | 0 <= j < k < |m| ensures m[j] <= m[k] { assert s[|a| + j] == m[j] && s[|a| + k] == m[k]; }
  }

  lemma WithKidShape(t: Tree, i: nat, c: Tree, d: nat, isRoot: bool)
    requires Shape(t, d, isRoot) && d > 0 && i < |t.kids| && Shape(c, d - 1, false)
    ensures Shape(WithKid(t, i, c), d, isRoot)
  {
  }
}
