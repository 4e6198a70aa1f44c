/** The heap order on a sequence of priorities, and what one sift step does to it. */
module NsqHeap {

  function Parent(k: nat): nat
    requires k > 0
  {
    (k - 1) / 2
  }

  function Exchanged<T>(s: seq<T>, i: nat, j: nat): seq<T>
    requires i < |s| && j < |s|
  {
    s[i := s[j]][j := s[i]]
  }

  // Place k is not below its parent's place in priority.
  predicate Fits(p: seq<int>, k: nat)
    requires k < |p|
  {
    k > 0 ==> p[Parent(k)] <= p[k]
  }

  predicate IsHeap(p: seq<int>, n: nat)
    requires n <= |p|
  {
    forall k :: 0 <= k < n ==> Fits(p, k)
  }

  // Everything fits but perhaps j itself, whose children fit below its parent.
  predicate RisingAt(p: seq<int>, n: nat, j: nat)
    requires n <= |p|
  {
    && (forall k :: 0 <= k < n && k != j ==> Fits(p, k))
    && (forall k :: 0 < k < n && Parent(k) == j && j > 0 ==> p[Parent(j)] <= p[k])
  }

  // Everything fits but perhaps the children of i, and i0 where the sift began.
  predicate SinkingAt(p: seq<int>, n: nat, i: nat, i0: nat)
    requires n <= |p|
  {
    && (forall k :: 0 < k < n && k != i0 && Parent(k) != i ==> Fits(p, k))
    && (forall k :: 0 < k < n && Parent(k) == i && i > 0 ==> p[Parent(i)] <= p[k])
    && (i != i0 ==> i0 < n && Fits(p, i0))
  }

  lemma UpStep(p: seq<int>, n: nat, j: nat)
    requires 0 < j < n <= |p| && RisingAt(p, n, j) && p[j] < p[Parent(j)]
    ensures RisingAt(Exchanged(p, Parent(j), j), n, Parent(j))
  {
    var i := Parent(j);
    var q := Exchanged(p, i, j);
    forall k | 0 <= k < n && k != i ensures Fits(q, k) {
      assert Fits(p, i);
      if k > 0 && k != j { assert Fits(p, k); }
    }
    forall k | 0 < k < n && Parent(k) == i && i > 0 ensures q[Parent(i)] <= q[k] {
      assert Fits(p, i);
      if k != j { assert Fits(p, k); }
    }
  }

  lemma UpEnd(p: seq<int>, n: nat, j: nat)
    requires j <= n <= |p| && RisingAt(p, n, j) && (j < n ==> Fits(p, j))
    ensures IsHeap(p, n)
  {
  }

  // j is the smaller child of i.
  predicate Smaller(p: seq<int>, n: nat, i: nat, j: nat)
    requires n <= |p|
  {
    0 < j < n && Parent(j) == i && forall k :: 0 < k < n && Parent(k) == i ==> p[j] <= p[k]
  }

  lemma SmallerChild(p: seq<int>, n: nat, i: nat, j: nat)
    requires n <= |p| && 2 * i + 1 < n
    requires j == if 2 * i + 2 < n && p[2 * i + 1] >= p[2 * i + 2] then 2 * i + 2 else 2 * i + 1
    ensures Smaller(p, n, i, j)
  {
  }

  lemma DownStep(p: seq<int>, n: nat, i: nat, i0: nat, j: nat)
    requires i0 <= i < n <= |p| && SinkingAt(p, n, i, i0) && Smaller(p, n, i, j) && p[j] < p[i]
    ensures SinkingAt(Exchanged(p, i, j), n, j, i0)
  {
    var q := Exchanged(p, i, j);
    forall k | 0 < k < n && k != i0 && Parent(k) != j ensures Fits(q, k) {
      if Parent(k) == i {
      } else if k == i {
        assert p[Parent(i)] <= p[j];
      } else {
        assert Fits(p, k);
      }
    }
    forall k | 0 < k < n && Parent(k) == j ensures q[Parent(j)] <= q[k] {
      assert Fits(p, k);
    }
    if i0 > 0 && i0 != i { assert Fits(p, i0); }
  }

  lemma DownEnd(p: seq<int>, n: nat, i: nat, i0: nat)
    requires i0 <= i <= n <= |p| && SinkingAt(p, n, i, i0)
    requires forall k :: 0 < k < n && Parent(k) == i ==> p[i] <= p[k]
    ensures RisingAt(p, n, i0)
  {
    forall k | 0 <= k < n && k != i0 ensures Fits(p, k) { }
    forall k | 0 < k < n && Parent(k) == i0 && i0 > 0 ensures p[Parent(i0)] <= p[k] {
      if i != i0 { assert Fits(p, k) && Fits(p, i0); }
    }
  }

  lemma DownLeaf(p: seq<int>, n: nat, i: nat, i0: nat)
    requires i0 <= i <= n <= |p| && SinkingAt(p, n, i, i0) && 2 * i + 1 >= n
    ensures RisingAt(p, n, i0)
  {
    DownEnd(p, n, i, i0);
  }

  lemma DownStop(p: seq<int>, n: nat, i: nat, i0: nat, j: nat)
    requires i0 <= i < n <= |p| && SinkingAt(p, n, i, i0) && Smaller(p, n, i, j) && p[i] <= p[j]
    ensures RisingAt(p, n, i0)
  {
    DownEnd(p, n, i, i0);
  }

  /** The top of a heap is its least element. */
  lemma {:induction false} TopIsLeast(p: seq<int>, n: nat, k: nat)
    requires k < n <= |p| && IsHeap(p, n)
    ensures p[0] <= p[k]
    decreases k
  {
    if k > 0 {
      TopIsLeast(p, n, Parent(k));
      assert Fits(p, k);
    }
  }

  // Replacing place i of a heap by anything leaves a heap that may have to sink or rise there.
  lemma Disturbed(p: seq<int>, n: nat, i: nat, x: int)
    requires i < n <= |p| && IsHeap(p, n)
    ensures SinkingAt(p[i := x], n, i, i)
  {
    var q := p[i := x];
    forall k | 0 < k < n && k != i && Parent(k) != i ensures Fits(q, k) { assert Fits(p, k); }
    forall k | 0 < k < n && Parent(k) == i && i > 0 ensures q[Parent(i)] <= q[k] {
      assert Fits(p, k) && Fits(p, i);
    }
  }
}
