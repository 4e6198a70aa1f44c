/** Strings and byte strings compared byte by byte, a proper prefix first: Go's `<` on strings and
    memcmp-then-length on keys. `Rank` embeds the order into the reals, so that proofs about it are
    arithmetic. */
module Lexicographic {

  predicate Less(a: string, b: string) {
    b != [] && (a == [] || a[0] < b[0] || (a[0] == b[0] && Less(a[1..], b[1..])))
  }

  const BASE: real := 2097152.0

  ghost function Rank(s: string): (r: real)
    ensures 0.0 <= r < 1.0
    ensures s == [] <==> r == 0.0
  {
    if s == [] then 0.0 else ((s[0] as int + 1) as real + Rank(s[1..])) / BASE
  }

  /** `Rank` is a strict order embedding: numeric comparison of ranks is string comparison. */
  lemma {:induction false} RankOrder(a: string, b: string)
    ensures Less(a, b) <==> Rank(a) < Rank(b)
    ensures a == b <==> Rank(a) == Rank(b)
  {
    if a != [] && b != [] {
      RankOrder(a[1..], b[1..]);
      var x, y := (a[0] as int + 1) as real, (b[0] as int + 1) as real;
      assert a[0] < b[0] ==> x + 1.0 <= y;
      assert b[0] < a[0] ==> y + 1.0 <= x;
      assert a == [a[0]] + a[1..] && b == [b[0]] + b[1..];
    }
  }

  /* ---- sets of strings in order ---- */

  predicate IsLeast(s: set<string>, k: string) { k in s && forall j :: j in s ==> j == k || Less(k, j) }

  lemma {:induction false} LeastKey(s: set<string>) returns (k: string)
    requires s != {}
    ensures IsLeast(s, k) && forall m :: IsLeast(s, m) ==> m == k
    decreases |s|
  {
    k :| k in s;
    if s != {k} {
      var m := LeastKey(s - {k});
      RankOrder(k, m);
      RankOrder(m, k);
      var was := k;
      if Less(m, k) { k := m; }
      forall j | j in s ensures j == k || Less(k, j) {
        RankOrder(k, j);
        RankOrder(m, j);
        RankOrder(was, j);
      }
    }
    forall m | IsLeast(s, m) ensures m == k {
      RankOrder(m, k);
      RankOrder(k, m);
    }
  }

  // The members of a set in ascending order.
  function SortedKeys(s: set<string>): seq<string>
    decreases |s|
  {
    if s == {} then [] else
      assert exists k :: IsLeast(s, k) && forall m :: IsLeast(s, m) ==> m == k by { var k := LeastKey(s); }
      var k :| k in s && IsLeast(s, k);
      [k] + SortedKeys(s - {k})
  }

  lemma {:induction false} SortedKeysHolds(s: set<string>)
    ensures forall k :: k in SortedKeys(s) <==> k in s
    ensures |SortedKeys(s)| == |s|
    ensures forall i, j :: 0 <= i < j < |SortedKeys(s)| ==> Less(SortedKeys(s)[i], SortedKeys(s)[j])
    decreases |s|
  {
    if s != {} {
      var _ := LeastKey(s);
      var r := SortedKeys(s);
      SortedKeysHolds(s - {r[0]});
    }
  }
}
