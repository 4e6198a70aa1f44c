/** Optional values, and small facts about sets and sequences that several modules use. */
module Collections {

  datatype Option<T> = None | Some(value: T)

  function Upto(n: nat): (s: set<nat>)
    ensures |s| == n && forall i: nat :: i in s <==> i < n
  {
    if n == 0 then {} else Upto(n - 1) + {n - 1}
  }

  lemma Shrinks<T>(a: set<T>, b: set<T>, e: T)
    requires a <= b && e in b && e !in a
    ensures |a| < |b|
  {
    assert a <= b - {e};
    assert |a| + |b - {e} - a| == |b - {e}| by { assert a + (b - {e} - a) == b - {e}; }
  }

  lemma Assoc<T>(a: seq<T>, b: seq<T>, c: seq<T>)
    ensures a + (b + c) == a + b + c
  {
  }

  lemma Regroup<T>(a: seq<T>, b: seq<T>, c: seq<T>, d: seq<T>, e: seq<T>)
    ensures a + (b + c + d) + e == a + b + (c + d + e) == (a + b + c) + d + e
  {
  }
}
