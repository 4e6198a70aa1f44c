/** Integers as bytes, high byte first or low byte first. Bytes are characters below 256. */
module ByteOrder {
  import opened Lexicographic

  type Bytes = string

  function Pow256(k: nat): (p: nat)
    ensures p > 0
  {
    if k == 0 then 1 else 256 * Pow256(k - 1)
  }

  // Byte j of n, counted from the low end.
  function Byte(n: nat, j: nat): char {
    if j == 0 then (n % 256) as char else Byte(n / 256, j - 1)
  }

  // The k low bytes of n, high byte first.
  function Be(n: nat, k: nat): (s: Bytes)
    ensures |s| == k
  {
    seq(k, i requires 0 <= i < k => Byte(n, k - 1 - i))
  }

  function UnBe(s: Bytes): nat {
    if s == "" then 0 else UnBe(s[..|s| - 1]) * 256 + s[|s| - 1] as int
  }

  // The k low bytes of n, low byte first.
  function Le(n: nat, k: nat): (s: Bytes)
    ensures |s| == k
  {
    seq(k, i requires 0 <= i < k => Byte(n, i))
  }

  function UnLe(s: Bytes): nat {
    if s == "" then 0 else s[0] as int + 256 * UnLe(s[1..])
  }

  lemma BeLast(n: nat, k: nat)
    requires k > 0
    ensures Be(n, k) == Be(n / 256, k - 1) + [(n % 256) as char]
  {
    assert Byte(n, 0) == (n % 256) as char;
    forall i | 0 <= i < k - 1
      ensures Be(n, k)[i] == Be(n / 256, k - 1)[i]
    {
      ByteShifts(n, k - 1 - i);
    }
  }

  lemma ByteShifts(n: nat, j: nat)
    requires j > 0
    ensures Byte(n, j) == Byte(n / 256, j - 1)
  {
  }

  lemma {:induction false} BeRoundTrip(n: nat, k: nat)
    requires n < Pow256(k)
    ensures UnBe(Be(n, k)) == n
  {
    if k > 0 {
      BeRoundTrip(n / 256, k - 1);
      BeLast(n, k);
      assert Be(n, k)[..k - 1] == Be(n / 256, k - 1);
    }
  }

  lemma {:induction false} LeRoundTrip(n: nat, k: nat)
    requires n < Pow256(k)
    ensures UnLe(Le(n, k)) == n
  {
    if k > 0 {
      LeRoundTrip(n / 256, k - 1);
      forall j | 0 < j < k
        ensures Byte(n, j) == Byte(n / 256, j - 1)
      {
        ByteShifts(n, j);
      }
      assert Le(n, k)[1..] == Le(n / 256, k - 1);
    }
  }

  // Characters that are bytes.
  predicate IsBytes(s: Bytes) { forall i :: 0 <= i < |s| ==> s[i] < 256 as char }

  lemma {:induction false} UnBeBound(s: Bytes)
    requires IsBytes(s)
    ensures UnBe(s) < Pow256(|s|)
  {
    if s != "" { UnBeBound(s[..|s| - 1]); }
  }

  lemma {:induction false} BeOfUnBe(s: Bytes)
    requires IsBytes(s)
    ensures UnBe(s) < Pow256(|s|) && Be(UnBe(s), |s|) == s
  {
    UnBeBound(s);
    if s != "" {
      var t, c := s[..|s| - 1], s[|s| - 1];
      BeOfUnBe(t);
      BeLast(UnBe(s), |s|);
      assert UnBe(s) / 256 == UnBe(t) && UnBe(s) % 256 == c as int;
      assert s == t + [c];
    }
  }

  lemma BeIsBytes(n: nat, k: nat)
    ensures IsBytes(Be(n, k))
  {
    forall i | 0 <= i < k ensures Be(n, k)[i] < 256 as char { ByteIsByte(n, k - 1 - i); }
  }

  lemma {:induction false} ByteIsByte(n: nat, j: nat)
    ensures Byte(n, j) < 256 as char
  {
    if j > 0 { ByteIsByte(n / 256, j - 1); }
  }

  lemma Pow256Of8()
    ensures Pow256(8) == 0x1_0000_0000_0000_0000
  {
    assert Pow256(4) == 256 * Pow256(3) == 256 * 256 * Pow256(2) == 0x1_0000_0000;
    assert Pow256(8) == 256 * Pow256(7) == 256 * 256 * Pow256(6) == 256 * 256 * 256 * Pow256(5);
  }

  lemma {:induction false} LessAtTheEnd(p: Bytes, x: char, q: Bytes, y: char)
    requires |p| == |q|
    ensures Less(p + [x], q + [y]) <==> Less(p, q) || (p == q && x < y)
  {
    if p != "" {
      LessAtTheEnd(p[1..], x, q[1..], y);
      assert (p + [x])[1..] == p[1..] + [x] && (q + [y])[1..] == q[1..] + [y];
      assert p == [p[0]] + p[1..] && q == [q[0]] + q[1..];
    }
  }

  /** Big-endian bytes of equal width compare as the numbers do. */
  lemma {:induction false} BeKeepsOrder(m: nat, n: nat, k: nat)
    requires m < Pow256(k) && n < Pow256(k)
    ensures Less(Be(m, k), Be(n, k)) <==> m < n
    ensures Be(m, k) == Be(n, k) <==> m == n
  {
    BeRoundTrip(m, k);
    BeRoundTrip(n, k);
    if k > 0 {
      BeKeepsOrder(m / 256, n / 256, k - 1);
      LessAtTheEnd(Be(m / 256, k - 1), (m % 256) as char, Be(n / 256, k - 1), (n % 256) as char);
      BeLast(m, k);
      BeLast(n, k);
    }
  }
}
