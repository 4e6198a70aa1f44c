/** Textbook RSA on machine integers: the modular inverse, modular powers, and the round trip. */
module Rsa {
  import opened NumberTheory

  /* ---- Go's int on a 64-bit machine ---- */

  const TwoTo63: int := 0x8000_0000_0000_0000

  type int64 = x: int | -TwoTo63 <= x < TwoTo63

  predicate InRange(x: int) { -TwoTo63 <= x < TwoTo63 }

  // The value an int keeps of x.
  function Wrap(x: int): (r: int64)
    ensures InRange(x) ==> r == x
  {
    (x + TwoTo63) % (2 * TwoTo63) - TwoTo63
  }

  // Go's division and remainder truncate toward zero.
  function Quo(a: int, b: int): int
    requires b != 0
  {
    if a >= 0 then a / b else -((-a) / b)
  }

  function Rem(a: int, b: int): int
    requires b != 0
  {
    a - b * Quo(a, b)
  }

  /* ---- inverse ---- */

  // Two combinations of u and v, with coefficients of opposite signs that v bounds.
  predicate Extended(u: nat, v: nat, u1: int, k: int, u3: nat, v1: int, l: int, v3: nat) {
    && u1 * u + k * v == u3 && v1 * u + l * v == v3
    && (u3 > 0 || v3 > 0) && Gcd(u3, v3) == Gcd(u, v)
    && Abs(u1) * v3 + Abs(v1) * u3 == v
    && (u1 <= 0 <= v1 || v1 <= 0 <= u1)
  }

  // From the second turn on.
  predicate Ordered(u1: int, u3: int, v1: int, v3: int) {
    v3 < u3 && v1 != 0 && Abs(u1) <= Abs(v1) && (v3 == 0 ==> Abs(u1) < Abs(v1))
  }

  lemma ExtendedStep(u: nat, v: nat, u1: int, k: int, u3: nat, v1: int, l: int, v3: nat, q: nat, w1: int, m: int, w3: nat)
    requires Extended(u, v, u1, k, u3, v1, l, v3) && v3 > 0
    requires Ordered(u1, u3, v1, v3) || (u1 == 1 && v1 == 0)
    requires q == u3 / v3 && w1 == u1 - v1 * q && m == k - l * q && w3 == u3 % v3
    ensures Extended(u, v, v1, l, v3, w1, m, w3) && Ordered(v1, v3, w1, w3)
    ensures w3 == u3 - v3 * q && 0 <= v3 * q <= u3 && Abs(v1 * q) <= v && Abs(w1) <= v
  {
    Combine(u, v, u1, k, u3, v1, l, v3, q);
    AbsTimes(v1, q);
    Opposite(u1, v1, q);
    Sizes(Abs(u1), Abs(v1), u3, v3, q);
    Longer(Abs(u1), Abs(v1), u3, v3, q, w3, Abs(w1));
    Share(Abs(v1), w3, Abs(w1), v3, v);
  }

  lemma Share(a: nat, b: nat, c: nat, d: nat, v: nat)
    requires a * b + c * d == v && d > 0
    ensures c <= v
  {
    assert a * b >= 0;
    assert c * d >= c;
  }

  // Opposite signs add up.
  lemma Opposite(u1: int, v1: int, q: nat)
    requires u1 <= 0 <= v1 || v1 <= 0 <= u1
    ensures Abs(u1 - v1 * q) == Abs(u1) + Abs(v1) * q
    ensures if v1 <= 0 <= u1 then u1 - v1 * q >= 0 else u1 - v1 * q <= 0
  {
    if v1 >= 0 { assert v1 * q >= 0; } else { assert v1 * q <= 0; AbsTimes(v1, q); }
  }

  lemma Longer(a: nat, b: nat, u3: nat, v3: nat, q: nat, w3: nat, w: nat)
    requires v3 > 0 && w3 < v3 && u3 == v3 * q + w3 && w == a + b * q
    requires (v3 < u3 && b > 0) || (a == 1 && b == 0)
    ensures w > 0 && b <= w && (w3 == 0 ==> b < w)
  {
    if b > 0 {
      assert q == 0 ==> v3 * q == 0;
      assert b * q == b + b * (q - 1);
      if w3 == 0 {
        assert q == 1 ==> v3 * q == v3;
        assert b * (q - 1) == b + b * (q - 2);
        assert b * (q - 2) >= 0;
      }
    } else {
      assert b * q == 0;
    }
  }

  lemma AbsTimes(a: int, q: nat)
    ensures Abs(a * q) == Abs(a) * q
  {
    if a >= 0 { assert a * q >= 0; } else { assert a * q <= 0; assert (-a) * q == -(a * q); }
  }

  lemma Combine(u: int, v: int, u1: int, k: int, u3: int, v1: int, l: int, v3: int, q: int)
    requires u1 * u + k * v == u3 && v1 * u + l * v == v3
    ensures (u1 - v1 * q) * u + (k - l * q) * v == u3 - v3 * q
  {
    assert (u1 - v1 * q) * u == u1 * u - q * (v1 * u);
    assert (k - l * q) * v == k * v - q * (l * v);
    assert v3 * q == q * (v1 * u) + q * (l * v);
  }

  lemma Sizes(a: nat, b: nat, u3: nat, v3: nat, q: nat)
    requires v3 > 0
    ensures b * (u3 - v3 * q) + (a + b * q) * v3 == a * v3 + b * u3
  {
    assert b * (u3 - v3 * q) == b * u3 - b * (v3 * q);
    assert (a + b * q) * v3 == a * v3 + b * (v3 * q);
  }

  // What the loop leaves.
  lemma ExtendedEnd(u: nat, v: nat, u1: int, k: int, u3: nat, v1: int, l: int)
    requires v > 0 && Extended(u, v, u1, k, u3, v1, l, 0) && Ordered(u1, u3, v1, 0)
    ensures -(v as int) < u1 < v
    ensures (u * u1) % v == Gcd(u, v) % v && (u * (u1 + v)) % v == Gcd(u, v) % v
  {
    Share(Abs(u1), 0, Abs(v1), u3, v);
    assert u1 * u + k * v == u3 && Gcd(u3, 0) == Gcd(u, v);
    hide Gcd, Abs, Extended;
    GcdOfLast(u3);
    Modulo(u, v, u1, k, u3);
    Shifted(u, v, u1, k);
    Modulo(u, v, u1 + v, k - u, u3);
  }

  lemma GcdOfLast(u3: nat)
    ensures Gcd(u3, 0) == u3
  {
  }

  lemma Shifted(u: int, v: int, a: int, k: int)
    ensures (a + v) * u + (k - u) * v == a * u + k * v
  {
    assert (a + v) * u == a * u + v * u;
    assert (k - u) * v == k * v - u * v;
  }

  lemma Modulo(u: int, v: nat, a: int, k: int, g: int)
    requires v > 0 && a * u + k * v == g
    ensures (u * a) % v == g % v
  {
    Multiple(v, -k);
    assert u * a == a * u;
    SameRemainder(u * a, g, v);
  }

  // A negative dividend leaves no positive remainder.
  lemma RemainderOfNegative(a: int64, b: int64)
    requires a < 0 < b
    ensures a <= b * Quo(a, b) <= 0 && a <= Quo(a, b) <= 0
  {
    var c: int := a;
    QuotientBounds(-c, b);
    Negated(b, -c / b);
  }

  lemma Negated(b: int, q: int)
    ensures b * (-q) == -(b * q)
  {
  }

  lemma QuotientBounds(a: int, b: int)
    requires a >= 0 && b > 0
    ensures 0 <= b * (a / b) <= a && 0 <= a / b <= a && Quo(a, b) == a / b
  {
    var q := a / b;
    assert a == b * q + a % b;
    Grows(b, q);
  }

  // The loop of Inverse between turns.
  predicate Turning(u: int64, v: int64, u1: int, k: int, u3: int, v1: int, l: int, v3: int) {
    if u >= 0 && v > 0 then
      u3 >= 0 && v3 >= 0 && Extended(u, v, u1, k, u3, v1, l, v3) &&
      (Ordered(u1, u3, v1, v3) || (u1 == 1 && v1 == 0 && v3 == v && u3 == u))
    else
      (u1 == 1 && v1 == 0 && v3 == v && u3 == u) || (u1 == 0 && v3 <= 0 && v > 0)
  }

  lemma Turn(u: int64, v: int64, u1: int, k: int, u3: int64, v1: int, l: int, v3: int64, q: int, a: int, b: int)
    requires Turning(u, v, u1, k, u3, v1, l, v3) && v3 > 0 && q == Quo(u3, v3) && a == v1 * q && b == v3 * q
    ensures Turning(u, v, v1, l, v3, u1 - a, k - l * q, u3 - b) && u3 - b < v3
    ensures InRange(q) && InRange(a) && InRange(b) && InRange(u1 - a) && InRange(u3 - b)
  {
    if u >= 0 && v > 0 {
      QuotientBounds(u3, v3);
      ExtendedStep(u, v, u1, k, u3, v1, l, v3, q, u1 - a, k - l * q, u3 % v3);
    } else {
      RemainderOfNegative(u3, v3);
    }
  }

  /** r lies below v and u r is Gcd(u, v) modulo v, and no step overflows. A negative u or a v that
      is not positive does not fail, but gives 0 or 1. */
  method Inverse(u: int64, v: int64) returns (r: int64)
    ensures u >= 0 && v > 0 ==> 0 <= r < v && (u * r) % v == Gcd(u, v) % v
    ensures u < 0 && v > 0 ==> r == 0
    ensures v <= 0 ==> r == 1
  {
    var u3, v3, u1, v1 := u, v, 1, 0;
    ghost var k, l := 0, 1;
    while v3 > 0
      invariant Turning(u, v, u1, k, u3, v1, l, v3)
      invariant InRange(u3) && InRange(v3)
      decreases v3
    {
      var q := Quo(u3, v3);
      Turn(u, v, u1, k, u3, v1, l, v3, q, v1 * q, v3 * q);
      k, l := l, k - l * q;
      u1, v1 := v1, Wrap(u1 - Wrap(v1 * q));
      u3, v3 := v3, Wrap(u3 - Wrap(v3 * q));
    }
    if u >= 0 && v > 0 {
      ExtendedEnd(u, v, u1, k, u3, v1, l);
    }
    ghost var w := u1;
    while u1 < 0
      invariant u1 == w || (w < 0 && u1 == w + v)
      invariant u >= 0 && v > 0 ==> -v < w
      invariant u < 0 || v <= 0 ==> w >= 0
      decreases -u1
    {
      u1 := Wrap(u1 + v);
    }
    r := u1;
  }

  /* ---- squareAndMultipy ---- */

  // The number whose binary digits, lowest first, are s.
  function Low(s: seq<int>): int { if s == [] then 0 else s[0] + 2 * Low(s[1..]) }

  predicate Bits(s: seq<int>) { forall i :: 0 <= i < |s| ==> s[i] == 0 || s[i] == 1 }

  lemma {:induction false} LowAppend(s: seq<int>, b: int)
    ensures Low(s + [b]) == Low(s) + b * Pow(2, |s|)
  {
    if s == [] {
      assert [] + [b] == [b] && Low([b][1..]) == 0;
    } else {
      LowAppend(s[1..], b);
      assert (s + [b])[1..] == s[1..] + [b];
      assert 2 * (b * Pow(2, |s| - 1)) == b * Pow(2, |s|);
    }
  }

  lemma {:induction false} LowNonNegative(s: seq<int>)
    requires Bits(s)
    ensures Low(s) >= 0
  {
    if s != [] { LowNonNegative(s[1..]); }
  }

  // No product in the second loop exceeds an int.
  predicate NoOverflow(x: int, n: int) { 0 <= x && 0 < n && InRange((n - 1) * (n - 1)) && InRange((n - 1) * x) }

  // z holds x^e mod n; before the first turn it is 1, whatever n is.
  predicate Holds(z: int, x: int, e: int, n: int) {
    if e <= 0 then z == 1 else NoOverflow(x, n) ==> z == Pow(x, e) % n
  }

  // One multiplication of the second loop.
  function MulMod(a: int, b: int, n: int): int64
    requires n != 0
  {
    Wrap(Rem(Wrap(a * b), n))
  }

  lemma MulModExact(a: int, b: int, n: int)
    requires 0 < n && 0 <= a * b && InRange(a * b)
    ensures MulMod(a, b, n) == (a * b) % n
  {
    var m := a * b;
    assert m == n * (m / n) + m % n;
    Below(0, 0, n, m / n);
  }

  lemma ModMod(p: int, n: int)
    requires n > 0
    ensures (p % n) % n == p % n
  {
  }

  lemma Squared(z: int, x: int, e: nat, n: int)
    requires n != 0 && Holds(z, x, e, n)
    ensures NoOverflow(x, n) ==> MulMod(z, z, n) == Pow(x, 2 * e) % n
  {
    if NoOverflow(x, n) {
      if e == 0 {
        One(z, n);
      } else {
        SquaredMod(z, Pow(x, e), n);
        PowAdd(x, e, e);
      }
    }
  }

  lemma SquaredMod(z: int, p: int, n: int)
    requires 0 < n && z == p % n && InRange((n - 1) * (n - 1))
    ensures MulMod(z, z, n) == (p * p) % n
  {
    Below(z, z, n - 1, n - 1);
    MulModExact(z, z, n);
    ModMod(p, n);
    Factors(z, p, z, p, n);
  }

  lemma TimesMod(z: int, p: int, x: int, n: int)
    requires 0 < n && z == p % n && 0 <= x && InRange((n - 1) * x)
    ensures MulMod(z, x, n) == (p * x) % n
  {
    Below(z, x, n - 1, x);
    MulModExact(z, x, n);
    ModMod(p, n);
    Factors(z, p, x, x, n);
  }

  lemma One(z: int, n: int)
    requires z == 1 && n > 0
    ensures MulMod(z, z, n) == 1 % n
  {
    assert z * z == 1;
    MulModExact(z, z, n);
  }

  lemma Times(z: int, x: int, e: nat, n: int)
    requires n != 0 && (NoOverflow(x, n) ==> z == Pow(x, e) % n)
    ensures Holds(MulMod(z, x, n), x, e + 1, n)
  {
    if NoOverflow(x, n) {
      TimesMod(z, Pow(x, e), x, n);
      Flip(x, e);
    }
  }

  lemma Flip(x: int, e: nat)
    ensures Pow(x, e) * x == Pow(x, e + 1)
  {
  }

  lemma Below(a: nat, b: nat, c: nat, d: nat)
    requires a <= c && b <= d
    ensures 0 <= a * b <= c * d
  {
    assert a * b <= a * d;
    assert a * d <= c * d;
  }

  // Factors may be replaced by congruent ones.
  lemma Factors(a: int, a': int, b: int, b': int, n: int)
    requires n > 0 && a % n == a' % n && b % n == b' % n
    ensures (a * b) % n == (a' * b') % n
  {
    SameRemainder(a, a', n);
    SameRemainder(b, b', n);
    DividesCombination(n, a - a', b - b', b, a');
    assert b * (a - a') + a' * (b - b') == a * b - a' * b';
    SameRemainder(a * b, a' * b', n);
  }

  /** x to the power c modulo n, as long as no product overflows; c <= 0 gives 1, also for n = 1. */
  method SquareAndMultiply(x: int64, c: int64, n: int64) returns (z: int64)
    requires c > 0 ==> n != 0
    ensures c > 0 && NoOverflow(x, n) ==> z == Pow(x, c) % n
    ensures c <= 0 ==> z == 1
  {
    var bits := Digits(c);
    z := 1;
    var i := |bits| - 1;
    assert bits[|bits|..] == [];
    while i >= 0
      invariant -1 <= i < |bits|
      invariant Holds(z, x, Low(bits[i + 1..]), n)
      invariant if i == |bits| - 1 then z == 1 else Low(bits[i + 1..]) > 0
    {
      ghost var rest := bits[i + 1..];
      assert bits[i..][1..] == rest;
      Turned(z, x, bits[i], rest, n);
      z := MulMod(z, z, n);
      if bits[i] == 1 {
        z := MulMod(z, x, n);
      }
      i := i - 1;
    }
    assert bits[0..] == bits;
  }

  // One turn of the second loop.
  lemma Turned(z: int, x: int, b: int, rest: seq<int>, n: int)
    requires n != 0 && Bits(rest) && (b == 0 || b == 1) && Holds(z, x, Low(rest), n)
    ensures var z2 := MulMod(z, z, n); var z3 := if b == 1 then MulMod(z2, x, n) else z2;
            Low(rest) >= 0 && (b + 2 * Low(rest) > 0 ==> Holds(z3, x, b + 2 * Low(rest), n))
  {
    LowNonNegative(rest);
    Squared(z, x, Low(rest), n);
    if b == 1 { Times(MulMod(z, z, n), x, 2 * Low(rest), n); }
  }

  // The first loop: the binary digits of c, lowest first.
  method Digits(c: int64) returns (bits: seq<int>)
    ensures Bits(bits) && Low(bits) == if c <= 0 then 0 else c
    ensures bits != [] ==> bits[|bits| - 1] == 1
    ensures c <= 0 ==> bits == []
  {
    bits := [];
    var d := c;
    while d > 0
      invariant c <= 0 ==> d == c && bits == []
      invariant c > 0 ==> d >= 0 && c == Low(bits) + d * Pow(2, |bits|)
      invariant Bits(bits)
      invariant d <= 0 && bits != [] ==> bits[|bits| - 1] == 1
    {
      LowAppend(bits, d % 2);
      Halved(d, |bits|);
      bits := bits + [if d % 2 != 0 then 1 else 0];
      d := d / 2;
    }
  }

  lemma Halved(d: nat, k: nat)
    ensures d * Pow(2, k) == (d % 2) * Pow(2, k) + (d / 2) * Pow(2, k + 1)
  {
    var h, r := d / 2, d % 2;
    assert d == 2 * h + r;
    assert h * (2 * Pow(2, k)) == 2 * h * Pow(2, k);
    assert (2 * h + r) * Pow(2, k) == 2 * h * Pow(2, k) + r * Pow(2, k);
  }

  /* ---- the round trip ---- */

  /** Decrypting gives every message below n = p q back, also one that p or q divides. */
  lemma RoundTrip(p: int, q: int, n: int, phi: int, b: nat, d: nat, m: nat)
    requires Prime(p) && Prime(q) && p != q && n == p * q && phi == (p - 1) * (q - 1)
    requires m < n && phi > 0 && (b * d) % phi == 1
    ensures Pow(Pow(m, b) % n, d) % n == m
  {
    var k, e := Turns(b, d, phi);
    PowersReturn(p, q, n, phi, m, k, e);
    PowProduct(m, b, d, e);
    Reduced(n, m, Pow(m, b), d, Pow(m, e));
  }

  lemma PowProduct(x: int, m: nat, n: nat, e: nat)
    requires e == m * n
    ensures Pow(x, e) == Pow(Pow(x, m), n)
  {
    PowTimes(x, m, n);
  }

  lemma Reduced(n: int, m: nat, c: int, d: nat, x: int)
    requires m < n && x == Pow(c, d) && Divides(n, x - m)
    ensures Pow(c % n, d) % n == m
  {
    hide Pow, Divides;
    ModPower(n, c, d);
    SameRemainder(x, m, n);
    SmallRemainder(m, n);
  }

  lemma SmallRemainder(m: nat, n: int)
    requires m < n
    ensures m % n == m
  {
  }

  lemma PowersReturn(p: int, q: int, n: int, phi: int, m: nat, k: nat, e: nat)
    requires Prime(p) && Prime(q) && p != q && n == p * q && phi == (p - 1) * (q - 1) && e == 1 + k * phi
    ensures Divides(n, Pow(m, e) - m)
  {
    ExponentByPrime(p, q, k);
    ExponentByPrime(q, p, k);
    FermatPowers(p, m, k * (q - 1));
    FermatPowers(q, m, k * (p - 1));
    PrimesTogether(p, q, Pow(m, e) - m);
  }

  lemma ModPower(n: int, c: int, d: nat)
    requires n > 0
    ensures Pow(c % n, d) % n == Pow(c, d) % n
  {
    ModMod(c, n);
    SameRemainder(c % n, c, n);
    PowCongruent(n, c % n, c, d);
    SameRemainder(Pow(c % n, d), Pow(c, d), n);
  }

  lemma Turns(b: nat, d: nat, phi: nat) returns (k: nat, e: nat)
    requires phi > 0 && (b * d) % phi == 1
    ensures e == b * d == 1 + k * phi
  {
    e := b * d;
    assert e >= 0;
    k := e / phi;
  }

  lemma ExponentByPrime(p: int, q: int, k: nat)
    requires q > 1
    ensures k * (q - 1) >= 0
    ensures k * ((p - 1) * (q - 1)) == k * (q - 1) * (p - 1) == k * ((q - 1) * (p - 1))
  {
  }

  type byte = x: int | 0 <= x < 256

  method Encrypt(plaintext: seq<byte>, b: int64, n: int64) returns (cipher: seq<int64>)
    requires b > 0 && n > 255 && InRange((n - 1) * (n - 1))
    ensures |cipher| == |plaintext| && forall i :: 0 <= i < |cipher| ==> cipher[i] == Pow(plaintext[i], b) % n
  {
    cipher := [];
    for i := 0 to |plaintext|
      invariant |cipher| == i && forall j :: 0 <= j < i ==> cipher[j] == Pow(plaintext[j], b) % n
    {
      Room(plaintext[i], n);
      var e := SquareAndMultiply(plaintext[i], b, n);
      cipher := cipher + [e];
    }
  }

  method Decrypt(cipher: seq<int64>, d: int64, n: int64) returns (text: seq<byte>)
    requires d > 0 && n > 0 && InRange((n - 1) * (n - 1)) && forall i :: 0 <= i < |cipher| ==> 0 <= cipher[i] < n
    ensures |text| == |cipher| && forall i :: 0 <= i < |text| ==> text[i] == (Pow(cipher[i], d) % n) % 256
  {
    text := [];
    for i := 0 to |cipher|
      invariant |text| == i && forall j :: 0 <= j < i ==> text[j] == (Pow(cipher[j], d) % n) % 256
    {
      Room(cipher[i], n);
      var e := SquareAndMultiply(cipher[i], d, n);
      text := text + [e % 256];
    }
  }

  // What makes (p, q, b) a key that works on machine integers, with n = p q and n1 = (p - 1)(q - 1).
  ghost predicate Key(p: int, q: int, n: int, n1: int, b: int) {
    && Prime(p) && Prime(q) && p != q && n == p * q && n1 == (p - 1) * (q - 1)
    && b > 0 && n > 255 && InRange((n - 1) * (n - 1)) && 1 < n1 && InRange(n1) && Gcd(b, n1) == 1
  }

  /** Encrypting and decrypting a text byte by byte gives it back, for every pair of primes whose
      product a machine integer can square. */
  method Exchange(plaintext: seq<byte>, p: int64, q: int64, n1: int64, b: int64) returns (text: seq<byte>)
    requires Key(p, q, p * q, n1, b)
    ensures text == plaintext
  {
    SquareFits(p * q);
    var n := Wrap(p * q);
    var b1 := Inverse(b, n1);
    NotZero(b, b1, n1);
    var cipher := Encrypt(plaintext, b, n);
    text := Decrypt(cipher, b1, n);
    forall i | 0 <= i < |text| ensures text[i] == plaintext[i] {
      RoundTrip(p, q, n, n1, b, b1, plaintext[i]);
    }
  }

  lemma NotZero(b: int, b1: int, n1: int)
    requires n1 > 1 && b1 >= 0 && (b * b1) % n1 == 1 % n1
    ensures b1 > 0 && (b * b1) % n1 == 1
  {
    assert b1 == 0 ==> b * b1 == 0;
  }

  lemma SquareFits(n: int)
    requires n > 0 && InRange((n - 1) * (n - 1))
    ensures InRange(n)
  {
    if n > 2 { assert (n - 1) * (n - 1) == (n - 1) + (n - 2) * (n - 1); assert (n - 2) * (n - 1) >= 1; }
  }

  lemma Room(x: int, n: int)
    requires 0 <= x < n && InRange((n - 1) * (n - 1))
    ensures NoOverflow(x, n)
  {
    Below(n - 1, x, n - 1, n - 1);
  }

  /* ---- the key of the program ---- */

  predicate NoDivisorUpTo(p: int, d: int)
    decreases d
  {
    d <= 1 || (p % d != 0 && NoDivisorUpTo(p, d - 1))
  }

  lemma {:induction false} NotAmong(p: int, d: int, e: int)
    requires NoDivisorUpTo(p, d) && 1 < e <= d
    ensures !Divides(e, p)
    decreases d
  {
    if e < d { NotAmong(p, d - 1, e); }
  }

  // Trial division up to the square root.
  lemma PrimeByTrial(p: int, r: nat)
    requires p > 1 && NoDivisorUpTo(p, r) && p < (r + 1) * (r + 1)
    ensures Prime(p)
  {
    forall e: int | 1 < e < p ensures !Divides(e, p) {
      if Divides(e, p) {
        var k := Quotient(e, p);
        if e <= r {
          NotAmong(p, r, e);
        } else if k > r {
          Below(r + 1, r + 1, k, e);
        } else {
          Multiple(k, e);
          NotAmong(p, r, k);
        }
        assert false;
      }
    }
  }

  /** The primes and the public exponent of the program make a working key. */
  lemma ProgramKey()
    ensures Key(101, 113, 101 * 113, 11200, 3533)
  {
    assert NoDivisorUpTo(101, 4) && NoDivisorUpTo(101, 7) && NoDivisorUpTo(101, 10);
    PrimeByTrial(101, 10);
    assert NoDivisorUpTo(113, 4) && NoDivisorUpTo(113, 7) && NoDivisorUpTo(113, 10);
    PrimeByTrial(113, 10);
    assert Gcd(3533, 11200) == 1;
  }
}
