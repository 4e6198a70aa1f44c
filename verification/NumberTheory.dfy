/** Divisibility, greatest common divisors, powers and Fermat's little theorem. */
module NumberTheory {

  predicate Divides(d: int, x: int) { d != 0 && x % d == 0 }

  lemma Multiple(d: int, k: int)
    requires d != 0
    ensures Divides(d, k * d) && (k * d) / d == k
  {
    var x := k * d;
    var q, r := x / d, x % d;
    assert x == q * d + r;
    assert (k - q) * d == r;
    Small(k - q, d, r);
  }

  function Abs(x: int): nat { if x < 0 then -x else x }

  lemma Grows(j: int, d: int)
    ensures j == 0 || Abs(j * d) >= Abs(d)
  {
    if j >= 1 {
      assert j * d == d + (j - 1) * d;
      assert d >= 0 ==> (j - 1) * d >= 0;
      assert d <= 0 ==> (j - 1) * d <= 0;
    } else if j <= -1 {
      assert j * d == -d + (j + 1) * d;
      assert d >= 0 ==> (j + 1) * d <= 0;
      assert d <= 0 ==> (j + 1) * d >= 0;
    }
  }

  // A multiple of d smaller than d is 0.
  lemma Small(j: int, d: int, r: int)
    requires d != 0 && j * d == r && 0 <= r < Abs(d)
    ensures r == 0 && j == 0
  {
    Grows(j, d);
  }

  lemma Quotient(d: int, x: int) returns (k: int)
    requires Divides(d, x)
    ensures x == k * d
  {
    k := x / d;
  }

  lemma CombineMultiples(a: int, i: int, b: int, j: int, d: int)
    ensures a * (i * d) + b * (j * d) == (a * i + b * j) * d
  {
  }

  lemma DividesCombination(d: int, x: int, y: int, a: int, b: int)
    requires Divides(d, x) && Divides(d, y)
    ensures Divides(d, a * x + b * y)
  {
    var i := Quotient(d, x);
    var j := Quotient(d, y);
    CombineMultiples(a, i, b, j, d);
    Multiple(d, a * i + b * j);
  }

  // The remainder is told by the difference.
  lemma SameRemainder(x: int, y: int, n: int)
    requires n > 0
    ensures x % n == y % n <==> Divides(n, x - y)
  {
    var qx, qy := x / n, y / n;
    assert x - y == (qx - qy) * n + (x % n - y % n);
    if x % n == y % n {
      Multiple(n, qx - qy);
    }
    if Divides(n, x - y) {
      var k := Quotient(n, x - y);
      assert (k - qx + qy) * n == x % n - y % n;
      if x % n >= y % n {
        Small(k - qx + qy, n, x % n - y % n);
      } else {
        assert (qx - qy - k) * n == y % n - x % n;
        Small(qx - qy - k, n, y % n - x % n);
      }
    }
  }

  /* ---- greatest common divisor ---- */

  function Gcd(a: nat, b: nat): nat
    decreases b
  {
    if b == 0 then a else Gcd(b, a % b)
  }

  /** Gcd is a common divisor, a combination of its arguments, and so a multiple of every other. */
  lemma {:induction false} Bezout(a: nat, b: nat) returns (x: int, y: int)
    requires a > 0 || b > 0
    ensures Gcd(a, b) > 0 && Gcd(a, b) == x * a + y * b
    ensures Divides(Gcd(a, b), a) && Divides(Gcd(a, b), b)
    decreases b
  {
    if b == 0 {
      x, y := 1, 0;
      Multiple(a, 1);
    } else {
      var x', y' := Bezout(b, a % b);
      var g, q := Gcd(a, b), a / b;
      x, y := y', x' - y' * q;
      var r := a % b;
      assert a == q * b + r;
      Substitute(x', y', a, b, q, r);
      DividesCombination(g, b, a % b, q, 1);
    }
  }

  lemma Substitute(x: int, y: int, a: int, b: int, q: int, r: int)
    requires a == q * b + r
    ensures y * a + (x - y * q) * b == x * b + y * r
  {
    assert y * a == y * (q * b) + y * r;
    assert (x - y * q) * b == x * b - y * (q * b);
  }

  lemma GcdIsGreatest(a: nat, b: nat, d: int)
    requires (a > 0 || b > 0) && Divides(d, a) && Divides(d, b)
    ensures Divides(d, Gcd(a, b))
  {
    var x, y := Bezout(a, b);
    DividesCombination(d, a, b, x, y);
  }

  /* ---- primes ---- */

  ghost predicate Prime(p: int) { p > 1 && forall d: int :: 1 < d < p ==> !Divides(d, p) }

  lemma {:induction false} DivisorIsSmaller(d: int, x: int)
    requires d > 0 && x > 0 && Divides(d, x)
    ensures d <= x
  {
    var k := Quotient(d, x);
    Grows(k, d);
  }

  /** A prime that divides a product divides a factor. */
  lemma PrimeDividesFactor(p: int, a: nat, b: int)
    requires Prime(p) && Divides(p, a * b)
    ensures Divides(p, a) || Divides(p, b)
  {
    if !Divides(p, a) {
      var x, y := Bezout(a, p);
      var g := Gcd(a, p);
      DivisorIsSmaller(g, p);
      assert g == 1;
      assert b == x * (a * b) + (y * b) * p by {
        assert (x * a + y * p) * b == x * (a * b) + (y * b) * p;
      }
      Multiple(p, 1);
      DividesCombination(p, a * b, p, x, y * b);
    }
  }

  /** Two different primes divide a number together. */
  lemma PrimesTogether(p: int, q: int, x: int)
    requires Prime(p) && Prime(q) && p != q && Divides(p, x) && Divides(q, x)
    ensures Divides(p * q, x)
  {
    var k := Quotient(p, x);
    assert x == p * k;
    PrimeDividesFactor(q, p, k);
    if Divides(q, p) {
      DivisorIsSmaller(q, p);
      assert false;
    }
    var j := Quotient(q, k);
    assert x == j * (p * q);
    assert p * q > 0;
    Multiple(p * q, j);
  }

  /* ---- powers ---- */

  function Pow(x: int, n: nat): int { if n == 0 then 1 else x * Pow(x, n - 1) }

  lemma {:induction false} PowAdd(x: int, m: nat, n: nat)
    ensures Pow(x, m + n) == Pow(x, m) * Pow(x, n)
  {
    if m > 0 {
      PowAdd(x, m - 1, n);
      assert x * (Pow(x, m - 1) * Pow(x, n)) == x * Pow(x, m - 1) * Pow(x, n);
    }
  }

  lemma {:induction false} PowTimes(x: int, m: nat, n: nat)
    ensures m * n >= 0 && Pow(x, m * n) == Pow(Pow(x, m), n)
  {
    if n > 0 {
      PowTimes(x, m, n - 1);
      assert m * n == m + m * (n - 1);
      PowAdd(x, m, m * (n - 1));
    }
  }

  lemma {:induction false} PowNonNegative(x: nat, n: nat)
    ensures Pow(x, n) >= 0
  {
    if n > 0 { PowNonNegative(x, n - 1); }
  }

  // Powers of congruent numbers are congruent.
  lemma {:induction false} PowCongruent(p: int, x: int, y: int, n: nat)
    requires Divides(p, x - y)
    ensures Divides(p, Pow(x, n) - Pow(y, n))
  {
    if n == 0 {
      Multiple(p, 0);
    } else {
      PowCongruent(p, x, y, n - 1);
      var a, b := Pow(x, n - 1), Pow(y, n - 1);
      assert x * a - y * b == a * (x - y) + y * (a - b);
      DividesCombination(p, x - y, a - b, a, y);
    }
  }

  lemma {:induction false} PowOfOne(n: nat)
    ensures Pow(1, n) == 1
  {
    if n > 0 { PowOfOne(n - 1); }
  }

  /* ---- binomials ---- */

  function Choose(n: nat, k: nat): nat {
    if k == 0 then 1 else if n == 0 then 0 else Choose(n - 1, k - 1) + Choose(n - 1, k)
  }

  lemma {:induction false} ChooseTooMany(n: nat, k: nat)
    requires k > n
    ensures Choose(n, k) == 0
  {
    if n > 0 { ChooseTooMany(n - 1, k - 1); ChooseTooMany(n - 1, k); }
  }

  lemma {:induction false} ChooseAbsorbs(n: nat, k: nat)
    requires n > 0 && k > 0
    ensures k * Choose(n, k) == n * Choose(n - 1, k - 1)
    decreases n
  {
    if n == 1 {
      if k > 1 { ChooseTooMany(0, k - 1); ChooseTooMany(0, k); }
    } else {
      ChooseAbsorbs(n - 1, k);
      if k > 1 {
        ChooseAbsorbs(n - 1, k - 1);
        Absorb(n, k, Choose(n - 1, k - 1), Choose(n - 1, k), Choose(n - 2, k - 2), Choose(n - 2, k - 1));
      } else {
        Absorb(n, k, 1, Choose(n - 1, k), 0, 1);
      }
    }
  }

  lemma Absorb(n: int, k: int, a: int, b: int, c: int, d: int)
    requires a == c + d && k * b == (n - 1) * d && (k - 1) * a == (n - 1) * c
    ensures k * (a + b) == n * a
  {
    assert k * (a + b) == a + (k - 1) * a + k * b;
    assert (n - 1) * c + (n - 1) * d == (n - 1) * a;
  }

  lemma PrimeDividesChoose(p: int, k: nat)
    requires Prime(p) && 0 < k < p
    ensures Divides(p, Choose(p, k))
  {
    ChooseAbsorbs(p, k);
    Multiple(p, Choose(p - 1, k - 1));
    assert k * Choose(p, k) == Choose(p - 1, k - 1) * p;
    PrimeDividesFactor(p, k, Choose(p, k));
    if Divides(p, k) {
      DivisorIsSmaller(p, k);
      assert false;
    }
  }

  // Choose(n, 0) x^0 + ... + Choose(n, k) x^k.
  function Binomial(x: int, n: nat, k: nat): int {
    Choose(n, k) * Pow(x, k) + if k == 0 then 0 else Binomial(x, n, k - 1)
  }

  lemma {:induction false} BinomialStep(x: int, n: nat, k: nat)
    requires n > 0 && k > 0
    ensures Binomial(x, n, k) == Binomial(x, n - 1, k) + x * Binomial(x, n - 1, k - 1)
    decreases k
  {
    var a, b := Choose(n - 1, k - 1), Choose(n - 1, k);
    var w := Pow(x, k - 1);
    assert (a + b) * (x * w) == b * (x * w) + x * (a * w);
    if k == 1 {
      assert Binomial(x, n, 0) == Binomial(x, n - 1, 0) == 1;
    } else {
      BinomialStep(x, n, k - 1);
      assert x * (a * w + Binomial(x, n - 1, k - 2)) == x * (a * w) + x * Binomial(x, n - 1, k - 2);
    }
  }

  lemma {:induction false} BinomialTheorem(x: int, n: nat)
    ensures Pow(x + 1, n) == Binomial(x, n, n)
  {
    if n > 0 {
      BinomialTheorem(x, n - 1);
      BinomialStep(x, n, n);
      ChooseTooMany(n - 1, n);
      assert Binomial(x, n - 1, n) == Binomial(x, n - 1, n - 1);
      assert (x + 1) * Binomial(x, n - 1, n - 1) == Binomial(x, n - 1, n - 1) + x * Binomial(x, n - 1, n - 1);
    }
  }

  // Between the first and the last, p divides every term.
  lemma {:induction false} MiddleTerms(x: int, p: int, k: nat)
    requires Prime(p) && k < p
    ensures Divides(p, Binomial(x, p, k) - 1)
  {
    if k == 0 {
      Multiple(p, 0);
    } else {
      MiddleTerms(x, p, k - 1);
      PrimeDividesChoose(p, k);
      DividesCombination(p, Choose(p, k), Binomial(x, p, k - 1) - 1, Pow(x, k), 1);
      assert Pow(x, k) * Choose(p, k) == Choose(p, k) * Pow(x, k);
    }
  }

  lemma {:induction false} ChooseAll(n: nat)
    ensures Choose(n, n) == 1
  {
    if n > 0 { ChooseAll(n - 1); ChooseTooMany(n - 1, n); }
  }

  // The last term of the expansion is y^p.
  lemma LastTerm(y: nat, p: nat)
    requires p > 0
    ensures Binomial(y, p, p) == Pow(y, p) + Binomial(y, p, p - 1)
  {
    hide Pow;
    ChooseAll(p);
    assert 1 * Pow(y, p) == Pow(y, p);
  }

  lemma PowOfZero(p: nat)
    requires p > 0
    ensures Pow(0, p) == 0
  {
    assert Pow(0, p) == 0 * Pow(0, p - 1);
  }

  /** Fermat: p divides x^p - x. */
  lemma {:induction false} Fermat(p: int, x: nat)
    requires Prime(p)
    ensures Divides(p, Pow(x, p) - x)
  {
    hide Pow, Divides, Binomial;
    if x == 0 {
      PowOfZero(p);
      Multiple(p, 0);
      assert 0 * p == 0;
    } else {
      var y := x - 1;
      Fermat(p, y);
      BinomialTheorem(y, p);
      MiddleTerms(y, p, p - 1);
      LastTerm(y, p);
      var a, b := Pow(y, p) - y, Binomial(y, p, p - 1) - 1;
      DividesCombination(p, a, b, 1, 1);
      assert 1 * a + 1 * b == Pow(x, p) - x;
    }
  }

  // p divides x^(1 + j (p - 1)) - x.
  lemma {:induction false} FermatPowers(p: int, x: nat, j: nat)
    requires Prime(p)
    ensures j * (p - 1) >= 0 && Divides(p, Pow(x, 1 + j * (p - 1)) - x)
  {
    if j == 0 {
      assert Pow(x, 1) == x * Pow(x, 0);
      Multiple(p, 0);
    } else {
      FermatPowers(p, x, j - 1);
      Fermat(p, x);
      var e := (j - 1) * (p - 1);
      assert j * (p - 1) == e + (p - 1);
      PowAdd(x, 1 + e, p - 1);
      var a, b := Pow(x, 1 + e), Pow(x, p - 1);
      assert Pow(x, p) == x * b;
      assert a * b - x == b * (a - x) + 1 * (x * b - x);
      DividesCombination(p, a - x, x * b - x, b, 1);
    }
  }
}
