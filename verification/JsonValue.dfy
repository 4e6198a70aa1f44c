/** JSON values and the library's equality on them. */
module JsonValue {
  import opened Lexicographic

  type int64 = i: int | -0x8000_0000_0000_0000 <= i < 0x8000_0000_0000_0000
  type uint64 = i: int | 0 <= i < 0x1_0000_0000_0000_0000

  // What a double stands for, with -0 and 0 as one value since they compare equal.
  datatype Double = NaN | PosInf | NegInf | Finite(value: real)

  datatype Json =
    | Null
    | Bool(b: bool)
    | Int(i: int64)
    | Uint(u: uint64)
    | Float(bits: uint64)
    | Str(s: string)
    | Arr(items: seq<Json>)
    | Obj(members: map<string, Json>)

  /* ---- conversions between number types ---- */

  // x times 2 to the k.
  function Scale(x: real, k: int): real
    decreases if k < 0 then -k else k
  {
    if k > 0 then Scale(2.0 * x, k - 1) else if k < 0 then Scale(x / 2.0, k + 1) else x
  }

  // The IEEE 754 reading of 64 bits: sign, 11 bits of exponent, 52 bits of mantissa.
  function FromBits(bits: uint64): Double {
    var sign := bits / 0x8000_0000_0000_0000;
    var e, m := bits / 0x10_0000_0000_0000 % 2048, bits % 0x10_0000_0000_0000;
    if e == 2047 then (if m != 0 then NaN else if sign == 1 then NegInf else PosInf)
    else
      var x := if e == 0 then Scale(m as real, -1074) else Scale((0x10_0000_0000_0000 + m) as real, e - 1075);
      Finite(if sign == 1 then -x else x)
  }

  // The distance between doubles just below twice m.
  function Spacing(m: nat): (r: nat)
    ensures r > 0
  {
    if m < 0x20_0000_0000_0000 then 1 else 2 * Spacing(m / 2)
  }

  // To the nearest double, to the even one when two are equally near.
  function Nearest(m: nat): nat {
    var e := Spacing(m);
    var q, r := m / e, m % e;
    if 2 * r < e || (2 * r == e && q % 2 == 0) then q * e else (q + 1) * e
  }

  function ToDouble(i: int): Double {
    Finite(if i < 0 then -(Nearest(-i) as real) else Nearest(i) as real)
  }

  // The cast of an unsigned number to a signed one wraps.
  function ToSigned(u: uint64): int64 {
    if u < 0x8000_0000_0000_0000 then u else u - 0x1_0000_0000_0000_0000
  }

  predicate SameDouble(a: Double, b: Double) { a != NaN && a == b }

  /* ---- equality ---- */

  predicate Eq(a: Json, b: Json)
    decreases a
  {
    match (a, b)
    case (Null, Null) => true
    case (Bool(x), Bool(y)) => x == y
    case (Int(x), Int(y)) => x == y
    case (Uint(x), Uint(y)) => x == y
    case (Float(x), Float(y)) => SameDouble(FromBits(x), FromBits(y))
    case (Int(x), Float(y)) => SameDouble(ToDouble(x), FromBits(y))
    case (Float(x), Int(y)) => SameDouble(FromBits(x), ToDouble(y))
    case (Uint(x), Float(y)) => SameDouble(ToDouble(x), FromBits(y))
    case (Float(x), Uint(y)) => SameDouble(FromBits(x), ToDouble(y))
    case (Uint(x), Int(y)) => ToSigned(x) == y
    case (Int(x), Uint(y)) => x == ToSigned(y)
    case (Str(x), Str(y)) => x == y
    case (Arr(x), Arr(y)) => |x| == |y| && forall i :: 0 <= i < |x| ==> Eq(x[i], y[i])
    case (Obj(x), Obj(y)) => x.Keys == y.Keys && forall k :: k in x ==> Eq(x[k], y[k])
    case _ => false
  }

  predicate NoNaN(a: Json) {
    match a
    case Float(bits) => FromBits(bits) != NaN
    case Arr(x) => forall i :: 0 <= i < |x| ==> NoNaN(x[i])
    case Obj(x) => forall k :: k in x ==> NoNaN(x[k])
    case _ => true
  }

  /** A value equals itself, or anything at all, exactly if it holds no NaN. */
  lemma {:induction false} EqualToSelf(a: Json)
    ensures Eq(a, a) <==> NoNaN(a)
  {
    match a
    case Arr(x) =>
      forall i | 0 <= i < |x| ensures Eq(x[i], x[i]) <==> NoNaN(x[i]) { EqualToSelf(x[i]); }
    case Obj(x) =>
      forall k | k in x ensures Eq(x[k], x[k]) <==> NoNaN(x[k]) { EqualToSelf(x[k]); }
    case _ =>
  }

  lemma {:induction false} EqualHasNoNaN(a: Json, b: Json)
    requires Eq(a, b)
    ensures NoNaN(b)
    decreases a
  {
    match (a, b)
    case (Arr(x), Arr(y)) =>
      forall i | 0 <= i < |y| ensures NoNaN(y[i]) { EqualHasNoNaN(x[i], y[i]); }
    case (Obj(x), Obj(y)) =>
      forall k | k in y ensures NoNaN(y[k]) { EqualHasNoNaN(x[k], y[k]); }
    case _ =>
  }

  function Pow2(n: nat): real { if n == 0 then 1.0 else 2.0 * Pow2(n - 1) }

  lemma {:induction false} ScaledBack(n: nat)
    ensures Scale(Pow2(n), 0 - n) == 1.0
  {
    if n > 0 { ScaledBack(n - 1); }
  }

  const MINUS_ONE: uint64 := 0xBFF0_0000_0000_0000

  lemma MinusOne()
    ensures FromBits(MINUS_ONE) == Finite(-1.0)
  {
    var p := 13;
    assert Pow2(p) == 8192.0;
    Pow2Sum(p, p);
    Pow2Sum(2 * p, 2 * p);
    ScaledBack(4 * p);
  }

  lemma {:induction false} Pow2Sum(m: nat, n: nat)
    ensures Pow2(m + n) == Pow2(m) * Pow2(n)
  {
    if m > 0 { Pow2Sum(m - 1, n); }
  }

  // Equality is not transitive: the cast of an unsigned number to a signed one wraps.
  lemma EqualityIsNotTransitive()
    ensures var a, b, c := Float(MINUS_ONE), Int(-1), Uint(0xFFFF_FFFF_FFFF_FFFF);
            Eq(a, b) && Eq(b, c) && !Eq(a, c)
  {
    MinusOne();
    hide FromBits;
  }

  /* ---- exactly when equality is transitive ---- */

  // Up to here every integer is a double.
  const EXACT: nat := 0x20_0000_0000_0000

  // Every signed number lies between -m and m, and every unsigned one is at most n.
  predicate Within(a: Json, m: nat, n: nat) {
    match a
    case Int(i) => -(m as int) <= i <= m
    case Uint(u) => u <= n
    case Arr(x) => forall i :: 0 <= i < |x| ==> Within(x[i], m, n)
    case Obj(x) => forall k :: k in x ==> Within(x[k], m, n)
    case _ => true
  }

  ghost predicate Transitive(m: nat, n: nat) {
    forall a, b, c ::
      Within(a, m, n) && Within(b, m, n) && Within(c, m, n) && Eq(a, b) && Eq(b, c) ==> Eq(a, c)
  }

  lemma NearestIsExact(m: nat)
    requires m <= EXACT
    ensures Nearest(m) == m
  {
    if m == EXACT { assert Spacing(m) == 2 * Spacing(m / 2) == 2; }
  }

  predicate IsNumber(a: Json) { a.Int? || a.Uint? || a.Float? }

  // The one double a small number stands for.
  function NumberOf(a: Json): Double
    requires IsNumber(a)
  {
    match a
    case Int(i) => Finite(i as real)
    case Uint(u) => Finite(u as real)
    case Float(bits) => FromBits(bits)
  }

  lemma SmallNumbersCompare(a: Json, b: Json)
    requires IsNumber(a) && IsNumber(b) && Within(a, EXACT, EXACT) && Within(b, EXACT, EXACT)
    ensures Eq(a, b) <==> SameDouble(NumberOf(a), NumberOf(b))
  {
    hide FromBits, Nearest;
    if a.Int? { NearestIsExact(if a.i < 0 then -a.i else a.i); }
    if b.Int? { NearestIsExact(if b.i < 0 then -b.i else b.i); }
    if a.Uint? { NearestIsExact(a.u); }
    if b.Uint? { NearestIsExact(b.u); }
  }

  lemma NumbersStayNumbers(a: Json, b: Json)
    requires Eq(a, b)
    ensures IsNumber(a) <==> IsNumber(b)
  {
  }

  lemma {:induction false} SmallIsTransitive(a: Json, b: Json, c: Json)
    requires Within(a, EXACT, EXACT) && Within(b, EXACT, EXACT) && Within(c, EXACT, EXACT) && Eq(a, b) && Eq(b, c)
    ensures Eq(a, c)
    decreases a
  {
    hide FromBits, ToDouble, ToSigned;
    NumbersStayNumbers(a, b);
    NumbersStayNumbers(b, c);
    if IsNumber(a) {
      SmallNumbersCompare(a, b);
      SmallNumbersCompare(b, c);
      SmallNumbersCompare(a, c);
    } else if a.Arr? {
      forall i | 0 <= i < |a.items| ensures Eq(a.items[i], c.items[i]) {
        SmallIsTransitive(a.items[i], b.items[i], c.items[i]);
      }
    } else if a.Obj? {
      forall k | k in a.members ensures Eq(a.members[k], c.members[k]) {
        SmallIsTransitive(a.members[k], b.members[k], c.members[k]);
      }
    }
  }

  // A value with each number as the double it stands for.
  datatype Form =
    | FNull
    | FBool(b: bool)
    | FNumber(d: Double)
    | FStr(s: string)
    | FArr(items: seq<Form>)
    | FObj(members: map<string, Form>)

  function FormOf(a: Json): Form {
    match a
    case Null => FNull
    case Bool(b) => FBool(b)
    case Str(s) => FStr(s)
    case Arr(x) => FArr(seq(|x|, i requires 0 <= i < |x| => FormOf(x[i])))
    case Obj(x) => FObj(map k | k in x :: FormOf(x[k]))
    case _ => FNumber(NumberOf(a))
  }

  /** Among values whose integers are doubles and that hold no NaN, equality is sameness of form. */
  lemma {:induction false} EqualIsSameForm(a: Json, b: Json)
    requires Within(a, EXACT, EXACT) && Within(b, EXACT, EXACT) && NoNaN(a)
    ensures Eq(a, b) <==> FormOf(a) == FormOf(b)
    decreases a, 1
  {
    hide FromBits, ToDouble, ToSigned, Within, NoNaN;
    if IsNumber(a) && IsNumber(b) {
      SmallNumbersCompare(a, b);
      NumberIsNotNaN(a);
    } else if a.Arr? && b.Arr? && |a.items| == |b.items| {
      ArraysSameForm(a, b);
    } else if a.Obj? && b.Obj? && a.members.Keys == b.members.Keys {
      ObjectsSameForm(a, b);
    } else {
      SizesOfForm(a);
      SizesOfForm(b);
    }
  }

  lemma NumberIsNotNaN(a: Json)
    requires NoNaN(a) && IsNumber(a)
    ensures NumberOf(a) != NaN
  {
  }

  lemma SizesOfForm(a: Json)
    ensures a.Obj? <==> FormOf(a).FObj?
    ensures a.Arr? <==> FormOf(a).FArr?
    ensures IsNumber(a) <==> FormOf(a).FNumber?
    ensures a.Obj? ==> FormOf(a).members.Keys == a.members.Keys
    ensures a.Arr? ==> |FormOf(a).items| == |a.items|
  {
  }

  lemma ArraysSameForm(a: Json, b: Json)
    requires Within(a, EXACT, EXACT) && Within(b, EXACT, EXACT) && NoNaN(a)
    requires a.Arr? && b.Arr? && |a.items| == |b.items|
    ensures Eq(a, b) <==> FormOf(a) == FormOf(b)
    decreases a, 0
  {
    hide FromBits, ToDouble, ToSigned;
    var f, g := FormOf(a).items, FormOf(b).items;
    forall i | 0 <= i < |a.items| ensures Eq(a.items[i], b.items[i]) <==> f[i] == g[i] {
      EqualIsSameForm(a.items[i], b.items[i]);
    }
    assert f == g <==> forall i :: 0 <= i < |a.items| ==> f[i] == g[i];
  }

  lemma ObjectsSameForm(a: Json, b: Json)
    requires Within(a, EXACT, EXACT) && Within(b, EXACT, EXACT) && NoNaN(a)
    requires a.Obj? && b.Obj? && a.members.Keys == b.members.Keys
    ensures Eq(a, b) <==> FormOf(a) == FormOf(b)
    decreases a, 0
  {
    hide FromBits, ToDouble, ToSigned;
    forall k | k in a.members
      ensures Eq(a.members[k], b.members[k]) <==> FormOf(a.members[k]) == FormOf(b.members[k])
    {
      EqualIsSameForm(a.members[k], b.members[k]);
    }
    hide Within, NoNaN;
    MembersSameForm(a.members, b.members);
  }

  lemma MembersSameForm(x: map<string, Json>, y: map<string, Json>)
    requires x.Keys == y.Keys
    ensures FormOf(Obj(x)) == FormOf(Obj(y)) <==> forall k :: k in x ==> FormOf(x[k]) == FormOf(y[k])
  {
    var f, g := FormOf(Obj(x)).members, FormOf(Obj(y)).members;
    assert f.Keys == x.Keys && g.Keys == y.Keys;
    assert forall k :: k in x ==> f[k] == FormOf(x[k]) && g[k] == FormOf(y[k]);
    assert FormOf(Obj(x)) == FObj(f) && FormOf(Obj(y)) == FObj(g);
    hide FormOf;
    if forall k :: k in x ==> FormOf(x[k]) == FormOf(y[k]) { SameMaps(f, g); }
  }

  lemma SameMaps<T>(f: map<string, T>, g: map<string, T>)
    requires f.Keys == g.Keys && forall k :: k in f ==> f[k] == g[k]
    ensures f == g
  {
  }

  lemma {:induction false} WithinGrows(a: Json, m: nat, n: nat)
    requires Within(a, m, n) && m <= EXACT && n <= EXACT
    ensures Within(a, EXACT, EXACT)
  {
    match a
    case Arr(x) => forall i | 0 <= i < |x| ensures Within(x[i], EXACT, EXACT) { WithinGrows(x[i], m, n); }
    case Obj(x) => forall k | k in x ensures Within(x[k], EXACT, EXACT) { WithinGrows(x[k], m, n); }
    case _ =>
  }

  const BITS_OF_EXACT: uint64 := 0x4340_0000_0000_0000

  // The first integer that is no double, and the double it is rounded to.
  lemma FirstGap()
    ensures FromBits(BITS_OF_EXACT) == Finite(EXACT as real)
    ensures ToDouble(EXACT) == Finite(EXACT as real) == ToDouble(EXACT + 1)
  {
    var h := 0x10_0000_0000_0000;
    assert Scale(h as real, 1) == Scale(2.0 * h as real, 0) == EXACT as real;
    NearestIsExact(EXACT);
    assert Spacing(EXACT + 1) == 2 * Spacing(h) == 2;
  }

  /** Equality is transitive on all values within the bounds if and only if both bounds are at most 2^53. */
  lemma TransitiveExactly(m: nat, n: nat)
    ensures Transitive(m, n) <==> m <= EXACT && n <= EXACT
  {
    hide FromBits, ToDouble;
    FirstGap();
    var f := Float(BITS_OF_EXACT);
    if m > EXACT {
      var a, c := Int(EXACT), Int(EXACT + 1);
      assert Within(a, m, n) && Within(f, m, n) && Within(c, m, n) && Eq(a, f) && Eq(f, c) && !Eq(a, c);
    } else if n > EXACT {
      var a, c := Uint(EXACT), Uint(EXACT + 1);
      assert Within(a, m, n) && Within(f, m, n) && Within(c, m, n) && Eq(a, f) && Eq(f, c) && !Eq(a, c);
    } else {
      forall a, b, c | Within(a, m, n) && Within(b, m, n) && Within(c, m, n) && Eq(a, b) && Eq(b, c)
        ensures Eq(a, c)
      {
        WithinGrows(a, m, n);
        WithinGrows(b, m, n);
        WithinGrows(c, m, n);
        SmallIsTransitive(a, b, c);
      }
    }
  }

  /* ---- the keys of an object in order ---- */

  // The order in which an object's members are visited.
  function Keys(m: map<string, Json>): (ks: seq<string>)
    ensures |ks| == |m| && forall k :: k in ks <==> k in m
  {
    SortedKeysHolds(m.Keys);
    SortedKeys(m.Keys)
  }

  lemma KeysDistinct(m: map<string, Json>)
    ensures forall i, j :: 0 <= i < j < |Keys(m)| ==> Keys(m)[i] != Keys(m)[j]
  {
    SortedKeysHolds(m.Keys);
    forall i, j | 0 <= i < j < |Keys(m)| ensures Keys(m)[i] != Keys(m)[j] {
      RankOrder(Keys(m)[i], Keys(m)[j]);
    }
  }
}
