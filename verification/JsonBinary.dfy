/** What the two binary formats have in common: slices, normal forms, and the encoding of sequences. */
module JsonBinary {
  import opened Lexicographic
  import opened ByteOrder
  import opened JsonValue
  import opened JsonPointer

  // v holds e at i.
  predicate Holds(v: Bytes, i: nat, e: Bytes) { i + |e| <= |v| && v[i..i + |e|] == e }

  lemma HoldsEnd(v: Bytes, i: nat, e: Bytes)
    requires Holds(v, i, e)
    ensures i + |e| <= |v|
  {
  }

  lemma HoldsParts(v: Bytes, i: nat, a: Bytes, b: Bytes)
    requires Holds(v, i, a + b)
    ensures Holds(v, i, a) && Holds(v, i + |a|, b)
  {
    var e := a + b;
    assert v[i..i + |a|] == v[i..i + |e|][..|a|] == a;
    assert v[i + |a|..i + |e|] == v[i..i + |e|][|a|..] == b;
  }

  lemma HoldsByte(v: Bytes, i: nat, c: char, b: Bytes)
    requires Holds(v, i, [c] + b)
    ensures i < |v| && v[i] == c && Holds(v, i + 1, b)
  {
    HoldsParts(v, i, [c], b);
    assert v[i..i + 1][0] == v[i];
  }

  // std::vector::at and get_from_vector: the k bytes after place i.
  function ReadInt(v: Bytes, i: nat, k: nat): Outcome<nat> {
    if i + k + 1 > |v| then Fail(OutOfRange) else Ok(UnBe(v[i + 1..i + 1 + k]))
  }

  // get_from_vector: the bytes come most significant first.
  method GetFromVector(v: Bytes, i: nat, k: nat) returns (r: Outcome<nat>)
    ensures r == ReadInt(v, i, k)
  {
    if i + k + 1 > |v| { return Fail(OutOfRange); }
    var n := 0;
    for j := 0 to k
      invariant n == UnBe(v[i + 1..i + 1 + j])
    {
      assert v[i + 1..i + 1 + (j + 1)][..j] == v[i + 1..i + 1 + j];
      n := 256 * n + v[i + 1 + j] as int;
    }
    r := Ok(n);
  }

  lemma ReadBack(v: Bytes, i: nat, c: char, n: nat, k: nat)
    requires n < Pow256(k) && Holds(v, i, [c] + Be(n, k))
    ensures ReadInt(v, i, k) == Ok(n)
  {
    HoldsByte(v, i, c, Be(n, k));
    BeRoundTrip(n, k);
  }

  lemma Widths()
    ensures Pow256(1) == 0x100 && Pow256(2) == 0x1_0000 && Pow256(4) == 0x1_0000_0000
    ensures Pow256(8) == 0x1_0000_0000_0000_0000
  {
    assert Pow256(1) == 256 * Pow256(0);
    assert Pow256(2) == 256 * Pow256(1);
    assert Pow256(4) == 256 * Pow256(3) == 256 * 256 * Pow256(2);
    Pow256Of8();
  }

  // Neither format tells a non-negative signed number from an unsigned one.
  function Normal(j: Json): Json {
    match j
    case Int(i) => if i >= 0 then Uint(i) else j
    case Arr(x) => Arr(seq(|x|, i requires 0 <= i < |x| => Normal(x[i])))
    case Obj(m) => Obj(map k | k in m :: Normal(m[k]))
    case _ => j
  }

  /** The normal form equals the value, if that holds no NaN. */
  lemma {:induction false} NormalEqual(j: Json)
    requires NoNaN(j)
    ensures Eq(Normal(j), j)
  {
    match j
    case Arr(x) =>
      forall i | 0 <= i < |x| ensures Eq(Normal(j).items[i], x[i]) { NormalEqual(x[i]); }
    case Obj(m) =>
      forall k | k in m ensures Eq(Normal(j).members[k], m[k]) { NormalEqual(m[k]); }
    case _ => EqualToSelf(j);
  }

  // The members of m with keys ks, put into an object one after the other.
  function Gathered(m: map<string, Json>, ks: seq<string>): map<string, Json>
    requires forall k :: k in ks ==> k in m
  {
    map k | k in m && k in ks :: Normal(m[k])
  }

  lemma GatheredMore(m: map<string, Json>, ks: seq<string>, got: map<string, Json>)
    requires ks != [] && forall k :: k in ks ==> k in m
    ensures got[ks[0] := Normal(m[ks[0]])] + Gathered(m, ks[1..]) == got + Gathered(m, ks)
  {
    hide Normal;
    var a, b := got[ks[0] := Normal(m[ks[0]])] + Gathered(m, ks[1..]), got + Gathered(m, ks);
    forall k ensures k in a <==> k in b { }
    forall k | k in a ensures a[k] == b[k] { }
  }

  lemma GatheredAll(m: map<string, Json>, ks: seq<string>)
    requires forall k :: k in ks <==> k in m
    ensures Obj(map[] + Gathered(m, ks)) == Normal(Obj(m))
  {
    assert map[] + Gathered(m, ks) == Normal(Obj(m)).members;
  }

  lemma GatheredNone(m: map<string, Json>, got: map<string, Json>)
    ensures got + Gathered(m, []) == got
  {
  }
}
