/** Encoded values as trees: every way the two binary formats have to write a value, not only the shortest. */
module JsonWire {
  import opened ByteOrder
  import opened JsonValue
  import opened JsonBinary

  // The bytes of a scalar; a head and the bytes of a string; a head, parts and an end. The parts of `Pairs`
  // are members, which are no values by themselves.
  datatype Wire =
    | Leaf(bytes: Bytes, j: Json)
    | Text(head: Bytes, s: string)
    | Chunks(head: Bytes, parts: seq<Wire>, tail: Bytes)
    | Items(head: Bytes, parts: seq<Wire>, tail: Bytes)
    | Pairs(head: Bytes, parts: seq<Wire>, tail: Bytes)
    | Member(key: Wire, val: Wire)

  function Write(w: Wire): Bytes
    decreases w
  {
    match w
    case Leaf(bytes, _) => bytes
    case Text(head, s) => head + s
    case Chunks(head, parts, tail) => head + (WriteAll(parts) + tail)
    case Items(head, parts, tail) => head + (WriteAll(parts) + tail)
    case Pairs(head, parts, tail) => head + (WriteAll(parts) + tail)
    case Member(key, val) => Write(key) + Write(val)
  }

  function WriteAll(ps: seq<Wire>): Bytes
    decreases ps
  {
    if ps == [] then [] else Write(ps[0]) + WriteAll(ps[1..])
  }

  function TextOf(j: Json): string { if j.Str? then j.s else "" }

  // The value written.
  function Value(w: Wire): Json
    decreases w
  {
    match w
    case Leaf(_, j) => j
    case Text(_, s) => Str(s)
    case Chunks(_, parts, _) => Str(Joined(parts))
    case Items(_, parts, _) => Arr(Values(parts))
    case Pairs(_, parts, _) => Obj(Paired(parts, map[]))
    case Member(_, val) => Value(val)
  }

  function Joined(ps: seq<Wire>): string
    decreases ps
  {
    if ps == [] then "" else TextOf(Value(ps[0])) + Joined(ps[1..])
  }

  function Values(ps: seq<Wire>): (r: seq<Json>)
    ensures |r| == |ps|
    decreases ps
  {
    if ps == [] then [] else [Value(ps[0])] + Values(ps[1..])
  }

  function Key(w: Wire): string
    decreases w
  {
    if w.Member? then TextOf(Value(w.key)) else ""
  }

  // A key that comes again overwrites.
  function Paired(ps: seq<Wire>, got: map<string, Json>): map<string, Json>
    decreases ps
  {
    if ps == [] then got else Paired(ps[1..], got[Key(ps[0]) := Value(ps[0])])
  }

  lemma FirstOf(ps: seq<Wire>)
    requires ps != []
    ensures WriteAll(ps) == Write(ps[0]) + WriteAll(ps[1..])
    ensures Values(ps) == [Value(ps[0])] + Values(ps[1..]) && Joined(ps) == TextOf(Value(ps[0])) + Joined(ps[1..])
  {
  }

  lemma WithFirst(w: Wire, rest: seq<Wire>, got: seq<Json>, text: string, map0: map<string, Json>)
    ensures var ps := [w] + rest;
            && WriteAll(ps) == Write(w) + WriteAll(rest) && got + Values(ps) == (got + [Value(w)]) + Values(rest)
            && text + Joined(ps) == (text + TextOf(Value(w))) + Joined(rest)
            && Paired(ps, map0) == Paired(rest, map0[Key(w) := Value(w)])
  {
    var ps := [w] + rest;
    assert ps[1..] == rest;
    FirstOf(ps);
    Join(got, [Value(w)], Values(rest));
    Join(text, TextOf(Value(w)), Joined(rest));
  }

  lemma NoParts(got: seq<Json>, text: string)
    ensures WriteAll([]) == [] && got + Values([]) == got && text + Joined([]) == text
  {
  }

  lemma Join<T>(a: seq<T>, b: seq<T>, c: seq<T>)
    ensures a + (b + c) == (a + b) + c
  {
  }

  lemma HoldsTogether(v: Bytes, i: nat, a: Bytes, b: Bytes)
    requires Holds(v, i, a) && Holds(v, i + |a|, b)
    ensures Holds(v, i, a + b)
  {
    assert v[i..i + |a + b|] == v[i..i + |a|] + v[i + |a|..i + |a| + |b|];
  }

  // A number that was read stands there.
  lemma IntWritten(v: Bytes, i: nat, k: nat)
    requires IsBytes(v) && i < |v| && ReadInt(v, i, k).Ok?
    ensures ReadInt(v, i, k).value < Pow256(k) && Holds(v, i, [v[i]] + Be(ReadInt(v, i, k).value, k))
  {
    var s := v[i + 1..i + 1 + k];
    BeOfUnBe(s);
    assert v[i..i + 1 + k] == [v[i]] + s;
  }
}
