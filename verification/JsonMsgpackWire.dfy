/** What the MessagePack decoder accepts: every number and every size in any width that holds it, and nothing else. */
module JsonMsgpackWire {
  import opened ByteOrder
  import opened JsonValue
  import opened JsonPointer
  import opened JsonBinary
  import opened JsonMsgpack
  import opened JsonWire

  predicate Wide(b: Bytes, tag: nat, n: nat, k: nat)
    requires tag < 256
  {
    n < Pow256(k) && b == Tagged(tag, n, k)
  }

  predicate IsNatural(b: Bytes, n: nat) {
    (n < 128 && b == [n as char]) || Wide(b, 0xcc, n, 1) || Wide(b, 0xcd, n, 2) || Wide(b, 0xce, n, 4) || Wide(b, 0xcf, n, 8)
  }

  // i in two's complement of k bytes.
  predicate Twos(b: Bytes, tag: nat, i: int, k: nat)
    requires tag < 256
  {
    -(Pow256(k) as int) <= 2 * i < Pow256(k) && b == Tagged(tag, if i < 0 then Pow256(k) + i else i, k)
  }

  predicate IsInteger(b: Bytes, i: int) {
    || (-32 <= i < 0 && b == [(0x100 + i) as char])
    || Twos(b, 0xd0, i, 1) || Twos(b, 0xd1, i, 2) || Twos(b, 0xd2, i, 4) || Twos(b, 0xd3, i, 8)
  }

  predicate IsTextHead(b: Bytes, n: nat) {
    (n < 32 && b == [(0xa0 + n) as char]) || Wide(b, 0xd9, n, 1) || Wide(b, 0xda, n, 2) || Wide(b, 0xdb, n, 4)
  }

  predicate IsArrayHead(b: Bytes, n: nat) {
    (n < 16 && b == [(0x90 + n) as char]) || Wide(b, 0xdc, n, 2) || Wide(b, 0xdd, n, 4)
  }

  predicate IsMapHead(b: Bytes, n: nat) {
    (n < 16 && b == [(0x80 + n) as char]) || Wide(b, 0xde, n, 2) || Wide(b, 0xdf, n, 4)
  }

  predicate Scalar(b: Bytes, j: Json) {
    match j
    case Null => b == [0xc0 as char]
    case Bool(x) => b == [if x then 0xc3 as char else 0xc2 as char]
    case Uint(u) => IsNatural(b, u)
    case Int(i) => IsInteger(b, i)
    case Float(bits) => b == Tagged(0xcb, bits, 8)
    case _ => false
  }

  // Well-formed MessagePack, of the kinds the decoder knows.
  ghost predicate Valid(w: Wire)
    decreases w
  {
    match w
    case Leaf(bytes, j) => Scalar(bytes, j)
    case Text(head, s) => IsTextHead(head, |s|)
    case Items(head, ps, tail) => IsArrayHead(head, |ps|) && tail == [] && forall i :: 0 <= i < |ps| ==> Valid(ps[i])
    case Pairs(head, ps, tail) => IsMapHead(head, |ps|) && tail == [] && forall i :: 0 <= i < |ps| ==> ValidMember(ps[i])
    case _ => false
  }

  ghost predicate ValidMember(w: Wire)
    decreases w
  {
    w.Member? && Valid(w.key) && Valid(w.val) && Value(w.key).Str?
  }

  ghost predicate ValidAll(ps: seq<Wire>) { forall i :: 0 <= i < |ps| ==> Valid(ps[i]) }

  ghost predicate ValidMembers(ps: seq<Wire>) { forall i :: 0 <= i < |ps| ==> ValidMember(ps[i]) }

  /* ---- every such encoding is read ---- */

  lemma NaturalReads(b: Bytes, n: uint64, v: Bytes, i: nat)
    requires IsNatural(b, n) && Holds(v, i, b)
    ensures Dec(v, i) == Ok((Uint(n), i + |b|))
  {
    hide Tagged, DecItems, DecPairs;
    if n < 128 && b == [n as char] { ByteBack(n, v, i); }
    else if Wide(b, 0xcc, n, 1) { TaggedBack(0xcc, n, 1, v, i); }
    else if Wide(b, 0xcd, n, 2) { TaggedBack(0xcd, n, 2, v, i); }
    else if Wide(b, 0xce, n, 4) { TaggedBack(0xce, n, 4, v, i); }
    else { TaggedBack(0xcf, n, 8, v, i); }
  }

  lemma TwosReads(b: Bytes, tag: nat, x: int64, k: nat, v: Bytes, i: nat)
    requires tag < 256 && Twos(b, tag, x, k) && Holds(v, i, b)
    ensures i + 1 + k <= |v| && v[i] as int == tag && |b| == 1 + k
    ensures ReadInt(v, i, k).Ok? && Signed(ReadInt(v, i, k).value, k) == x
  {
    hide Tagged;
    TaggedBack(tag, if x < 0 then Pow256(k) + x else x, k, v, i);
  }

  lemma IntegerReads(b: Bytes, x: int64, v: Bytes, i: nat)
    requires IsInteger(b, x) && Holds(v, i, b)
    ensures Dec(v, i) == Ok((Int(x), i + |b|))
  {
    hide Tagged, DecItems, DecPairs, Signed, ReadInt, Twos;
    if -32 <= x < 0 && b == [(0x100 + x) as char] { ByteBack(0x100 + x, v, i); }
    else if Twos(b, 0xd0, x, 1) { TwosReads(b, 0xd0, x, 1, v, i); }
    else if Twos(b, 0xd1, x, 2) { TwosReads(b, 0xd1, x, 2, v, i); }
    else if Twos(b, 0xd2, x, 4) { TwosReads(b, 0xd2, x, 4, v, i); }
    else { TwosReads(b, 0xd3, x, 8, v, i); }
  }

  lemma ScalarReads(b: Bytes, j: Json, v: Bytes, i: nat)
    requires Scalar(b, j) && Holds(v, i, b)
    ensures Dec(v, i) == Ok((j, i + |b|))
  {
    hide IsNatural, IsInteger, Dec, Tagged, Holds;
    match j
    case Null => ByteValueBack(0xc0, v, i);
    case Bool(x) => ByteValueBack(if x then 0xc3 else 0xc2, v, i);
    case Float(bits) => BitsBack(bits, v, i);
    case Uint(u) => NaturalReads(b, u, v, i);
    case Int(x) => IntegerReads(b, x, v, i);
    case _ =>
  }

  lemma TextHeadReads(b: Bytes, n: nat, v: Bytes, i: nat)
    requires IsTextHead(b, n) && Holds(v, i, b)
    ensures i < |v| && |b| > 0 && ReadLead(v, i) == Lead.Text(n, |b| - 1)
  {
    hide Tagged;
    if n < 32 && b == [(0xa0 + n) as char] { ByteBack(0xa0 + n, v, i); }
    else if Wide(b, 0xd9, n, 1) { TaggedBack(0xd9, n, 1, v, i); }
    else if Wide(b, 0xda, n, 2) { TaggedBack(0xda, n, 2, v, i); }
    else { TaggedBack(0xdb, n, 4, v, i); }
  }

  lemma ArrayHeadReads(b: Bytes, n: nat, v: Bytes, i: nat)
    requires IsArrayHead(b, n) && Holds(v, i, b)
    ensures i < |v| && |b| > 0 && ReadLead(v, i) == Lead.Items(n, |b| - 1)
  {
    hide Tagged;
    if n < 16 && b == [(0x90 + n) as char] { ByteBack(0x90 + n, v, i); }
    else if Wide(b, 0xdc, n, 2) { TaggedBack(0xdc, n, 2, v, i); }
    else { TaggedBack(0xdd, n, 4, v, i); }
  }

  lemma MapHeadReads(b: Bytes, n: nat, v: Bytes, i: nat)
    requires IsMapHead(b, n) && Holds(v, i, b)
    ensures i < |v| && |b| > 0 && ReadLead(v, i) == Lead.Pairs(n, |b| - 1)
  {
    hide Tagged;
    if n < 16 && b == [(0x80 + n) as char] { ByteBack(0x80 + n, v, i); }
    else if Wide(b, 0xde, n, 2) { TaggedBack(0xde, n, 2, v, i); }
    else { TaggedBack(0xdf, n, 4, v, i); }
  }

  lemma TextReads(head: Bytes, s: string, v: Bytes, i: nat)
    requires IsTextHead(head, |s|) && Holds(v, i, head + s)
    ensures Dec(v, i) == Ok((Str(s), i + |head + s|))
  {
    hide IsTextHead, ReadLead, DecItems, DecPairs;
    HoldsParts(v, i, head, s);
    TextHeadReads(head, |s|, v, i);
  }

  // A container's head leads to its parts.
  lemma HeadReads(head: Bytes, n: nat, rest: Bytes, v: Bytes, i: nat)
    requires Holds(v, i, head + (rest + []))
    ensures IsArrayHead(head, n) || IsMapHead(head, n) ==> i + |head| <= |v| && Holds(v, i + |head|, rest)
    ensures IsArrayHead(head, n) ==> Dec(v, i) == DecItems(v, i + |head|, n, [])
    ensures IsMapHead(head, n) ==> Dec(v, i) == DecPairs(v, i + |head|, n, map[])
  {
    hide IsArrayHead, IsMapHead, ReadLead, DecItems, DecPairs;
    assert rest + [] == rest;
    HoldsParts(v, i, head, rest);
    HoldsEnd(v, i + |head|, rest);
    if IsArrayHead(head, n) { ArrayHeadReads(head, n, v, i); }
    if IsMapHead(head, n) { MapHeadReads(head, n, v, i); }
  }

  /** Whatever widths an encoding uses, and whatever stands before and after it, the decoder reads the value
      written and stops right after it. */
  lemma {:induction false} Reads(w: Wire, v: Bytes, i: nat)
    requires Valid(w) && Holds(v, i, Write(w))
    ensures Dec(v, i) == Ok((Value(w), i + |Write(w)|))
    decreases w
  {
    hide Dec, Scalar, Holds, WriteAll, Values, Paired, DecItems, DecPairs, IsTextHead, IsArrayHead, IsMapHead;
    match w
    case Leaf(b, j) => ScalarReads(b, j, v, i);
    case Text(head, s) => TextReads(head, s, v, i);
    case Items(head, ps, tail) =>
      HeadReads(head, |ps|, WriteAll(ps), v, i);
      ItemsRead(ps, v, i + |head|, []);
      assert [] + Values(ps) == Values(ps);
    case Pairs(head, ps, tail) =>
      HeadReads(head, |ps|, WriteAll(ps), v, i);
      PairsRead(ps, v, i + |head|, map[]);
    case _ =>
  }

  lemma {:induction false} ItemsRead(ps: seq<Wire>, v: Bytes, i: nat, got: seq<Json>)
    requires ValidAll(ps) && i <= |v| && Holds(v, i, WriteAll(ps))
    ensures DecItems(v, i, |ps|, got) == Ok((Arr(got + Values(ps)), i + |WriteAll(ps)|))
    decreases ps
  {
    hide Dec, Valid, Holds, Write, Value;
    if ps != [] {
      HoldsParts(v, i, Write(ps[0]), WriteAll(ps[1..]));
      Reads(ps[0], v, i);
      ItemsRead(ps[1..], v, i + |Write(ps[0])|, got + [Value(ps[0])]);
      Join(got, [Value(ps[0])], Values(ps[1..]));
    } else {
      assert got + Values(ps) == got;
    }
  }

  lemma MemberReads(w: Wire, v: Bytes, i: nat) returns (i1: nat)
    requires ValidMember(w) && Holds(v, i, Write(w))
    ensures Dec(v, i) == Ok((Str(Key(w)), i1)) && Dec(v, i1) == Ok((Value(w), i + |Write(w)|))
    decreases w, 0
  {
    hide Dec, Valid, Holds;
    match w
    case Member(k, x) =>
      i1 := i + |Write(k)|;
      HoldsParts(v, i, Write(k), Write(x));
      Reads(k, v, i);
      Reads(x, v, i1);
    case _ =>
  }

  lemma PairReads(w: Wire, rest: Bytes, n: nat, v: Bytes, i: nat, got: map<string, Json>)
    requires ValidMember(w) && n > 0 && i <= |v| && Holds(v, i, Write(w) + rest)
    ensures var i2 := i + |Write(w)|;
            i2 <= |v| && Holds(v, i2, rest) && DecPairs(v, i, n, got) == DecPairs(v, i2, n - 1, got[Key(w) := Value(w)])
    decreases w, 1
  {
    hide Dec, DecPairs, ValidMember, Holds, Value, Write, Key;
    HoldsParts(v, i, Write(w), rest);
    var i1 := MemberReads(w, v, i);
    PairStep(v, i, n, got, Key(w), Value(w), i1, i + |Write(w)|);
  }

  lemma {:induction false} PairsRead(ps: seq<Wire>, v: Bytes, i: nat, got: map<string, Json>)
    requires ValidMembers(ps) && i <= |v| && Holds(v, i, WriteAll(ps))
    ensures DecPairs(v, i, |ps|, got) == Ok((Obj(Paired(ps, got)), i + |WriteAll(ps)|))
    decreases ps
  {
    hide Dec, DecPairs, ValidMember, Holds, Value, Write, Key;
    if ps == [] {
      PairsNone(v, i, got);
    } else {
      PairReads(ps[0], WriteAll(ps[1..]), |ps|, v, i, got);
      PairsRead(ps[1..], v, i + |Write(ps[0])|, got[Key(ps[0]) := Value(ps[0])]);
    }
  }

  /* ---- and nothing else is ---- */

  // The bytes before the parts of a container or the characters of a string.
  function HeadAt(v: Bytes, i: nat, k: nat): Bytes
    requires i + 1 + k <= |v|
  {
    v[i..i + 1 + k]
  }

  lemma TagWritten(v: Bytes, i: nat, k: nat)
    requires IsBytes(v) && i < |v| && ReadInt(v, i, k).Ok?
    ensures i + 1 + k <= |v| && Wide(HeadAt(v, i, k), v[i] as nat, ReadInt(v, i, k).value, k)
    ensures Holds(v, i, HeadAt(v, i, k)) && |HeadAt(v, i, k)| == 1 + k
  {
    IntWritten(v, i, k);
  }

  lemma LeadWritten(v: Bytes, i: nat)
    requires IsBytes(v) && i < |v|
    ensures var l := ReadLead(v, i);
            && (l.Whole? ==> Scalar([v[i]], l.j))
            && (l.Natural? || l.Integer? ==> l.k == 1 || l.k == 2 || l.k == 4 || l.k == 8)
            && (l.Natural? ==> v[i] as int == if l.k == 1 then 0xcc else if l.k == 2 then 0xcd else if l.k == 4 then 0xce else 0xcf)
            && (l.Integer? ==> v[i] as int == if l.k == 1 then 0xd0 else if l.k == 2 then 0xd1 else if l.k == 4 then 0xd2 else 0xd3)
            && (l.Double? ==> v[i] == 0xcb as char)
  {
  }

  lemma TextHeadWritten(v: Bytes, i: nat, n: nat, k: nat)
    requires IsBytes(v) && i < |v| && ReadLead(v, i) == Lead.Text(n, k) && i + 1 + k <= |v|
    ensures IsTextHead(HeadAt(v, i, k), n)
  {
    if k > 0 { TagWritten(v, i, k); } else { assert HeadAt(v, i, 0) == [v[i]]; }
    hide Tagged, ReadInt, HeadAt;
  }

  lemma ItemsHeadWritten(v: Bytes, i: nat, n: nat, k: nat)
    requires IsBytes(v) && i < |v| && ReadLead(v, i) == Lead.Items(n, k) && i + 1 + k <= |v|
    ensures IsArrayHead(HeadAt(v, i, k), n)
  {
    if k > 0 { TagWritten(v, i, k); } else { assert HeadAt(v, i, 0) == [v[i]]; }
    hide Tagged, ReadInt, HeadAt;
  }

  lemma PairsHeadWritten(v: Bytes, i: nat, n: nat, k: nat)
    requires IsBytes(v) && i < |v| && ReadLead(v, i) == Lead.Pairs(n, k) && i + 1 + k <= |v|
    ensures IsMapHead(HeadAt(v, i, k), n)
  {
    if k > 0 { TagWritten(v, i, k); } else { assert HeadAt(v, i, 0) == [v[i]]; }
    hide Tagged, ReadInt, HeadAt;
  }

  lemma SignedIsTwos(b: Bytes, tag: nat, n: nat, k: nat)
    requires tag < 256 && k > 0 && n < Pow256(k) && b == Tagged(tag, n, k)
    ensures Twos(b, tag, Signed(n, k), k)
  {
    hide Tagged;
    assert Pow256(k) == 256 * Pow256(k - 1);
  }

  lemma NumberWritten(v: Bytes, i: nat) returns (w: Wire)
    requires IsBytes(v) && i < |v| && Dec(v, i).Ok? && (ReadLead(v, i).Natural? || ReadLead(v, i).Integer? || ReadLead(v, i).Double?)
    ensures Valid(w) && Holds(v, i, Write(w)) && Dec(v, i) == Ok((Value(w), i + |Write(w)|))
  {
    var k := if ReadLead(v, i).Double? then 8 else ReadLead(v, i).k;
    var n, j := ReadInt(v, i, k), Dec(v, i).value.0;
    assert n.Ok? && Dec(v, i).value.1 == i + 1 + k;
    assert j == if ReadLead(v, i).Natural? then Uint(ToUint64(n.value))
                else if ReadLead(v, i).Integer? then Int(ToInt64(Signed(n.value, k)))
                else Float(ToUint64(n.value));
    LeadWritten(v, i);
    TagWritten(v, i, k);
    var b := HeadAt(v, i, k);
    w := Leaf(b, j);
    hide Dec, ReadLead, Tagged, HeadAt, ReadInt, Holds;
    Widths();
    if j.Int? {
      SignedIsTwos(b, v[i] as nat, n.value, k);
      hide Twos, Signed;
    }
    assert Scalar(b, j);
  }

  lemma TextWritten(v: Bytes, i: nat, n: nat, k: nat) returns (w: Wire)
    requires IsBytes(v) && i < |v| && Dec(v, i).Ok? && ReadLead(v, i) == Lead.Text(n, k)
    ensures Valid(w) && Holds(v, i, Write(w)) && Dec(v, i) == Ok((Value(w), i + |Write(w)|))
  {
    assert i + 1 + k + n <= |v| && Dec(v, i) == Ok((Str(v[i + 1 + k..i + 1 + k + n]), i + 1 + k + n));
    TextHeadWritten(v, i, n, k);
    var head, s := HeadAt(v, i, k), v[i + 1 + k..i + 1 + k + n];
    w := Wire.Text(head, s);
    HoldsTogether(v, i, head, s);
  }

  /** Whatever the decoder accepts is such an encoding of the value it returns. */
  lemma {:induction false} Written(v: Bytes, i: nat) returns (w: Wire)
    requires IsBytes(v) && Dec(v, i).Ok?
    ensures Valid(w) && Holds(v, i, Write(w)) && Dec(v, i) == Ok((Value(w), i + |Write(w)|))
    decreases |v| - i, 0
  {
    hide Dec, Valid, Holds, Value, Write, IsBytes, ReadLead;
    DecStarts(v, i);
    match ReadLead(v, i)
    case Whole(j) => w := WholeWritten(v, i);
    case Text(n, k) => w := TextWritten(v, i, n, k);
    case Items(n, k) => w := ArrayWritten(v, i, n, k);
    case Pairs(n, k) => w := MapWritten(v, i, n, k);
    case Bad(e) =>
    case _ => w := NumberWritten(v, i);
  }

  lemma DecStarts(v: Bytes, i: nat)
    requires Dec(v, i).Ok?
    ensures i < |v| && !ReadLead(v, i).Bad?
  {
    hide ReadLead, DecItems, DecPairs;
  }

  lemma WholeWritten(v: Bytes, i: nat) returns (w: Wire)
    requires IsBytes(v) && i < |v| && ReadLead(v, i).Whole?
    ensures Valid(w) && Holds(v, i, Write(w)) && Dec(v, i) == Ok((Value(w), i + |Write(w)|))
  {
    LeadWritten(v, i);
    hide ReadLead, Scalar, DecItems, DecPairs;
    w := Leaf([v[i]], ReadLead(v, i).j);
  }

  // Where the parts of a container start.
  lemma ItemsStart(v: Bytes, i: nat, n: nat, k: nat)
    requires IsBytes(v) && i < |v| && Dec(v, i).Ok? && ReadLead(v, i) == Lead.Items(n, k)
    ensures i + 1 + k <= |v| && Holds(v, i, HeadAt(v, i, k))
    ensures Dec(v, i) == DecItems(v, i + 1 + k, n, []) && IsArrayHead(HeadAt(v, i, k), n)
  {
    hide ReadLead, DecItems, DecPairs, IsArrayHead;
    ItemsHeadWritten(v, i, n, k);
  }

  lemma PairsStart(v: Bytes, i: nat, n: nat, k: nat)
    requires IsBytes(v) && i < |v| && Dec(v, i).Ok? && ReadLead(v, i) == Lead.Pairs(n, k)
    ensures i + 1 + k <= |v| && Holds(v, i, HeadAt(v, i, k))
    ensures Dec(v, i) == DecPairs(v, i + 1 + k, n, map[]) && IsMapHead(HeadAt(v, i, k), n)
  {
    hide ReadLead, DecItems, DecPairs, IsMapHead;
    PairsHeadWritten(v, i, n, k);
  }

  lemma MakesContainer(head: Bytes, ps: seq<Wire>)
    ensures IsArrayHead(head, |ps|) && ValidAll(ps) ==> Valid(Wire.Items(head, ps, []))
    ensures IsMapHead(head, |ps|) && ValidMembers(ps) ==> Valid(Wire.Pairs(head, ps, []))
    ensures Value(Wire.Items(head, ps, [])) == Arr([] + Values(ps))
    ensures WriteAll(ps) + [] == WriteAll(ps)
  {
    assert [] + Values(ps) == Values(ps);
  }

  lemma ArrayWritten(v: Bytes, i: nat, n: nat, k: nat) returns (w: Wire)
    requires IsBytes(v) && i < |v| && Dec(v, i).Ok? && ReadLead(v, i) == Lead.Items(n, k)
    ensures Valid(w) && Holds(v, i, Write(w)) && Dec(v, i) == Ok((Value(w), i + |Write(w)|))
    decreases |v| - i - 1, 3
  {
    hide Dec, DecItems, Holds, WriteAll, Values, Valid, ValidAll, ReadLead, IsArrayHead;
    ItemsStart(v, i, n, k);
    var head := HeadAt(v, i, k);
    var ps := ItemsWritten(v, i + 1 + k, n, []);
    w := Wire.Items(head, ps, []);
    MakesContainer(head, ps);
    HoldsTogether(v, i, head, WriteAll(ps));
  }

  lemma MapWritten(v: Bytes, i: nat, n: nat, k: nat) returns (w: Wire)
    requires IsBytes(v) && i < |v| && Dec(v, i).Ok? && ReadLead(v, i) == Lead.Pairs(n, k)
    ensures Valid(w) && Holds(v, i, Write(w)) && Dec(v, i) == Ok((Value(w), i + |Write(w)|))
    decreases |v| - i - 1, 3
  {
    hide Dec, DecPairs, Holds, WriteAll, Paired, Valid, ValidMembers, ReadLead, IsMapHead;
    PairsStart(v, i, n, k);
    var head := HeadAt(v, i, k);
    var ps := PairsWritten(v, i + 1 + k, n, map[]);
    w := Wire.Pairs(head, ps, []);
    MakesContainer(head, ps);
    HoldsTogether(v, i, head, WriteAll(ps));
  }

  lemma {:induction false} ItemsWritten(v: Bytes, i: nat, n: nat, got: seq<Json>) returns (ps: seq<Wire>)
    requires IsBytes(v) && i <= |v| && DecItems(v, i, n, got).Ok?
    ensures |ps| == n && ValidAll(ps) && Holds(v, i, WriteAll(ps))
    ensures DecItems(v, i, n, got) == Ok((Arr(got + Values(ps)), i + |WriteAll(ps)|))
    decreases |v| - i, 1
  {
    hide Dec, Valid, Write, Value;
    if n == 0 {
      ps := [];
      NoParts(got, "");
    } else {
      hide Holds;
      var w := Written(v, i);
      var rest := ItemsWritten(v, i + |Write(w)|, n - 1, got + [Value(w)]);
      ps := [w] + rest;
      WithFirst(w, rest, got, "", map[]);
      HoldsTogether(v, i, Write(w), WriteAll(rest));
    }
  }

  lemma MemberWritten(v: Bytes, i: nat, i1: nat) returns (w: Wire)
    requires IsBytes(v) && Dec(v, i).Ok? && Dec(v, i).value.0.Str? && i1 == Dec(v, i).value.1 && Dec(v, i1).Ok?
    ensures ValidMember(w) && Holds(v, i, Write(w)) && Str(Key(w)) == Dec(v, i).value.0
    ensures Dec(v, i1) == Ok((Value(w), i + |Write(w)|)) && |Write(w)| > 0
    decreases |v| - i, 1
  {
    hide Dec, Valid, Holds;
    var k := Written(v, i);
    var x := Written(v, i1);
    w := Member(k, x);
    HoldsTogether(v, i, Write(k), Write(x));
  }

  lemma {:induction false} PairsWritten(v: Bytes, i: nat, n: nat, got: map<string, Json>) returns (ps: seq<Wire>)
    requires IsBytes(v) && i <= |v| && DecPairs(v, i, n, got).Ok?
    ensures |ps| == n && ValidMembers(ps) && Holds(v, i, WriteAll(ps))
    ensures DecPairs(v, i, n, got) == Ok((Obj(Paired(ps, got)), i + |WriteAll(ps)|))
    decreases |v| - i, 2
  {
    hide Dec, ValidMember, Write, Value, Key;
    if n == 0 {
      ps := [];
    } else {
      hide Holds;
      var w := MemberWritten(v, i, Dec(v, i).value.1);
      var i2 := i + |Write(w)|;
      PairStep(v, i, n, got, Key(w), Value(w), Dec(v, i).value.1, i2);
      hide DecPairs;
      var rest := PairsWritten(v, i2, n - 1, got[Key(w) := Value(w)]);
      ps := [w] + rest;
      WithFirst(w, rest, [], "", got);
      HoldsTogether(v, i, Write(w), WriteAll(rest));
    }
  }

  // x is written at i, in some form, up to e.
  ghost predicate WrittenAt(v: Bytes, i: nat, x: Json, e: nat) {
    exists w :: Valid(w) && Holds(v, i, Write(w)) && Value(w) == x && e == i + |Write(w)|
  }

  /** The decoder returns a value exactly if the value is written there, in any of the forms. */
  lemma DecodesExactly(v: Bytes, i: nat, x: Json, e: nat)
    requires IsBytes(v)
    ensures Dec(v, i) == Ok((x, e)) <==> WrittenAt(v, i, x, e)
  {
    hide Dec, Valid, Holds, Write, Value;
    if Dec(v, i) == Ok((x, e)) {
      var w := Written(v, i);
    } else if WrittenAt(v, i, x, e) {
      var w :| Valid(w) && Holds(v, i, Write(w)) && Value(w) == x && e == i + |Write(w)|;
      Reads(w, v, i);
    }
  }
}
