/** What the CBOR decoder accepts: the encodings of RFC 7049 in any width, sized or open-ended, and nothing else. */
module JsonCborWire {
  import opened ByteOrder
  import opened JsonValue
  import opened JsonPointer
  import opened JsonBinary
  import opened JsonCbor
  import opened JsonWire

  predicate Fits(n: nat, k: nat) {
    (k == 0 && n < 24) || ((k == 1 || k == 2 || k == 4 || k == 8) && n < Pow256(k))
  }

  function Info(k: nat): nat { if k == 1 then 24 else if k == 2 then 25 else if k == 4 then 26 else 27 }

  // A head that gives its number k bytes of its own, or none.
  function HeadOf(major: nat, n: nat, k: nat): Bytes
    requires major < 8 && Fits(n, k)
  {
    if k == 0 then [(32 * major + n) as char] else [(32 * major + Info(k)) as char] + Be(n, k)
  }

  ghost predicate IsHead(head: Bytes, major: nat, n: nat)
    requires major < 8
  {
    exists k :: Fits(n, k) && head == HeadOf(major, n, k)
  }

  const BREAK: Bytes := [0xff as char]

  // Sized, or open up to a break.
  ghost predicate Framed(head: Bytes, tail: Bytes, major: nat, n: nat)
    requires major < 7
  {
    (IsHead(head, major, n) && tail == []) || (head == [(32 * major + 31) as char] && tail == BREAK)
  }

  ghost predicate Scalar(b: Bytes, j: Json) {
    match j
    case Null => b == [0xf6 as char]
    case Bool(x) => b == [if x then 0xf5 as char else 0xf4 as char]
    case Uint(u) => IsHead(b, 0, u)
    case Int(i) => exists n: uint64 :: IsHead(b, 1, n) && i == -1 - ToSigned(n)
    case Float(bits) => b == [0xfb as char] + Be(bits, 8)
    case _ => false
  }

  // Well-formed CBOR, of the kinds the decoder knows.
  ghost predicate Valid(w: Wire)
    decreases w
  {
    match w
    case Leaf(bytes, j) => Scalar(bytes, j)
    case Text(head, s) => IsHead(head, 3, |s|)
    case Chunks(head, ps, tail) =>
      head == [0x7f as char] && tail == BREAK && forall i :: 0 <= i < |ps| ==> Valid(ps[i]) && Value(ps[i]).Str?
    case Items(head, ps, tail) => Framed(head, tail, 4, |ps|) && forall i :: 0 <= i < |ps| ==> Valid(ps[i])
    case Pairs(head, ps, tail) =>
      Framed(head, tail, 5, |ps|) && forall i :: 0 <= i < |ps| ==> ValidMember(ps[i])
    case Member(_, _) => false
  }

  // A member has a key of text, in one piece or in chunks.
  ghost predicate ValidMember(w: Wire)
    decreases w
  {
    w.Member? && Valid(w.key) && Valid(w.val) && Value(w.key).Str?
  }

  ghost predicate ValidAll(ps: seq<Wire>) { forall i :: 0 <= i < |ps| ==> Valid(ps[i]) }

  ghost predicate ValidMembers(ps: seq<Wire>) { forall i :: 0 <= i < |ps| ==> ValidMember(ps[i]) }

  /* ---- every such encoding is read ---- */

  lemma HeadReads(major: nat, n: nat, head: Bytes, v: Bytes, i: nat)
    requires major < 8 && IsHead(head, major, n) && Holds(v, i, head)
    ensures i < |v| && v[i] as int / 32 == major && v[i] as int % 32 <= 27 && n <= MAX64
    ensures ReadHead(v, i) == Ok((n, |head|)) && |head| > 0 && head[0] == v[i]
  {
    Widths();
    var k :| Fits(n, k) && head == HeadOf(major, n, k);
    if k > 0 {
      HoldsByte(v, i, (32 * major + Info(k)) as char, Be(n, k));
      ReadBack(v, i, (32 * major + Info(k)) as char, n, k);
    } else {
      assert [(32 * major + n) as char] + [] == head;
      HoldsByte(v, i, (32 * major + n) as char, []);
    }
  }

  lemma ScalarReads(b: Bytes, j: Json, v: Bytes, i: nat)
    requires Scalar(b, j) && Holds(v, i, b)
    ensures Dec(v, i) == Ok((j, i + |b|))
  {
    hide IsHead, ReadHead;
    match j
    case Null => ByteBack(0xf6, v, i);
    case Bool(x) => ByteBack(if x then 0xf5 else 0xf4, v, i);
    case Float(bits) => BitsBack(bits, v, i);
    case Uint(u) => HeadReads(0, u, b, v, i);
    case Int(x) =>
      var n: uint64 :| IsHead(b, 1, n) && x == -1 - ToSigned(n);
      HeadReads(1, n, b, v, i);
    case _ =>
  }

  lemma TextReads(head: Bytes, s: string, v: Bytes, i: nat)
    requires IsHead(head, 3, |s|) && Holds(v, i, head + s)
    ensures Dec(v, i) == Ok((Str(s), i + |head + s|))
  {
    hide IsHead, ReadHead;
    HoldsParts(v, i, head, s);
    HeadReads(3, |s|, head, v, i);
  }

  // The first byte of an open-ended form, and the break that ends it.
  lemma OpenReads(major: nat, v: Bytes, i: nat, rest: Bytes)
    requires 3 <= major <= 5 && Holds(v, i, [(32 * major + 31) as char] + rest)
    ensures i < |v| && Holds(v, i + 1, rest)
    ensures major == 3 ==> Dec(v, i) == DecTexts(v, i + 1, "")
    ensures major == 4 ==> Dec(v, i) == DecItemsUntil(v, i + 1, [])
    ensures major == 5 ==> Dec(v, i) == DecPairsUntil(v, i + 1, map[])
  {
    HoldsByte(v, i, (32 * major + 31) as char, rest);
    hide DecTexts, DecItemsUntil, DecPairsUntil;
  }

  lemma BreakReads(v: Bytes, i: nat)
    requires Holds(v, i, BREAK)
    ensures i < |v| && v[i] == 0xff as char
  {
    OneByteFirst(0xff as char, v, i);
  }

  lemma FirstByte(w: Wire, v: Bytes, i: nat)
    requires Valid(w) && Holds(v, i, Write(w))
    ensures i < |v| && v[i] != 0xff as char
  {
    match w
    case Leaf(b, j) => ScalarFirst(b, j, v, i);
    case Text(head, s) => HoldsParts(v, i, head, s); HeadReads(3, |s|, head, v, i);
    case Chunks(head, ps, tail) => HoldsByte(v, i, 0x7f as char, WriteAll(ps) + tail);
    case Items(head, ps, tail) => FramedFirst(head, tail, 4, |ps|, v, i, WriteAll(ps) + tail);
    case Pairs(head, ps, tail) => FramedFirst(head, tail, 5, |ps|, v, i, WriteAll(ps) + tail);
  }

  lemma ScalarFirst(b: Bytes, j: Json, v: Bytes, i: nat)
    requires Scalar(b, j) && Holds(v, i, b)
    ensures i < |v| && v[i] != 0xff as char
  {
    match j
    case Uint(u) => HeadReads(0, u, b, v, i);
    case Int(x) =>
      var n: uint64 :| IsHead(b, 1, n) && x == -1 - ToSigned(n);
      HeadReads(1, n, b, v, i);
    case Float(bits) => HoldsByte(v, i, 0xfb as char, Be(bits, 8));
    case Null => OneByteFirst(0xf6 as char, v, i);
    case Bool(x) => OneByteFirst(if x then 0xf5 as char else 0xf4 as char, v, i);
    case _ =>
  }

  lemma OneByteFirst(c: char, v: Bytes, i: nat)
    requires Holds(v, i, [c])
    ensures i < |v| && v[i] == c
  {
    assert [c] == [c] + [];
    HoldsByte(v, i, c, []);
  }

  lemma FramedFirst(head: Bytes, tail: Bytes, major: nat, n: nat, v: Bytes, i: nat, rest: Bytes)
    requires 4 <= major <= 5 && Framed(head, tail, major, n) && Holds(v, i, head + rest)
    ensures i < |v| && v[i] != 0xff as char
  {
    if IsHead(head, major, n) {
      HoldsParts(v, i, head, rest);
      HeadReads(major, n, head, v, i);
    } else {
      HoldsByte(v, i, (32 * major + 31) as char, rest);
    }
  }

  /** Whatever widths and forms an encoding uses, and whatever stands before and after it, the decoder reads the
      value written and stops right after it. */
  lemma {:induction false} Reads(w: Wire, v: Bytes, i: nat)
    requires Valid(w) && Holds(v, i, Write(w))
    ensures Dec(v, i) == Ok((Value(w), i + |Write(w)|))
    decreases w
  {
    hide Dec, Scalar, IsHead, Holds, ReadHead, WriteAll, Joined, Values, Paired, DecItems, DecPairs;
    match w
    case Leaf(b, j) => ScalarReads(b, j, v, i);
    case Text(head, s) => TextReads(head, s, v, i);
    case Chunks(head, ps, tail) =>
      OpenReads(3, v, i, WriteAll(ps) + tail);
      ChunksRead(ps, v, i + 1, "");
      assert "" + Joined(ps) == Joined(ps);
    case Items(head, ps, tail) =>
      if tail == [] {
        SizedReads(4, |ps|, head, WriteAll(ps), v, i);
        ItemsRead(ps, v, i + |head|, []);
      } else {
        OpenReads(4, v, i, WriteAll(ps) + tail);
        OpenItemsRead(ps, v, i + 1, []);
      }
      assert [] + Values(ps) == Values(ps);
    case Pairs(head, ps, tail) =>
      if tail == [] {
        SizedReads(5, |ps|, head, WriteAll(ps), v, i);
        PairsRead(ps, v, i + |head|, map[]);
      } else {
        OpenReads(5, v, i, WriteAll(ps) + tail);
        OpenPairsRead(ps, v, i + 1, map[]);
      }
  }

  lemma SizedReads(major: nat, n: nat, head: Bytes, rest: Bytes, v: Bytes, i: nat)
    requires 4 <= major <= 5 && IsHead(head, major, n) && Holds(v, i, head + (rest + []))
    ensures i < |v| && i + |head| <= |v| && Holds(v, i + |head|, rest)
    ensures major == 4 ==> Dec(v, i) == DecItems(v, i + |head|, n, [])
    ensures major == 5 ==> Dec(v, i) == DecPairs(v, i + |head|, n, map[])
  {
    hide IsHead, ReadHead, Dec;
    assert rest + [] == rest;
    HoldsParts(v, i, head, rest);
    HeadReads(major, n, head, v, i);
    DecAfterHead(major, n, |head|, v, i);
  }

  lemma {:induction false} ItemsRead(ps: seq<Wire>, v: Bytes, i: nat, got: seq<Json>)
    requires ValidAll(ps) && i <= |v| && Holds(v, i, WriteAll(ps))
    ensures DecItems(v, i, |ps|, got) == Ok((Arr(got + Values(ps)), i + |WriteAll(ps)|))
    decreases ps
  {
    hide Dec, Valid, Holds, Write, Value;
    if ps != [] {
      HoldsParts(v, i, Write(ps[0]), WriteAll(ps[1..]));
      Reads(ps[0], v, i);
      ItemsRead(ps[1..], v, i + |Write(ps[0])|, got + [Value(ps[0])]);
      Join(got, [Value(ps[0])], Values(ps[1..]));
    } else {
      assert got + Values(ps) == got;
    }
  }

  lemma {:induction false} OpenItemsRead(ps: seq<Wire>, v: Bytes, i: nat, got: seq<Json>)
    requires ValidAll(ps) && i <= |v| && Holds(v, i, WriteAll(ps) + BREAK)
    ensures DecItemsUntil(v, i, got) == Ok((Arr(got + Values(ps)), i + |WriteAll(ps) + BREAK|))
    decreases ps
  {
    hide Dec, Valid, Holds, Write, Value;
    if ps != [] {
      Join(Write(ps[0]), WriteAll(ps[1..]), BREAK);
      HoldsParts(v, i, Write(ps[0]), WriteAll(ps[1..]) + BREAK);
      FirstByte(ps[0], v, i);
      Reads(ps[0], v, i);
      OpenItemsRead(ps[1..], v, i + |Write(ps[0])|, got + [Value(ps[0])]);
      Join(got, [Value(ps[0])], Values(ps[1..]));
    } else {
      assert WriteAll(ps) + BREAK == BREAK && got + Values(ps) == got;
      BreakReads(v, i);
    }
  }

  lemma {:induction false} ChunksRead(ps: seq<Wire>, v: Bytes, i: nat, got: string)
    requires ValidAll(ps) && (forall k :: 0 <= k < |ps| ==> Value(ps[k]).Str?)
    requires i <= |v| && Holds(v, i, WriteAll(ps) + BREAK)
    ensures DecTexts(v, i, got) == Ok((Str(got + Joined(ps)), i + |WriteAll(ps) + BREAK|))
    decreases ps
  {
    hide Dec, Valid, Holds, Write, Value;
    if ps != [] {
      Join(Write(ps[0]), WriteAll(ps[1..]), BREAK);
      HoldsParts(v, i, Write(ps[0]), WriteAll(ps[1..]) + BREAK);
      FirstByte(ps[0], v, i);
      Reads(ps[0], v, i);
      ChunksRead(ps[1..], v, i + |Write(ps[0])|, got + TextOf(Value(ps[0])));
      Join(got, TextOf(Value(ps[0])), Joined(ps[1..]));
    } else {
      assert WriteAll(ps) + BREAK == BREAK && got + Joined(ps) == got;
      BreakReads(v, i);
    }
  }

  lemma MemberReads(w: Wire, v: Bytes, i: nat) returns (i1: nat)
    requires ValidMember(w) && Holds(v, i, Write(w))
    ensures Dec(v, i) == Ok((Str(Key(w)), i1)) && Dec(v, i1) == Ok((Value(w), i + |Write(w)|))
    decreases w, 0
  {
    hide Dec, Valid, Holds;
    match w
    case Member(k, x) =>
      i1 := i + |Write(k)|;
      HoldsParts(v, i, Write(k), Write(x));
      Reads(k, v, i);
      Reads(x, v, i1);
    case _ =>
  }

  lemma PairReads(w: Wire, rest: Bytes, n: nat, v: Bytes, i: nat, got: map<string, Json>)
    requires ValidMember(w) && n > 0 && i <= |v| && Holds(v, i, Write(w) + rest)
    ensures var i2 := i + |Write(w)|;
            i2 <= |v| && Holds(v, i2, rest) && DecPairs(v, i, n, got) == DecPairs(v, i2, n - 1, got[Key(w) := Value(w)])
    decreases w, 1
  {
    hide Dec, DecPairs, ValidMember, Holds, Value, Write, Key;
    HoldsParts(v, i, Write(w), rest);
    var i1 := MemberReads(w, v, i);
    PairStep(v, i, n, got, Key(w), Value(w), i1, i + |Write(w)|);
  }

  lemma {:induction false} PairsRead(ps: seq<Wire>, v: Bytes, i: nat, got: map<string, Json>)
    requires ValidMembers(ps) && i <= |v| && Holds(v, i, WriteAll(ps))
    ensures DecPairs(v, i, |ps|, got) == Ok((Obj(Paired(ps, got)), i + |WriteAll(ps)|))
    decreases ps
  {
    hide Dec, DecPairs, ValidMember, Holds, Value, Write, Key;
    if ps == [] {
      PairsNone(v, i, got);
    } else {
      PairReads(ps[0], WriteAll(ps[1..]), |ps|, v, i, got);
      PairsRead(ps[1..], v, i + |Write(ps[0])|, got[Key(ps[0]) := Value(ps[0])]);
    }
  }

  lemma KeyFirst(w: Wire, v: Bytes, i: nat)
    requires ValidMember(w) && Holds(v, i, Write(w))
    ensures i < |v| && v[i] != 0xff as char
  {
    hide Valid, Holds;
    HoldsParts(v, i, Write(w.key), Write(w.val));
    FirstByte(w.key, v, i);
  }

  lemma OpenPairStep(v: Bytes, i: nat, got: map<string, Json>, k: string, x: Json, i1: nat, i2: nat)
    requires i < |v| && v[i] != 0xff as char && Dec(v, i) == Ok((Str(k), i1)) && Dec(v, i1) == Ok((x, i2))
    ensures i2 <= |v| && DecPairsUntil(v, i, got) == DecPairsUntil(v, i2, got[k := x])
  {
    hide Dec;
  }

  lemma OpenPairReads(w: Wire, rest: Bytes, v: Bytes, i: nat, got: map<string, Json>)
    requires ValidMember(w) && i <= |v| && Holds(v, i, Write(w) + rest)
    ensures var i2 := i + |Write(w)|;
            i2 <= |v| && Holds(v, i2, rest) && DecPairsUntil(v, i, got) == DecPairsUntil(v, i2, got[Key(w) := Value(w)])
    decreases w, 1
  {
    hide Dec, DecPairsUntil, ValidMember, Holds, Value, Write, Key;
    HoldsParts(v, i, Write(w), rest);
    KeyFirst(w, v, i);
    var i1 := MemberReads(w, v, i);
    OpenPairStep(v, i, got, Key(w), Value(w), i1, i + |Write(w)|);
  }

  lemma {:induction false} OpenPairsRead(ps: seq<Wire>, v: Bytes, i: nat, got: map<string, Json>)
    requires ValidMembers(ps) && i <= |v| && Holds(v, i, WriteAll(ps) + BREAK)
    ensures DecPairsUntil(v, i, got) == Ok((Obj(Paired(ps, got)), i + |WriteAll(ps) + BREAK|))
    decreases ps
  {
    hide Dec, ValidMember, Holds, Value, Write, Key;
    if ps == [] {
      assert WriteAll(ps) + BREAK == BREAK;
      BreakReads(v, i);
    } else {
      hide DecPairsUntil;
      Join(Write(ps[0]), WriteAll(ps[1..]), BREAK);
      OpenPairReads(ps[0], WriteAll(ps[1..]) + BREAK, v, i, got);
      OpenPairsRead(ps[1..], v, i + |Write(ps[0])|, got[Key(ps[0]) := Value(ps[0])]);
    }
  }

  /* ---- and nothing else is ---- */

  function Major(v: Bytes, i: nat): nat
    requires i < |v|
  {
    v[i] as int / 32
  }

  predicate IsOpen(v: Bytes, i: nat)
    requires i < |v|
  {
    v[i] as int % 32 == 31
  }

  lemma DecStarts(v: Bytes, i: nat)
    requires Dec(v, i).Ok?
    ensures i < |v| && Major(v, i) != 2
  {
  }

  lemma HeadWritten(v: Bytes, i: nat) returns (head: Bytes)
    requires IsBytes(v) && i < |v| && ReadHead(v, i).Ok?
    ensures Major(v, i) < 8 && IsHead(head, Major(v, i), ReadHead(v, i).value.0)
    ensures Holds(v, i, head) && |head| == ReadHead(v, i).value.1 && ReadHead(v, i).value.0 <= MAX64
  {
    Widths();
    var major, info, n := Major(v, i), v[i] as int % 32, ReadHead(v, i).value.0;
    if info < 24 {
      head := [v[i]];
      assert Fits(n, 0) && head == HeadOf(major, n, 0);
    } else {
      var k := if info == 24 then 1 else if info == 25 then 2 else if info == 26 then 4 else 8;
      IntWritten(v, i, k);
      head := [v[i]] + Be(n, k);
      assert Fits(n, k) && head == HeadOf(major, n, k);
    }
  }

  lemma SimpleWritten(v: Bytes, i: nat) returns (w: Wire)
    requires IsBytes(v) && i < |v| && Dec(v, i).Ok? && Major(v, i) >= 6
    ensures Valid(w) && Holds(v, i, Write(w)) && Dec(v, i) == Ok((Value(w), i + |Write(w)|))
  {
    var j := Dec(v, i).value.0;
    if v[i] == 0xfb as char {
      Widths();
      IntWritten(v, i, 8);
      w := Leaf([v[i]] + Be(ReadInt(v, i, 8).value, 8), j);
    } else {
      w := Leaf([v[i]], j);
    }
    assert Scalar(w.bytes, j);
  }

  lemma NumberWritten(v: Bytes, i: nat) returns (w: Wire)
    requires IsBytes(v) && i < |v| && Dec(v, i).Ok? && Major(v, i) <= 1
    ensures Valid(w) && Holds(v, i, Write(w)) && Dec(v, i) == Ok((Value(w), i + |Write(w)|))
  {
    assert i < |v| && ReadHead(v, i).Ok?;
    var head := HeadWritten(v, i);
    w := Leaf(head, Dec(v, i).value.0);
    hide IsHead, ReadHead;
    assert Scalar(head, w.j);
  }

  lemma TextWritten(v: Bytes, i: nat) returns (w: Wire)
    requires IsBytes(v) && i < |v| && Dec(v, i).Ok? && Major(v, i) == 3 && !IsOpen(v, i)
    ensures Valid(w) && Holds(v, i, Write(w)) && Dec(v, i) == Ok((Value(w), i + |Write(w)|))
  {
    assert ReadHead(v, i).Ok?;
    var head := HeadWritten(v, i);
    var n := ReadHead(v, i).value.0;
    hide IsHead, ReadHead;
    var s := v[i + |head|..i + |head| + n];
    w := Text(head, s);
    HoldsTogether(v, i, head, s);
  }

  // What a container's first byte leads to.
  lemma ContainerStarts(v: Bytes, i: nat)
    requires i < |v| && Dec(v, i).Ok? && 3 <= Major(v, i) <= 5
    ensures IsOpen(v, i) || ReadHead(v, i).Ok?
    ensures IsOpen(v, i) && Major(v, i) == 3 ==> Dec(v, i) == DecTexts(v, i + 1, "")
    ensures IsOpen(v, i) && Major(v, i) == 4 ==> Dec(v, i) == DecItemsUntil(v, i + 1, [])
    ensures IsOpen(v, i) && Major(v, i) == 5 ==> Dec(v, i) == DecPairsUntil(v, i + 1, map[])
    ensures !IsOpen(v, i) && Major(v, i) == 4 ==>
              Dec(v, i) == DecItems(v, i + ReadHead(v, i).value.1, ReadHead(v, i).value.0, [])
    ensures !IsOpen(v, i) && Major(v, i) == 5 ==>
              Dec(v, i) == DecPairs(v, i + ReadHead(v, i).value.1, ReadHead(v, i).value.0, map[])
  {
    hide DecTexts, DecItemsUntil, DecPairsUntil, DecItems, DecPairs, ReadHead;
  }

  lemma OpenWritten(v: Bytes, i: nat, rest: Bytes)
    requires i < |v| && Holds(v, i + 1, rest)
    ensures Holds(v, i, [v[i]] + rest)
  {
    HoldsTogether(v, i, [v[i]], rest);
  }

  /** Whatever the decoder accepts is such an encoding of the value it returns. */
  lemma {:induction false} Written(v: Bytes, i: nat) returns (w: Wire)
    requires IsBytes(v) && Dec(v, i).Ok?
    ensures Valid(w) && Holds(v, i, Write(w)) && Dec(v, i) == Ok((Value(w), i + |Write(w)|))
    decreases |v| - i, 0
  {
    hide Dec, Major, IsOpen, Valid, Holds, Value, Write, IsBytes;
    DecStarts(v, i);
    var major, open := Major(v, i), IsOpen(v, i);
    if major >= 6 {
      w := SimpleWritten(v, i);
    } else if major <= 1 {
      w := NumberWritten(v, i);
    } else if major == 3 && !open {
      w := TextWritten(v, i);
    } else if open {
      w := OpenContainerWritten(v, i);
    } else {
      w := SizedContainerWritten(v, i);
    }
  }

  // A head, parts and an end make a container.
  lemma MakesContainer(head: Bytes, ps: seq<Wire>, tail: Bytes)
    ensures Framed(head, tail, 4, |ps|) && ValidAll(ps) ==> Valid(Items(head, ps, tail))
    ensures Framed(head, tail, 5, |ps|) && ValidMembers(ps) ==> Valid(Pairs(head, ps, tail))
    ensures head == [0x7f as char] && tail == BREAK && ValidAll(ps) && (forall k :: 0 <= k < |ps| ==> Value(ps[k]).Str?) ==>
              Valid(Chunks(head, ps, tail))
    ensures Value(Items(head, ps, tail)) == Arr([] + Values(ps)) && Value(Chunks(head, ps, tail)) == Str("" + Joined(ps))
  {
    assert [] + Values(ps) == Values(ps) && "" + Joined(ps) == Joined(ps);
  }

  // The first byte says it.
  lemma OpenFrame(v: Bytes, i: nat, n: nat)
    requires i < |v| && 3 <= Major(v, i) <= 5 && IsOpen(v, i)
    ensures Major(v, i) == 3 ==> [v[i]] == [0x7f as char]
    ensures Major(v, i) > 3 ==> Framed([v[i]], BREAK, Major(v, i), n)
  {
  }

  lemma OpenContainerWritten(v: Bytes, i: nat) returns (w: Wire)
    requires IsBytes(v) && i < |v| && Dec(v, i).Ok? && 3 <= Major(v, i) <= 5 && IsOpen(v, i)
    ensures Valid(w) && Holds(v, i, Write(w)) && Dec(v, i) == Ok((Value(w), i + |Write(w)|))
    decreases |v| - i - 1, 4
  {
    hide Dec, DecItems, DecPairs, DecTexts, DecItemsUntil, DecPairsUntil, Holds, ReadHead, Major, IsOpen, Valid, Value, Write;
    ContainerStarts(v, i);
    if Major(v, i) == 3 {
      w := OpenTextWritten(v, i);
    } else if Major(v, i) == 4 {
      w := OpenArrayWritten(v, i);
    } else {
      w := OpenMapWritten(v, i);
    }
  }

  lemma OpenTextWritten(v: Bytes, i: nat) returns (w: Wire)
    requires IsBytes(v) && i < |v| && Dec(v, i).Ok? && Major(v, i) == 3 && IsOpen(v, i)
    requires Dec(v, i) == DecTexts(v, i + 1, "")
    ensures Valid(w) && Holds(v, i, Write(w)) && Dec(v, i) == Ok((Value(w), i + |Write(w)|))
    decreases |v| - i - 1, 3
  {
    hide Dec, DecTexts, Holds, WriteAll, Joined, Valid, ValidAll, Framed, Major, IsOpen;
    var ps := TextsWritten(v, i + 1, "");
    w := Chunks([v[i]], ps, BREAK);
    OpenFrame(v, i, |ps|);
    MakesContainer([v[i]], ps, BREAK);
    OpenWritten(v, i, WriteAll(ps) + BREAK);
  }

  lemma OpenArrayWritten(v: Bytes, i: nat) returns (w: Wire)
    requires IsBytes(v) && i < |v| && Dec(v, i).Ok? && Major(v, i) == 4 && IsOpen(v, i)
    requires Dec(v, i) == DecItemsUntil(v, i + 1, [])
    ensures Valid(w) && Holds(v, i, Write(w)) && Dec(v, i) == Ok((Value(w), i + |Write(w)|))
    decreases |v| - i - 1, 3
  {
    hide Dec, DecItemsUntil, Holds, WriteAll, Values, Valid, ValidAll, Framed, Major, IsOpen;
    var ps := OpenItemsWritten(v, i + 1, []);
    w := Items([v[i]], ps, BREAK);
    OpenFrame(v, i, |ps|);
    MakesContainer([v[i]], ps, BREAK);
    OpenWritten(v, i, WriteAll(ps) + BREAK);
  }

  lemma OpenMapWritten(v: Bytes, i: nat) returns (w: Wire)
    requires IsBytes(v) && i < |v| && Dec(v, i).Ok? && Major(v, i) == 5 && IsOpen(v, i)
    requires Dec(v, i) == DecPairsUntil(v, i + 1, map[])
    ensures Valid(w) && Holds(v, i, Write(w)) && Dec(v, i) == Ok((Value(w), i + |Write(w)|))
    decreases |v| - i - 1, 3
  {
    hide Dec, DecPairsUntil, Holds, WriteAll, Paired, Valid, ValidMembers, Framed, Major, IsOpen;
    var ps := OpenPairsWritten(v, i + 1, map[]);
    w := Pairs([v[i]], ps, BREAK);
    OpenFrame(v, i, |ps|);
    MakesContainer([v[i]], ps, BREAK);
    OpenWritten(v, i, WriteAll(ps) + BREAK);
  }

  lemma SizedContainerWritten(v: Bytes, i: nat) returns (w: Wire)
    requires IsBytes(v) && i < |v| && Dec(v, i).Ok? && 4 <= Major(v, i) <= 5 && !IsOpen(v, i)
    ensures Valid(w) && Holds(v, i, Write(w)) && Dec(v, i) == Ok((Value(w), i + |Write(w)|))
    decreases |v| - i - 1, 4
  {
    hide Dec, DecItems, DecPairs, DecTexts, DecItemsUntil, DecPairsUntil, Holds, ReadHead, IsHead, Major, IsOpen, Valid, Value, Write;
    ContainerStarts(v, i);
    var head := HeadWritten(v, i);
    HoldsEnd(v, i, head);
    if Major(v, i) == 4 {
      w := SizedItemsWritten(v, i, head, ReadHead(v, i).value.0);
    } else {
      w := SizedPairsWritten(v, i, head, ReadHead(v, i).value.0);
    }
  }

  lemma SizedItemsWritten(v: Bytes, i: nat, head: Bytes, n: nat) returns (w: Wire)
    requires IsBytes(v) && i + |head| <= |v| && head != [] && IsHead(head, 4, n) && Holds(v, i, head)
    requires Dec(v, i).Ok? && Dec(v, i) == DecItems(v, i + |head|, n, [])
    ensures Valid(w) && Holds(v, i, Write(w)) && Dec(v, i) == Ok((Value(w), i + |Write(w)|))
    decreases |v| - i - 1, 3
  {
    hide Dec, DecItems, Holds, WriteAll, Values, IsHead, Valid, ValidAll;
    var ps := ItemsWritten(v, i + |head|, n, []);
    w := Items(head, ps, []);
    MakesContainer(head, ps, []);
    assert WriteAll(ps) + [] == WriteAll(ps);
    HoldsTogether(v, i, head, WriteAll(ps));
  }

  lemma SizedPairsWritten(v: Bytes, i: nat, head: Bytes, n: nat) returns (w: Wire)
    requires IsBytes(v) && i + |head| <= |v| && head != [] && IsHead(head, 5, n) && Holds(v, i, head)
    requires Dec(v, i).Ok? && Dec(v, i) == DecPairs(v, i + |head|, n, map[])
    ensures Valid(w) && Holds(v, i, Write(w)) && Dec(v, i) == Ok((Value(w), i + |Write(w)|))
    decreases |v| - i - 1, 3
  {
    hide Dec, DecPairs, Holds, WriteAll, Paired, IsHead, Valid, ValidMembers;
    var ps := PairsWritten(v, i + |head|, n, map[]);
    w := Pairs(head, ps, []);
    MakesContainer(head, ps, []);
    assert WriteAll(ps) + [] == WriteAll(ps);
    HoldsTogether(v, i, head, WriteAll(ps));
  }

  lemma {:induction false} ItemsWritten(v: Bytes, i: nat, n: nat, got: seq<Json>) returns (ps: seq<Wire>)
    requires IsBytes(v) && i <= |v| && DecItems(v, i, n, got).Ok?
    ensures |ps| == n && ValidAll(ps) && Holds(v, i, WriteAll(ps))
    ensures DecItems(v, i, n, got) == Ok((Arr(got + Values(ps)), i + |WriteAll(ps)|))
    decreases |v| - i, 1
  {
    hide Dec, Valid, Write, Value;
    if n == 0 {
      ps := [];
      NoParts(got, "");
    } else {
      hide Holds;
      var w := Written(v, i);
      var rest := ItemsWritten(v, i + |Write(w)|, n - 1, got + [Value(w)]);
      ps := [w] + rest;
      WithFirst(w, rest, got, "", map[]);
      HoldsTogether(v, i, Write(w), WriteAll(rest));
    }
  }

  lemma MemberWritten(v: Bytes, i: nat, i1: nat) returns (w: Wire)
    requires IsBytes(v) && Dec(v, i).Ok? && Dec(v, i).value.0.Str? && i1 == Dec(v, i).value.1 && Dec(v, i1).Ok?
    ensures ValidMember(w) && Holds(v, i, Write(w)) && Str(Key(w)) == Dec(v, i).value.0
    ensures Dec(v, i1) == Ok((Value(w), i + |Write(w)|)) && |Write(w)| > 0
    decreases |v| - i, 1
  {
    hide Dec, Valid, Holds;
    var k := Written(v, i);
    var x := Written(v, i1);
    w := Member(k, x);
    HoldsTogether(v, i, Write(k), Write(x));
  }

  lemma {:induction false} PairsWritten(v: Bytes, i: nat, n: nat, got: map<string, Json>) returns (ps: seq<Wire>)
    requires IsBytes(v) && i <= |v| && DecPairs(v, i, n, got).Ok?
    ensures |ps| == n && ValidMembers(ps) && Holds(v, i, WriteAll(ps))
    ensures DecPairs(v, i, n, got) == Ok((Obj(Paired(ps, got)), i + |WriteAll(ps)|))
    decreases |v| - i, 2
  {
    hide Dec, ValidMember, Write, Value, Key;
    if n == 0 {
      ps := [];
    } else {
      hide Holds;
      var w := MemberWritten(v, i, Dec(v, i).value.1);
      var i2 := i + |Write(w)|;
      PairStep(v, i, n, got, Key(w), Value(w), Dec(v, i).value.1, i2);
      hide DecPairs;
      var rest := PairsWritten(v, i2, n - 1, got[Key(w) := Value(w)]);
      ps := [w] + rest;
      WithFirst(w, rest, [], "", got);
      HoldsTogether(v, i, Write(w), WriteAll(rest));
    }
  }

  lemma {:induction false} TextsWritten(v: Bytes, i: nat, got: string) returns (ps: seq<Wire>)
    requires IsBytes(v) && i <= |v| && DecTexts(v, i, got).Ok?
    ensures ValidAll(ps) && (forall k :: 0 <= k < |ps| ==> Value(ps[k]).Str?) && Holds(v, i, WriteAll(ps) + BREAK)
    ensures DecTexts(v, i, got) == Ok((Str(got + Joined(ps)), i + |WriteAll(ps) + BREAK|))
    decreases |v| - i, 1
  {
    hide Dec, Valid, Holds, Write, Value;
    if v[i] == 0xff as char {
      ps := [];
      NoParts([], got);
      BreakWritten(v, i);
    } else {
      var w := Written(v, i);
      var rest := TextsWritten(v, i + |Write(w)|, got + TextOf(Value(w)));
      ps := [w] + rest;
      WithFirst(w, rest, [], got, map[]);
      Join(Write(w), WriteAll(rest), BREAK);
      HoldsTogether(v, i, Write(w), WriteAll(rest) + BREAK);
    }
  }

  lemma BreakWritten(v: Bytes, i: nat)
    requires i < |v| && v[i] == 0xff as char
    ensures Holds(v, i, [] + BREAK)
  {
  }

  lemma {:induction false} OpenItemsWritten(v: Bytes, i: nat, got: seq<Json>) returns (ps: seq<Wire>)
    requires IsBytes(v) && i <= |v| && DecItemsUntil(v, i, got).Ok?
    ensures ValidAll(ps) && Holds(v, i, WriteAll(ps) + BREAK)
    ensures DecItemsUntil(v, i, got) == Ok((Arr(got + Values(ps)), i + |WriteAll(ps) + BREAK|))
    decreases |v| - i, 1
  {
    hide Dec, Valid, Holds, Write, Value;
    if v[i] == 0xff as char {
      ps := [];
      NoParts(got, "");
      BreakWritten(v, i);
    } else {
      var w := Written(v, i);
      var rest := OpenItemsWritten(v, i + |Write(w)|, got + [Value(w)]);
      ps := [w] + rest;
      WithFirst(w, rest, got, "", map[]);
      Join(Write(w), WriteAll(rest), BREAK);
      HoldsTogether(v, i, Write(w), WriteAll(rest) + BREAK);
    }
  }

  lemma {:induction false} OpenPairsWritten(v: Bytes, i: nat, got: map<string, Json>) returns (ps: seq<Wire>)
    requires IsBytes(v) && i <= |v| && DecPairsUntil(v, i, got).Ok?
    ensures ValidMembers(ps) && Holds(v, i, WriteAll(ps) + BREAK)
    ensures DecPairsUntil(v, i, got) == Ok((Obj(Paired(ps, got)), i + |WriteAll(ps) + BREAK|))
    decreases |v| - i, 2
  {
    hide Dec, ValidMember, Write, Value, Key, Holds;
    if v[i] == 0xff as char {
      ps := [];
      BreakWritten(v, i);
    } else {
      var w := MemberWritten(v, i, Dec(v, i).value.1);
      var i2 := i + |Write(w)|;
      OpenPairStep(v, i, got, Key(w), Value(w), Dec(v, i).value.1, i2);
      hide DecPairsUntil;
      var rest := OpenPairsWritten(v, i2, got[Key(w) := Value(w)]);
      ps := [w] + rest;
      WithFirst(w, rest, [], "", got);
      Join(Write(w), WriteAll(rest), BREAK);
      HoldsTogether(v, i, Write(w), WriteAll(rest) + BREAK);
    }
  }

  // x is written at i, in some form, up to e.
  ghost predicate WrittenAt(v: Bytes, i: nat, x: Json, e: nat) {
    exists w :: Valid(w) && Holds(v, i, Write(w)) && Value(w) == x && e == i + |Write(w)|
  }

  /** The decoder returns a value exactly if the value is written there, in any of the forms. */
  lemma DecodesExactly(v: Bytes, i: nat, x: Json, e: nat)
    requires IsBytes(v)
    ensures Dec(v, i) == Ok((x, e)) <==> WrittenAt(v, i, x, e)
  {
    hide Dec, Valid, Holds, Write, Value;
    if Dec(v, i) == Ok((x, e)) {
      var w := Written(v, i);
    } else if WrittenAt(v, i, x, e) {
      var w :| Valid(w) && Holds(v, i, Write(w)) && Value(w) == x && e == i + |Write(w)|;
      Reads(w, v, i);
    }
  }

  /** In particular the open-ended form of a container, of the same parts, reads as the sized one. */
  lemma OpenIsSized(head: Bytes, ps: seq<Wire>, pairs: bool, v: Bytes, i: nat)
    requires if pairs then Valid(Pairs(head, ps, [])) else Valid(Items(head, ps, []))
    requires Holds(v, i, [if pairs then 0xbf as char else 0x9f as char] + (WriteAll(ps) + BREAK))
    ensures Dec(v, i).Ok?
    ensures Dec(v, i).value.0 == Value(if pairs then Pairs(head, ps, []) else Items(head, ps, []))
  {
    hide Dec, Holds;
    var open := [if pairs then 0xbf as char else 0x9f as char];
    Reads(if pairs then Pairs(open, ps, BREAK) else Items(open, ps, BREAK), v, i);
  }
}
