/** MessagePack: the encoder, the decoder, and that the second undoes the first. */
module JsonMsgpack {
  import opened ByteOrder
  import opened JsonValue
  import opened JsonPointer
  import opened JsonBinary

  const MAX32: nat := 0xFFFF_FFFF

  /* ---- encoding ---- */

  function Tagged(tag: nat, n: nat, k: nat): Bytes
    requires tag < 256
  {
    [tag as char] + Be(n, k)
  }

  function EncNatural(n: nat): Bytes {
    if n < 128 then [n as char]
    else if n <= 0xff then Tagged(0xcc, n, 1)
    else if n <= 0xffff then Tagged(0xcd, n, 2)
    else if n <= 0xffff_ffff then Tagged(0xce, n, 4)
    else Tagged(0xcf, n, 8)
  }

  // Two's complement in the shortest of five forms.
  function EncNegative(i: int64): Bytes
    requires i < 0
  {
    if i >= -32 then [(0x100 + i) as char]
    else if i >= -0x80 then Tagged(0xd0, 0x100 + i, 1)
    else if i >= -0x8000 then Tagged(0xd1, 0x1_0000 + i, 2)
    else if i >= -0x8000_0000 then Tagged(0xd2, 0x1_0000_0000 + i, 4)
    else Tagged(0xd3, 0x1_0000_0000_0000_0000 + i, 8)
  }

  // Sizes of 2^32 and more get no bytes at all.
  function TextHead(n: nat): Bytes {
    if n <= 31 then [(0xa0 + n) as char]
    else if n <= 0xff then Tagged(0xd9, n, 1)
    else if n <= 0xffff then Tagged(0xda, n, 2)
    else if n <= MAX32 then Tagged(0xdb, n, 4)
    else []
  }

  function ArrayHead(n: nat): Bytes {
    if n <= 15 then [(0x90 + n) as char]
    else if n <= 0xffff then Tagged(0xdc, n, 2)
    else if n <= MAX32 then Tagged(0xdd, n, 4)
    else []
  }

  function MapHead(n: nat): Bytes {
    if n <= 15 then [(0x80 + n) as char]
    else if n <= 0xffff then Tagged(0xde, n, 2)
    else if n <= MAX32 then Tagged(0xdf, n, 4)
    else []
  }

  function EncText(s: string): Bytes { TextHead(|s|) + s }

  function Enc(j: Json): Bytes
    decreases j, 1, 0
  {
    match j
    case Null => [0xc0 as char]
    case Bool(b) => [if b then 0xc3 as char else 0xc2 as char]
    case Int(i) => if i >= 0 then EncNatural(i) else EncNegative(i)
    case Uint(u) => EncNatural(u)
    case Float(bits) => Tagged(0xcb, bits, 8)
    case Str(s) => EncText(s)
    case Arr(x) => ArrayHead(|x|) + EncItems(j, 0)
    case Obj(m) => MapHead(|m|) + EncMembers(j, Keys(m))
  }

  // The items from place i on.
  function EncItems(j: Json, i: nat): Bytes
    requires j.Arr? && i <= |j.items|
    decreases j, 0, |j.items| - i
  {
    if i == |j.items| then [] else Enc(j.items[i]) + EncItems(j, i + 1)
  }

  function EncMembers(j: Json, ks: seq<string>): Bytes
    requires j.Obj? && forall k :: k in ks ==> k in j.members
    decreases j, 0, |ks|
  {
    if ks == [] then [] else EncText(ks[0]) + (Enc(j.members[ks[0]]) + EncMembers(j, ks[1..]))
  }

  // The sizes the format can say.
  predicate Sized(j: Json) {
    match j
    case Str(s) => |s| <= MAX32
    case Arr(x) => |x| <= MAX32 && forall i :: 0 <= i < |x| ==> Sized(x[i])
    case Obj(m) => |m| <= MAX32 && forall k :: k in m ==> |k| <= MAX32 && Sized(m[k])
    case _ => true
  }

  /* ---- decoding ---- */

  // The two's complement reading of k bytes.
  function Signed(n: nat, k: nat): int { if 2 * n < Pow256(k) then n else n - Pow256(k) }

  function ToInt64(i: int): int64 {
    if -0x8000_0000_0000_0000 <= i < 0x8000_0000_0000_0000 then i else 0
  }

  function ToUint64(n: nat): uint64 { if n < 0x1_0000_0000_0000_0000 then n else 0 }

  // What a first byte announces: a whole value, a number of k bytes, or n parts of a container.
  datatype Lead =
    | Whole(j: Json)
    | Natural(k: nat)
    | Integer(k: nat)
    | Double
    | Text(n: nat, sizeBytes: nat)
    | Items(n: nat, sizeBytes: nat)
    | Pairs(n: nat, sizeBytes: nat)
    | Bad(error: Error)

  function Sizing(v: Bytes, i: nat, k: nat, make: (nat, nat) -> Lead): Lead {
    var n := ReadInt(v, i, k);
    if n.Ok? then make(n.value, k) else Bad(n.error)
  }

  function ReadLead(v: Bytes, i: nat): Lead
    requires i < |v|
  {
    var b := v[i] as int;
    if b <= 0x7f then Whole(Uint(b))
    else if b <= 0x8f then Pairs(b % 16, 0)
    else if b <= 0x9f then Items(b % 16, 0)
    else if b <= 0xbf then Text(b % 32, 0)
    else if b >= 0x100 then Bad(InvalidArgument)
    else if b >= 0xe0 then Whole(Int(b - 0x100))
    else if b == 0xc0 then Whole(Null)
    else if b == 0xc2 then Whole(Bool(false))
    else if b == 0xc3 then Whole(Bool(true))
    else if b == 0xcb then Double
    else if 0xcc <= b <= 0xcf then Natural(if b == 0xcc then 1 else if b == 0xcd then 2 else if b == 0xce then 4 else 8)
    else if 0xd0 <= b <= 0xd3 then Integer(if b == 0xd0 then 1 else if b == 0xd1 then 2 else if b == 0xd2 then 4 else 8)
    else if 0xd9 <= b <= 0xdb then Sizing(v, i, if b == 0xd9 then 1 else if b == 0xda then 2 else 4, (n: nat, k: nat) => Text(n, k))
    else if 0xdc <= b <= 0xdd then Sizing(v, i, if b == 0xdc then 2 else 4, (n: nat, k: nat) => Items(n, k))
    else if 0xde <= b <= 0xdf then Sizing(v, i, if b == 0xde then 2 else 4, (n: nat, k: nat) => Pairs(n, k))
    else Bad(InvalidArgument)
  }

  /** The value that starts at place i, and the place after it. */
  function Dec(v: Bytes, i: nat): (r: Outcome<(Json, nat)>)
    ensures r.Ok? ==> i < r.value.1 <= |v|
    decreases |v| - i, 0
  {
    if i >= |v| then Fail(OutOfRange)
    else
      match ReadLead(v, i)
      case Bad(e) => Fail(e)
      case Whole(j) => Ok((j, i + 1))
      case Natural(k) =>
        var n := ReadInt(v, i, k);
        if n.Ok? then Ok((Uint(ToUint64(n.value)), i + 1 + k)) else Fail(n.error)
      case Integer(k) =>
        var n := ReadInt(v, i, k);
        if n.Ok? then Ok((Int(ToInt64(Signed(n.value, k))), i + 1 + k)) else Fail(n.error)
      case Double =>
        var n := ReadInt(v, i, 8);
        if n.Ok? then Ok((Float(ToUint64(n.value)), i + 9)) else Fail(n.error)
      case Text(n, k) =>
        if i + 1 + k + n > |v| then Fail(OutOfRange)
        else Ok((Str(v[i + 1 + k..i + 1 + k + n]), i + 1 + k + n))
      case Items(n: nat, k: nat) => if i + 1 + k > |v| then Fail(OutOfRange) else DecItems(v, i + 1 + k, n, [])
      case Pairs(n: nat, k: nat) => if i + 1 + k > |v| then Fail(OutOfRange) else DecPairs(v, i + 1 + k, n, map[])
  }

  function DecItems(v: Bytes, i: nat, n: nat, got: seq<Json>): (r: Outcome<(Json, nat)>)
    requires i <= |v|
    ensures r.Ok? ==> i <= r.value.1 <= |v|
    decreases |v| - i, n
  {
    if n == 0 then Ok((Arr(got), i))
    else
      var x := Dec(v, i);
      if x.Ok? then DecItems(v, x.value.1, n - 1, got + [x.value.0]) else x
  }

  function DecPairs(v: Bytes, i: nat, n: nat, got: map<string, Json>): (r: Outcome<(Json, nat)>)
    requires i <= |v|
    ensures r.Ok? ==> i <= r.value.1 <= |v|
    decreases |v| - i, n
  {
    if n == 0 then Ok((Obj(got), i))
    else
      var k := Dec(v, i);
      if k.Fail? then k
      else if !k.value.0.Str? then Fail(DomainError)
      else
        var x := Dec(v, k.value.1);
        if x.Ok? then DecPairs(v, x.value.1, n - 1, got[k.value.0.s := x.value.0]) else x
  }

  /* ---- the round trip ---- */

  lemma TaggedBack(tag: nat, n: nat, k: nat, v: Bytes, i: nat)
    requires tag < 256 && n < Pow256(k) && Holds(v, i, Tagged(tag, n, k))
    ensures i + 1 + k <= |v| && v[i] as int == tag && ReadInt(v, i, k) == Ok(n) && |Tagged(tag, n, k)| == 1 + k
  {
    HoldsByte(v, i, tag as char, Be(n, k));
    ReadBack(v, i, tag as char, n, k);
  }

  lemma ByteBack(b: nat, v: Bytes, i: nat)
    requires b < 256 && Holds(v, i, [b as char])
    ensures i < |v| && v[i] as int == b
  {
    assert [b as char] + [] == [b as char];
    HoldsByte(v, i, b as char, []);
  }

  lemma NaturalBack(n: uint64, v: Bytes, i: nat)
    requires Holds(v, i, EncNatural(n))
    ensures Dec(v, i) == Ok((Uint(n), i + |EncNatural(n)|))
  {
    hide Tagged, DecItems, DecPairs;
    Widths();
    if n < 128 { ByteBack(n, v, i); }
    else if n <= 0xff { TaggedBack(0xcc, n, 1, v, i); }
    else if n <= 0xffff { TaggedBack(0xcd, n, 2, v, i); }
    else if n <= 0xffff_ffff { TaggedBack(0xce, n, 4, v, i); }
    else { TaggedBack(0xcf, n, 8, v, i); }
  }

  lemma NegativeBack(x: int64, v: Bytes, i: nat)
    requires x < 0 && Holds(v, i, EncNegative(x))
    ensures Dec(v, i) == Ok((Int(x), i + |EncNegative(x)|))
  {
    hide Tagged, DecItems, DecPairs;
    Widths();
    if x >= -32 { ByteBack(0x100 + x, v, i); }
    else if x >= -0x80 { TaggedBack(0xd0, 0x100 + x, 1, v, i); }
    else if x >= -0x8000 { TaggedBack(0xd1, 0x1_0000 + x, 2, v, i); }
    else if x >= -0x8000_0000 { TaggedBack(0xd2, 0x1_0000_0000 + x, 4, v, i); }
    else { TaggedBack(0xd3, 0x1_0000_0000_0000_0000 + x, 8, v, i); }
  }

  lemma BitsBack(bits: uint64, v: Bytes, i: nat)
    requires Holds(v, i, Tagged(0xcb, bits, 8))
    ensures Dec(v, i) == Ok((Float(bits), i + 9)) && |Tagged(0xcb, bits, 8)| == 9
  {
    hide DecItems, DecPairs;
    Widths();
    TaggedBack(0xcb, bits, 8, v, i);
  }

  lemma TextHeadBack(n: nat, v: Bytes, i: nat)
    requires n <= MAX32 && Holds(v, i, TextHead(n))
    ensures i < |v| && ReadLead(v, i) == Text(n, |TextHead(n)| - 1)
  {
    hide Tagged;
    Widths();
    if n <= 31 { ByteBack(0xa0 + n, v, i); }
    else if n <= 0xff { TaggedBack(0xd9, n, 1, v, i); }
    else if n <= 0xffff { TaggedBack(0xda, n, 2, v, i); }
    else { TaggedBack(0xdb, n, 4, v, i); }
  }

  lemma ArrayHeadBack(n: nat, v: Bytes, i: nat)
    requires n <= MAX32 && Holds(v, i, ArrayHead(n))
    ensures i < |v| && ReadLead(v, i) == Items(n, |ArrayHead(n)| - 1)
  {
    hide Tagged;
    Widths();
    if n <= 15 { ByteBack(0x90 + n, v, i); }
    else if n <= 0xffff { TaggedBack(0xdc, n, 2, v, i); }
    else { TaggedBack(0xdd, n, 4, v, i); }
  }

  lemma MapHeadBack(n: nat, v: Bytes, i: nat)
    requires n <= MAX32 && Holds(v, i, MapHead(n))
    ensures i < |v| && ReadLead(v, i) == Pairs(n, |MapHead(n)| - 1)
  {
    hide Tagged;
    Widths();
    if n <= 15 { ByteBack(0x80 + n, v, i); }
    else if n <= 0xffff { TaggedBack(0xde, n, 2, v, i); }
    else { TaggedBack(0xdf, n, 4, v, i); }
  }

  lemma TextBack(s: string, v: Bytes, i: nat)
    requires |s| <= MAX32 && Holds(v, i, EncText(s))
    ensures Dec(v, i) == Ok((Str(s), i + |EncText(s)|))
  {
    hide TextHead, ReadLead, DecItems, DecPairs;
    HoldsParts(v, i, TextHead(|s|), s);
    TextHeadBack(|s|, v, i);
  }

  lemma ByteValueBack(b: nat, v: Bytes, i: nat)
    requires (b == 0xc0 || b == 0xc2 || b == 0xc3) && Holds(v, i, [b as char])
    ensures Dec(v, i) == Ok((if b == 0xc2 then Bool(false) else if b == 0xc3 then Bool(true) else Null, i + 1))
  {
    hide DecItems, DecPairs;
    ByteBack(b, v, i);
  }

  /** Decoding what was encoded gives the value back in normal form and stops right after it, whatever
      stands before and after. */
  lemma {:induction false} RoundTrip(j: Json, v: Bytes, i: nat)
    requires Sized(j) && Holds(v, i, Enc(j))
    ensures Dec(v, i) == Ok((Normal(j), i + |Enc(j)|))
    decreases j, 1, 0
  {
    hide Dec, EncText, EncItems, EncMembers, Holds, EncNatural, EncNegative, Tagged;
    match j
    case Null => ByteValueBack(0xc0, v, i);
    case Bool(b) => ByteValueBack(if b then 0xc3 else 0xc2, v, i);
    case Int(x) => if x >= 0 { NaturalBack(x, v, i); } else { NegativeBack(x, v, i); }
    case Uint(u) => NaturalBack(u, v, i);
    case Float(bits) => BitsBack(bits, v, i);
    case Str(s) => TextBack(s, v, i);
    case Arr(x) => ArrayBack(j, v, i);
    case Obj(m) => ObjectBack(j, v, i);
  }

  lemma EncOfContainer(j: Json)
    requires Sized(j)
    ensures j.Arr? ==> Enc(j) == ArrayHead(|j.items|) + EncItems(j, 0) && |j.items| <= MAX32
    ensures j.Obj? ==> Enc(j) == MapHead(|Keys(j.members)|) + EncMembers(j, Keys(j.members)) && |Keys(j.members)| <= MAX32
  {
  }

  lemma ArrayBack(j: Json, v: Bytes, i: nat)
    requires j.Arr? && Sized(j) && Holds(v, i, Enc(j))
    ensures Dec(v, i) == Ok((Normal(j), i + |Enc(j)|))
    decreases j, 0, |j.items| + 1
  {
    hide ArrayHead, ReadLead, Holds, DecItems, Enc, EncItems, Sized;
    EncOfContainer(j);
    var h, rest := ArrayHead(|j.items|), EncItems(j, 0);
    HoldsParts(v, i, h, rest);
    ArrayHeadBack(|j.items|, v, i);
    HoldsEnd(v, i + |h|, rest);
    ItemsBack(j, 0, v, i + |h|, []);
    assert [] + Normal(j).items[0..] == Normal(j).items;
  }

  lemma {:induction false} ItemsBack(j: Json, from: nat, v: Bytes, i: nat, got: seq<Json>)
    requires j.Arr? && Sized(j) && from <= |j.items| && Holds(v, i, EncItems(j, from)) && i + |EncItems(j, from)| <= |v|
    ensures DecItems(v, i, |j.items| - from, got) == Ok((Arr(got + Normal(j).items[from..]), i + |EncItems(j, from)|))
    decreases j, 0, |j.items| - from
  {
    hide Holds, Enc, Dec;
    var y := Normal(j).items;
    if from < |j.items| {
      var a, b := Enc(j.items[from]), EncItems(j, from + 1);
      HoldsParts(v, i, a, b);
      RoundTrip(j.items[from], v, i);
      ItemsBack(j, from + 1, v, i + |a|, got + [y[from]]);
      assert got + [y[from]] + y[from + 1..] == got + y[from..];
    } else {
      assert got + y[from..] == got;
    }
  }

  lemma ObjectBack(j: Json, v: Bytes, i: nat)
    requires j.Obj? && Sized(j) && Holds(v, i, Enc(j))
    ensures Dec(v, i) == Ok((Normal(j), i + |Enc(j)|))
    decreases j, 0, |Keys(j.members)| + 1
  {
    hide MapHead, ReadLead, Holds, Keys, DecPairs, Gathered, Normal, Enc, EncMembers, Sized;
    var ks := Keys(j.members);
    EncOfContainer(j);
    var h, rest := MapHead(|ks|), EncMembers(j, ks);
    HoldsParts(v, i, h, rest);
    MapHeadBack(|ks|, v, i);
    HoldsEnd(v, i + |h|, rest);
    MembersBack(j, ks, v, i + |h|, map[]);
    GatheredAll(j.members, ks);
  }

  lemma PairStep(v: Bytes, i: nat, n: nat, got: map<string, Json>, k: string, x: Json, i1: nat, i2: nat)
    requires i <= |v| && n > 0 && Dec(v, i) == Ok((Str(k), i1)) && Dec(v, i1) == Ok((x, i2))
    ensures i2 <= |v| && DecPairs(v, i, n, got) == DecPairs(v, i2, n - 1, got[k := x])
  {
    hide Dec;
  }

  lemma PairsNone(v: Bytes, i: nat, got: map<string, Json>)
    requires i <= |v|
    ensures DecPairs(v, i, 0, got) == Ok((Obj(got), i))
  {
  }

  lemma MemberSized(j: Json, ks: seq<string>)
    requires j.Obj? && Sized(j) && forall k :: k in ks ==> k in j.members
    ensures ks != [] ==> |ks[0]| <= MAX32 && Sized(j.members[ks[0]])
  {
  }

  lemma {:induction false} MembersBack(j: Json, ks: seq<string>, v: Bytes, i: nat, got: map<string, Json>)
    requires j.Obj? && Sized(j) && (forall k :: k in ks ==> k in j.members)
    requires Holds(v, i, EncMembers(j, ks)) && i + |EncMembers(j, ks)| <= |v|
    ensures DecPairs(v, i, |ks|, got) == Ok((Obj(got + Gathered(j.members, ks)), i + |EncMembers(j, ks)|))
    decreases j, 0, |ks|
  {
    hide Holds, Enc, Dec, DecPairs, EncText, Normal, Gathered, Sized;
    MemberSized(j, ks);
    if ks != [] {
      var k, rest := ks[0], ks[1..];
      var a, b, c := EncText(k), Enc(j.members[k]), EncMembers(j, rest);
      HoldsParts(v, i, a, b + c);
      HoldsParts(v, i + |a|, b, c);
      TextBack(k, v, i);
      RoundTrip(j.members[k], v, i + |a|);
      var got' := got[k := Normal(j.members[k])];
      MembersBack(j, rest, v, i + |a| + |b|, got');
      GatheredMore(j.members, ks, got);
      PairStep(v, i, |ks|, got, k, Normal(j.members[k]), i + |a|, i + |a| + |b|);
    } else {
      GatheredNone(j.members, got);
      PairsNone(v, i, got);
    }
  }

  /* ---- exactly when ---- */

  // Strings and keys made of bytes, as std::string holds them.
  predicate ByteText(j: Json) {
    match j
    case Str(s) => IsBytes(s)
    case Arr(x) => forall i :: 0 <= i < |x| ==> ByteText(x[i])
    case Obj(m) => forall k :: k in m ==> IsBytes(k) && ByteText(m[k])
    case _ => true
  }

  lemma HeadsAreBytes(n: nat)
    ensures IsBytes(TextHead(n)) && IsBytes(ArrayHead(n)) && IsBytes(MapHead(n))
  {
    BeIsBytes(n, 1);
    BeIsBytes(n, 2);
    BeIsBytes(n, 4);
  }

  lemma NumbersAreBytes(n: nat, i: int64, bits: uint64)
    ensures IsBytes(EncNatural(n)) && (i < 0 ==> IsBytes(EncNegative(i))) && IsBytes(Tagged(0xcb, bits, 8))
  {
    hide Be;
    BeIsBytes(n, 1);
    BeIsBytes(n, 2);
    BeIsBytes(n, 4);
    BeIsBytes(n, 8);
    BeIsBytes(bits, 8);
    if i < 0 {
      if i >= -0x80 { BeIsBytes(0x100 + i, 1); }
      else if i >= -0x8000 { BeIsBytes(0x1_0000 + i, 2); }
      else if i >= -0x8000_0000 { BeIsBytes(0x1_0000_0000 + i, 4); }
      else { BeIsBytes(0x1_0000_0000_0000_0000 + i, 8); }
    }
  }

  lemma {:induction false} EncIsBytes(j: Json)
    requires ByteText(j)
    ensures IsBytes(Enc(j))
    decreases j, 1, 0
  {
    hide EncNatural, EncNegative, Tagged, TextHead, ArrayHead, MapHead, EncItems, EncMembers;
    match j
    case Int(i) => NumbersAreBytes(if i >= 0 then i else 0, i, 0);
    case Uint(u) => NumbersAreBytes(u, 0, 0);
    case Float(bits) => NumbersAreBytes(0, 0, bits);
    case Str(s) => HeadsAreBytes(|s|);
    case Arr(x) =>
      HeadsAreBytes(|x|);
      ItemsAreBytes(j, 0);
    case Obj(m) =>
      HeadsAreBytes(|m|);
      MembersAreBytes(j, Keys(m));
    case _ =>
  }

  lemma {:induction false} ItemsAreBytes(j: Json, i: nat)
    requires j.Arr? && i <= |j.items| && ByteText(j)
    ensures IsBytes(EncItems(j, i))
    decreases j, 0, |j.items| - i
  {
    hide Enc;
    if i < |j.items| {
      EncIsBytes(j.items[i]);
      ItemsAreBytes(j, i + 1);
    }
  }

  lemma {:induction false} MembersAreBytes(j: Json, ks: seq<string>)
    requires j.Obj? && ByteText(j) && forall k :: k in ks ==> k in j.members
    ensures IsBytes(EncMembers(j, ks))
    decreases j, 0, |ks|
  {
    hide Enc, TextHead;
    if ks != [] {
      HeadsAreBytes(|ks[0]|);
      EncIsBytes(j.members[ks[0]]);
      MembersAreBytes(j, ks[1..]);
    }
  }

  // A size read from the buffer is one the format can say.
  lemma LeadSized(v: Bytes, i: nat)
    requires IsBytes(v) && i < |v|
    ensures var l := ReadLead(v, i);
            (l.Text? || l.Items? || l.Pairs? ==> l.n <= MAX32) && (l.Whole? ==> Sized(l.j))
  {
    Widths();
    forall k | k == 1 || k == 2 || k == 4 ensures ReadInt(v, i, k).Ok? ==> ReadInt(v, i, k).value <= MAX32 {
      if i + 1 + k <= |v| { UnBeBound(v[i + 1..i + 1 + k]); }
    }
  }

  // Whatever is decoded has sizes the format can say.
  lemma {:induction false} DecSized(v: Bytes, i: nat)
    requires IsBytes(v) && Dec(v, i).Ok?
    ensures Sized(Dec(v, i).value.0)
    decreases |v| - i, 0
  {
    hide ReadLead;
    LeadSized(v, i);
    match ReadLead(v, i)
    case Items(n, k) => ItemsSized(v, i + 1 + k, n, []);
    case Pairs(n, k) => PairsSized(v, i + 1 + k, n, map[]);
    case _ =>
  }

  lemma {:induction false} ItemsSized(v: Bytes, i: nat, n: nat, got: seq<Json>)
    requires IsBytes(v) && i <= |v| && DecItems(v, i, n, got).Ok? && |got| + n <= MAX32
    requires forall k :: 0 <= k < |got| ==> Sized(got[k])
    ensures Sized(DecItems(v, i, n, got).value.0)
    decreases |v| - i, n
  {
    hide Dec;
    if n > 0 {
      DecSized(v, i);
      ItemsSized(v, Dec(v, i).value.1, n - 1, got + [Dec(v, i).value.0]);
    }
  }

  lemma {:induction false} PairsSized(v: Bytes, i: nat, n: nat, got: map<string, Json>)
    requires IsBytes(v) && i <= |v| && DecPairs(v, i, n, got).Ok? && |got| + n <= MAX32
    requires forall k :: k in got ==> |k| <= MAX32 && Sized(got[k])
    ensures Sized(DecPairs(v, i, n, got).value.0)
    decreases |v| - i, n
  {
    hide Dec;
    if n > 0 {
      DecSized(v, i);
      var k, at := Dec(v, i).value.0.s, Dec(v, i).value.1;
      DecSized(v, at);
      OneMorePair(got, k, Dec(v, at).value.0);
      PairsSized(v, Dec(v, at).value.1, n - 1, got[k := Dec(v, at).value.0]);
    }
  }

  lemma OneMorePair(got: map<string, Json>, k: string, x: Json)
    ensures |got[k := x]| <= |got| + 1
  {
    assert got[k := x].Keys == got.Keys + {k};
    if k in got { assert got[k := x].Keys == got.Keys; }
  }

  lemma {:induction false} NormalSized(j: Json)
    requires Sized(Normal(j))
    ensures Sized(j)
  {
    match j
    case Arr(x) =>
      forall i | 0 <= i < |x| ensures Sized(x[i]) { assert Normal(j).items[i] == Normal(x[i]); NormalSized(x[i]); }
    case Obj(m) =>
      assert Normal(j).members.Keys == m.Keys;
      assert |Normal(j).members| == |Normal(j).members.Keys|;
      forall k | k in m ensures Sized(m[k]) && |k| <= MAX32 { assert Normal(j).members[k] == Normal(m[k]); NormalSized(m[k]); }
    case _ =>
  }

  /** An encoded value is decoded, wherever it stands, exactly if all its sizes fit 32 bits. */
  lemma RoundTripExactly(j: Json, v: Bytes, i: nat)
    requires ByteText(j) && IsBytes(v) && Holds(v, i, Enc(j))
    ensures Dec(v, i) == Ok((Normal(j), i + |Enc(j)|)) <==> Sized(j)
  {
    if Sized(j) {
      RoundTrip(j, v, i);
    } else if Dec(v, i) == Ok((Normal(j), i + |Enc(j)|)) {
      DecSized(v, i);
      NormalSized(j);
    }
  }

  lemma HoldsItself(b: Bytes)
    ensures Holds(b, 0, b)
  {
    assert b[0..|b|] == b;
  }

  // On its own, an encoding is such a buffer.
  lemma AloneExactly(j: Json)
    requires ByteText(j)
    ensures Dec(Enc(j), 0) == Ok((Normal(j), |Enc(j)|)) <==> Sized(j)
  {
    hide Enc, Dec, Normal, Sized, Holds, ByteText;
    EncIsBytes(j);
    HoldsItself(Enc(j));
    RoundTripExactly(j, Enc(j), 0);
  }

  /** Beyond 2^32 - 1 characters the encoder writes no size, and the string is read as something else. */
  lemma LongStringIsLost(s: string)
    requires |s| > MAX32 && s[0] == 'A'
    ensures Dec(Enc(Str(s)), 0) == Ok((Uint(65), 1))
  {
    assert Enc(Str(s)) == s;
  }

  /* ---- the loops ---- */

  // to_msgpack_internal: appends to v.
  method ToMsgpack(j: Json, v0: Bytes) returns (v: Bytes)
    ensures v == v0 + Enc(j)
    decreases j, 1
  {
    hide ArrayHead, MapHead, EncText, EncItems, EncMembers;
    v := v0;
    match j {
      case Null => v := v + [0xc0 as char];
      case Bool(b) => v := v + [if b then 0xc3 as char else 0xc2 as char];
      case Int(i) => v := v + if i >= 0 then EncNatural(i) else EncNegative(i);
      case Uint(u) => v := v + EncNatural(u);
      case Float(bits) => v := v + Tagged(0xcb, bits, 8);
      case Str(s) => v := v + EncText(s);
      case Arr(x) => v := ArrayToMsgpack(j, v);
      case Obj(m) => v := MapToMsgpack(j, v);
    }
  }

  method ArrayToMsgpack(j: Json, v0: Bytes) returns (v: Bytes)
    requires j.Arr?
    ensures v == v0 + Enc(j)
    decreases j, 0
  {
    hide ArrayHead;
    v := v0 + ArrayHead(|j.items|);
    for i := 0 to |j.items|
      invariant v + EncItems(j, i) == v0 + Enc(j)
    {
      v := ToMsgpack(j.items[i], v);
    }
  }

  method MapToMsgpack(j: Json, v0: Bytes) returns (v: Bytes)
    requires j.Obj?
    ensures v == v0 + Enc(j)
    decreases j, 0
  {
    hide MapHead, EncText, Keys;
    var ks := Keys(j.members);
    v := v0 + MapHead(|j.members|);
    assert ks[0..] == ks;
    for i := 0 to |ks|
      invariant v + EncMembers(j, ks[i..]) == v0 + Enc(j)
    {
      assert ks[i..][1..] == ks[i + 1..];
      v := v + EncText(ks[i]);
      v := ToMsgpack(j.members[ks[i]], v);
    }
  }

  // from_msgpack_internal.
  method FromMsgpack(v: Bytes, i: nat) returns (r: Outcome<(Json, nat)>)
    ensures r == Dec(v, i)
    decreases |v| - i, 0
  {
    if i >= |v| { return Fail(OutOfRange); }
    match ReadLead(v, i) {
      case Items(n, k) =>
        if i + 1 + k > |v| { return Fail(OutOfRange); }
        r := ArrayFromMsgpack(v, i + 1 + k, n);
      case Pairs(n, k) =>
        if i + 1 + k > |v| { return Fail(OutOfRange); }
        r := MapFromMsgpack(v, i + 1 + k, n);
      case Bad(e) => r := Fail(e);
      case Whole(j) => r := Ok((j, i + 1));
      case Natural(k) =>
        var n := GetFromVector(v, i, k);
        r := if n.Ok? then Ok((Uint(ToUint64(n.value)), i + 1 + k)) else Fail(n.error);
      case Integer(k) =>
        var n := GetFromVector(v, i, k);
        r := if n.Ok? then Ok((Int(ToInt64(Signed(n.value, k))), i + 1 + k)) else Fail(n.error);
      case Double =>
        var n := GetFromVector(v, i, 8);
        r := if n.Ok? then Ok((Float(ToUint64(n.value)), i + 9)) else Fail(n.error);
      case Text(n, k) =>
        var offset := i + 1 + k;
        if offset + n > |v| { return Fail(OutOfRange); }
        r := Ok((Str(v[offset..offset + n]), offset + n));
    }
  }

  method ArrayFromMsgpack(v: Bytes, i: nat, n: nat) returns (r: Outcome<(Json, nat)>)
    requires i <= |v|
    ensures r == DecItems(v, i, n, [])
    decreases |v| - i, 1
  {
    hide Dec;
    var result: seq<Json>, idx := [], i;
    for k := 0 to n
      invariant i <= idx <= |v| && DecItems(v, i, n, []) == DecItems(v, idx, n - k, result)
    {
      var x := FromMsgpack(v, idx);
      if x.Fail? { return x; }
      result, idx := result + [x.value.0], x.value.1;
    }
    r := Ok((Arr(result), idx));
  }

  method MapFromMsgpack(v: Bytes, i: nat, n: nat) returns (r: Outcome<(Json, nat)>)
    requires i <= |v|
    ensures r == DecPairs(v, i, n, map[])
    decreases |v| - i, 1
  {
    hide Dec;
    var result: map<string, Json>, idx := map[], i;
    for k := 0 to n
      invariant i <= idx <= |v| && DecPairs(v, i, n, map[]) == DecPairs(v, idx, n - k, result)
    {
      var key := FromMsgpack(v, idx);
      if key.Fail? { return key; }
      if !key.value.0.Str? { return Fail(DomainError); }
      var x := FromMsgpack(v, key.value.1);
      if x.Fail? { return x; }
      result, idx := result[key.value.0.s := x.value.0], x.value.1;
    }
    r := Ok((Obj(result), idx));
  }
}
