/** CBOR (RFC 7049): the encoder, the decoder, and that the second undoes the first. */
module JsonCbor {
  import opened ByteOrder
  import opened JsonValue
  import opened JsonPointer
  import opened JsonBinary

  /* ---- encoding ---- */

  const MAX64: nat := 0xFFFF_FFFF_FFFF_FFFF

  // The first bytes of an item: its major type, and a number in the shortest of five forms.
  function Head(major: nat, n: nat): Bytes
    requires major < 8
  {
    var base := 32 * major;
    if n <= 0x17 then [(base + n) as char]
    else if n <= 0xff then [(base + 24) as char] + Be(n, 1)
    else if n <= 0xffff then [(base + 25) as char] + Be(n, 2)
    else if n <= 0xffff_ffff then [(base + 26) as char] + Be(n, 4)
    else [(base + 27) as char] + Be(n, 8)
  }

  function EncText(s: string): Bytes { Head(3, |s|) + s }

  function Enc(j: Json): Bytes
    decreases j, 1, 0
  {
    match j
    case Null => [0xf6 as char]
    case Bool(b) => [if b then 0xf5 as char else 0xf4 as char]
    case Int(i) => if i >= 0 then Head(0, i) else Head(1, -1 - i)
    case Uint(u) => Head(0, u)
    case Float(bits) => [0xfb as char] + Be(bits, 8)
    case Str(s) => EncText(s)
    case Arr(x) => Head(4, |x|) + EncItems(j, 0)
    case Obj(m) => Head(5, |m|) + EncMembers(j, Keys(m))
  }

  // The items from place i on.
  function EncItems(j: Json, i: nat): Bytes
    requires j.Arr? && i <= |j.items|
    decreases j, 0, |j.items| - i
  {
    if i == |j.items| then [] else Enc(j.items[i]) + EncItems(j, i + 1)
  }

  function EncMembers(j: Json, ks: seq<string>): Bytes
    requires j.Obj? && forall k :: k in ks ==> k in j.members
    decreases j, 0, |ks|
  {
    if ks == [] then [] else EncText(ks[0]) + (Enc(j.members[ks[0]]) + EncMembers(j, ks[1..]))
  }

  // Sizes fit a size_t.
  predicate Sized(j: Json) {
    match j
    case Str(s) => |s| <= MAX64
    case Arr(x) => |x| <= MAX64 && forall i :: 0 <= i < |x| ==> Sized(x[i])
    case Obj(m) => |m| <= MAX64 && forall k :: k in m ==> |k| <= MAX64 && Sized(m[k])
    case _ => true
  }

  /* ---- decoding ---- */

  // The number after the first byte, and how many bytes it took with that byte.
  function ReadHead(v: Bytes, i: nat): (r: Outcome<(nat, nat)>)
    requires i < |v|
    ensures r.Ok? ==> 0 < r.value.1 && i + r.value.1 <= |v|
  {
    var info := v[i] as int % 32;
    if info < 24 then Ok((info, 1))
    else if info > 27 then Fail(InvalidArgument)
    else
      var k := if info == 24 then 1 else if info == 25 then 2 else if info == 26 then 4 else 8;
      var n := ReadInt(v, i, k);
      if n.Ok? then Ok((n.value, 1 + k)) else Fail(n.error)
  }

  function TakeText(v: Bytes, i: nat, n: nat): Outcome<(Json, nat)> {
    if i + n > |v| then Fail(OutOfRange) else Ok((Str(v[i..i + n]), i + n))
  }

  /** The value that starts at place i, and the place after it. */
  function Dec(v: Bytes, i: nat): (r: Outcome<(Json, nat)>)
    ensures r.Ok? ==> i < r.value.1 <= |v|
    decreases |v| - i, 0
  {
    if i >= |v| then Fail(OutOfRange)
    else
      var b := v[i] as int;
      var major, info := b / 32, b % 32;
      if major >= 6 then
        if b == 0xf4 then Ok((Bool(false), i + 1))
        else if b == 0xf5 then Ok((Bool(true), i + 1))
        else if b == 0xf6 then Ok((Null, i + 1))
        else if b == 0xfb then
          var n := ReadInt(v, i, 8);
          if n.Ok? then Ok((Float(Cut(n.value)), i + 9)) else Fail(n.error)
        else Fail(InvalidArgument)
      else if major == 2 then Fail(InvalidArgument)
      else if info == 31 && major == 3 then DecTexts(v, i + 1, "")
      else if info == 31 && major == 4 then DecItemsUntil(v, i + 1, [])
      else if info == 31 && major == 5 then DecPairsUntil(v, i + 1, map[])
      else
        var h := ReadHead(v, i);
        if h.Fail? then Fail(h.error)
        else
          var n, from := h.value.0, i + h.value.1;
          if major == 0 then Ok((Uint(Cut(n)), from))
          else if major == 1 then Ok((Int(-1 - ToSigned(Cut(n))), from))
          else if major == 3 then TakeText(v, from, n)
          else if major == 4 then DecItems(v, from, n, [])
          else DecPairs(v, from, n, map[])
  }

  // A number of at most eight bytes is a uint64_t.
  function Cut(n: nat): uint64 { if n <= MAX64 then n else 0 }

  function DecItems(v: Bytes, i: nat, n: nat, got: seq<Json>): (r: Outcome<(Json, nat)>)
    requires i <= |v|
    ensures r.Ok? ==> i <= r.value.1 <= |v|
    decreases |v| - i, n
  {
    if n == 0 then Ok((Arr(got), i))
    else
      var x := Dec(v, i);
      if x.Ok? then DecItems(v, x.value.1, n - 1, got + [x.value.0]) else x
  }

  function DecPairs(v: Bytes, i: nat, n: nat, got: map<string, Json>): (r: Outcome<(Json, nat)>)
    requires i <= |v|
    ensures r.Ok? ==> i <= r.value.1 <= |v|
    decreases |v| - i, n
  {
    if n == 0 then Ok((Obj(got), i))
    else
      var k := Dec(v, i);
      if k.Fail? then k
      else if !k.value.0.Str? then Fail(DomainError)
      else
        var x := Dec(v, k.value.1);
        if x.Ok? then DecPairs(v, x.value.1, n - 1, got[k.value.0.s := x.value.0]) else x
  }

  // The indefinite forms, up to the break byte.
  function DecTexts(v: Bytes, i: nat, got: string): (r: Outcome<(Json, nat)>)
    requires i <= |v|
    ensures r.Ok? ==> i < r.value.1 <= |v|
    decreases |v| - i, 1
  {
    if i == |v| then Fail(OutOfRange)
    else if v[i] == 0xff as char then Ok((Str(got), i + 1))
    else
      var x := Dec(v, i);
      if x.Fail? then x
      else if !x.value.0.Str? then Fail(DomainError)
      else DecTexts(v, x.value.1, got + x.value.0.s)
  }

  function DecItemsUntil(v: Bytes, i: nat, got: seq<Json>): (r: Outcome<(Json, nat)>)
    requires i <= |v|
    ensures r.Ok? ==> i < r.value.1 <= |v|
    decreases |v| - i, 1
  {
    if i == |v| then Fail(OutOfRange)
    else if v[i] == 0xff as char then Ok((Arr(got), i + 1))
    else
      var x := Dec(v, i);
      if x.Ok? then DecItemsUntil(v, x.value.1, got + [x.value.0]) else x
  }

  function DecPairsUntil(v: Bytes, i: nat, got: map<string, Json>): (r: Outcome<(Json, nat)>)
    requires i <= |v|
    ensures r.Ok? ==> i < r.value.1 <= |v|
    decreases |v| - i, 1
  {
    if i == |v| then Fail(OutOfRange)
    else if v[i] == 0xff as char then Ok((Obj(got), i + 1))
    else
      var k := Dec(v, i);
      if k.Fail? then k
      else if !k.value.0.Str? then Fail(DomainError)
      else
        var x := Dec(v, k.value.1);
        if x.Ok? then DecPairsUntil(v, x.value.1, got[k.value.0.s := x.value.0]) else x
  }

  /* ---- the round trip ---- */

  lemma HeadBack(major: nat, n: nat, v: Bytes, i: nat)
    requires major < 8 && n <= MAX64 && Holds(v, i, Head(major, n))
    ensures i < |v| && v[i] as int / 32 == major && v[i] as int % 32 <= 27
    ensures ReadHead(v, i) == Ok((n, |Head(major, n)|))
  {
    Widths();
    if n > 0x17 {
      var k := if n <= 0xff then 1 else if n <= 0xffff then 2 else if n <= 0xffff_ffff then 4 else 8;
      var c := (32 * major + (if k == 1 then 24 else if k == 2 then 25 else if k == 4 then 26 else 27)) as char;
      HoldsByte(v, i, c, Be(n, k));
      ReadBack(v, i, c, n, k);
    } else {
      HoldsByte(v, i, (32 * major + n) as char, []);
      assert [(32 * major + n) as char] + [] == Head(major, n);
    }
  }

  lemma TextBack(s: string, v: Bytes, i: nat)
    requires |s| <= MAX64 && Holds(v, i, EncText(s))
    ensures Dec(v, i) == Ok((Str(s), i + |EncText(s)|))
  {
    hide Head, ReadHead;
    HoldsParts(v, i, Head(3, |s|), s);
    HeadBack(3, |s|, v, i);
  }

  lemma NumberBack(major: nat, n: nat, v: Bytes, i: nat)
    requires major < 2 && n <= MAX64 && Holds(v, i, Head(major, n))
    ensures Dec(v, i) == Ok((if major == 0 then Uint(n) else Int(-1 - ToSigned(n)), i + |Head(major, n)|))
  {
    hide Head, ReadHead;
    HeadBack(major, n, v, i);
  }

  lemma BitsBack(bits: uint64, v: Bytes, i: nat)
    requires Holds(v, i, [0xfb as char] + Be(bits, 8))
    ensures Dec(v, i) == Ok((Float(bits), i + 9))
  {
    Widths();
    HoldsByte(v, i, 0xfb as char, Be(bits, 8));
    ReadBack(v, i, 0xfb as char, bits, 8);
  }

  lemma ByteBack(c: int, v: Bytes, i: nat)
    requires 0xf4 <= c <= 0xf6 && Holds(v, i, [c as char])
    ensures Dec(v, i) == Ok((if c == 0xf4 then Bool(false) else if c == 0xf5 then Bool(true) else Null, i + 1))
  {
    assert [c as char] + [] == [c as char];
    HoldsByte(v, i, c as char, []);
  }

  /** Decoding what was encoded gives the value back in normal form and stops right after it, whatever
      stands before and after. */
  lemma {:induction false} RoundTrip(j: Json, v: Bytes, i: nat)
    requires Sized(j) && Holds(v, i, Enc(j))
    ensures Dec(v, i) == Ok((Normal(j), i + |Enc(j)|))
    decreases j, 1, 0
  {
    hide Head, Dec, EncText, EncItems, EncMembers, Holds;
    match j
    case Null => ByteBack(0xf6, v, i);
    case Bool(b) => ByteBack(if b then 0xf5 else 0xf4, v, i);
    case Int(x) => NumberBack(if x >= 0 then 0 else 1, if x >= 0 then x else -1 - x, v, i);
    case Uint(u) => NumberBack(0, u, v, i);
    case Float(bits) => BitsBack(bits, v, i);
    case Str(s) => TextBack(s, v, i);
    case Arr(x) => ArrayBack(j, v, i);
    case Obj(m) => ObjectBack(j, v, i);
  }

  lemma DecAfterHead(major: nat, n: nat, len: nat, v: Bytes, i: nat)
    requires i < |v| && v[i] as int / 32 == major && v[i] as int % 32 <= 27 && ReadHead(v, i) == Ok((n, len))
    ensures major == 4 ==> Dec(v, i) == DecItems(v, i + len, n, [])
    ensures major == 5 ==> Dec(v, i) == DecPairs(v, i + len, n, map[])
  {
  }

  lemma EncOfContainer(j: Json)
    requires Sized(j)
    ensures j.Arr? ==> Enc(j) == Head(4, |j.items|) + EncItems(j, 0) && |j.items| <= MAX64
    ensures j.Obj? ==> Enc(j) == Head(5, |Keys(j.members)|) + EncMembers(j, Keys(j.members)) && |Keys(j.members)| <= MAX64
  {
  }

  lemma ArrayBack(j: Json, v: Bytes, i: nat)
    requires j.Arr? && Sized(j) && Holds(v, i, Enc(j))
    ensures Dec(v, i) == Ok((Normal(j), i + |Enc(j)|))
    decreases j, 0, |j.items| + 1
  {
    hide Head, ReadHead, Holds, Dec, DecItems, Enc, EncItems, Sized;
    EncOfContainer(j);
    var h, rest := Head(4, |j.items|), EncItems(j, 0);
    HoldsParts(v, i, h, rest);
    HeadBack(4, |j.items|, v, i);
    HoldsEnd(v, i + |h|, rest);
    DecAfterHead(4, |j.items|, |h|, v, i);
    ItemsBack(j, 0, v, i + |h|, []);
    assert [] + Normal(j).items[0..] == Normal(j).items;
  }

  lemma {:induction false} ItemsBack(j: Json, from: nat, v: Bytes, i: nat, got: seq<Json>)
    requires j.Arr? && Sized(j) && from <= |j.items| && Holds(v, i, EncItems(j, from)) && i + |EncItems(j, from)| <= |v|
    ensures DecItems(v, i, |j.items| - from, got) == Ok((Arr(got + Normal(j).items[from..]), i + |EncItems(j, from)|))
    decreases j, 0, |j.items| - from
  {
    hide Head, ReadHead, Holds, Enc, Dec;
    var y := Normal(j).items;
    if from < |j.items| {
      var a, b := Enc(j.items[from]), EncItems(j, from + 1);
      HoldsParts(v, i, a, b);
      RoundTrip(j.items[from], v, i);
      ItemsBack(j, from + 1, v, i + |a|, got + [y[from]]);
      assert got + [y[from]] + y[from + 1..] == got + y[from..];
    } else {
      assert got + y[from..] == got;
    }
  }

  lemma ObjectBack(j: Json, v: Bytes, i: nat)
    requires j.Obj? && Sized(j) && Holds(v, i, Enc(j))
    ensures Dec(v, i) == Ok((Normal(j), i + |Enc(j)|))
    decreases j, 0, |Keys(j.members)| + 1
  {
    hide Head, ReadHead, Holds, Keys, Dec, DecPairs, Gathered, Normal, Enc, EncMembers, Sized;
    var ks := Keys(j.members);
    EncOfContainer(j);
    var h, rest := Head(5, |ks|), EncMembers(j, ks);
    HoldsParts(v, i, h, rest);
    HeadBack(5, |ks|, v, i);
    HoldsEnd(v, i + |h|, rest);
    DecAfterHead(5, |ks|, |h|, v, i);
    MembersBack(j, ks, v, i + |h|, map[]);
    GatheredAll(j.members, ks);
  }

  lemma PairStep(v: Bytes, i: nat, n: nat, got: map<string, Json>, k: string, x: Json, i1: nat, i2: nat)
    requires i <= |v| && n > 0 && Dec(v, i) == Ok((Str(k), i1)) && Dec(v, i1) == Ok((x, i2))
    ensures i2 <= |v| && DecPairs(v, i, n, got) == DecPairs(v, i2, n - 1, got[k := x])
  {
    hide Dec;
  }

  lemma PairsNone(v: Bytes, i: nat, got: map<string, Json>)
    requires i <= |v|
    ensures DecPairs(v, i, 0, got) == Ok((Obj(got), i))
  {
  }

  lemma MemberSized(j: Json, ks: seq<string>)
    requires j.Obj? && Sized(j) && forall k :: k in ks ==> k in j.members
    ensures ks != [] ==> |ks[0]| <= MAX64 && Sized(j.members[ks[0]])
  {
  }

  lemma {:induction false} MembersBack(j: Json, ks: seq<string>, v: Bytes, i: nat, got: map<string, Json>)
    requires j.Obj? && Sized(j) && (forall k :: k in ks ==> k in j.members)
    requires Holds(v, i, EncMembers(j, ks)) && i + |EncMembers(j, ks)| <= |v|
    ensures DecPairs(v, i, |ks|, got) == Ok((Obj(got + Gathered(j.members, ks)), i + |EncMembers(j, ks)|))
    decreases j, 0, |ks|
  {
    hide Holds, Enc, Dec, DecPairs, EncText, Normal, Gathered, Sized;
    MemberSized(j, ks);
    if ks != [] {
      var k, rest := ks[0], ks[1..];
      var a, b, c := EncText(k), Enc(j.members[k]), EncMembers(j, rest);
      HoldsParts(v, i, a, b + c);
      HoldsParts(v, i + |a|, b, c);
      TextBack(k, v, i);
      RoundTrip(j.members[k], v, i + |a|);
      var got' := got[k := Normal(j.members[k])];
      MembersBack(j, rest, v, i + |a| + |b|, got');
      GatheredMore(j.members, ks, got);
      PairStep(v, i, |ks|, got, k, Normal(j.members[k]), i + |a|, i + |a| + |b|);
    } else {
      GatheredNone(j.members, got);
      PairsNone(v, i, got);
    }
  }

  /* ---- the loops ---- */

  // to_cbor_internal: appends to v.
  method ToCbor(j: Json, v0: Bytes) returns (v: Bytes)
    ensures v == v0 + Enc(j)
    decreases j, 1
  {
    hide Head, EncText, EncItems, EncMembers;
    v := v0;
    match j {
      case Null => v := v + [0xf6 as char];
      case Bool(b) => v := v + [if b then 0xf5 as char else 0xf4 as char];
      case Int(i) => v := v + if i >= 0 then Head(0, i) else Head(1, -1 - i);
      case Uint(u) => v := v + Head(0, u);
      case Float(bits) => v := v + ([0xfb as char] + Be(bits, 8));
      case Str(s) => v := v + EncText(s);
      case Arr(x) => v := ArrayToCbor(j, v);
      case Obj(m) => v := MapToCbor(j, v);
    }
  }

  method ArrayToCbor(j: Json, v0: Bytes) returns (v: Bytes)
    requires j.Arr?
    ensures v == v0 + Enc(j)
    decreases j, 0
  {
    hide Head;
    v := v0 + Head(4, |j.items|);
    for i := 0 to |j.items|
      invariant v + EncItems(j, i) == v0 + Enc(j)
    {
      v := ToCbor(j.items[i], v);
    }
  }

  method MapToCbor(j: Json, v0: Bytes) returns (v: Bytes)
    requires j.Obj?
    ensures v == v0 + Enc(j)
    decreases j, 0
  {
    hide Head, EncText, Keys;
    var ks := Keys(j.members);
    v := v0 + Head(5, |j.members|);
    assert ks[0..] == ks;
    for i := 0 to |ks|
      invariant v + EncMembers(j, ks[i..]) == v0 + Enc(j)
    {
      assert ks[i..][1..] == ks[i + 1..];
      v := v + EncText(ks[i]);
      v := ToCbor(j.members[ks[i]], v);
    }
  }

  // from_cbor_internal.
  method FromCbor(v: Bytes, i: nat) returns (r: Outcome<(Json, nat)>)
    ensures r == Dec(v, i)
    decreases |v| - i, 0
  {
    hide ReadHead, DecItems, DecPairs, DecTexts, DecItemsUntil, DecPairsUntil;
    if i >= |v| { return Fail(OutOfRange); }
    var b := v[i] as int;
    var major, info := b / 32, b % 32;
    if major >= 6 {
      if b == 0xf4 { return Ok((Bool(false), i + 1)); }
      if b == 0xf5 { return Ok((Bool(true), i + 1)); }
      if b == 0xf6 { return Ok((Null, i + 1)); }
      if b != 0xfb { return Fail(InvalidArgument); }
      var bits := GetFromVector(v, i, 8);
      if bits.Fail? { return Fail(bits.error); }
      return Ok((Float(Cut(bits.value)), i + 9));
    }
    if major == 2 { return Fail(InvalidArgument); }
    if info == 31 && major >= 3 {
      if major == 3 { r := TextsFromCbor(v, i + 1); }
      else if major == 4 { r := ItemsFromCbor(v, i + 1); }
      else { r := PairsFromCbor(v, i + 1); }
      return;
    }
    var h := HeadFromCbor(v, i);
    if h.Fail? { return Fail(h.error); }
    var n, from := h.value.0, i + h.value.1;
    if major == 0 {
      r := Ok((Uint(Cut(n)), from));
    } else if major == 1 {
      r := Ok((Int(-1 - ToSigned(Cut(n))), from));
    } else if major == 3 {
      if from + n > |v| { return Fail(OutOfRange); }
      r := Ok((Str(v[from..from + n]), from + n));
    } else if major == 4 {
      r := ArrayFromCbor(v, from, n);
    } else {
      r := MapFromCbor(v, from, n);
    }
  }

  method HeadFromCbor(v: Bytes, i: nat) returns (r: Outcome<(nat, nat)>)
    requires i < |v|
    ensures r == ReadHead(v, i)
  {
    var info := v[i] as int % 32;
    if info < 24 { return Ok((info, 1)); }
    if info > 27 { return Fail(InvalidArgument); }
    var k := if info == 24 then 1 else if info == 25 then 2 else if info == 26 then 4 else 8;
    var n := GetFromVector(v, i, k);
    r := if n.Ok? then Ok((n.value, 1 + k)) else Fail(n.error);
  }

  method ArrayFromCbor(v: Bytes, i: nat, n: nat) returns (r: Outcome<(Json, nat)>)
    requires i <= |v|
    ensures r == DecItems(v, i, n, [])
    decreases |v| - i, 1
  {
    hide Dec;
    var result: seq<Json>, idx := [], i;
    for k := 0 to n
      invariant i <= idx <= |v| && DecItems(v, i, n, []) == DecItems(v, idx, n - k, result)
    {
      var x := FromCbor(v, idx);
      if x.Fail? { return x; }
      result, idx := result + [x.value.0], x.value.1;
    }
    r := Ok((Arr(result), idx));
  }

  method MapFromCbor(v: Bytes, i: nat, n: nat) returns (r: Outcome<(Json, nat)>)
    requires i <= |v|
    ensures r == DecPairs(v, i, n, map[])
    decreases |v| - i, 1
  {
    hide Dec;
    var result: map<string, Json>, idx := map[], i;
    for k := 0 to n
      invariant i <= idx <= |v| && DecPairs(v, i, n, map[]) == DecPairs(v, idx, n - k, result)
    {
      var key := FromCbor(v, idx);
      if key.Fail? { return key; }
      if !key.value.0.Str? { return Fail(DomainError); }
      var x := FromCbor(v, key.value.1);
      if x.Fail? { return x; }
      result, idx := result[key.value.0.s := x.value.0], x.value.1;
    }
    r := Ok((Obj(result), idx));
  }

  // The loops that end at the break byte.
  method TextsFromCbor(v: Bytes, i: nat) returns (r: Outcome<(Json, nat)>)
    requires i <= |v|
    ensures r == DecTexts(v, i, "")
    decreases |v| - i, 1
  {
    hide Dec;
    var result, idx := "", i;
    while idx < |v| && v[idx] != 0xff as char
      invariant i <= idx <= |v| && DecTexts(v, i, "") == DecTexts(v, idx, result)
      decreases |v| - idx
    {
      var x := FromCbor(v, idx);
      if x.Fail? { return x; }
      if !x.value.0.Str? { return Fail(DomainError); }
      result, idx := result + x.value.0.s, x.value.1;
    }
    if idx == |v| { return Fail(OutOfRange); }
    r := Ok((Str(result), idx + 1));
  }

  method ItemsFromCbor(v: Bytes, i: nat) returns (r: Outcome<(Json, nat)>)
    requires i <= |v|
    ensures r == DecItemsUntil(v, i, [])
    decreases |v| - i, 1
  {
    hide Dec;
    var result: seq<Json>, idx := [], i;
    while idx < |v| && v[idx] != 0xff as char
      invariant i <= idx <= |v| && DecItemsUntil(v, i, []) == DecItemsUntil(v, idx, result)
      decreases |v| - idx
    {
      var x := FromCbor(v, idx);
      if x.Fail? { return x; }
      result, idx := result + [x.value.0], x.value.1;
    }
    if idx == |v| { return Fail(OutOfRange); }
    r := Ok((Arr(result), idx + 1));
  }

  method PairsFromCbor(v: Bytes, i: nat) returns (r: Outcome<(Json, nat)>)
    requires i <= |v|
    ensures r == DecPairsUntil(v, i, map[])
    decreases |v| - i, 1
  {
    hide Dec;
    var result: map<string, Json>, idx := map[], i;
    while idx < |v| && v[idx] != 0xff as char
      invariant i <= idx <= |v| && DecPairsUntil(v, i, map[]) == DecPairsUntil(v, idx, result)
      decreases |v| - idx
    {
      var key := FromCbor(v, idx);
      if key.Fail? { return key; }
      if !key.value.0.Str? { return Fail(DomainError); }
      var x := FromCbor(v, key.value.1);
      if x.Fail? { return x; }
      result, idx := result[key.value.0.s := x.value.0], x.value.1;
    }
    if idx == |v| { return Fail(OutOfRange); }
    r := Ok((Obj(result), idx + 1));
  }
}
