/** Resolving JSON pointers in a document and applying JSON patches (RFC 6902). A reference into
    the document that the code then assigns through is an edit of the document here. */
module JsonPatch {
  import opened Decimals
  import opened JsonValue
  import opened JsonPointer

  /* ---- array indices ---- */

  const INT_MAX := 0x7FFF_FFFF

  predicate IsSpace(c: char) { c == ' ' || 9 as char <= c <= 13 as char }

  function SkipSpaces(s: string): string {
    if s != [] && IsSpace(s[0]) then SkipSpaces(s[1..]) else s
  }

  /** std::stoi: spaces, a sign and digits, and whatever follows. */
  function StoI(s: string): Outcome<int> {
    var t := SkipSpaces(s);
    var signed := t != [] && (t[0] == '-' || t[0] == '+');
    var u := if signed then t[1..] else t;
    var digits := u[..Digits(u)];
    if digits == [] then Fail(InvalidArgument)
    else
      var v: int := Number(digits);
      var n := if signed && t[0] == '-' then -v else v;
      if -INT_MAX - 1 <= n <= INT_MAX then Ok(n) else Fail(OutOfRange)
  }

  /** The decimal form of an index is read back, unless it exceeds an int. */
  lemma StoIDecimal(n: nat)
    ensures StoI(Decimal(n)) == if n <= INT_MAX then Ok(n) else Fail(OutOfRange)
  {
    var s := Decimal(n);
    assert IsDigit(s[0]) && SkipSpaces(s) == s;
    DigitsOfDigits(s);
    NumberOfDecimal(n);
    assert s[..|s|] == s;
  }

  /** So is any numeral after spaces and a sign, whatever stands behind it that is no digit. */
  lemma StoIReads(spaces: string, sign: string, n: nat, rest: string)
    requires (forall i :: 0 <= i < |spaces| ==> IsSpace(spaces[i])) && (sign == "" || sign == "+" || sign == "-")
    requires rest == "" || !IsDigit(rest[0])
    ensures var v := if sign == "-" then -(n as int) else n;
            StoI(spaces + (sign + (Decimal(n) + rest))) == if -INT_MAX - 1 <= v <= INT_MAX then Ok(v) else Fail(OutOfRange)
  {
    var line := Decimal(n);
    var t := sign + (line + rest);
    assert IsDigit(line[0]) && t[0] == if sign == "" then line[0] else sign[0];
    hide Decimal, Digits, Number, AllDigits;
    Spaced(spaces, t);
    hide SkipSpaces;
    assert t[if sign == "" then 0 else 1..] == line + rest;
    DigitsBefore(line, rest);
    assert (line + rest)[..|line|] == line;
    NumberOfDecimal(n);
  }

  lemma {:induction false} Spaced(spaces: string, t: string)
    requires (forall i :: 0 <= i < |spaces| ==> IsSpace(spaces[i])) && t != "" && !IsSpace(t[0])
    ensures SkipSpaces(spaces + t) == t
  {
    if spaces == "" {
      assert spaces + t == t;
    } else {
      assert (spaces + t)[1..] == spaces[1..] + t;
      Spaced(spaces[1..], t);
    }
  }

  predicate LeadingZero(token: string) { |token| > 1 && token[0] == '0' }

  // An existing element, as the checked access finds it.
  function CheckedIndex(token: string, size: nat): Outcome<nat> {
    if token == "-" then Fail(OutOfRange)
    else if LeadingZero(token) then Fail(DomainError)
    else match StoI(token)
      case Fail(e) => Fail(e)
      case Ok(i) => if 0 <= i < size then Ok(i) else Fail(OutOfRange)
  }

  // An element that the unchecked access may have to create.
  function UncheckedIndex(token: string, size: nat): Outcome<nat> {
    if LeadingZero(token) then Fail(DomainError)
    else if token == "-" then Ok(size)
    else match StoI(token)
      case Fail(e) => Fail(e)
      case Ok(i) => if i < 0 then Fail(Undefined) else Ok(i)
  }

  lemma CheckedIsUnchecked(token: string, size: nat)
    requires CheckedIndex(token, size).Ok?
    ensures UncheckedIndex(token, size) == CheckedIndex(token, size)
  {
  }

  lemma IndexOfDecimal(n: nat, size: nat)
    ensures Decimal(n) != "-"
    ensures n < size && n <= INT_MAX ==> CheckedIndex(Decimal(n), size) == Ok(n)
    ensures n <= INT_MAX ==> UncheckedIndex(Decimal(n), size) == Ok(n)
    ensures n > INT_MAX ==> CheckedIndex(Decimal(n), size) == UncheckedIndex(Decimal(n), size) == Fail(OutOfRange)
  {
    StoIDecimal(n);
    NoLeadingZero(n);
    assert IsDigit(Decimal(n)[0]);
  }

  /* ---- reading at a pointer ---- */

  /** The value a pointer refers to. */
  function At(doc: Json, ptr: seq<string>): Outcome<Json>
    decreases |ptr|
  {
    if ptr == [] then Ok(doc)
    else match doc
      case Obj(m) => if ptr[0] in m then At(m[ptr[0]], ptr[1..]) else Fail(OutOfRange)
      case Arr(x) =>
        (match CheckedIndex(ptr[0], |x|)
         case Ok(i) => At(x[i], ptr[1..])
         case Fail(e) => Fail(e))
      case _ => Fail(OutOfRange)
  }

  /* ---- editing at a pointer ---- */

  datatype Edit = Assign(v: Json) | Insert(last: string, v: Json) | Erase(last: string)

  // What is done to the value that the pointer refers to.
  function Do(x: Json, edit: Edit): Outcome<Json> {
    match edit
    case Assign(v) => Ok(v)
    case Insert(last, v) =>
      (match x
       case Null => Ok(Obj(map[last := v]))
       case Obj(m) => Ok(Obj(m[last := v]))
       case Arr(a) =>
         if last == "-" then Ok(Arr(a + [v]))
         else (match StoI(last)
               case Fail(e) => Fail(e)
               case Ok(i) => if 0 <= i <= |a| then Ok(Arr(a[..i] + [v] + a[i..])) else Fail(OutOfRange))
       case _ => Fail(AssertFailed))
    case Erase(last) =>
      (match x
       case Obj(m) => if last in m then Ok(Obj(m - {last})) else Fail(OutOfRange)
       case Arr(a) =>
         (match StoI(last)
          case Fail(e) => Fail(e)
          case Ok(i) => if 0 <= i < |a| then Ok(Arr(a[..i] + a[i + 1..])) else Fail(OutOfRange))
       case _ => Ok(x))
  }

  // A null that the unchecked access runs into becomes a container.
  function Container(x: Json, token: string): Json {
    if x != Null then x else if AllDigits(token) || token == "-" then Arr([]) else Obj(map[])
  }

  function Nulls(n: nat): seq<Json> { seq(n, _ => Null) }

  function InObj(m: map<string, Json>, k: string, r: Outcome<Json>): Outcome<Json> {
    if r.Ok? then Ok(Obj(m[k := r.value])) else r
  }

  function InArr(x: seq<Json>, i: nat, r: Outcome<Json>): Outcome<Json>
    requires i < |x|
  {
    if r.Ok? then Ok(Arr(x[i := r.value])) else r
  }

  /** The document after an edit at a pointer; `create` tells operator[] from at(). */
  function Walk(doc: Json, ptr: seq<string>, create: bool, edit: Edit): Outcome<Json>
    decreases |ptr|
  {
    if ptr == [] then Do(doc, edit)
    else
      var token, rest := ptr[0], ptr[1..];
      match if create then Container(doc, token) else doc
      case Obj(m) =>
        if token !in m && !create then Fail(OutOfRange)
        else InObj(m, token, Walk(if token in m then m[token] else Null, rest, create, edit))
      case Arr(x) =>
        var i := if create then UncheckedIndex(token, |x|) else CheckedIndex(token, |x|);
        if i.Fail? then Fail(i.error)
        else
          var x' := if i.value < |x| then x else x + Nulls(i.value - |x| + 1);
          InArr(x', i.value, Walk(x'[i.value], rest, create, edit))
      case _ => Fail(OutOfRange)
  }

  /* ---- the operations ---- */

  datatype Op =
    | Add(ptr: seq<string>, v: Json)
    | Remove(ptr: seq<string>)
    | Replace(ptr: seq<string>, v: Json)
    | Move(from: seq<string>, ptr: seq<string>)
    | Copy(from: seq<string>, ptr: seq<string>)
    | Test(ptr: seq<string>, v: Json)

  function AddTo(doc: Json, ptr: seq<string>, v: Json): Outcome<Json> {
    if ptr == [] then Ok(v)
    else if |ptr| > 1 && At(doc, ptr[..1]).Fail? then Fail(At(doc, ptr[..1]).error)
    else Walk(doc, ptr[..|ptr| - 1], true, Insert(ptr[|ptr| - 1], v))
  }

  function RemoveFrom(doc: Json, ptr: seq<string>): Outcome<Json> {
    if ptr == [] then Fail(DomainError) else Walk(doc, ptr[..|ptr| - 1], false, Erase(ptr[|ptr| - 1]))
  }

  function Exec(doc: Json, op: Op): Outcome<Json> {
    match op
    case Add(ptr, v) => AddTo(doc, ptr, v)
    case Remove(ptr) => RemoveFrom(doc, ptr)
    case Replace(ptr, v) => Walk(doc, ptr, false, Assign(v))
    case Move(from, ptr) =>
      (match At(doc, from)
       case Fail(e) => Fail(e)
       case Ok(v) =>
         match RemoveFrom(doc, from)
         case Fail(e) => Fail(e)
         case Ok(doc') => AddTo(doc', ptr, v))
    case Copy(from, ptr) =>
      (match At(doc, from)
       case Fail(e) => Fail(e)
       case Ok(v) => Walk(doc, ptr, true, Assign(v)))
    case Test(ptr, v) =>
      (match At(doc, ptr)
       case Ok(x) => if Eq(x, v) then Ok(doc) else Fail(DomainError)
       case Fail(e) => Fail(if e == OutOfRange then DomainError else e))
  }

  /* ---- patch documents ---- */

  function Member(m: map<string, Json>, name: string): Outcome<Json> {
    if name in m then Ok(m[name]) else Fail(InvalidArgument)
  }

  function Text(m: map<string, Json>, name: string): Outcome<string> {
    if name in m && m[name].Str? then Ok(m[name].s) else Fail(InvalidArgument)
  }

  function Pointer(m: map<string, Json>, name: string): Outcome<seq<string>> {
    match Text(m, name)
    case Ok(s) => Split(s)
    case Fail(e) => Fail(e)
  }

  function WithValue(m: map<string, Json>, make: Json -> Op): Outcome<Op> {
    match Member(m, "value")
    case Ok(v) => Ok(make(v))
    case Fail(e) => Fail(e)
  }

  function WithFrom(m: map<string, Json>, make: seq<string> -> Op): Outcome<Op> {
    match Pointer(m, "from")
    case Ok(p) => Ok(make(p))
    case Fail(e) => Fail(e)
  }

  // One element of a patch document.
  function ParseOp(doc: Json): Outcome<Op> {
    if !doc.Obj? then Fail(InvalidArgument)
    else
      var m := doc.members;
      match Text(m, "op")
      case Fail(e) => Fail(e)
      case Ok(op) =>
        match Pointer(m, "path")
        case Fail(e) => Fail(e)
        case Ok(ptr) =>
          if op == "add" then WithValue(m, v => Add(ptr, v))
          else if op == "remove" then Ok(Remove(ptr))
          else if op == "replace" then WithValue(m, v => Replace(ptr, v))
          else if op == "move" then WithFrom(m, from => Move(from, ptr))
          else if op == "copy" then WithFrom(m, from => Copy(from, ptr))
          else if op == "test" then WithValue(m, v => Test(ptr, v))
          else Fail(InvalidArgument)
  }

  function Apply(doc: Json, op: Json): Outcome<Json> {
    match ParseOp(op)
    case Ok(o) => Exec(doc, o)
    case Fail(e) => Fail(e)
  }

  // The operations one after the other, up to the first failure.
  function Run(doc: Json, ops: seq<Json>): Outcome<Json>
    decreases |ops|
  {
    if ops == [] then Ok(doc)
    else match Apply(doc, ops[0])
      case Ok(doc') => Run(doc', ops[1..])
      case Fail(e) => Fail(e)
  }

  function Patch(doc: Json, patch: Json): Outcome<Json> {
    if !patch.Arr? then Fail(InvalidArgument) else Run(doc, patch.items)
  }

  lemma {:induction false} RunSplit(doc: Json, a: seq<Json>, b: seq<Json>)
    ensures Run(doc, a + b) == if Run(doc, a).Ok? then Run(Run(doc, a).value, b) else Run(doc, a)
    decreases |a|
  {
    if a == [] {
      assert a + b == b;
    } else {
      assert (a + b)[0] == a[0] && (a + b)[1..] == a[1..] + b;
      if Apply(doc, a[0]).Ok? { RunSplit(Apply(doc, a[0]).value, a[1..], b); }
    }
  }

  /** The loop of patch: a failing operation leaves nothing behind, since the caller's document is
      not touched. */
  method ApplyPatch(doc: Json, patch: Json) returns (r: Outcome<Json>)
    ensures r == Patch(doc, patch)
  {
    if !patch.Arr? { return Fail(InvalidArgument); }
    var result := doc;
    for i := 0 to |patch.items|
      invariant Run(doc, patch.items) == Run(result, patch.items[i..])
    {
      assert patch.items[i..][1..] == patch.items[i + 1..];
      var step := Apply(result, patch.items[i]);
      if step.Fail? { return step; }
      result := step.value;
    }
    r := Ok(result);
  }

  /* ---- what an edit at an existing place does ---- */

  // The document with the value at an existing place replaced.
  function Put(doc: Json, ptr: seq<string>, y: Json): Json
    requires At(doc, ptr).Ok?
    decreases |ptr|
  {
    if ptr == [] then y
    else match doc
      case Obj(m) => Obj(m[ptr[0] := Put(m[ptr[0]], ptr[1..], y)])
      case Arr(x) => var i := CheckedIndex(ptr[0], |x|).value; Arr(x[i := Put(x[i], ptr[1..], y)])
  }

  function PutResult(doc: Json, ptr: seq<string>, r: Outcome<Json>): Outcome<Json>
    requires At(doc, ptr).Ok?
  {
    if r.Ok? then Ok(Put(doc, ptr, r.value)) else r
  }

  /** Where the checked access succeeds, both kinds of access find the same place. */
  lemma {:induction false} WalkAt(doc: Json, ptr: seq<string>, create: bool, edit: Edit)
    requires At(doc, ptr).Ok?
    ensures Walk(doc, ptr, create, edit) ==
            PutResult(doc, ptr, Do(At(doc, ptr).value, edit))
    decreases |ptr|
  {
    if ptr != [] {
      match doc
      case Obj(m) => WalkAt(m[ptr[0]], ptr[1..], create, edit);
      case Arr(x) =>
        CheckedIsUnchecked(ptr[0], |x|);
        WalkAt(x[CheckedIndex(ptr[0], |x|).value], ptr[1..], create, edit);
    }
  }

  lemma {:induction false} PutLaws(doc: Json, ptr: seq<string>, y: Json, z: Json)
    requires At(doc, ptr).Ok?
    ensures At(Put(doc, ptr, y), ptr) == Ok(y)
    ensures Put(Put(doc, ptr, y), ptr, z) == Put(doc, ptr, z)
    ensures Put(doc, ptr, At(doc, ptr).value) == doc
    decreases |ptr|
  {
    if ptr != [] {
      match doc
      case Obj(m) => PutLaws(m[ptr[0]], ptr[1..], y, z);
      case Arr(x) => PutLaws(x[CheckedIndex(ptr[0], |x|).value], ptr[1..], y, z);
    }
  }

  lemma {:induction false} Deeper(doc: Json, ptr: seq<string>, rest: seq<string>)
    requires At(doc, ptr).Ok?
    ensures At(doc, ptr + rest) == At(At(doc, ptr).value, rest)
    decreases |ptr|
  {
    if ptr == [] {
      assert ptr + rest == rest;
    } else {
      assert (ptr + rest)[0] == ptr[0] && (ptr + rest)[1..] == ptr[1..] + rest;
      match doc
      case Obj(m) => Deeper(m[ptr[0]], ptr[1..], rest);
      case Arr(x) => Deeper(x[CheckedIndex(ptr[0], |x|).value], ptr[1..], rest);
    }
  }

  lemma {:induction false} PutDeeper(doc: Json, ptr: seq<string>, rest: seq<string>, y: Json)
    requires At(doc, ptr).Ok? && At(At(doc, ptr).value, rest).Ok?
    ensures At(doc, ptr + rest).Ok?
    ensures Put(doc, ptr + rest, y) == Put(doc, ptr, Put(At(doc, ptr).value, rest, y))
    decreases |ptr|
  {
    Deeper(doc, ptr, rest);
    if ptr == [] {
      assert ptr + rest == rest;
    } else {
      assert (ptr + rest)[0] == ptr[0] && (ptr + rest)[1..] == ptr[1..] + rest;
      match doc
      case Obj(m) => PutDeeper(m[ptr[0]], ptr[1..], rest, y);
      case Arr(x) => PutDeeper(x[CheckedIndex(ptr[0], |x|).value], ptr[1..], rest, y);
    }
  }

  // The check of the first token of an add pointer passes.
  lemma TopExists(doc: Json, ptr: seq<string>)
    requires At(doc, ptr).Ok? && ptr != []
    ensures At(doc, ptr[..1]).Ok?
  {
    assert ptr[..1][1..] == [];
  }

  lemma AddToAt(doc: Json, ptr: seq<string>, p: seq<string>, t: string, v: Json)
    requires At(doc, ptr).Ok? && p == ptr + [t]
    ensures AddTo(doc, p, v) == PutResult(doc, ptr, Do(At(doc, ptr).value, Insert(t, v)))
  {
    assert p[..|p| - 1] == ptr && p[|p| - 1] == t;
    if ptr != [] {
      TopExists(doc, ptr);
      assert p[..1] == ptr[..1];
    }
    WalkAt(doc, ptr, true, Insert(t, v));
  }

  /** Adding and removing a child of an existing place, and replacing the place itself. */
  lemma ExecAt(doc: Json, ptr: seq<string>, t: string, v: Json)
    requires At(doc, ptr).Ok?
    ensures var x := At(doc, ptr).value;
            && Exec(doc, Add(ptr + [t], v)) == PutResult(doc, ptr, Do(x, Insert(t, v)))
            && Exec(doc, Remove(ptr + [t])) == PutResult(doc, ptr, Do(x, Erase(t)))
            && Exec(doc, Replace(ptr, v)) == Ok(Put(doc, ptr, v))
  {
    hide Walk, At, Put, AddTo;
    var p := ptr + [t];
    assert p[..|p| - 1] == ptr && p[|p| - 1] == t;
    AddToAt(doc, ptr, p, t, v);
    WalkAt(doc, ptr, false, Erase(t));
    WalkAt(doc, ptr, false, Assign(v));
  }

  // A child that can be put into the value at ptr, read there, and taken out again, can be so in the document.
  lemma Added(doc: Json, ptr: seq<string>, t: string, v: Json, y: Json)
    requires At(doc, ptr).Ok? && Do(At(doc, ptr).value, Insert(t, v)) == Ok(y)
    requires At(y, [t]) == Ok(v) && Do(y, Erase(t)) == At(doc, ptr)
    ensures var r := Exec(doc, Add(ptr + [t], v));
            && r.Ok? && At(r.value, ptr + [t]) == Ok(v)
            && (Exec(r.value, Test(ptr + [t], v)).Ok? <==> NoNaN(v))
            && Exec(r.value, Remove(ptr + [t])) == Ok(doc)
  {
    hide Walk, At, Put, AddTo, RemoveFrom, Do, Eq, NoNaN;
    var doc' := Put(doc, ptr, y);
    ExecAt(doc, ptr, t, v);
    PutLaws(doc, ptr, y, At(doc, ptr).value);
    Deeper(doc', ptr, [t]);
    EqualToSelf(v);
    ExecAt(doc', ptr, t, v);
  }

  /** A member added where there was none can be read back, passes a test unless it holds a NaN, and
      removing it restores the document. */
  lemma AddedMember(doc: Json, ptr: seq<string>, t: string, v: Json)
    requires At(doc, ptr).Ok? && At(doc, ptr).value.Obj? && t !in At(doc, ptr).value.members
    ensures var r := Exec(doc, Add(ptr + [t], v));
            && r.Ok? && At(r.value, ptr + [t]) == Ok(v)
            && (Exec(r.value, Test(ptr + [t], v)).Ok? <==> NoNaN(v))
            && Exec(r.value, Remove(ptr + [t])) == Ok(doc)
  {
    hide Put, Walk, Exec, NoNaN;
    var m := At(doc, ptr).value.members;
    assert [t][1..] == [] && m[t := v] - {t} == m;
    Added(doc, ptr, t, v, Obj(m[t := v]));
  }

  /** The same for an element put into an array, at every index that fits an int. */
  lemma AddedElement(doc: Json, ptr: seq<string>, i: nat, v: Json)
    requires At(doc, ptr).Ok? && At(doc, ptr).value.Arr? && i <= |At(doc, ptr).value.items| && i <= INT_MAX
    ensures var p := ptr + [Decimal(i)]; var r := Exec(doc, Add(p, v));
            && r.Ok? && At(r.value, p) == Ok(v)
            && (Exec(r.value, Test(p, v)).Ok? <==> NoNaN(v))
            && Exec(r.value, Remove(p)) == Ok(doc)
  {
    hide Put, Walk, Exec, NoNaN, StoI, CheckedIndex;
    var x, t := At(doc, ptr).value.items, Decimal(i);
    var y := x[..i] + [v] + x[i..];
    StoIDecimal(i);
    IndexOfDecimal(i, |y|);
    ElementRead(Arr(y), t, i);
    assert y[..i] + y[i + 1..] == x;
    Added(doc, ptr, t, v, Arr(y));
  }

  lemma ElementRead(y: Json, t: string, i: nat)
    requires y.Arr? && CheckedIndex(t, |y.items|) == Ok(i) && i < |y.items|
    ensures At(y, [t]) == Ok(y.items[i])
  {
    assert [t][1..] == [];
  }
}
