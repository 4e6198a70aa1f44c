/** What the six operations of a JSON patch mean in terms of reading the document, and where the library departs
    from RFC 6902. */
module JsonOps {
  import opened Decimals
  import opened JsonValue
  import opened JsonPointer
  import opened JsonPatch

  /* ---- places ---- */

  // The two pointers part ways: at an object with different tokens, at an array with different elements, or
  // with a token that names no element.
  predicate Elsewhere(doc: Json, p: seq<string>, q: seq<string>)
    decreases |p|
  {
    p != [] && q != [] &&
    match doc
    case Obj(m) => p[0] != q[0] || (p[0] in m && Elsewhere(m[p[0]], p[1..], q[1..]))
    case Arr(x) =>
      var i, j := CheckedIndex(p[0], |x|), CheckedIndex(q[0], |x|);
      i.Fail? || j.Fail? || i.value != j.value || Elsewhere(x[i.value], p[1..], q[1..])
    case _ => false
  }

  // Member `a` of an object may have changed, come or gone, and nothing else.
  ghost predicate OnlyMember(m: map<string, Json>, m': map<string, Json>, a: string) {
    forall k :: k != a ==> (k in m' <==> k in m) && (k in m ==> m'[k] == m[k])
  }

  predicate ObjectAt(doc: Json, ptr: seq<string>) { At(doc, ptr).Ok? && At(doc, ptr).value.Obj? }

  // The members of the object at ptr.
  function Members(doc: Json, ptr: seq<string>): map<string, Json>
    requires ObjectAt(doc, ptr)
  {
    At(doc, ptr).value.members
  }

  lemma Front(f: seq<string>, a: string)
    ensures f + [a] != []
    ensures f != [] ==> (f + [a])[0] == f[0] && (f + [a])[1..] == f[1..] + [a]
    ensures f == [] ==> (f + [a])[0] == a && (f + [a])[1..] == []
  {
  }

  /** Changing one member is not seen from elsewhere. */
  lemma {:induction false} ReadsElsewhere(doc: Json, f: seq<string>, a: string, m': map<string, Json>, q: seq<string>)
    requires ObjectAt(doc, f) && OnlyMember(Members(doc, f), m', a) && Elsewhere(doc, f + [a], q)
    ensures At(Put(doc, f, Obj(m')), q) == At(doc, q)
    decreases |f|
  {
    Front(f, a);
    if f != [] {
      match doc
      case Obj(m) => if q[0] == f[0] { ReadsElsewhere(m[f[0]], f[1..], a, m', q[1..]); }
      case Arr(x) =>
        var i := CheckedIndex(f[0], |x|).value;
        if CheckedIndex(q[0], |x|) == Ok(i) { ReadsElsewhere(x[i], f[1..], a, m', q[1..]); }
    }
  }

  // Nor does it bring places elsewhere together.
  lemma {:induction false} StaysElsewhere(doc: Json, f: seq<string>, a: string, m': map<string, Json>,
                                          p: seq<string>, q: seq<string>)
    requires ObjectAt(doc, f) && OnlyMember(Members(doc, f), m', a)
    requires Elsewhere(doc, f + [a], p) && Elsewhere(doc, f + [a], q) && Elsewhere(doc, p, q)
    ensures Elsewhere(Put(doc, f, Obj(m')), p, q)
    decreases |f|
  {
    Front(f, a);
    if f != [] {
      match doc
      case Obj(m) => if p[0] == q[0] == f[0] { StaysElsewhere(m[f[0]], f[1..], a, m', p[1..], q[1..]); }
      case Arr(x) =>
        var i := CheckedIndex(f[0], |x|).value;
        if CheckedIndex(q[0], |x|) == CheckedIndex(p[0], |x|) == Ok(i) {
          StaysElsewhere(x[i], f[1..], a, m', p[1..], q[1..]);
        }
    }
  }

  lemma {:induction false} SourceElsewhere(doc: Json, f: seq<string>, a: string, m': map<string, Json>, p: seq<string>)
    requires ObjectAt(doc, f) && OnlyMember(Members(doc, f), m', a) && Elsewhere(doc, f + [a], p)
    ensures Elsewhere(Put(doc, f, Obj(m')), p, f + [a])
    decreases |f|
  {
    Front(f, a);
    if f != [] {
      match doc
      case Obj(m) => if p[0] == f[0] { SourceElsewhere(m[f[0]], f[1..], a, m', p[1..]); }
      case Arr(x) =>
        var i := CheckedIndex(f[0], |x|).value;
        if CheckedIndex(p[0], |x|) == Ok(i) { SourceElsewhere(x[i], f[1..], a, m', p[1..]); }
    }
  }

  // The object that is to take the value is still there.
  lemma {:induction false} ParentStays(doc: Json, f: seq<string>, a: string, m': map<string, Json>, p: seq<string>, b: string)
    requires ObjectAt(doc, f) && OnlyMember(Members(doc, f), m', a)
    requires ObjectAt(doc, p) && Elsewhere(doc, f + [a], p + [b])
    ensures ObjectAt(Put(doc, f, Obj(m')), p)
    decreases |f|
  {
    Front(f, a);
    Front(p, b);
    if f != [] && p != [] {
      match doc
      case Obj(m) => if p[0] == f[0] { ParentStays(m[f[0]], f[1..], a, m', p[1..], b); }
      case Arr(x) =>
        var i := CheckedIndex(f[0], |x|).value;
        if CheckedIndex(p[0], |x|) == Ok(i) { ParentStays(x[i], f[1..], a, m', p[1..], b); }
    }
  }

  lemma MemberAt(doc: Json, p: seq<string>, b: string)
    requires ObjectAt(doc, p)
    ensures At(doc, p + [b]) == if b in Members(doc, p) then Ok(Members(doc, p)[b]) else Fail(OutOfRange)
  {
    Deeper(doc, p, [b]);
    assert [b][1..] == [];
  }

  // Setting and erasing one member of an object in the document.
  lemma SetMember(doc: Json, p: seq<string>, b: string, v: Json)
    requires ObjectAt(doc, p)
    ensures var r := Put(doc, p, Obj(Members(doc, p)[b := v]));
            Exec(doc, Add(p + [b], v)) == Ok(r) && At(r, p + [b]) == Ok(v)
  {
    hide Put, Exec;
    var m := Members(doc, p);
    ExecAt(doc, p, b, v);
    PutLaws(doc, p, Obj(m[b := v]), Null);
    MemberAt(Put(doc, p, Obj(m[b := v])), p, b);
  }

  lemma EraseMember(doc: Json, p: seq<string>, b: string)
    requires ObjectAt(doc, p) && b in Members(doc, p)
    ensures var r := Put(doc, p, Obj(Members(doc, p) - {b}));
            Exec(doc, Remove(p + [b])) == Ok(r) && At(r, p + [b]).Fail?
  {
    hide Put, Exec;
    var m := Members(doc, p);
    ExecAt(doc, p, b, Null);
    PutLaws(doc, p, Obj(m - {b}), Null);
    MemberAt(Put(doc, p, Obj(m - {b})), p, b);
  }

  /* ---- move ---- */

  /** A move is a remove followed by an add of the value that stood there, in every document. */
  lemma MoveIsRemoveThenAdd(doc: Json, from: seq<string>, to: seq<string>)
    ensures Exec(doc, Move(from, to)) ==
            if At(doc, from).Fail? then Fail(At(doc, from).error)
            else if Exec(doc, Remove(from)).Fail? then Exec(doc, Remove(from))
            else Exec(Exec(doc, Remove(from)).value, Add(to, At(doc, from).value))
  {
  }

  /** A member moved to another object: the value stands at the target, the source is gone, and every place
      apart from the two reads as before. */
  lemma MoveMember(doc: Json, f: seq<string>, a: string, p: seq<string>, b: string)
    requires ObjectAt(doc, f) && a in Members(doc, f) && ObjectAt(doc, p) && Elsewhere(doc, f + [a], p + [b])
    ensures var from, to := f + [a], p + [b];
            var r := Exec(doc, Move(from, to));
            && r.Ok? && At(r.value, to) == At(doc, from) && At(r.value, from).Fail?
            && forall q :: Elsewhere(doc, from, q) && Elsewhere(doc, to, q) ==> At(r.value, q) == At(doc, q)
  {
    hide At, Put, Exec, Elsewhere;
    var from, to, m := f + [a], p + [b], Members(doc, f);
    MemberAt(doc, f, a);
    MoveIsRemoveThenAdd(doc, from, to);
    EraseMember(doc, f, a);
    var doc1 := Put(doc, f, Obj(m - {a}));
    ParentStays(doc, f, a, m - {a}, p, b);
    SetMember(doc1, p, b, m[a]);
    SourceElsewhere(doc, f, a, m - {a}, to);
    ReadsElsewhere(doc1, p, b, Members(doc1, p)[b := m[a]], from);
    forall q | Elsewhere(doc, from, q) && Elsewhere(doc, to, q)
      ensures At(Put(doc1, p, Obj(Members(doc1, p)[b := m[a]])), q) == At(doc, q)
    {
      ReadsElsewhere(doc, f, a, m - {a}, q);
      StaysElsewhere(doc, f, a, m - {a}, to, q);
      ReadsElsewhere(doc1, p, b, Members(doc1, p)[b := m[a]], q);
    }
  }

  /** A member moved onto itself stays. */
  lemma MoveOntoItself(doc: Json, f: seq<string>, a: string)
    requires ObjectAt(doc, f) && a in Members(doc, f)
    ensures Exec(doc, Move(f + [a], f + [a])) == Ok(doc)
  {
    hide At, Put, Exec;
    var from, m := f + [a], Members(doc, f);
    MemberAt(doc, f, a);
    MoveIsRemoveThenAdd(doc, from, from);
    EraseMember(doc, f, a);
    var doc1 := Put(doc, f, Obj(m - {a}));
    PutLaws(doc, f, Obj(m - {a}), Obj(m));
    SetMember(doc1, f, a, m[a]);
    assert (m - {a})[a := m[a]] == m;
    PutLaws(doc, f, Obj(m), Null);
  }

  /* ---- copy ---- */

  // Below an existing place both kinds of access go on from the value there.
  lemma {:induction false} WalkBelow(doc: Json, p: seq<string>, rest: seq<string>, create: bool, edit: Edit)
    requires At(doc, p).Ok?
    ensures Walk(doc, p + rest, create, edit) == PutResult(doc, p, Walk(At(doc, p).value, rest, create, edit))
    decreases |p|
  {
    var w := p + rest;
    if p == [] {
      assert w == rest;
    } else {
      assert w[0] == p[0] && w[1..] == p[1..] + rest;
      match doc
      case Obj(m) => WalkBelow(m[p[0]], p[1..], rest, create, edit);
      case Arr(x) =>
        CheckedIsUnchecked(p[0], |x|);
        WalkBelow(x[CheckedIndex(p[0], |x|).value], p[1..], rest, create, edit);
    }
  }

  // The last step of a copy.
  function AssignedAt(x: Json, t: string, v: Json): Outcome<Json> { Walk(x, [t], true, Assign(v)) }

  lemma CopyBelow(doc: Json, from: seq<string>, p: seq<string>, t: string)
    requires At(doc, from).Ok? && At(doc, p).Ok?
    ensures Exec(doc, Copy(from, p + [t])) == PutResult(doc, p, AssignedAt(At(doc, p).value, t, At(doc, from).value))
  {
    WalkBelow(doc, p, [t], true, Assign(At(doc, from).value));
  }

  lemma AssignsHere(x: Json, t: string, v: Json)
    ensures Walk(x, [t][1..], true, Assign(v)) == Ok(v)
  {
    assert [t][1..] == [];
  }

  lemma AssignedMember(m: map<string, Json>, b: string, v: Json)
    ensures AssignedAt(Obj(m), b, v) == Ok(Obj(m[b := v]))
  {
    AssignsHere(if b in m then m[b] else Null, b, v);
  }

  /** A copy to a member does what an add of the value does: the value stands at the target, and every place
      apart from that, so the source if it is apart, reads as before. */
  lemma CopyMember(doc: Json, from: seq<string>, p: seq<string>, b: string)
    requires At(doc, from).Ok? && ObjectAt(doc, p)
    ensures var r := Exec(doc, Copy(from, p + [b]));
            && r == Exec(doc, Add(p + [b], At(doc, from).value))
            && r.Ok? && At(r.value, p + [b]) == At(doc, from)
            && forall q :: Elsewhere(doc, p + [b], q) ==> At(r.value, q) == At(doc, q)
  {
    var m, v := Members(doc, p), At(doc, from).value;
    CopyBelow(doc, from, p, b);
    AssignedMember(m, b, v);
    hide At, Put, Exec, Elsewhere, AssignedAt;
    SetMember(doc, p, b, v);
    forall q | Elsewhere(doc, p + [b], q) ensures At(Put(doc, p, Obj(m[b := v])), q) == At(doc, q) {
      ReadsElsewhere(doc, p, b, m[b := v], q);
    }
  }

  // The array with v at index i, and nulls up to there if it is too short.
  function Copied(x: seq<Json>, i: nat, v: Json): (r: seq<Json>)
    ensures i <= |x| ==> (r == x[..i] + [v] + x[i..] <==> i == |x|)
  {
    var r := if i < |x| then x[i := v] else (x + Nulls(i - |x| + 1))[i := v];
    assert i == |x| ==> r == x + [v];
    r
  }

  lemma InsertedElement(x: seq<Json>, i: nat, v: Json)
    requires i <= INT_MAX
    ensures Do(Arr(x), Insert(Decimal(i), v)) == if i <= |x| then Ok(Arr(x[..i] + [v] + x[i..])) else Fail(OutOfRange)
  {
    StoIDecimal(i);
    IndexOfDecimal(i, |x|);
    hide StoI, UncheckedIndex, CheckedIndex, AllDigits;
  }

  lemma AssignedElement(x: seq<Json>, i: nat, v: Json)
    requires i <= INT_MAX
    ensures AssignedAt(Arr(x), Decimal(i), v) == Ok(Arr(Copied(x, i, v)))
  {
    var t := Decimal(i);
    var x' := if i < |x| then x else x + Nulls(i - |x| + 1);
    IndexOfDecimal(i, |x|);
    AssignsHere(x'[i], t, v);
    hide UncheckedIndex, CheckedIndex, Nulls, AllDigits, StoI;
  }

  /** Into an array a copy overwrites, where section 4.5 of RFC 6902 asks for what an add of the value does:
      the two agree exactly at the end of the array. */
  lemma CopyIsAddExactly(doc: Json, from: seq<string>, p: seq<string>, i: nat)
    requires At(doc, from).Ok? && At(doc, p).Ok? && At(doc, p).value.Arr? && i <= INT_MAX
    ensures Exec(doc, Copy(from, p + [Decimal(i)])).Ok?
    ensures Exec(doc, Copy(from, p + [Decimal(i)])) == Exec(doc, Add(p + [Decimal(i)], At(doc, from).value))
            <==> i == |At(doc, p).value.items|
  {
    var x, v, t := At(doc, p).value.items, At(doc, from).value, Decimal(i);
    CopyBelow(doc, from, p, t);
    AssignedElement(x, i, v);
    ExecAt(doc, p, t, v);
    InsertedElement(x, i, v);
    var copied := Arr(Copied(x, i, v));
    hide At, Put, Exec, AssignedAt, Do, Copied, Nulls, AllDigits;
    PutLaws(doc, p, copied, Null);
    if i <= |x| {
      var added := Arr(x[..i] + [v] + x[i..]);
      PutLaws(doc, p, added, Null);
      assert copied == added <==> i == |x|;
    }
  }

  /** The token "-" adds at the end. */
  lemma DashAppends(doc: Json, p: seq<string>, v: Json)
    requires At(doc, p).Ok? && At(doc, p).value.Arr?
    ensures Exec(doc, Add(p + ["-"], v)) == Ok(Put(doc, p, Arr(At(doc, p).value.items + [v])))
  {
    ExecAt(doc, p, "-", v);
    hide At, Put, Exec;
  }

  /** The whole document can be added, replaced and copied over, but neither removed nor moved. */
  lemma WholeDocument(doc: Json, v: Json)
    ensures Exec(doc, Add([], v)) == Ok(v) && Exec(doc, Replace([], v)) == Ok(v)
    ensures Exec(doc, Remove([])) == Fail(DomainError)
    ensures forall to :: Exec(doc, Move([], to)) == Fail(DomainError)
    ensures forall from :: At(doc, from).Ok? ==> Exec(doc, Copy(from, [])) == At(doc, from)
  {
  }

  /* ---- test, replace, remove ---- */

  /** A test passes exactly if the place exists and holds an equal value, and never changes anything. */
  lemma TestExactly(doc: Json, ptr: seq<string>, v: Json)
    ensures Exec(doc, Test(ptr, v)).Ok? <==> At(doc, ptr).Ok? && Eq(At(doc, ptr).value, v)
    ensures Exec(doc, Test(ptr, v)).Ok? ==> Exec(doc, Test(ptr, v)) == Ok(doc)
    ensures (At(doc, ptr).Ok? && !Eq(At(doc, ptr).value, v)) || At(doc, ptr) == Fail(OutOfRange) ==>
              Exec(doc, Test(ptr, v)) == Fail(DomainError)
  {
  }

  lemma {:induction false} CheckedWalkFails(doc: Json, p: seq<string>, edit: Edit)
    requires At(doc, p).Fail?
    ensures Walk(doc, p, false, edit).Fail?
    decreases |p|
  {
    match doc
    case Obj(m) => if p[0] in m { CheckedWalkFails(m[p[0]], p[1..], edit); }
    case Arr(x) =>
      if CheckedIndex(p[0], |x|).Ok? { CheckedWalkFails(x[CheckedIndex(p[0], |x|).value], p[1..], edit); }
    case _ =>
  }

  /** A replace succeeds exactly if the place exists. */
  lemma ReplaceExactly(doc: Json, ptr: seq<string>, v: Json)
    ensures Exec(doc, Replace(ptr, v)).Ok? <==> At(doc, ptr).Ok?
    ensures At(doc, ptr).Ok? ==> At(Exec(doc, Replace(ptr, v)).value, ptr) == Ok(v)
  {
    if At(doc, ptr).Ok? {
      WalkAt(doc, ptr, false, Assign(v));
      PutLaws(doc, ptr, v, v);
    } else {
      CheckedWalkFails(doc, ptr, Assign(v));
    }
  }

  // The token names an element for erase(), which takes leading zeros and trailing text.
  predicate Erases(t: string, size: nat) { StoI(t).Ok? && 0 <= StoI(t).value < size }

  lemma ErasesExactly(x: Json, t: string)
    ensures Do(x, Erase(t)).Ok? <==>
            match x
            case Obj(m) => t in m
            case Arr(a) => Erases(t, |a|)
            case _ => true
    ensures !x.Obj? && !x.Arr? ==> Do(x, Erase(t)) == Ok(x)
  {
  }

  /** A remove succeeds exactly if the parent exists and, being an object, has the member or, being an array,
      the element; of any other parent nothing is removed, without an error. */
  lemma RemoveExactly(doc: Json, p: seq<string>, t: string)
    ensures Exec(doc, Remove(p + [t])).Ok? <==>
            At(doc, p).Ok? &&
            match At(doc, p).value
            case Obj(m) => t in m
            case Arr(x) => Erases(t, |x|)
            case _ => true
    ensures At(doc, p).Ok? && !At(doc, p).value.Obj? && !At(doc, p).value.Arr? ==> Exec(doc, Remove(p + [t])) == Ok(doc)
  {
    if At(doc, p).Ok? {
      hide At, Exec, Put, Do, StoI, Erases;
      ExecAt(doc, p, t, Null);
      PutLaws(doc, p, Null, Null);
      ErasesExactly(At(doc, p).value, t);
    } else {
      assert (p + [t])[..|p|] == p;
      CheckedWalkFails(doc, p, Erase(t));
    }
  }

  /** Where the parent exists, an add succeeds exactly if it is null, an object, or an array that the token
      names an element of, its end, or "-". A move fails exactly as the remove or the add it consists of. */
  lemma AddExactly(doc: Json, p: seq<string>, t: string, v: Json)
    requires At(doc, p).Ok?
    ensures Exec(doc, Add(p + [t], v)).Ok? <==>
            match At(doc, p).value
            case Null => true
            case Obj(_) => true
            case Arr(x) => t == "-" || Erases(t, |x| + 1)
            case _ => false
  {
    ExecAt(doc, p, t, v);
    hide At, Exec, Put, StoI;
  }

  /* ---- adding below what is not there ---- */

  // A token under which a null becomes a container that takes it.
  predicate Creates(t: string) { AllDigits(t) ==> !LeadingZero(t) && StoI(t).Ok? }

  predicate Creatable(r: seq<string>) { forall i :: 0 <= i < |r| ==> Creates(r[i]) }

  lemma {:induction false} GrowsFromNull(r: seq<string>, last: string, v: Json)
    ensures Walk(Null, r, true, Insert(last, v)).Ok? <==> Creatable(r)
    ensures Creatable(r) && "-" !in r ==> At(Walk(Null, r, true, Insert(last, v)).value, r + [last]) == Ok(v)
    decreases |r|
  {
    if r == [] {
      MemberRead(last, v);
      assert r + [last] == [last];
    } else {
      GrowsFromNull(r[1..], last, v);
      CreatesFirst(r);
      GrowsOne(r[0], r[1..], Insert(last, v));
      assert [r[0]] + r[1..] == r && (r + [last])[1..] == r[1..] + [last];
    }
  }

  lemma MemberRead(last: string, v: Json)
    ensures At(Obj(map[last := v]), [last]) == Ok(v)
  {
    assert [last][1..] == [];
  }

  lemma CreatesFirst(r: seq<string>)
    requires r != []
    ensures Creatable(r) <==> Creates(r[0]) && Creatable(r[1..])
  {
    if Creates(r[0]) && Creatable(r[1..]) {
      forall i | 0 <= i < |r| ensures Creates(r[i]) { assert i > 0 ==> r[i] == r[1..][i - 1]; }
    }
  }

  lemma GrowsOne(t: string, rest: seq<string>, edit: Edit)
    ensures Walk(Null, [t] + rest, true, edit).Ok? <==> Creates(t) && Walk(Null, rest, true, edit).Ok?
    ensures Walk(Null, [t] + rest, true, edit).Ok? && t != "-" ==>
              forall more :: At(Walk(Null, [t] + rest, true, edit).value, [t] + more) == At(Walk(Null, rest, true, edit).value, more)
  {
    var w := [t] + rest;
    assert w[0] == t && w[1..] == rest;
    if AllDigits(t) || t == "-" {
      CreatedIndex(t);
      hide UncheckedIndex, CheckedIndex, AllDigits, Creates;
    } else {
      hide UncheckedIndex;
    }
    if Walk(Null, w, true, edit).Ok? && t != "-" {
      forall more ensures At(Walk(Null, w, true, edit).value, [t] + more) == At(Walk(Null, rest, true, edit).value, more) {
        assert ([t] + more)[0] == t && ([t] + more)[1..] == more;
      }
    }
  }

  lemma CreatedIndex(t: string)
    requires AllDigits(t) || t == "-"
    ensures UncheckedIndex(t, 0).Ok? <==> Creates(t)
    ensures UncheckedIndex(t, 0).Ok? && t != "-" ==> var i := UncheckedIndex(t, 0).value; CheckedIndex(t, i + 1) == Ok(i)
  {
    assert "-"[0] == '-';
    if AllDigits(t) && t != "" {
      DigitsOfDigits(t);
      assert t[..|t|] == t && SkipSpaces(t) == t;
    }
  }

  /** An add whose parent does not exist is to fail, says section 4.1 of RFC 6902. Below a missing member t of
      an existing object the library succeeds exactly if that object is not the whole document and the
      tokens after t can all be created. */
  lemma AddBelowMissing(doc: Json, q: seq<string>, t: string, r: seq<string>, last: string, v: Json)
    requires ObjectAt(doc, q) && t !in Members(doc, q)
    ensures Exec(doc, Add(q + ([t] + r) + [last], v)).Ok? <==> q != [] && Creatable(r)
    ensures q != [] && Creatable(r) && "-" !in r ==>
              At(Exec(doc, Add(q + ([t] + r) + [last], v)).value, q + ([t] + r) + [last]) == Ok(v)
  {
    var m := Members(doc, q);
    var parent := q + ([t] + r);
    var ptr := parent + [last];
    assert ptr[..|ptr| - 1] == parent && ptr[|ptr| - 1] == last;
    if q == [] {
      assert ptr[..1] == [t];
      assert At(doc, [t]).Fail?;
    } else {
      assert ptr[..1] == q[..1];
      TopExists(doc, q);
      assert Exec(doc, Add(ptr, v)) == Walk(doc, parent, true, Insert(last, v));
      hide At, Walk, Exec, Put, Creatable;
      WalkBelow(doc, q, [t] + r, true, Insert(last, v));
      MissingGrows(m, t, r, Insert(last, v));
      GrowsFromNull(r, last, v);
      if Creatable(r) { GrownRead(doc, q, t, r + [last], Walk(Null, r, true, Insert(last, v)).value, ptr); }
    }
  }

  lemma GrownRead(doc: Json, q: seq<string>, t: string, rest: seq<string>, g: Json, ptr: seq<string>)
    requires ObjectAt(doc, q) && ptr == q + ([t] + rest)
    ensures At(Put(doc, q, Obj(Members(doc, q)[t := g])), ptr) == At(g, rest)
  {
    var y := Obj(Members(doc, q)[t := g]);
    PutLaws(doc, q, y, Null);
    Deeper(Put(doc, q, y), q, [t] + rest);
    assert ([t] + rest)[0] == t && ([t] + rest)[1..] == rest;
  }

  lemma MissingGrows(m: map<string, Json>, t: string, r: seq<string>, edit: Edit)
    requires t !in m
    ensures Walk(Obj(m), [t] + r, true, edit) == InObj(m, t, Walk(Null, r, true, edit))
  {
    assert ([t] + r)[1..] == r;
  }

  /** And so a member can be moved below itself, against section 4.4, exactly if it is not a member of the
      whole document and the tokens in between can be created. */
  lemma MoveBelowItself(doc: Json, f: seq<string>, a: string, r: seq<string>, last: string)
    requires ObjectAt(doc, f) && a in Members(doc, f)
    ensures Exec(doc, Move(f + [a], f + ([a] + r) + [last])).Ok? <==> f != [] && Creatable(r)
    ensures f != [] && Creatable(r) && "-" !in r ==>
              At(Exec(doc, Move(f + [a], f + ([a] + r) + [last])).value, f + ([a] + r) + [last]) == At(doc, f + [a])
  {
    hide At, Put, Exec, Creatable;
    var from, m := f + [a], Members(doc, f);
    MemberAt(doc, f, a);
    MoveIsRemoveThenAdd(doc, from, f + ([a] + r) + [last]);
    EraseMember(doc, f, a);
    PutLaws(doc, f, Obj(m - {a}), Null);
    AddBelowMissing(Put(doc, f, Obj(m - {a})), f, a, r, last, m[a]);
  }

  /* ---- patch documents ---- */

  // The element of a patch document that stands for an operation.
  function DocOf(op: Op): Json {
    match op
    case Add(ptr, v) => Obj(map["op" := Str("add"), "path" := Str(Render(ptr)), "value" := v])
    case Remove(ptr) => Obj(map["op" := Str("remove"), "path" := Str(Render(ptr))])
    case Replace(ptr, v) => Obj(map["op" := Str("replace"), "path" := Str(Render(ptr)), "value" := v])
    case Move(from, ptr) => Obj(map["op" := Str("move"), "path" := Str(Render(ptr)), "from" := Str(Render(from))])
    case Copy(from, ptr) => Obj(map["op" := Str("copy"), "path" := Str(Render(ptr)), "from" := Str(Render(from))])
    case Test(ptr, v) => Obj(map["op" := Str("test"), "path" := Str(Render(ptr)), "value" := v])
  }

  function DocsOf(ops: seq<Op>): seq<Json> {
    if ops == [] then [] else [DocOf(ops[0])] + DocsOf(ops[1..])
  }

  lemma NamesApart()
    ensures "op" != "path" && "op" != "value" && "op" != "from" && "path" != "value" && "path" != "from"
    ensures "remove" != "add" && "replace" != "add" && "replace" != "remove"
    ensures "move" != "add" && "move" != "remove" && "move" != "replace"
    ensures "copy" != "add" && "copy" != "remove" && "copy" != "replace"
    ensures "test" != "add" && "test" != "remove" && "test" != "replace"
    ensures "copy" != "move" && "test" != "move" && "test" != "copy"
  {
    assert "op"[0] == 'o' && "path"[0] == 'p' && "value"[0] == 'v' && "from"[0] == 'f';
    assert |"add"| == 3 && |"remove"| == 6 && |"replace"| == 7 && |"move"| == |"copy"| == |"test"| == 4;
    assert "move"[0] == 'm' && "copy"[0] == 'c' && "test"[0] == 't';
  }

  // All members of the one are members of the other.
  predicate Within(m: map<string, Json>, m': map<string, Json>) { forall k :: k in m ==> k in m' && m'[k] == m[k] }

  /** A patch element is read as an operation exactly if it has the members of that operation's document;
      further members are ignored. */
  lemma ParseExactly(doc: Json, op: Op)
    ensures ParseOp(doc) == Ok(op) <==> doc.Obj? && Within(DocOf(op).members, doc.members)
  {
    hide ParseOp, DocOf, Within, Pointer, Render;
    if doc.Obj? {
      ParseNamed(doc.members, op);
      DocNamed(doc.members, op);
      PointerOf(doc.members, "path", op.ptr);
      if op.Move? || op.Copy? { PointerOf(doc.members, "from", op.from); }
    } else {
      NotAnObject(doc);
    }
  }

  lemma NotAnObject(doc: Json)
    requires !doc.Obj?
    ensures ParseOp(doc).Fail?
  {
  }

  function NameOf(op: Op): string {
    match op
    case Add(_, _) => "add"
    case Remove(_) => "remove"
    case Replace(_, _) => "replace"
    case Move(_, _) => "move"
    case Copy(_, _) => "copy"
    case Test(_, _) => "test"
  }

  predicate Holding(m: map<string, Json>, name: string, v: Json) { name in m && m[name] == v }

  lemma ParseNamed(m: map<string, Json>, op: Op)
    ensures ParseOp(Obj(m)) == Ok(op) <==>
            && Holding(m, "op", Str(NameOf(op))) && Pointer(m, "path") == Ok(op.ptr)
            && (op.Add? || op.Replace? || op.Test? ==> Holding(m, "value", op.v))
            && (op.Move? || op.Copy? ==> Pointer(m, "from") == Ok(op.from))
  {
    NamesApart();
    hide Pointer;
  }

  lemma DocNamed(m: map<string, Json>, op: Op)
    ensures DocOf(op).Obj?
    ensures Within(DocOf(op).members, m) <==>
            && Holding(m, "op", Str(NameOf(op))) && Holding(m, "path", Str(Render(op.ptr)))
            && (op.Add? || op.Replace? || op.Test? ==> Holding(m, "value", op.v))
            && (op.Move? || op.Copy? ==> Holding(m, "from", Str(Render(op.from))))
  {
    NamesApart();
    hide Render, Within, Holding;
    var o, p := Str(NameOf(op)), Str(Render(op.ptr));
    match op
    case Remove(_) => TwoWithin("op", o, "path", p, m);
    case Move(from, _) => ThreeWithin("op", o, "path", p, "from", Str(Render(from)), m);
    case Copy(from, _) => ThreeWithin("op", o, "path", p, "from", Str(Render(from)), m);
    case _ => ThreeWithin("op", o, "path", p, "value", op.v, m);
  }

  lemma TwoWithin(a: string, x: Json, b: string, y: Json, m: map<string, Json>)
    requires a != b
    ensures Within(map[a := x, b := y], m) <==> Holding(m, a, x) && Holding(m, b, y)
  {
    assert a in map[a := x, b := y] && b in map[a := x, b := y];
  }

  lemma ThreeWithin(a: string, x: Json, b: string, y: Json, c: string, z: Json, m: map<string, Json>)
    requires a != b && a != c && b != c
    ensures Within(map[a := x, b := y, c := z], m) <==> Holding(m, a, x) && Holding(m, b, y) && Holding(m, c, z)
  {
    var d := map[a := x, b := y, c := z];
    assert a in d && b in d && c in d;
  }

  // The pointer in a member.
  lemma PointerOf(m: map<string, Json>, name: string, ptr: seq<string>)
    ensures Pointer(m, name) == Ok(ptr) <==> Holding(m, name, Str(Render(ptr)))
  {
    hide Split, Render;
    PointerRoundTrip(ptr);
    if Pointer(m, name) == Ok(ptr) { StringRoundTrip(m[name].s); }
  }

  /** The document of an operation is read back as that operation. */
  lemma ParseBack(op: Op)
    ensures ParseOp(DocOf(op)) == Ok(op)
  {
    hide DocOf;
    ParseExactly(DocOf(op), op);
    DocNamed(map[], op);
  }

  // The operations one after the other, up to the first failure.
  function ExecAll(doc: Json, ops: seq<Op>): Outcome<Json>
    decreases |ops|
  {
    if ops == [] then Ok(doc)
    else match Exec(doc, ops[0])
      case Ok(doc') => ExecAll(doc', ops[1..])
      case Fail(e) => Fail(e)
  }

  /** A patch document made of operations performs them in order. */
  lemma {:induction false} PatchPerforms(doc: Json, ops: seq<Op>)
    ensures Patch(doc, Arr(DocsOf(ops))) == ExecAll(doc, ops)
    decreases |ops|
  {
    hide ParseOp, Exec, DocOf;
    if ops != [] {
      ParseBack(ops[0]);
      var docs := DocsOf(ops);
      assert docs[0] == DocOf(ops[0]) && docs[1..] == DocsOf(ops[1..]);
      if Exec(doc, ops[0]).Ok? { PatchPerforms(Exec(doc, ops[0]).value, ops[1..]); }
    }
  }
}
