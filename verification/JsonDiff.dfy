/** Computing a patch between two JSON values, and what applying it yields. */
module JsonDiff {
  import opened Decimals
  import opened JsonValue
  import opened JsonPointer
  import opened JsonPatch

  /* ---- the operations a diff holds ---- */

  datatype Change = Replacing(path: string, v: Json) | Removing(path: string) | Adding(path: string, v: Json)

  // The element of the patch document.
  function ToDoc(c: Change): Json {
    match c
    case Replacing(path, v) => Obj(map["op" := Str("replace"), "path" := Str(path), "value" := v])
    case Removing(path) => Obj(map["op" := Str("remove"), "path" := Str(path)])
    case Adding(path, v) => Obj(map["op" := Str("add"), "path" := Str(path), "value" := v])
  }

  function ToOp(c: Change, ptr: seq<string>): Op {
    match c
    case Replacing(_, v) => Replace(ptr, v)
    case Removing(_) => Remove(ptr)
    case Adding(_, v) => Add(ptr, v)
  }

  function Make(doc: Json, c: Change): Outcome<Json> {
    if Split(c.path).Ok? then Exec(doc, ToOp(c, Split(c.path).value)) else Fail(Split(c.path).error)
  }

  lemma MakeIsApply(doc: Json, c: Change)
    ensures Apply(doc, ToDoc(c)) == Make(doc, c)
  {
    var op, value := "op", "value";
    assert op[0] != "path"[0] && op[0] != value[0] && "path"[0] != value[0];
    assert "remove"[2] == 'm' && "replace"[2] == 'p' && "add"[0] == 'a' && "remove"[0] == "replace"[0] == 'r';
  }

  function ToDocs(cs: seq<Change>): seq<Json> {
    if cs == [] then [] else [ToDoc(cs[0])] + ToDocs(cs[1..])
  }

  // The changes one after the other, up to the first failure.
  function MakeAll(doc: Json, cs: seq<Change>): Outcome<Json>
    decreases |cs|
  {
    if cs == [] then Ok(doc)
    else if Make(doc, cs[0]).Ok? then MakeAll(Make(doc, cs[0]).value, cs[1..])
    else Make(doc, cs[0])
  }

  lemma {:induction false} MakeAllIsRun(doc: Json, cs: seq<Change>)
    ensures Run(doc, ToDocs(cs)) == MakeAll(doc, cs)
    decreases |cs|
  {
    if cs != [] {
      MakeIsApply(doc, cs[0]);
      var c := ToDoc(cs[0]);
      assert ToDocs(cs)[0] == c && ToDocs(cs)[1..] == ToDocs(cs[1..]);
      if Make(doc, cs[0]).Ok? { MakeAllIsRun(Make(doc, cs[0]).value, cs[1..]); }
    }
  }

  lemma {:induction false} MakeSplit(doc: Json, a: seq<Change>, b: seq<Change>)
    ensures MakeAll(doc, a + b) == if MakeAll(doc, a).Ok? then MakeAll(MakeAll(doc, a).value, b) else MakeAll(doc, a)
    decreases |a|
  {
    if a == [] {
      assert a + b == b;
    } else {
      assert (a + b)[0] == a[0] && (a + b)[1..] == a[1..] + b;
      if Make(doc, a[0]).Ok? { MakeSplit(Make(doc, a[0]).value, a[1..], b); }
    }
  }

  lemma MakeOne(doc: Json, c: Change)
    ensures MakeAll(doc, [c]) == Make(doc, c)
  {
    assert [c][1..] == [];
    if Make(doc, c).Ok? { assert MakeAll(Make(doc, c).value, []) == Ok(Make(doc, c).value); }
  }

  /* ---- diff ---- */

  function Child(path: string, token: string): string { path + "/" + Escape(token) }

  // What the code writes for an element; a decimal needs no escape.
  function Element(path: string, i: nat): string { path + "/" + Decimal(i) }

  /** The patch document that turns source into target. */
  function Diff(source: Json, target: Json, path: string): Json { Arr(ToDocs(Changes(source, target, path))) }

  // Its operations.
  function Changes(source: Json, target: Json, path: string): seq<Change>
    decreases source, 1, 0
  {
    if Eq(source, target) then []
    else if source.Arr? && target.Arr? then
      var m, n := |source.items|, |target.items|;
      var common := if m < n then m else n;
      DiffItems(source, target, path, common)
      + Removals(path, common, m)
      + Additions(target.items, path, common, n)
    else if source.Obj? && target.Obj? then
      DiffMembers(source, target, path, Keys(source.members))
      + NewMembers(source, target, path, Keys(target.members))
    else [Replacing(path, target)]
  }

  function DiffItems(source: Json, target: Json, path: string, n: nat): seq<Change>
    requires source.Arr? && target.Arr? && n <= |source.items| && n <= |target.items|
    decreases source, 0, n
  {
    if n == 0 then []
    else DiffItems(source, target, path, n - 1) + Changes(source.items[n - 1], target.items[n - 1], Element(path, n - 1))
  }

  // Elements hi - 1 down to lo go.
  function Removals(path: string, lo: nat, hi: nat): seq<Change>
    decreases hi
  {
    if hi <= lo then [] else [Removing(Element(path, hi - 1))] + Removals(path, lo, hi - 1)
  }

  function Additions(items: seq<Json>, path: string, lo: nat, hi: nat): seq<Change>
    requires hi <= |items|
    decreases hi
  {
    if hi <= lo then []
    else Additions(items, path, lo, hi - 1) + [Adding(Element(path, hi - 1), items[hi - 1])]
  }

  function DiffMembers(source: Json, target: Json, path: string, keys: seq<string>): seq<Change>
    requires source.Obj? && target.Obj? && forall k :: k in keys ==> k in source.members
    decreases source, 0, |keys|
  {
    if keys == [] then []
    else
      var k := keys[|keys| - 1];
      DiffMembers(source, target, path, keys[..|keys| - 1]) +
      if k in target.members then Changes(source.members[k], target.members[k], Child(path, k))
      else [Removing(Child(path, k))]
  }

  function NewMembers(source: Json, target: Json, path: string, keys: seq<string>): seq<Change>
    requires source.Obj? && target.Obj? && forall k :: k in keys ==> k in target.members
    decreases |keys|
  {
    if keys == [] then []
    else
      var k := keys[|keys| - 1];
      NewMembers(source, target, path, keys[..|keys| - 1]) +
      if k in source.members then [] else [Adding(Child(path, k), target.members[k])]
  }

  /* ---- where a patch can reach ---- */

  // Every array index that the operations mention fits an int.
  predicate InReach(source: Json, target: Json)
    decreases source
  {
    if Eq(source, target) then true
    else if source.Arr? && target.Arr? then
      var x, y := source.items, target.items;
      (|x| != |y| ==> |x| <= INT_MAX + 1 && |y| <= INT_MAX + 1) &&
      forall i :: 0 <= i < |x| && i < |y| ==> Eq(x[i], y[i]) || (i <= INT_MAX && InReach(x[i], y[i]))
    else if source.Obj? && target.Obj? then
      forall k :: k in source.members && k in target.members ==> InReach(source.members[k], target.members[k])
    else true
  }

  // What the patched source looks like: the target, except that equal parts are left as they are.
  function Result(source: Json, target: Json): Json
    decreases source
  {
    if Eq(source, target) then source
    else if source.Arr? && target.Arr? then
      var x, y := source.items, target.items;
      Arr(seq(|y|, i requires 0 <= i < |y| => if i < |x| then Result(x[i], y[i]) else y[i]))
    else if source.Obj? && target.Obj? then
      var x, y := source.members, target.members;
      Obj(map k | k in y :: if k in x then Result(x[k], y[k]) else y[k])
    else target
  }

  /** The result equals the target if the target holds no NaN. */
  lemma {:induction false} ResultEqualsTarget(source: Json, target: Json)
    requires NoNaN(target)
    ensures Eq(Result(source, target), target)
    decreases source
  {
    if Eq(source, target) {
    } else if source.Arr? && target.Arr? {
      var x, y := source.items, target.items;
      forall i | 0 <= i < |y| ensures Eq(Result(source, target).items[i], y[i]) {
        if i < |x| { ResultEqualsTarget(x[i], y[i]); } else { EqualToSelf(y[i]); }
      }
    } else if source.Obj? && target.Obj? {
      var x, y := source.members, target.members;
      forall k | k in y ensures Eq(Result(source, target).members[k], y[k]) {
        if k in x { ResultEqualsTarget(x[k], y[k]); } else { EqualToSelf(y[k]); }
      }
    } else {
      EqualToSelf(target);
    }
  }

  /* ---- single operations at a child of an existing place ---- */

  lemma PathOfChild(p: seq<string>, path: string, t: string)
    requires path == Render(p)
    ensures Child(path, t) == Render(p + [t]) && Split(Child(path, t)) == Ok(p + [t])
  {
    RenderBack(p, t);
    PointerRoundTrip(p + [t]);
  }

  lemma {:induction false} DigitsUnescaped(s: string)
    requires AllDigits(s)
    ensures Encoded(s) == s
  {
    if s != [] { DigitsUnescaped(s[1..]); }
  }

  lemma PathOfElement(p: seq<string>, path: string, i: nat)
    requires path == Render(p)
    ensures Element(path, i) == Render(p + [Decimal(i)]) && Split(Element(path, i)) == Ok(p + [Decimal(i)])
  {
    EscapeIsEncoded(Decimal(i));
    DigitsUnescaped(Decimal(i));
    PathOfChild(p, path, Decimal(i));
  }

  // The document after the value at p became y, or the failure.
  ghost predicate Becomes(doc: Json, p: seq<string>, ops: seq<Change>, y: Json)
    requires At(doc, p).Ok?
  {
    MakeAll(doc, ops) == Ok(Put(doc, p, y))
  }

  lemma ReplaceAt(doc: Json, p: seq<string>, path: string, v: Json)
    requires At(doc, p).Ok? && path == Render(p)
    ensures Becomes(doc, p, [Replacing(path, v)], v)
  {
    PointerRoundTrip(p);
    ExecAt(doc, p, "", v);
    MakeOne(doc, Replacing(path, v));
  }

  lemma RemoveAt(doc: Json, p: seq<string>, path: string, t: string)
    requires At(doc, p).Ok? && Split(path) == Ok(p + [t])
    ensures MakeAll(doc, [Removing(path)]) == PutResult(doc, p, Do(At(doc, p).value, Erase(t)))
  {
    ExecAt(doc, p, t, Null);
    MakeOne(doc, Removing(path));
  }

  lemma AddAt(doc: Json, p: seq<string>, path: string, t: string, v: Json)
    requires At(doc, p).Ok? && Split(path) == Ok(p + [t])
    ensures MakeAll(doc, [Adding(path, v)]) == PutResult(doc, p, Do(At(doc, p).value, Insert(t, v)))
  {
    ExecAt(doc, p, t, v);
    MakeOne(doc, Adding(path, v));
  }

  // Two stages of a patch at the same place.
  lemma Then(doc: Json, p: seq<string>, a: seq<Change>, y: Json, doc': Json, b: seq<Change>, z: Json)
    requires At(doc, p).Ok? && Becomes(doc, p, a, y) && doc' == Put(doc, p, y)
    ensures At(doc', p) == Ok(y)
    ensures Becomes(doc', p, b, z) ==> Becomes(doc, p, a + b, z)
    ensures MakeAll(doc', b).Fail? ==> MakeAll(doc, a + b).Fail?
  {
    MakeSplit(doc, a, b);
    PutLaws(doc, p, y, z);
  }

  lemma NothingHappens(doc: Json, p: seq<string>)
    requires At(doc, p).Ok?
    ensures Becomes(doc, p, [], At(doc, p).value)
  {
    PutLaws(doc, p, Null, Null);
  }

  // A patch at a child is a patch at its parent.
  lemma AtChild(doc: Json, p: seq<string>, t: string, ops: seq<Change>, y: Json)
    requires At(doc, p).Ok? && At(At(doc, p).value, [t]).Ok?
    ensures At(doc, p + [t]) == At(At(doc, p).value, [t])
    ensures Becomes(doc, p + [t], ops, y) ==> Becomes(doc, p, ops, Put(At(doc, p).value, [t], y))
  {
    Deeper(doc, p, [t]);
    PutDeeper(doc, p, [t], y);
  }

  /* ---- arrays ---- */

  lemma RemovalRuns(doc: Json, p: seq<string>, path: string, x: seq<Json>, n: nat)
    requires At(doc, p) == Ok(Arr(x)) && path == Render(p) && |x| == n + 1
    ensures if n <= INT_MAX then Becomes(doc, p, [Removing(Element(path, n))], Arr(x[..n]))
            else MakeAll(doc, [Removing(Element(path, n))]).Fail?
  {
    hide At, Put, MakeAll, Make, Render;
    PathOfElement(p, path, n);
    StoIDecimal(n);
    RemoveAt(doc, p, Element(path, n), Decimal(n));
    assert x[..n] + x[n + 1..] == x[..n];
  }

  lemma RemovalFirst(doc: Json, p: seq<string>, path: string, x: seq<Json>, n: nat, first: Change, rest: seq<Change>, doc': Json, z: Json)
    requires At(doc, p) == Ok(Arr(x)) && path == Render(p) && |x| == n + 1 && first == Removing(Element(path, n))
    requires doc' == Put(doc, p, Arr(x[..n]))
    ensures At(doc', p) == Ok(Arr(x[..n]))
    ensures n <= INT_MAX && Becomes(doc', p, rest, z) ==> Becomes(doc, p, [first] + rest, z)
    ensures n > INT_MAX ==> MakeAll(doc, [first] + rest).Fail?
  {
    RemovalRuns(doc, p, path, x, n);
    PutLaws(doc, p, Arr(x[..n]), z);
    if n <= INT_MAX {
      Then(doc, p, [first], Arr(x[..n]), doc', rest, z);
    } else {
      MakeSplit(doc, [first], rest);
    }
  }

  lemma {:induction false} RemovalsRun(doc: Json, p: seq<string>, path: string, x: seq<Json>, lo: nat)
    requires At(doc, p) == Ok(Arr(x)) && path == Render(p) && lo <= |x|
    ensures lo == |x| || |x| <= INT_MAX + 1 ==> Becomes(doc, p, Removals(path, lo, |x|), Arr(x[..lo]))
    ensures lo < |x| && |x| > INT_MAX + 1 ==> MakeAll(doc, Removals(path, lo, |x|)).Fail?
    decreases |x|
  {
    hide At, Put, MakeAll, Render;
    if lo == |x| {
      NothingHappens(doc, p);
      assert x[..lo] == x;
    } else {
      var n := |x| - 1;
      var u := x[..n];
      var doc' := Put(doc, p, Arr(u));
      assert u[..lo] == x[..lo];
      RemovalFirst(doc, p, path, x, n, Removing(Element(path, n)), Removals(path, lo, n), doc', Arr(x[..lo]));
      if n <= INT_MAX { RemovalsRun(doc', p, path, u, lo); }
    }
  }

  lemma AdditionRuns(doc: Json, p: seq<string>, path: string, x: seq<Json>, v: Json, n: nat)
    requires At(doc, p) == Ok(Arr(x)) && path == Render(p) && |x| == n
    ensures if n <= INT_MAX then Becomes(doc, p, [Adding(Element(path, n), v)], Arr(x + [v]))
            else MakeAll(doc, [Adding(Element(path, n), v)]).Fail?
  {
    hide At, Put, MakeAll, Make, Render;
    PathOfElement(p, path, n);
    StoIDecimal(n);
    IndexOfDecimal(n, n);
    AddAt(doc, p, Element(path, n), Decimal(n), v);
    assert x[..n] + [v] + x[n..] == x + [v];
  }

  // x with the elements of y after it up to hi.
  function Grown(x: seq<Json>, y: seq<Json>, hi: nat): seq<Json>
    requires |x| <= hi <= |y|
  {
    x + y[|x|..hi]
  }

  lemma GrownMore(x: seq<Json>, y: seq<Json>, n: nat)
    requires |x| <= n < |y|
    ensures Grown(x, y, |x|) == x && Grown(x, y, n + 1) == Grown(x, y, n) + [y[n]] && |Grown(x, y, n)| == n
  {
  }

  lemma {:induction false} AdditionsRun(doc: Json, p: seq<string>, path: string, x: seq<Json>, y: seq<Json>, hi: nat)
    requires At(doc, p) == Ok(Arr(x)) && path == Render(p) && |x| <= hi <= |y|
    ensures hi == |x| || hi <= INT_MAX + 1 ==> Becomes(doc, p, Additions(y, path, |x|, hi), Arr(Grown(x, y, hi)))
    ensures |x| < hi && hi > INT_MAX + 1 ==> MakeAll(doc, Additions(y, path, |x|, hi)).Fail?
    decreases hi
  {
    hide At, Put, MakeAll, Render;
    if hi == |x| {
      NothingHappens(doc, p);
      assert Grown(x, y, hi) == x;
    } else {
      var n := hi - 1;
      var before, last := Additions(y, path, |x|, n), Adding(Element(path, n), y[n]);
      GrownMore(x, y, n);
      AdditionsRun(doc, p, path, x, y, n);
      AdditionLast(doc, p, path, before, Grown(x, y, n), last, y[n], n);
    }
  }

  lemma AdditionLast(doc: Json, p: seq<string>, path: string, before: seq<Change>, u: seq<Json>, last: Change, v: Json, n: nat)
    requires At(doc, p).Ok? && path == Render(p) && |u| == n && last == Adding(Element(path, n), v)
    requires Becomes(doc, p, before, Arr(u)) || MakeAll(doc, before).Fail?
    ensures if MakeAll(doc, before).Ok? && n <= INT_MAX then Becomes(doc, p, before + [last], Arr(u + [v]))
            else MakeAll(doc, before + [last]).Fail?
  {
    if MakeAll(doc, before).Fail? {
      MakeSplit(doc, before, [last]);
    } else {
      var doc' := Put(doc, p, Arr(u));
      Then(doc, p, before, Arr(u), doc', [last], Arr(u + [v]));
      AdditionRuns(doc', p, path, u, v, n);
    }
  }

  /* ---- operations that cannot reach their place ---- */

  // The change is at q or below it; only replacing is possible at q itself.
  ghost predicate Under(c: Change, q: seq<string>) {
    exists rest: seq<string> :: Split(c.path) == Ok(q + rest) && (c.Replacing? || rest != [])
  }

  ghost predicate AllUnder(cs: seq<Change>, q: seq<string>) { forall i :: 0 <= i < |cs| ==> Under(cs[i], q) }

  lemma UnderChild(c: Change, q: seq<string>, t: string)
    requires Under(c, q + [t])
    ensures Under(c, q)
  {
    var rest: seq<string> :| Split(c.path) == Ok(q + [t] + rest);
    assert q + [t] + rest == q + ([t] + rest);
  }

  lemma UnderItself(c: Change, q: seq<string>, t: string)
    requires Split(c.path) == Ok(q + [t]) || (c.Replacing? && Split(c.path) == Ok(q))
    ensures Under(c, q)
  {
    assert q + [] == q;
    if Split(c.path) == Ok(q + [t]) { assert [t] != []; }
  }

  lemma {:induction false} ChangesUnder(source: Json, target: Json, q: seq<string>, path: string)
    requires path == Render(q)
    ensures AllUnder(Changes(source, target, path), q)
    decreases source, 1, 0
  {
    if Eq(source, target) {
    } else if source.Arr? && target.Arr? {
      var m, n := |source.items|, |target.items|;
      var common := if m < n then m else n;
      ItemsUnder(source, target, q, path, common);
      RemovalsUnder(q, path, common, m);
      AdditionsUnder(target.items, q, path, common, n);
    } else if source.Obj? && target.Obj? {
      MembersUnder(source, target, q, path, Keys(source.members));
      NewMembersUnder(source, target, q, path, Keys(target.members));
    } else {
      PointerRoundTrip(q);
      UnderItself(Replacing(path, target), q, "");
    }
  }

  lemma {:induction false} ItemsUnder(source: Json, target: Json, q: seq<string>, path: string, n: nat)
    requires path == Render(q) && source.Arr? && target.Arr? && n <= |source.items| && n <= |target.items|
    ensures AllUnder(DiffItems(source, target, path, n), q)
    decreases source, 0, n
  {
    if n > 0 {
      ItemsUnder(source, target, q, path, n - 1);
      PathOfElement(q, path, n - 1);
      var cs := Changes(source.items[n - 1], target.items[n - 1], Element(path, n - 1));
      ChangesUnder(source.items[n - 1], target.items[n - 1], q + [Decimal(n - 1)], Element(path, n - 1));
      forall i | 0 <= i < |cs| ensures Under(cs[i], q) { UnderChild(cs[i], q, Decimal(n - 1)); }
    }
  }

  lemma {:induction false} RemovalsUnder(q: seq<string>, path: string, lo: nat, hi: nat)
    requires path == Render(q)
    ensures AllUnder(Removals(path, lo, hi), q)
    decreases hi
  {
    if hi > lo {
      PathOfElement(q, path, hi - 1);
      UnderItself(Removing(Element(path, hi - 1)), q, Decimal(hi - 1));
      RemovalsUnder(q, path, lo, hi - 1);
    }
  }

  lemma {:induction false} AdditionsUnder(items: seq<Json>, q: seq<string>, path: string, lo: nat, hi: nat)
    requires path == Render(q) && hi <= |items|
    ensures AllUnder(Additions(items, path, lo, hi), q)
    decreases hi
  {
    if hi > lo {
      PathOfElement(q, path, hi - 1);
      UnderItself(Adding(Element(path, hi - 1), items[hi - 1]), q, Decimal(hi - 1));
      AdditionsUnder(items, q, path, lo, hi - 1);
    }
  }

  lemma {:induction false} MembersUnder(source: Json, target: Json, q: seq<string>, path: string, keys: seq<string>)
    requires path == Render(q) && source.Obj? && target.Obj? && forall k :: k in keys ==> k in source.members
    ensures AllUnder(DiffMembers(source, target, path, keys), q)
    decreases source, 0, |keys|
  {
    if keys != [] {
      var k := keys[|keys| - 1];
      MembersUnder(source, target, q, path, keys[..|keys| - 1]);
      PathOfChild(q, path, k);
      if k in target.members {
        var cs := Changes(source.members[k], target.members[k], Child(path, k));
        ChangesUnder(source.members[k], target.members[k], q + [k], Child(path, k));
        forall i | 0 <= i < |cs| ensures Under(cs[i], q) { UnderChild(cs[i], q, k); }
      } else {
        UnderItself(Removing(Child(path, k)), q, k);
      }
    }
  }

  lemma {:induction false} NewMembersUnder(source: Json, target: Json, q: seq<string>, path: string, keys: seq<string>)
    requires path == Render(q) && source.Obj? && target.Obj? && forall k :: k in keys ==> k in target.members
    ensures AllUnder(NewMembers(source, target, path, keys), q)
    decreases |keys|
  {
    if keys != [] {
      var k := keys[|keys| - 1];
      NewMembersUnder(source, target, q, path, keys[..|keys| - 1]);
      PathOfChild(q, path, k);
      UnderItself(Adding(Child(path, k), target.members[k]), q, k);
    }
  }

  /* A value that differs has something to change. */

  lemma {:induction false} ChangesNotEmpty(source: Json, target: Json, path: string)
    requires !Eq(source, target)
    ensures Changes(source, target, path) != []
    decreases source, 1, 0
  {
    if source.Arr? && target.Arr? {
      var x, y := source.items, target.items;
      if |x| == |y| {
        var i :| 0 <= i < |x| && !Eq(x[i], y[i]);
        ItemsNotEmpty(source, target, path, |x|, i);
      }
    } else if source.Obj? && target.Obj? {
      var x, y := source.members, target.members;
      if k :| k in x && (k !in y || !Eq(x[k], y[k])) {
        MembersNotEmpty(source, target, path, Keys(source.members), k);
      } else {
        var k :| k in y && k !in x;
        NewMembersNotEmpty(source, target, path, Keys(target.members), k);
      }
    }
  }

  lemma {:induction false} ItemsNotEmpty(source: Json, target: Json, path: string, n: nat, i: nat)
    requires source.Arr? && target.Arr? && i < n <= |source.items| && n <= |target.items|
    requires !Eq(source.items[i], target.items[i])
    ensures DiffItems(source, target, path, n) != []
    decreases source, 0, n
  {
    if i < n - 1 {
      ItemsNotEmpty(source, target, path, n - 1, i);
    } else {
      ChangesNotEmpty(source.items[i], target.items[i], Element(path, i));
    }
  }

  lemma {:induction false} MembersNotEmpty(source: Json, target: Json, path: string, keys: seq<string>, k: string)
    requires source.Obj? && target.Obj? && k in keys && forall j :: j in keys ==> j in source.members
    requires k !in target.members || !Eq(source.members[k], target.members[k])
    ensures DiffMembers(source, target, path, keys) != []
    decreases source, 0, |keys|
  {
    if k != keys[|keys| - 1] {
      MembersNotEmpty(source, target, path, keys[..|keys| - 1], k);
    } else if k in target.members {
      ChangesNotEmpty(source.members[k], target.members[k], Child(path, k));
    }
  }

  lemma {:induction false} NewMembersNotEmpty(source: Json, target: Json, path: string, keys: seq<string>, k: string)
    requires source.Obj? && target.Obj? && k in keys && forall j :: j in keys ==> j in target.members
    requires k !in source.members
    ensures NewMembers(source, target, path, keys) != []
    decreases |keys|
  {
    if k != keys[|keys| - 1] { NewMembersNotEmpty(source, target, path, keys[..|keys| - 1], k); }
  }

  lemma {:induction false} WalkFails(doc: Json, p: seq<string>, rest: seq<string>, create: bool, edit: Edit)
    requires At(doc, p).Ok? && Walk(At(doc, p).value, rest, create, edit).Fail?
    ensures Walk(doc, p + rest, create, edit).Fail?
    decreases |p|
  {
    if p == [] {
      assert p + rest == rest;
    } else {
      assert (p + rest)[0] == p[0] && (p + rest)[1..] == p[1..] + rest;
      match doc
      case Obj(m) => WalkFails(m[p[0]], p[1..], rest, create, edit);
      case Arr(x) =>
        CheckedIsUnchecked(p[0], |x|);
        WalkFails(x[CheckedIndex(p[0], |x|).value], p[1..], rest, create, edit);
    }
  }

  lemma TooFar(x: seq<Json>, i: nat, rest: seq<string>, create: bool, edit: Edit)
    requires i > INT_MAX
    ensures Walk(Arr(x), [Decimal(i)] + rest, create, edit).Fail?
  {
    IndexOfDecimal(i, |x|);
  }

  lemma ExecFails(doc: Json, p: seq<string>, w: seq<string>, last: string, ptr: seq<string>, v: Json)
    requires At(doc, p).Ok? && ptr == p + w + [last]
    requires forall create, edit :: Walk(At(doc, p).value, w, create, edit).Fail?
    ensures RemoveFrom(doc, ptr).Fail? && AddTo(doc, ptr, v).Fail?
  {
    assert ptr[..|ptr| - 1] == p + w && ptr[|ptr| - 1] == last;
    WalkFails(doc, p, w, false, Erase(last));
    WalkFails(doc, p, w, true, Insert(last, v));
  }

  // Nothing below an element whose index exceeds an int can be changed.
  lemma UnderFails(doc: Json, p: seq<string>, i: nat, c: Change)
    requires At(doc, p).Ok? && At(doc, p).value.Arr? && i > INT_MAX && Under(c, p + [Decimal(i)])
    ensures Make(doc, c).Fail?
  {
    hide At, Walk, RemoveFrom, AddTo;
    var t := Decimal(i);
    var rest: seq<string> :| Split(c.path) == Ok(p + [t] + rest) && (c.Replacing? || rest != []);
    var x := At(doc, p).value.items;
    if c.Replacing? {
      assert p + [t] + rest == p + ([t] + rest);
      TooFar(x, i, rest, false, Assign(c.v));
      WalkFails(doc, p, [t] + rest, false, Assign(c.v));
    } else {
      var n := |rest| - 1;
      var w := [t] + rest[..n];
      forall create, edit ensures Walk(Arr(x), w, create, edit).Fail? { TooFar(x, i, rest[..n], create, edit); }
      assert p + [t] + rest == p + w + [rest[n]];
      ExecFails(doc, p, w, rest[n], p + [t] + rest, if c.Adding? then c.v else Null);
    }
  }

  /* ---- the elements two arrays share ---- */

  predicate ItemsInReach(source: Json, target: Json, n: nat)
    requires source.Arr? && target.Arr? && n <= |source.items| && n <= |target.items|
  {
    forall i :: 0 <= i < n ==>
      Eq(source.items[i], target.items[i]) || (i <= INT_MAX && InReach(source.items[i], target.items[i]))
  }

  // The source once its first n elements are done.
  function Mixed(source: Json, target: Json, n: nat): (r: seq<Json>)
    requires source.Arr? && target.Arr? && n <= |source.items| && n <= |target.items|
    ensures |r| == |source.items|
    ensures forall i :: 0 <= i < |r| ==>
              r[i] == if i < n then Result(source.items[i], target.items[i]) else source.items[i]
  {
    seq(|source.items|, i requires 0 <= i < |source.items| =>
      if i < n then Result(source.items[i], target.items[i]) else source.items[i])
  }

  lemma MixedMore(source: Json, target: Json, n: nat)
    requires source.Arr? && target.Arr? && n < |source.items| && n < |target.items|
    ensures Mixed(source, target, 0) == source.items
    ensures Mixed(source, target, n + 1) ==
            Mixed(source, target, n)[n := Result(source.items[n], target.items[n])]
    ensures Eq(source.items[n], target.items[n]) ==> Mixed(source, target, n + 1) == Mixed(source, target, n)
  {
  }

  lemma ElementIn(x: seq<Json>, i: nat, y: Json)
    requires i < |x| && i <= INT_MAX
    ensures At(Arr(x), [Decimal(i)]) == Ok(x[i]) && Put(Arr(x), [Decimal(i)], y) == Arr(x[i := y])
  {
    IndexOfDecimal(i, |x|);
    assert [Decimal(i)][1..] == [];
  }

  // The changes of element i, after those of the elements before it.
  lemma ItemRuns(doc: Json, p: seq<string>, path: string, u: seq<Json>, i: nat, target: Json, cs: seq<Change>)
    requires At(doc, p) == Ok(Arr(u)) && path == Render(p) && i < |u| && cs == Changes(u[i], target, Element(path, i))
    requires !Eq(u[i], target)
    requires i <= INT_MAX && At(doc, p + [Decimal(i)]) == Ok(u[i]) ==>
               if InReach(u[i], target) then Becomes(doc, p + [Decimal(i)], cs, Result(u[i], target))
               else MakeAll(doc, cs).Fail?
    ensures if i <= INT_MAX && InReach(u[i], target) then Becomes(doc, p, cs, Arr(u[i := Result(u[i], target)]))
            else MakeAll(doc, cs).Fail?
  {
    hide At, Put, Render, Changes, InReach, Result;
    if i <= INT_MAX {
      ElementIn(u, i, Result(u[i], target));
      AtChild(doc, p, Decimal(i), cs, Result(u[i], target));
    } else {
      PathOfElement(p, path, i);
      ChangesUnder(u[i], target, p + [Decimal(i)], Element(path, i));
      ChangesNotEmpty(u[i], target, Element(path, i));
      UnderFails(doc, p, i, cs[0]);
    }
  }

  lemma {:induction false} ItemsRun(source: Json, target: Json, p: seq<string>, path: string, doc: Json, n: nat)
    requires At(doc, p) == Ok(source) && path == Render(p) && source.Arr? && target.Arr?
    requires n <= |source.items| && n <= |target.items|
    ensures var cs := DiffItems(source, target, path, n);
            if ItemsInReach(source, target, n) then Becomes(doc, p, cs, Arr(Mixed(source, target, n)))
            else MakeAll(doc, cs).Fail?
    decreases source, 0, n
  {
    hide At, Put, Render, Changes, InReach, Result, MakeAll, Eq, Child, Element;
    if n == 0 {
      NothingHappens(doc, p);
      assert Mixed(source, target, 0) == source.items;
    } else {
      var i := n - 1;
      var before, cs := DiffItems(source, target, path, i), Changes(source.items[i], target.items[i], Element(path, i));
      ItemsRun(source, target, p, path, doc, i);
      if !ItemsInReach(source, target, i) {
        MakeSplit(doc, before, cs);
      } else {
        var u := Mixed(source, target, i);
        MixedMore(source, target, i);
        var doc' := Put(doc, p, Arr(u));
        Then(doc, p, before, Arr(u), doc', cs, Arr(Mixed(source, target, n)));
        if Eq(source.items[i], target.items[i]) {
          EqualUnchanged(source.items[i], target.items[i], Element(path, i));
          NothingHappens(doc', p);
        } else {
          if i <= INT_MAX && At(doc', p + [Decimal(i)]) == Ok(u[i]) {
            PathOfElement(p, path, i);
            DiffRuns(source.items[i], target.items[i], p + [Decimal(i)], Element(path, i), doc');
          }
          ItemRuns(doc', p, path, u, i, target.items[i], cs);
        }
      }
    }
  }

  lemma EqualUnchanged(source: Json, target: Json, path: string)
    requires Eq(source, target)
    ensures Changes(source, target, path) == [] && Result(source, target) == source && InReach(source, target)
  {
  }

  /* ---- the members of two objects ---- */

  predicate KeysInReach(source: Json, target: Json, keys: seq<string>)
    requires source.Obj? && target.Obj? && forall k :: k in keys ==> k in source.members
  {
    forall k :: k in keys && k in target.members ==> InReach(source.members[k], target.members[k])
  }

  // The source once the keys in `done` are dealt with.
  function MixedMembers(source: Json, target: Json, done: seq<string>): map<string, Json>
    requires source.Obj? && target.Obj?
  {
    var x, y := source.members, target.members;
    map k | k in x && (k !in done || k in y) :: if k in done && k in y then Result(x[k], y[k]) else x[k]
  }

  // And then with the keys in `done` of the target added.
  function GrownMembers(source: Json, target: Json, done: seq<string>): map<string, Json>
    requires source.Obj? && target.Obj?
  {
    var x, y := source.members, target.members;
    map k | k in y && (k in x || k in done) :: if k in x then Result(x[k], y[k]) else y[k]
  }

  lemma MixedMembersMore(source: Json, target: Json, done: seq<string>, k: string)
    requires source.Obj? && target.Obj? && k in source.members && k !in done
    ensures var u, w := MixedMembers(source, target, done), MixedMembers(source, target, done + [k]);
            k in u && u[k] == source.members[k] &&
            w == if k in target.members then u[k := Result(source.members[k], target.members[k])] else u - {k}
  {
  }

  lemma MixedMembersEnds(source: Json, target: Json, done: seq<string>)
    requires source.Obj? && target.Obj? && forall k :: k in done <==> k in source.members
    ensures MixedMembers(source, target, []) == source.members
    ensures MixedMembers(source, target, done) == GrownMembers(source, target, [])
  {
  }

  lemma GrownMembersMore(source: Json, target: Json, done: seq<string>, k: string)
    requires source.Obj? && target.Obj? && k in target.members
    ensures var u, w := GrownMembers(source, target, done), GrownMembers(source, target, done + [k]);
            w == if k in source.members then u else u[k := target.members[k]]
  {
  }

  lemma MemberIn(m: map<string, Json>, k: string, y: Json)
    requires k in m
    ensures At(Obj(m), [k]) == Ok(m[k]) && Put(Obj(m), [k], y) == Obj(m[k := y])
  {
    assert [k][1..] == [];
  }

  lemma {:induction false} MembersRun(source: Json, target: Json, p: seq<string>, path: string, doc: Json, keys: seq<string>)
    requires At(doc, p) == Ok(source) && path == Render(p) && source.Obj? && target.Obj?
    requires (forall k :: k in keys ==> k in source.members) && forall i, j :: 0 <= i < j < |keys| ==> keys[i] != keys[j]
    ensures var cs := DiffMembers(source, target, path, keys);
            if KeysInReach(source, target, keys) then Becomes(doc, p, cs, Obj(MixedMembers(source, target, keys)))
            else MakeAll(doc, cs).Fail?
    decreases source, 0, |keys|
  {
    assert MixedMembers(source, target, []) == source.members;
    hide At, Put, Render, Changes, InReach, Result, MakeAll, Eq, Child, Becomes, MixedMembers, KeysInReach;
    if keys == [] {
      NothingHappens(doc, p);
      NoKeysInReach(source, target);
    } else {
      var k, done := keys[|keys| - 1], keys[..|keys| - 1];
      assert keys == done + [k];
      var before := DiffMembers(source, target, path, done);
      var cs := if k in target.members then Changes(source.members[k], target.members[k], Child(path, k))
                else [Removing(Child(path, k))];
      MembersRun(source, target, p, path, doc, done);
      KeysInReachMore(source, target, done, k);
      if !KeysInReach(source, target, done) {
        MakeSplit(doc, before, cs);
      } else {
        var u := MixedMembers(source, target, done);
        MixedMembersMore(source, target, done, k);
        var doc' := Put(doc, p, Obj(u));
        Then(doc, p, before, Obj(u), doc', cs, Obj(MixedMembers(source, target, keys)));
        PathOfChild(p, path, k);
        if k in target.members {
          MemberChanged(doc', p, u, k, cs, Result(source.members[k], target.members[k]));
          DiffRuns(source.members[k], target.members[k], p + [k], Child(path, k), doc');
        } else {
          MemberGone(doc', p, Child(path, k), u, k);
        }
      }
    }
  }

  lemma NoKeysInReach(source: Json, target: Json)
    requires source.Obj? && target.Obj?
    ensures KeysInReach(source, target, [])
  {
  }

  lemma KeysInReachMore(source: Json, target: Json, done: seq<string>, k: string)
    requires source.Obj? && target.Obj? && k in source.members && forall i :: i in done ==> i in source.members
    ensures KeysInReach(source, target, done + [k]) <==>
            KeysInReach(source, target, done) && (k in target.members ==> InReach(source.members[k], target.members[k]))
  {
    assert forall i :: i in done + [k] <==> i in done || i == k;
  }

  lemma MemberChanged(doc: Json, p: seq<string>, u: map<string, Json>, k: string, ops: seq<Change>, y: Json)
    requires At(doc, p) == Ok(Obj(u)) && k in u
    ensures At(doc, p + [k]) == Ok(u[k])
    ensures Becomes(doc, p + [k], ops, y) ==> Becomes(doc, p, ops, Obj(u[k := y]))
  {
    hide At, Put, MakeAll;
    MemberIn(u, k, y);
    AtChild(doc, p, k, ops, y);
  }

  lemma MemberGone(doc: Json, p: seq<string>, path: string, u: map<string, Json>, k: string)
    requires At(doc, p) == Ok(Obj(u)) && k in u && Split(path) == Ok(p + [k])
    ensures Becomes(doc, p, [Removing(path)], Obj(u - {k}))
  {
    hide At, Put, MakeAll;
    RemoveAt(doc, p, path, k);
  }

  lemma {:induction false} NewMembersRun(source: Json, target: Json, p: seq<string>, path: string, doc: Json, keys: seq<string>)
    requires source.Obj? && target.Obj? && path == Render(p)
    requires At(doc, p) == Ok(Obj(GrownMembers(source, target, []))) && forall k :: k in keys ==> k in target.members
    ensures Becomes(doc, p, NewMembers(source, target, path, keys), Obj(GrownMembers(source, target, keys)))
    decreases |keys|
  {
    hide At, Put, Render, Result, MakeAll;
    if keys == [] {
      NothingHappens(doc, p);
    } else {
      var k, done := keys[|keys| - 1], keys[..|keys| - 1];
      assert keys == done + [k];
      var before, cs := NewMembers(source, target, path, done),
                        if k in source.members then [] else [Adding(Child(path, k), target.members[k])];
      NewMembersRun(source, target, p, path, doc, done);
      var u := GrownMembers(source, target, done);
      GrownMembersMore(source, target, done, k);
      var doc' := Put(doc, p, Obj(u));
      Then(doc, p, before, Obj(u), doc', cs, Obj(GrownMembers(source, target, keys)));
      if k in source.members {
        NothingHappens(doc', p);
      } else {
        PathOfChild(p, path, k);
        AddAt(doc', p, Child(path, k), k, target.members[k]);
      }
    }
  }

  /* ---- the whole diff ---- */

  lemma DiffRuns(source: Json, target: Json, p: seq<string>, path: string, doc: Json)
    requires At(doc, p) == Ok(source) && path == Render(p)
    ensures if InReach(source, target) then Becomes(doc, p, Changes(source, target, path), Result(source, target))
            else MakeAll(doc, Changes(source, target, path)).Fail?
    decreases source, 1, 0
  {
    hide At, Put, Render, MakeAll;
    if Eq(source, target) {
      NothingHappens(doc, p);
    } else if source.Arr? && target.Arr? {
      ArraysRun(source, target, p, path, doc);
    } else if source.Obj? && target.Obj? {
      ObjectsRun(source, target, p, path, doc);
    } else {
      ReplaceAt(doc, p, path, target);
    }
  }

  lemma ArraysRun(source: Json, target: Json, p: seq<string>, path: string, doc: Json)
    requires At(doc, p) == Ok(source) && path == Render(p) && source.Arr? && target.Arr? && !Eq(source, target)
    ensures if InReach(source, target) then Becomes(doc, p, Changes(source, target, path), Result(source, target))
            else MakeAll(doc, Changes(source, target, path)).Fail?
    decreases source, 0, |source.items| + 1
  {
    hide At, Put, Render, MakeAll, DiffItems, Removals, Additions;
    var x, y := source.items, target.items;
    var common := if |x| < |y| then |x| else |y|;
    var a := DiffItems(source, target, path, common);
    var b := Removals(path, common, |x|);
    var c := Additions(y, path, common, |y|);
    ItemsRun(source, target, p, path, doc, common);
    if ItemsInReach(source, target, common) {
      var u := Mixed(source, target, common);
      var v := u[..common];
      var w := Grown(v, y, |y|);
      var doc1 := Put(doc, p, Arr(u));
      Then(doc, p, a, Arr(u), doc1, b, Arr(v));
      RemovalsRun(doc1, p, path, u, common);
      if common == |x| || |x| <= INT_MAX + 1 {
        var doc2 := Put(doc, p, Arr(v));
        Then(doc, p, a + b, Arr(v), doc2, c, Arr(w));
        AdditionsRun(doc2, p, path, v, y, |y|);
        assert w == Result(source, target).items;
      } else {
        MakeSplit(doc, a + b, c);
      }
    } else {
      MakeSplit(doc, a, b);
      MakeSplit(doc, a + b, c);
    }
  }

  lemma ObjectsRun(source: Json, target: Json, p: seq<string>, path: string, doc: Json)
    requires At(doc, p) == Ok(source) && path == Render(p) && source.Obj? && target.Obj? && !Eq(source, target)
    ensures if InReach(source, target) then Becomes(doc, p, Changes(source, target, path), Result(source, target))
            else MakeAll(doc, Changes(source, target, path)).Fail?
    decreases source, 0, |Keys(source.members)| + 1
  {
    hide At, Put, Render, MakeAll, DiffMembers, NewMembers;
    var a := DiffMembers(source, target, path, Keys(source.members));
    var b := NewMembers(source, target, path, Keys(target.members));
    KeysDistinct(source.members);
    MembersRun(source, target, p, path, doc, Keys(source.members));
    MixedMembersEnds(source, target, Keys(source.members));
    if KeysInReach(source, target, Keys(source.members)) {
      var u, w := GrownMembers(source, target, []), GrownMembers(source, target, Keys(target.members));
      var doc1 := Put(doc, p, Obj(u));
      Then(doc, p, a, Obj(u), doc1, b, Obj(w));
      NewMembersRun(source, target, p, path, doc1, Keys(target.members));
      assert w == Result(source, target).members;
    } else {
      MakeSplit(doc, a, b);
    }
  }

  /** Applying a computed diff reaches the target exactly if the target holds no NaN and no operation
      mentions an array index beyond an int. Where an index is too large the patch throws. */
  lemma DiffThenPatch(source: Json, target: Json)
    ensures var r := Patch(source, Diff(source, target, ""));
            && (r.Ok? <==> InReach(source, target))
            && (r.Ok? ==> r.value == Result(source, target))
            && (r.Ok? && Eq(r.value, target) <==> InReach(source, target) && NoNaN(target))
  {
    DiffRuns(source, target, [], "", source);
    MakeAllIsRun(source, Changes(source, target, ""));
    if NoNaN(target) {
      ResultEqualsTarget(source, target);
    } else if Eq(Result(source, target), target) {
      EqualHasNoNaN(Result(source, target), target);
    }
  }

  /* The two ways the documented law `source.patch(diff(source, target)) == target` fails. */

  lemma NaNIsNotReached()
    ensures var nan := Float(0x7FF8_0000_0000_0000);
            Patch(Null, Diff(Null, nan, "")) == Ok(nan) && !Eq(nan, nan)
  {
    var nan := Float(0x7FF8_0000_0000_0000);
    assert !Eq(nan, nan) && !Eq(Null, nan) && InReach(Null, nan) && Result(Null, nan) == nan;
    hide Patch, Diff, Eq, InReach, Result;
    DiffThenPatch(Null, nan);
  }

  lemma LongArraysAreNotReached(n: nat)
    requires n > INT_MAX
    ensures var source, target := Arr(Nulls(n + 1)), Arr(Nulls(n));
            NoNaN(target) && Patch(source, Diff(source, target, "")).Fail?
  {
    DiffThenPatch(Arr(Nulls(n + 1)), Arr(Nulls(n)));
  }

  /* ---- the loops of diff ---- */

  method ComputeDiff(source: Json, target: Json, path: string) returns (result: seq<Change>)
    ensures result == Changes(source, target, path)
    decreases source
  {
    result := [];
    if Eq(source, target) { return; }
    if source.Arr? && target.Arr? {
      result := DiffArrays(source, target, path);
    } else if source.Obj? && target.Obj? {
      result := DiffObjects(source, target, path);
    } else {
      result := [Replacing(path, target)];
    }
  }

  // Objects: what becomes of the source's members, then the members that are new.
  method DiffObjects(source: Json, target: Json, path: string) returns (result: seq<Change>)
    requires source.Obj? && target.Obj? && !Eq(source, target)
    ensures result == Changes(source, target, path)
    decreases source, 0, 1
  {
    hide DiffMembers, NewMembers, Keys, Eq;
    var kept := DiffOldMembers(source, target, path);
    var added := DiffNewMembers(source, target, path);
    result := kept + added;
  }

  method DiffOldMembers(source: Json, target: Json, path: string) returns (result: seq<Change>)
    requires source.Obj? && target.Obj?
    ensures result == DiffMembers(source, target, path, Keys(source.members))
    decreases source, 0, 0
  {
    hide Child, Changes, DiffMembers, Keys;
    NoMembers(source, target, path);
    result := [];
    var keys := Keys(source.members);
    for i := 0 to |keys|
      invariant result == DiffMembers(source, target, path, keys[..i])
    {
      var k := keys[i];
      assert keys[..i + 1] == keys[..i] + [k];
      OneMember(source, target, path, keys[..i], k);
      if k in target.members {
        var temp := ComputeDiff(source.members[k], target.members[k], Child(path, k));
        result := result + temp;
      } else {
        result := result + [Removing(Child(path, k))];
      }
    }
    assert keys[..|keys|] == keys;
  }

  method DiffNewMembers(source: Json, target: Json, path: string) returns (result: seq<Change>)
    requires source.Obj? && target.Obj?
    ensures result == NewMembers(source, target, path, Keys(target.members))
  {
    hide Child, NewMembers, Keys;
    NoMembers(source, target, path);
    result := [];
    var keys := Keys(target.members);
    for i := 0 to |keys|
      invariant result == NewMembers(source, target, path, keys[..i])
    {
      var k := keys[i];
      assert keys[..i + 1] == keys[..i] + [k];
      OneNewMember(source, target, path, keys[..i], k);
      if k !in source.members {
        result := result + [Adding(Child(path, k), target.members[k])];
      }
    }
    assert keys[..|keys|] == keys;
  }

  lemma NoMembers(source: Json, target: Json, path: string)
    requires source.Obj? && target.Obj?
    ensures DiffMembers(source, target, path, []) == [] && NewMembers(source, target, path, []) == []
  {
  }

  lemma OneMember(source: Json, target: Json, path: string, done: seq<string>, k: string)
    requires source.Obj? && target.Obj? && k in source.members && forall i :: i in done ==> i in source.members
    ensures DiffMembers(source, target, path, done + [k]) == DiffMembers(source, target, path, done) +
              if k in target.members then Changes(source.members[k], target.members[k], Child(path, k))
              else [Removing(Child(path, k))]
  {
    hide Changes, Child;
    assert (done + [k])[..|done|] == done;
  }

  lemma OneNewMember(source: Json, target: Json, path: string, done: seq<string>, k: string)
    requires source.Obj? && target.Obj? && k in target.members && forall i :: i in done ==> i in target.members
    ensures NewMembers(source, target, path, done + [k]) == NewMembers(source, target, path, done) +
              if k in source.members then [] else [Adding(Child(path, k), target.members[k])]
  {
    hide Child;
    assert (done + [k])[..|done|] == done;
  }

  // Arrays: the common elements, then what is left of the longer one.
  method DiffArrays(source: Json, target: Json, path: string) returns (result: seq<Change>)
    requires source.Arr? && target.Arr? && !Eq(source, target)
    ensures result == Changes(source, target, path)
    decreases source, 0, 1
  {
    hide DiffItems, Removals, Additions, Eq;
    var x, y := source.items, target.items;
    var i, common := DiffCommon(source, target, path);
    var j, removed := RemoveRest(|x|, path, i, common);
    result := AddRest(y, path, i, j, removed);
  }

  method DiffCommon(source: Json, target: Json, path: string) returns (i: nat, result: seq<Change>)
    requires source.Arr? && target.Arr?
    ensures i == if |source.items| < |target.items| then |source.items| else |target.items|
    ensures result == DiffItems(source, target, path, i)
    decreases source, 0, 0
  {
    hide Element, Changes;
    var x, y := source.items, target.items;
    i, result := 0, [];
    while i < |x| && i < |y|
      invariant i <= |x| && i <= |y| && result == DiffItems(source, target, path, i)
    {
      var temp := ComputeDiff(x[i], y[i], Element(path, i));
      result := result + temp;
      i := i + 1;
    }
  }

  // Each removal goes in front of the ones before it.
  method RemoveRest(size: nat, path: string, common: nat, before: seq<Change>) returns (i: nat, result: seq<Change>)
    requires common <= size
    ensures i == size && result == before + Removals(path, common, size)
  {
    hide Element;
    i, result := common, before;
    var end := |result|;
    while i < size
      invariant common <= i <= size && result == before + Removals(path, common, i)
    {
      assert result[..end] == before && result[end..] == Removals(path, common, i);
      result := result[..end] + [Removing(Element(path, i))] + result[end..];
      i := i + 1;
    }
  }

  // i is the size of the source; nothing is added unless it is the common size.
  method AddRest(y: seq<Json>, path: string, common: nat, i0: nat, before: seq<Change>) returns (result: seq<Change>)
    requires common <= i0 && common <= |y| && (i0 == common || common == |y|)
    ensures result == before + Additions(y, path, common, |y|)
  {
    hide Element;
    var i := i0;
    result := before;
    while i < |y|
      invariant common <= i && (i <= |y| || i == i0)
      invariant result == before + (if i <= |y| then Additions(y, path, common, i) else [])
    {
      result := result + [Adding(Element(path, i), y[i])];
      i := i + 1;
    }
  }
}
