/** The primary/backup key-value server: an operation enters a value at most once, across retries,
    failed forwards, restarts and merges of stale databases. */
module PbServer {

  datatype Id = Id(client: string, uid: string)

  datatype Args = Args(key: string, value: string, op: string, id: Id)

  // One operation in the history of a value.
  datatype Entry = Entry(id: Id, text: string)

  datatype View = View(viewnum: nat, primary: string, backup: string)

  datatype Err = None | OK | ErrWrongServer | ErrNoKey

  /* ---- keys ---- */

  function Marker(id: Id): string { "uid_" + id.client + "_" + id.uid }

  predicate IsMarker(key: string) { |key| >= 4 && key[..4] == "uid_" }

  lemma MarkerIsMarker(id: Id)
    ensures IsMarker(Marker(id))
  {
    assert Marker(id) == "uid_" + (id.client + "_" + id.uid);
  }

  // The client and the uid, cut out of a marker.
  lemma MarkerParts(id: Id)
    requires '_' !in id.uid
    ensures var x, i := Marker(id), 4 + |id.client|;
            i < |x| && x[i] == '_' && (forall k :: i < k < |x| ==> x[k] != '_') && x[4..i] == id.client && x[i + 1..] == id.uid
  {
    var x, i := Marker(id), 4 + |id.client|;
    assert x[..i] == "uid_" + id.client;
    assert x[4..i] == x[..i][4..];
    assert x[i + 1..] == id.uid;
    assert forall k :: i < k < |x| ==> x[k] == id.uid[k - i - 1];
  }

  /** Identifiers that hold no underscore after the client are told by their markers. */
  lemma MarkersAreApart(a: Id, b: Id)
    requires '_' !in a.uid && '_' !in b.uid && Marker(a) == Marker(b)
    ensures a == b
  {
    hide Marker;
    MarkerParts(a);
    MarkerParts(b);
    var x, i, j := Marker(a), 4 + |a.client|, 4 + |b.client|;
    assert i == j;
  }

  /* ---- a database and where its values come from ---- */

  // The map of a server, and for each user key the operations its value is made of.
  datatype Db = Db(values: map<string, string>, history: map<string, seq<Entry>>)

  function Value(db: Db, key: string): string { if key in db.values then db.values[key] else "" }

  function History(db: Db, key: string): seq<Entry> { if key in db.history then db.history[key] else [] }

  function Text(h: seq<Entry>): string { if h == [] then "" else Text(h[..|h| - 1]) + h[|h| - 1].text }

  predicate Seen(db: Db, id: Id) { Value(db, Marker(id)) != "" }

  // Whether the id occurs in the history.
  predicate Occurs(h: seq<Entry>, id: Id) { exists i :: 0 <= i < |h| && h[i].id == id }

  predicate NoTwice(h: seq<Entry>) { forall i, j :: 0 <= i < j < |h| ==> h[i].id != h[j].id }

  const EMPTY := Db(map[], map[])

  function Marked(db: Db, id: Id): Db { db.(values := db.values[Marker(id) := id.uid]) }

  // What a primary's PutAppend leaves in its database.
  function Performed(db: Db, args: Args): Db {
    if Seen(db, args.id) then db
    else
      var db1 := Marked(db, args.id);
      var e := Entry(args.id, args.value);
      if args.op == "Append" then
        Db(db1.values[args.key := Value(db1, args.key) + args.value], db1.history[args.key := History(db1, args.key) + [e]])
      else if args.op == "Put" then
        Db(db1.values[args.key := args.value], db1.history[args.key := [e]])
      else db1
  }

  // What a forwarded database does to another.
  function Merged(db: Db, content: Db): Db { Db(db.values + content.values, db.history + content.history) }

  /* ---- markers that are lost ---- */

  predicate Blank(db: Db, m: string) { m in db.values && db.values[m] == "" }

  /** The operation can leave an empty value at the marker m: it writes one there, or, writing nothing
      there, it marks itself at m with an empty uid. */
  predicate Blanks(w: Args, m: string) {
    if w.key == m && w.op == "Put" then w.value == ""
    else if w.key == m && w.op == "Append" then w.value == "" && (Marker(w.id) == m ==> w.id.uid == "")
    else Marker(w.id) == m && w.id.uid == ""
  }

  /** That is what the operation does alone, on an empty database. */
  lemma BlanksAlone(w: Args, m: string)
    ensures Blanks(w, m) <==> Blank(Performed(EMPTY, w), m)
  {
    hide Marker;
  }

  /** The marker of an operation on a user key is safe among a family of operations: it is not empty
      itself, and only a Put to the same key, which drops the value anyway, leaves it empty. */
  ghost predicate Guarded(ops: iset<Args>, key: string, id: Id) {
    id.uid != "" && forall w :: w in ops && Blanks(w, Marker(id)) ==> w.op == "Put" && w.key == key
  }

  ghost predicate Safe(ops: iset<Args>) {
    forall a :: a in ops && a.op == "Append" && !IsMarker(a.key) ==> Guarded(ops, a.key, a.id)
  }

  // What the clerks send: a uid of their own, to keys that are no markers.
  predicate Proper(args: Args) { args.id.uid != "" && !IsMarker(args.key) }

  lemma ProperBlanksNothing(w: Args, id: Id)
    requires Proper(w)
    ensures !Blanks(w, Marker(id))
  {
    MarkerIsMarker(id);
  }

  lemma ProperIsSafe(ops: iset<Args>)
    requires forall a :: a in ops ==> Proper(a)
    ensures Safe(ops)
    ensures forall key, id: Id :: id.uid != "" ==> Guarded(ops, key, id)
  {
    forall w, id: Id | w in ops ensures !Blanks(w, Marker(id)) { ProperBlanksNothing(w, id); }
  }

  // A marker becomes empty through an operation that leaves it empty on an empty database.
  lemma BlankStep(db: Db, w: Args, id: Id)
    ensures Blank(Performed(db, w), Marker(id)) ==> Blank(db, Marker(id)) || Blanks(w, Marker(id))
    ensures Seen(db, id) && !Blanks(w, Marker(id)) ==> Seen(Performed(db, w), id)
  {
    hide Marker;
  }

  /** An operation stops being marked exactly when a Put, not seen itself, empties its marker. */
  lemma UnmarksExactly(db: Db, w: Args, id: Id)
    requires Seen(db, id)
    ensures !Seen(Performed(db, w), id)
            <==> !Seen(db, w.id) && w.op == "Put" && w.key == Marker(id) && w.value == ""
  {
    hide Marker;
    if w.op == "Append" && w.key == Marker(id) && !Seen(db, w.id) {
      assert Value(Marked(db, w.id), w.key) == Value(db, w.key);
    }
  }

  /* ---- what every database keeps ---- */

  // The values of user keys are made of their histories.
  predicate Made(db: Db, key: string) {
    (key in db.history <==> key in db.values) && Value(db, key) == Text(History(db, key))
  }

  // The operation is marked where it is in the value, and a lost marker comes with a value.
  predicate MarkKept(db: Db, key: string, id: Id) {
    && (Occurs(History(db, key), id) ==> Seen(db, id))
    && (Blank(db, Marker(id)) ==> key in db.history)
  }

  ghost predicate Good(ops: iset<Args>, db: Db) {
    && (forall k :: !IsMarker(k) ==> Made(db, k) && NoTwice(History(db, k)))
    && (forall k, id :: !IsMarker(k) && Guarded(ops, k, id) ==> MarkKept(db, k, id))
  }

  lemma TextGrows(h: seq<Entry>, e: Entry)
    ensures Text(h + [e]) == Text(h) + e.text
  {
    assert (h + [e])[..|h|] == h;
  }

  lemma TextOfOne(e: Entry)
    ensures Text([e]) == e.text
  {
    TextGrows([], e);
    assert [] + [e] == [e] && "" + e.text == e.text;
  }

  // What one operation does to a user key.
  lemma HistoryStep(db: Db, w: Args, k: string)
    requires !IsMarker(k)
    ensures var db', e := Performed(db, w), Entry(w.id, w.value);
            if Seen(db, w.id) || w.key != k || (w.op != "Append" && w.op != "Put") then
              History(db', k) == History(db, k) && Value(db', k) == Value(db, k)
              && (k in db'.history <==> k in db.history) && (k in db'.values <==> k in db.values)
            else
              k in db'.history && k in db'.values
              && (w.op == "Append" ==> History(db', k) == History(db, k) + [e] && Value(db', k) == Value(db, k) + w.value)
              && (w.op == "Put" ==> History(db', k) == [e] && Value(db', k) == w.value)
  {
    hide IsMarker, Marker;
    MarkerIsMarker(w.id);
  }

  lemma PerformedMade(db: Db, w: Args, k: string)
    requires !IsMarker(k) && Made(db, k)
    ensures Made(Performed(db, w), k)
  {
    hide Performed, IsMarker, Text;
    var e := Entry(w.id, w.value);
    HistoryStep(db, w, k);
    TextGrows(History(db, k), e);
    TextOfOne(e);
  }

  // An operation that is performed on a user key is marked.
  lemma OwnMark(db: Db, w: Args)
    requires !IsMarker(w.key) && w.id.uid != ""
    ensures Seen(Performed(db, w), w.id) && !Blanks(w, Marker(w.id))
  {
    hide IsMarker, Marker;
    MarkerIsMarker(w.id);
  }

  lemma OccursInLonger(h: seq<Entry>, e: Entry, id: Id)
    ensures Occurs(h + [e], id) <==> Occurs(h, id) || e.id == id
  {
    var l := h + [e];
    assert l[|h|] == e;
    if Occurs(h, id) {
      var i :| 0 <= i < |h| && h[i].id == id;
      assert l[i].id == id;
    }
  }

  lemma NoTwiceGrows(h: seq<Entry>, e: Entry)
    requires NoTwice(h)
    ensures NoTwice(h + [e]) <==> !Occurs(h, e.id)
  {
    var l := h + [e];
    assert l[|h|] == e && forall i :: 0 <= i < |h| ==> l[i] == h[i];
  }

  lemma PerformedDistinct(ops: iset<Args>, db: Db, w: Args, k: string)
    requires Good(ops, db) && Safe(ops) && w in ops && !IsMarker(k)
    ensures NoTwice(History(Performed(db, w), k))
  {
    hide Performed, IsMarker, Marker, Text, Guarded, Seen, NoTwice;
    HistoryStep(db, w, k);
    NoTwiceGrows(History(db, k), Entry(w.id, w.value));
    NoTwiceOfOne(Entry(w.id, w.value));
    if w.op == "Append" && w.key == k && !Seen(db, w.id) {
      assert Guarded(ops, k, w.id);
      assert MarkKept(db, k, w.id);
    }
  }

  lemma NoTwiceOfOne(e: Entry)
    ensures NoTwice([e])
  {
  }

  lemma PerformedMarks(ops: iset<Args>, db: Db, w: Args, k: string, id: Id)
    requires MarkKept(db, k, id) && Guarded(ops, k, id) && w in ops && !IsMarker(k)
    ensures MarkKept(Performed(db, w), k, id)
  {
    assert !Occurs([], id) && (Seen(db, w.id) ==> Performed(db, w) == db);
    hide Performed, IsMarker, Marker, Occurs;
    var e := Entry(w.id, w.value);
    HistoryStep(db, w, k);
    OccursInLonger(History(db, k), e, id);
    OccursInLonger([], e, id);
    assert [] + [e] == [e];
    BlankStep(db, w, id);
    if w.key == k && w.id == id { OwnMark(db, w); }
  }

  lemma PerformedKeeps(ops: iset<Args>, db: Db, args: Args)
    requires Good(ops, db) && Safe(ops) && args in ops
    ensures Good(ops, Performed(db, args))
  {
    hide Performed, IsMarker, Marker, Guarded, MarkKept, Made, NoTwice;
    var db' := Performed(db, args);
    forall k | !IsMarker(k) ensures Made(db', k) && NoTwice(History(db', k)) {
      PerformedMade(db, args, k);
      PerformedDistinct(ops, db, args, k);
    }
    forall k, id | !IsMarker(k) && Guarded(ops, k, id) ensures MarkKept(db', k, id) {
      PerformedMarks(ops, db, args, k, id);
    }
  }

  lemma MergedMark(db: Db, content: Db, k: string, id: Id)
    requires MarkKept(db, k, id) && MarkKept(content, k, id)
    ensures MarkKept(Merged(db, content), k, id)
  {
    assert !Occurs([], id);
    hide Marker, Occurs;
  }

  lemma MergedKeeps(ops: iset<Args>, db: Db, content: Db)
    requires Good(ops, db) && Good(ops, content)
    ensures Good(ops, Merged(db, content))
  {
    hide IsMarker, Marker, Guarded, MarkKept, Text, NoTwice;
    var m := Merged(db, content);
    forall k | !IsMarker(k) ensures Made(m, k) && NoTwice(History(m, k)) {
      assert Made(db, k) && Made(content, k);
      assert History(m, k) == History(if k in content.history then content else db, k);
    }
    forall k, id | !IsMarker(k) && Guarded(ops, k, id) ensures MarkKept(m, k, id) {
      MergedMark(db, content, k, id);
    }
  }

  /* ---- one server ---- */

  datatype Server = Server(db: Db, view: View)

  // The handlers: the server afterwards, and whether its database goes out to the backup.

  function OnPutAppend(p: Server, me: string, args: Args): (Server, bool) {
    if p.view.primary != me then (p, false)
    else (p.(db := Performed(p.db, args)), !Seen(p.db, args.id) && p.view.backup != "")
  }

  function OnTick(p: Server, me: string, view: View): (Server, bool) {
    (p.(view := view), view.backup != "" && view.backup != p.view.backup && p.view.primary == me)
  }

  function OnForward(p: Server, content: Db): Server { p.(db := Merged(p.db, content)) }

  // From d to d', the operation writes its marker and its key, and nothing else.
  ghost predicate Writes(d: map<string, string>, d': map<string, string>, args: Args) {
    && var marker := Marker(args.id);
    && (forall k :: k != marker && k != args.key ==> (k in d' <==> k in d) && (k in d ==> d'[k] == d[k]))
    && marker in d'
    && if args.op == "Put" then args.key in d' && d'[args.key] == args.value && (marker != args.key ==> d'[marker] == args.id.uid)
       else if args.op == "Append" then
         && args.key in d' && (marker != args.key ==> d'[marker] == args.id.uid)
         && d'[args.key] == (if marker == args.key then args.id.uid else if args.key in d then d[args.key] else "") + args.value
       else d'[marker] == args.id.uid && (args.key in d' <==> args.key in d || args.key == marker)
            && (args.key in d && args.key != marker ==> d'[args.key] == d[args.key])
  }

  class PBServer {
    const me: string
    var db: map<string, string>
    var view: View
    ghost var history: map<string, seq<Entry>>

    ghost function Base(): Db
      reads this
    {
      Db(db, history)
    }

    ghost function State(): Server
      reads this
    {
      Server(Base(), view)
    }

    constructor (me: string)
      ensures this.me == me && State() == Server(EMPTY, View(0, "", ""))
    {
      this.me := me;
      db, view, history := map[], View(0, "", ""), map[];
    }

    method Get(key: string) returns (err: Err, value: string)
      ensures if view.primary != me then err == ErrWrongServer
              else value == Value(Base(), key) && err == if value == "" then ErrNoKey else OK
    {
      if view.primary != me { return ErrWrongServer, ""; }
      value := if key in db then db[key] else "";
      err := if value != "" then OK else ErrNoKey;
    }

    /** `forward` is the database to send to the backup, if one is to be sent. */
    method PutAppend(args: Args) returns (err: Err, forward: bool)
      modifies this`db, this`history
      ensures (State(), forward) == OnPutAppend(old(State()), me, args)
      ensures err == if view.primary != me then ErrWrongServer
                     else if old(Seen(Base(), args.id)) || (args.op != "Append" && args.op != "Put") then None
                     else OK
      ensures view.primary != me || old(Seen(Base(), args.id)) ==> State() == old(State()) && !forward
      ensures forward <==> view.primary == me && !old(Seen(Base(), args.id)) && view.backup != ""
      ensures view.primary == me && !old(Seen(Base(), args.id)) ==> Writes(old(db), db, args)
    {
      if view.primary != me { return ErrWrongServer, false; }
      var key := "uid_" + args.id.client + "_" + args.id.uid;
      if key in db && db[key] != "" { return None, false; }
      err := None;
      db := db[key := args.id.uid];
      var value := if args.key in db then db[args.key] else "";
      if args.op == "Append" {
        db := db[args.key := value + args.value];
        history := history[args.key := (if args.key in history then history[args.key] else []) + [Entry(args.id, args.value)]];
        err := OK;
      } else if args.op == "Put" {
        db := db[args.key := args.value];
        history := history[args.key := [Entry(args.id, args.value)]];
        err := OK;
      }
      forward := view.backup != "";
    }

    method Tick(view': View) returns (forward: bool)
      modifies this`view
      ensures (State(), forward) == OnTick(old(State()), me, view')
      ensures view == view' && forward == (old(view).primary == me && view'.backup != "" && view'.backup != old(view).backup)
    {
      forward := view'.backup != "" && view'.backup != view.backup && view.primary == me;
      view := view';
    }

    method ProcessForward(content: map<string, string>, ghost h: map<string, seq<Entry>>)
      modifies this`db, this`history
      ensures State() == OnForward(old(State()), Db(content, h))
      ensures db.Keys == old(db).Keys + content.Keys
      ensures forall k :: k in db ==> db[k] == if k in content then content[k] else old(db)[k]
    {
      var keys := content.Keys;
      ghost var db0 := db;
      OverlayEnds(db0, content);
      while keys != {}
        invariant keys <= content.Keys && db == Overlay(db0, content, keys)
        modifies this`db
        decreases |keys|
      {
        var k :| k in keys;
        OverlayStep(db0, content, keys, k);
        keys := keys - {k};
        db := db[k := content[k]];
      }
      history := history + h;
    }
  }

  // The map after all keys of content but `left` have been copied.
  function Overlay(db: map<string, string>, content: map<string, string>, left: set<string>): map<string, string> {
    db + (content - left)
  }

  lemma OverlayStep(db: map<string, string>, content: map<string, string>, left: set<string>, k: string)
    requires k in left && left <= content.Keys
    ensures Overlay(db, content, left - {k}) == Overlay(db, content, left)[k := content[k]]
  {
  }

  lemma OverlayEnds(db: map<string, string>, content: map<string, string>)
    ensures Overlay(db, content, content.Keys) == db && Overlay(db, content, {}) == db + content
  {
  }

  /* ---- runs of all servers ---- */

  // All servers by name, and every database ever forwarded. A forwarded database may be merged into
  // any server, at any later time, any number of times, or never.
  datatype System = System(servers: map<string, Server>, sent: set<Db>)

  datatype Action =
    | DoPutAppend(name: string, args: Args)
    | DoTick(name: string, view: View)
    | DoForward(name: string, content: Db)
    | DoRestart(name: string)

  // The clients send operations of the family `ops`, each any number of times.
  ghost predicate Enabled(ops: iset<Args>, s: System, a: Action) {
    a.name in s.servers && (a.DoPutAppend? ==> a.args in ops) && (a.DoForward? ==> a.content in s.sent)
  }

  function With(s: System, name: string, p: Server): System { s.(servers := s.servers[name := p]) }

  function Sending(s: System, db: Db, forward: bool): System { if forward then s.(sent := s.sent + {db}) else s }

  function Step(s: System, a: Action): System
    requires a.name in s.servers
  {
    var p := s.servers[a.name];
    match a
    case DoPutAppend(name, args) =>
      var (p', forward) := OnPutAppend(p, name, args);
      Sending(With(s, name, p'), p'.db, forward)
    case DoTick(name, view) =>
      var (p', forward) := OnTick(p, name, view);
      Sending(With(s, name, p'), p'.db, forward)
    case DoForward(name, content) => With(s, name, OnForward(p, content))
    case DoRestart(name) => With(s, name, Server(EMPTY, View(0, "", "")))
  }

  /** Who acts: a server that is not primary in its own view refuses, and then nothing changes anywhere; a
      database changes by an operation new to its primary, a forward or a restart; only a server that was
      primary before the step sends, and what it sends is its own database, to the backup of its view. */
  lemma OnlyPrimariesAct(s: System, a: Action)
    requires a.name in s.servers
    ensures a.DoPutAppend? && (s.servers[a.name].view.primary != a.name || Seen(s.servers[a.name].db, a.args.id)) ==>
              Step(s, a) == s
    ensures Step(s, a).servers.Keys == s.servers.Keys
    ensures forall n :: n in s.servers && Step(s, a).servers[n] != s.servers[n] ==> n == a.name
    ensures var p, p' := s.servers[a.name], Step(s, a).servers[a.name];
            && (p'.db != p.db ==>
                  (a.DoPutAppend? && p.view.primary == a.name && !Seen(p.db, a.args.id)) || a.DoForward? || a.DoRestart?)
            && (Step(s, a).sent != s.sent ==>
                  Step(s, a).sent == s.sent + {p'.db} && p.view.primary == a.name && p'.view.backup != "")
  {
    var p := s.servers[a.name];
    assert a.DoPutAppend? && Seen(p.db, a.args.id) ==> Performed(p.db, a.args) == p.db;
    assert s.servers[a.name := p] == s.servers;
    hide Performed, Seen, Merged;
  }

  ghost predicate ByAction(ops: iset<Args>, s: System, a: Action, s': System) { Enabled(ops, s, a) && s' == Step(s, a) }

  ghost predicate IsStep(ops: iset<Args>, s: System, s': System) { exists a: Action :: ByAction(ops, s, a, s') }

  ghost predicate StepAt(ops: iset<Args>, r: seq<System>, i: nat)
    requires 1 <= i < |r|
  {
    IsStep(ops, r[i - 1], r[i])
  }

  predicate IsStart(s: System) {
    s.sent == {} && forall name :: name in s.servers ==> s.servers[name] == Server(EMPTY, View(0, "", ""))
  }

  ghost predicate IsRun(ops: iset<Args>, r: seq<System>) {
    r != [] && IsStart(r[0]) && forall i :: 1 <= i < |r| ==> StepAt(ops, r, i)
  }

  ghost predicate AllGood(ops: iset<Args>, s: System) {
    (forall name :: name in s.servers ==> Good(ops, s.servers[name].db)) && forall db :: db in s.sent ==> Good(ops, db)
  }

  lemma StepKeeps(ops: iset<Args>, s: System, a: Action)
    requires AllGood(ops, s) && Enabled(ops, s, a) && Safe(ops)
    ensures AllGood(ops, Step(s, a))
  {
    hide Good, Safe, Performed, Merged, Seen;
    EmptyIsGood(ops);
    var p := s.servers[a.name];
    match a
    case DoPutAppend(_, args) => PerformedKeeps(ops, p.db, args);
    case DoForward(_, content) => MergedKeeps(ops, p.db, content);
    case _ =>
  }

  lemma EmptyIsGood(ops: iset<Args>)
    ensures Good(ops, EMPTY)
  {
  }

  lemma {:induction false} RunIsGood(ops: iset<Args>, r: seq<System>, i: nat)
    requires IsRun(ops, r) && i < |r| && Safe(ops)
    ensures AllGood(ops, r[i])
  {
    hide Good, Safe, Performed;
    if i == 0 {
      EmptyIsGood(ops);
    } else {
      RunIsGood(ops, r, i - 1);
      assert StepAt(ops, r, i);
      var a: Action :| ByAction(ops, r[i - 1], a, r[i]);
      StepKeeps(ops, r[i - 1], a);
    }
  }

  /** At most once: in every run of a safe family, in every server's value of every user key, no operation
      occurs twice, and each guarded one that occurs has its marker in that server's database. */
  lemma AtMostOnce(ops: iset<Args>, r: seq<System>, i: nat, name: string, key: string)
    requires IsRun(ops, r) && i < |r| && Safe(ops) && name in r[i].servers && !IsMarker(key)
    ensures var db := r[i].servers[name].db; var h := History(db, key);
            Value(db, key) == Text(h) && NoTwice(h) && forall id :: Guarded(ops, key, id) && Occurs(h, id) ==> Seen(db, id)
  {
    hide IsMarker, Text, Guarded, Occurs, Safe;
    RunIsGood(ops, r, i);
    var db := r[i].servers[name].db;
    assert Made(db, key);
    forall id | Guarded(ops, key, id) ensures MarkKept(db, key, id) {}
  }

  /* ---- exactly which families are performed at most once ---- */

  ghost predicate OnceAt(r: seq<System>, i: nat, name: string, key: string)
    requires i < |r| && name in r[i].servers
  {
    NoTwice(History(r[i].servers[name].db, key))
  }

  ghost predicate OnceIn(r: seq<System>) {
    forall i: nat, name, key :: i < |r| && name in r[i].servers && !IsMarker(key) ==> OnceAt(r, i, name, key)
  }

  ghost predicate AlwaysOnce(ops: iset<Args>) { forall r :: IsRun(ops, r) ==> OnceIn(r) }

  lemma SafeIsOnce(ops: iset<Args>, r: seq<System>)
    requires Safe(ops) && IsRun(ops, r)
    ensures OnceIn(r)
  {
    hide IsMarker, Safe, NoTwice;
    forall i: nat, name, key | i < |r| && name in r[i].servers && !IsMarker(key) ensures OnceAt(r, i, name, key) {
      AtMostOnce(ops, r, i, name, key);
    }
  }

  /** An Append sent twice in a row, whatever the database: it enters the value twice exactly when its
      uid is empty. */
  lemma EmptyUidRepeats(db: Db, a: Args)
    requires a.op == "Append" && !IsMarker(a.key) && !Seen(db, a.id)
    requires NoTwice(History(db, a.key)) && !Occurs(History(db, a.key), a.id)
    ensures NoTwice(History(Performed(Performed(db, a), a), a.key)) <==> a.id.uid != ""
  {
    hide Performed, IsMarker, NoTwice, Occurs;
    var d1, h, e := Performed(db, a), History(db, a.key), Entry(a.id, a.value);
    HistoryStep(db, a, a.key);
    HistoryStep(d1, a, a.key);
    NoTwiceGrows(h, e);
    NoTwiceGrows(h + [e], e);
    OccursInLonger(h, e, a.id);
    if a.id.uid != "" { OwnMark(db, a); } else { StaysUnseen(db, a); }
  }

  lemma StaysUnseen(db: Db, a: Args)
    requires a.id.uid == "" && !IsMarker(a.key) && !Seen(db, a.id)
    ensures !Seen(Performed(db, a), a.id)
  {
    MarkerIsMarker(a.id);
  }

  /** An Append, a write to a marker, and the Append again: it enters the value twice exactly when that
      write is a Put, not seen itself, of the empty value to the Append's own marker. */
  lemma MarkerKeyRepeats(db: Db, a: Args, w: Args)
    requires a.op == "Append" && !IsMarker(a.key) && !Seen(db, a.id) && a.id.uid != "" && IsMarker(w.key)
    requires NoTwice(History(db, a.key)) && !Occurs(History(db, a.key), a.id)
    ensures var d1 := Performed(db, a);
            NoTwice(History(Performed(Performed(d1, w), a), a.key))
            <==> !(!Seen(d1, w.id) && w.op == "Put" && w.key == Marker(a.id) && w.value == "")
  {
    hide Performed, IsMarker, NoTwice, Occurs, Marker;
    var d1, h, e := Performed(db, a), History(db, a.key), Entry(a.id, a.value);
    var d2 := Performed(d1, w);
    HistoryStep(db, a, a.key);
    HistoryStep(d1, w, a.key);
    HistoryStep(d2, a, a.key);
    NoTwiceGrows(h, e);
    NoTwiceGrows(h + [e], e);
    OccursInLonger(h, e, a.id);
    OwnMark(db, a);
    UnmarksExactly(d1, w, a.id);
  }

  /* A family that is not safe has a run in which an Append enters a value twice. */

  // The Append a is not guarded against w, and w does not write a's key.
  ghost predicate Unmarks(a: Args, w: Args) {
    && a.op == "Append" && !IsMarker(a.key) && a.id.uid != "" && Blanks(w, Marker(a.id))
    && (w.key == a.key ==> w.op != "Append" && w.op != "Put")
  }

  predicate HasEmptyUid(a: Args) { a.op == "Append" && !IsMarker(a.key) && a.id.uid == "" }

  lemma UnsafeHasWitness(ops: iset<Args>) returns (a: Args, w: Args)
    requires !Safe(ops)
    ensures a in ops && w in ops && (HasEmptyUid(a) || Unmarks(a, w))
  {
    hide IsMarker, Marker, Performed;
    a :| a in ops && a.op == "Append" && !IsMarker(a.key) && !Guarded(ops, a.key, a.id);
    w := a;
    if a.id.uid != "" {
      w :| w in ops && Blanks(w, Marker(a.id)) && !(w.op == "Put" && w.key == a.key);
      if w.op == "Append" && w.key == a.key {
        BlankedByUid(w, a.id);
        a := w;
      }
    }
  }

  // An Append to a user key that leaves a marker empty has an empty uid itself.
  lemma BlankedByUid(w: Args, id: Id)
    requires w.op == "Append" && !IsMarker(w.key) && Blanks(w, Marker(id))
    ensures w.id.uid == ""
  {
    MarkerIsMarker(id);
  }

  function Alone(p: Server): System { System(map["p" := p], {}) }

  /** Two deliveries of an Append with an empty uid to one primary. */
  lemma EmptyUidRun(ops: iset<Args>, a: Args) returns (r: seq<System>)
    requires a in ops && HasEmptyUid(a)
    ensures IsRun(ops, r) && !OnceIn(r)
  {
    hide IsMarker, Marker, Performed, NoTwice, Occurs;
    var v := View(1, "p", "");
    var d1 := Performed(EMPTY, a);
    var d2 := Performed(d1, a);
    var s0, s1 := Alone(Server(EMPTY, View(0, "", ""))), Alone(Server(EMPTY, v));
    var s2, s3 := Alone(Server(d1, v)), Alone(Server(d2, v));
    assert ByAction(ops, s0, DoTick("p", v), s1);
    assert ByAction(ops, s1, DoPutAppend("p", a), s2);
    assert ByAction(ops, s2, DoPutAppend("p", a), s3);
    r := [s0, s1, s2, s3];
    assert StepAt(ops, r, 1) && StepAt(ops, r, 2) && StepAt(ops, r, 3);
    NothingOccurs(a.id);
    EmptyUidRepeats(EMPTY, a);
    assert !OnceAt(r, 3, "p", a.key);
  }

  lemma NothingOccurs(id: Id)
    ensures NoTwice([]) && !Occurs([], id) && !Seen(EMPTY, id)
  {
  }

  function Both(p: Server, q: Server, sent: set<Db>): System { System(map["p" := p, "q" := q], sent) }

  // The steps of the run below, on two servers.
  lemma TickOfP(ops: iset<Args>, p: Server, q: Server, sent: set<Db>, v: View)
    ensures IsStep(ops, Both(p, q, sent), Both(p.(view := v), q, sent + if OnTick(p, "p", v).1 then {p.db} else {}))
  {
    assert sent + {} == sent;
    assert ByAction(ops, Both(p, q, sent), DoTick("p", v), Both(p.(view := v), q, sent + if OnTick(p, "p", v).1 then {p.db} else {}));
  }

  lemma TickOfQ(ops: iset<Args>, p: Server, q: Server, sent: set<Db>, v: View)
    requires q.view.primary != "q"
    ensures IsStep(ops, Both(p, q, sent), Both(p, q.(view := v), sent))
  {
    assert ByAction(ops, Both(p, q, sent), DoTick("q", v), Both(p, q.(view := v), sent));
  }

  lemma PerformAtP(ops: iset<Args>, p: Server, q: Server, sent: set<Db>, w: Args)
    requires w in ops && p.view.primary == "p" && p.view.backup != "" && !Seen(p.db, w.id)
    ensures var d := Performed(p.db, w); IsStep(ops, Both(p, q, sent), Both(p.(db := d), q, sent + {d}))
  {
    hide Performed;
    var d := Performed(p.db, w);
    assert ByAction(ops, Both(p, q, sent), DoPutAppend("p", w), Both(p.(db := d), q, sent + {d}));
  }

  lemma PerformAtQ(ops: iset<Args>, p: Server, q: Server, sent: set<Db>, a: Args)
    requires a in ops && q.view.primary == "q" && q.view.backup == ""
    ensures IsStep(ops, Both(p, q, sent), Both(p, q.(db := Performed(q.db, a)), sent))
  {
    hide Performed;
    assert ByAction(ops, Both(p, q, sent), DoPutAppend("q", a), Both(p, q.(db := Performed(q.db, a)), sent));
  }

  lemma ForwardToQ(ops: iset<Args>, p: Server, q: Server, sent: set<Db>, content: Db)
    requires content in sent
    ensures IsStep(ops, Both(p, q, sent), Both(p, q.(db := Merged(q.db, content)), sent))
  {
    assert ByAction(ops, Both(p, q, sent), DoForward("q", content), Both(p, q.(db := Merged(q.db, content)), sent));
  }

  lemma OneStepMore(ops: iset<Args>, r: seq<System>, s': System) returns (r': seq<System>)
    requires IsRun(ops, r) && IsStep(ops, r[|r| - 1], s')
    ensures IsRun(ops, r') && r'[|r'| - 1] == s'
  {
    hide IsStart, IsStep;
    r' := r + [s'];
    forall i | 1 <= i < |r'| ensures StepAt(ops, r', i) {
      assert i < |r| ==> StepAt(ops, r, i);
    }
  }

  // The databases of the run below: w at p, a at q, p's database at q, a at q again.
  lemma LateForwardRepeats(a: Args, w: Args)
    requires Unmarks(a, w)
    ensures var dw, da := Performed(EMPTY, w), Performed(EMPTY, a);
            !NoTwice(History(Performed(Merged(da, dw), a), a.key))
  {
    hide IsMarker, Marker, Performed, NoTwice, Occurs;
    var dw, da, e := Performed(EMPTY, w), Performed(EMPTY, a), Entry(a.id, a.value);
    NothingOccurs(a.id);
    HistoryStep(EMPTY, w, a.key);
    HistoryStep(EMPTY, a, a.key);
    assert a.key !in dw.history;
    BlanksAlone(w, Marker(a.id));
    var m := Merged(da, dw);
    assert History(m, a.key) == [] + [e] == [e];
    assert !Seen(m, a.id);
    HistoryStep(m, a, a.key);
    OccursInLonger([], e, a.id);
    NoTwiceOfOne(e);
    NoTwiceGrows([e], e);
  }

  const VIEW_1 := View(1, "p", "")
  const VIEW_2 := View(2, "p", "q")
  const VIEW_3 := View(3, "q", "")

  // p leads view 1 alone and view 2 with q behind it, to which it forwards its database.
  lemma PairUp(ops: iset<Args>) returns (r: seq<System>)
    ensures IsRun(ops, r) && r[|r| - 1] == Both(Server(EMPTY, VIEW_2), Server(EMPTY, VIEW_2), {EMPTY})
  {
    var start, p1, p2 := Server(EMPTY, View(0, "", "")), Server(EMPTY, VIEW_1), Server(EMPTY, VIEW_2);
    r := [Both(start, start, {})];
    TickOfP(ops, start, start, {}, VIEW_1);
    TickOfQ(ops, p1, start, {}, VIEW_2);
    TickOfP(ops, p1, p2, {}, VIEW_2);
    StartIsRun(ops);
    assert !OnTick(start, "p", VIEW_1).1 && OnTick(p1, "p", VIEW_2).1;
    hide IsRun, IsStep, OnTick, Both;
    NothingAdded({}, EMPTY);
    r := OneStepMore(ops, r, Both(p1, start, {}));
    r := OneStepMore(ops, r, Both(p1, p2, {}));
    r := OneStepMore(ops, r, Both(p2, p2, {EMPTY}));
  }

  lemma StartIsRun(ops: iset<Args>)
    ensures var start := Server(EMPTY, View(0, "", "")); IsRun(ops, [Both(start, start, {})])
  {
  }

  lemma NothingAdded(sent: set<Db>, d: Db)
    ensures sent + {} == sent && {} + {d} == {d}
  {
  }

  /** p leads view 2 and performs w, and forwards its database to q; q leads view 3 and performs a; the
      forward arrives late; a is sent to q again. */
  lemma LateForwardRun(ops: iset<Args>, a: Args, w: Args) returns (r: seq<System>)
    requires a in ops && w in ops && Unmarks(a, w)
    ensures IsRun(ops, r) && !OnceIn(r)
  {
    assert !IsMarker(a.key);
    hide IsMarker, Performed, Unmarks, Merged, IsStep, IsRun, Both;
    var dw, da := Performed(EMPTY, w), Performed(EMPTY, a);
    var dm, sent := Merged(da, dw), {EMPTY} + {dw};
    var p2, p3, q3 := Server(EMPTY, VIEW_2), Server(dw, VIEW_2), Server(EMPTY, VIEW_3);
    r := PairUp(ops);
    NothingOccurs(w.id);
    PerformAtP(ops, p2, p2, {EMPTY}, w);
    r := OneStepMore(ops, r, Both(p3, p2, sent));
    TickOfQ(ops, p3, p2, sent, VIEW_3);
    r := OneStepMore(ops, r, Both(p3, q3, sent));
    PerformAtQ(ops, p3, q3, sent, a);
    r := OneStepMore(ops, r, Both(p3, q3.(db := da), sent));
    ForwardToQ(ops, p3, q3.(db := da), sent, dw);
    r := OneStepMore(ops, r, Both(p3, q3.(db := dm), sent));
    PerformAtQ(ops, p3, q3.(db := dm), sent, a);
    var q := q3.(db := Performed(dm, a));
    r := OneStepMore(ops, r, Both(p3, q, sent));
    LateForwardRepeats(a, w);
    TwiceAtQ(r, p3, q, sent, a.key);
  }

  lemma TwiceAtQ(r: seq<System>, p: Server, q: Server, sent: set<Db>, key: string)
    requires r != [] && r[|r| - 1] == Both(p, q, sent) && !IsMarker(key) && !NoTwice(History(q.db, key))
    ensures !OnceIn(r)
  {
    assert !OnceAt(r, |r| - 1, "q", key);
  }

  /** A family of operations enters values at most once in all runs exactly when it is safe: every Append
      to a user key has a uid, and only Puts to that key leave its marker empty. */
  lemma AtMostOnceExactly(ops: iset<Args>)
    ensures AlwaysOnce(ops) <==> Safe(ops)
  {
    hide Safe, IsRun, OnceIn, HasEmptyUid, Unmarks;
    if Safe(ops) {
      forall r | IsRun(ops, r) ensures OnceIn(r) { SafeIsOnce(ops, r); }
    } else {
      var a, w := UnsafeHasWitness(ops);
      if HasEmptyUid(a) {
        var r := EmptyUidRun(ops, a);
      } else {
        var r := LateForwardRun(ops, a, w);
      }
    }
  }
}
