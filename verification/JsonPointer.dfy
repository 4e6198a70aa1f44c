/** JSON pointers (RFC 6901): escaping, and the way between pointers and strings. */
module JsonPointer {
  import opened Decimals

  /* ---- the exceptions the library throws ---- */

  datatype Error =
    | DomainError
    | OutOfRange
    | InvalidArgument
    | AssertFailed // an assert in the code
    | Undefined    // undefined behaviour

  datatype Outcome<T> = Ok(value: T) | Fail(error: Error)

  /* ---- replacing substrings ---- */

  predicate StartsWith(s: string, f: string) { |f| <= |s| && s[..|f|] == f }

  // Every occurrence of f, found from the left and without overlap, becomes t.
  function ReplaceAll(s: string, f: string, t: string): string
    requires f != []
  {
    if s == [] then []
    else if StartsWith(s, f) then t + ReplaceAll(s[|f|..], f, t)
    else [s[0]] + ReplaceAll(s[1..], f, t)
  }

  // The first occurrence of f in s at or after `from`, or the length of s if there is none.
  function Find(s: string, f: string, from: nat): (pos: nat)
    requires f != [] && from <= |s|
    ensures from <= pos <= |s| && (pos < |s| ==> StartsWith(s[pos..], f))
    decreases |s| - from
  {
    if from == |s| || StartsWith(s[from..], f) then from else Find(s, f, from + 1)
  }

  // What the loop of replace_substring still has to turn s[pos..] into.
  function Rest(s: string, f: string, t: string, pos: nat): string
    requires f != [] && pos <= |s| && (pos < |s| ==> StartsWith(s[pos..], f))
  {
    if pos == |s| then [] else t + ReplaceAll(s[pos + |f|..], f, t)
  }

  lemma {:induction false} FindReplaces(s: string, f: string, t: string, from: nat)
    requires f != [] && from <= |s|
    ensures var pos := Find(s, f, from);
            ReplaceAll(s[from..], f, t) == s[from..pos] + Rest(s, f, t, pos)
    decreases |s| - from
  {
    var pos := Find(s, f, from);
    var u := s[from..];
    if from < |s| {
      if StartsWith(u, f) {
        assert u[|f|..] == s[from + |f|..];
        assert s[from..pos] == [];
      } else {
        FindReplaces(s, f, t, from + 1);
        assert u[1..] == s[from + 1..];
        Chain(s[from..pos], [s[from]], s[from + 1..pos], Rest(s, f, t, pos), ReplaceAll(s[from + 1..], f, t));
      }
    }
  }

  lemma Chain(whole: string, a: string, b: string, c: string, bc: string)
    requires whole == a + b && bc == b + c
    ensures whole + c == a + bc
  {
  }

  lemma RestAfter(head: string, tail: string, s: string, f: string, t: string)
    requires f != [] && s == head + tail
    ensures var p := Find(s, f, |head|); s[..p] + Rest(s, f, t, p) == head + ReplaceAll(tail, f, t)
  {
    var p := Find(s, f, |head|);
    assert s[|head|..] == tail;
    FindReplaces(s, f, t, |head|);
    Chain(s[..p], head, s[|head|..p], Rest(s, f, t, p), ReplaceAll(tail, f, t));
  }

  lemma ReplaceOne(s: string, f: string, t: string, pos: nat, head: string, tail: string, s': string)
    requires f != [] && pos < |s| && StartsWith(s[pos..], f)
    requires head == s[..pos] + t && tail == s[pos + |f|..] && s' == head + tail
    ensures var p := Find(s', f, |head|); s'[..p] + Rest(s', f, t, p) == s[..pos] + Rest(s, f, t, pos)
  {
    RestAfter(head, tail, s', f, t);
    Chain(head, s[..pos], t, ReplaceAll(tail, f, t), Rest(s, f, t, pos));
  }

  method ReplaceSubstring(s0: string, f: string, t: string) returns (s: string)
    requires f != []
    ensures s == ReplaceAll(s0, f, t)
  {
    s := s0;
    FindReplaces(s, f, t, 0);
    assert s[0..] == s;
    var pos := Find(s, f, 0);
    while pos < |s|
      invariant 0 <= pos <= |s| && (pos < |s| ==> StartsWith(s[pos..], f))
      invariant s[..pos] + Rest(s, f, t, pos) == ReplaceAll(s0, f, t)
      decreases |s| - pos
    {
      var head, tail := s[..pos] + t, s[pos + |f|..];
      ReplaceOne(s, f, t, pos, head, tail, head + tail);
      s := head + tail;
      pos := Find(s, f, |head|);
    }
    assert s[..pos] == s;
  }

  /* ---- escaping ---- */

  // Tilde and slash become ~0 and ~1, in two passes.
  function Escape(s: string): string { ReplaceAll(ReplaceAll(s, "~", "~0"), "/", "~1") }

  // The other way, also in two passes.
  function Unescape(s: string): string { ReplaceAll(ReplaceAll(s, "~1", "/"), "~0", "~") }

  // A tilde stands before 0 or 1 only.
  predicate WellEscaped(s: string) {
    forall i :: 0 <= i < |s| && s[i] == '~' ==> i + 1 < |s| && (s[i + 1] == '0' || s[i + 1] == '1')
  }

  // Escaping and unescaping as section 4 of RFC 6901 defines them, one character at a time.
  function Encoded(s: string): string {
    if s == [] then []
    else (if s[0] == '~' then "~0" else if s[0] == '/' then "~1" else [s[0]]) + Encoded(s[1..])
  }

  function Decoded(s: string): string {
    if s == [] then []
    else if StartsWith(s, "~0") then ['~'] + Decoded(s[2..])
    else if StartsWith(s, "~1") then ['/'] + Decoded(s[2..])
    else [s[0]] + Decoded(s[1..])
  }

  lemma {:induction false} EscapeIsEncoded(s: string)
    ensures Escape(s) == Encoded(s)
  {
    if s != [] {
      EscapeIsEncoded(s[1..]);
      var a := ReplaceAll(s, "~", "~0");
      var rest := ReplaceAll(s[1..], "~", "~0");
      assert StartsWith(s, "~") <==> s[0] == '~';
      if s[0] == '~' {
        assert a == "~0" + rest;
        assert a[0] == '~' && a[1..] == ['0'] + rest && a[1..][1..] == rest;
        assert !StartsWith(a, "/") && !StartsWith(a[1..], "/");
        assert ReplaceAll(a, "/", "~1") == ['~'] + (['0'] + ReplaceAll(rest, "/", "~1"));
      } else {
        assert a == [s[0]] + rest && a[1..] == rest;
        assert StartsWith(a, "/") <==> s[0] == '/';
      }
    }
  }

  lemma {:induction false} UnescapeIsDecoded(s: string)
    requires WellEscaped(s)
    ensures Unescape(s) == Decoded(s)
    decreases |s|
  {
    if s != [] {
      var a := ReplaceAll(s, "~1", "/");
      if s[0] == '~' {
        assert forall i :: 0 <= i < |s[2..]| ==> s[2..][i] == s[i + 2];
        UnescapeIsDecoded(s[2..]);
        var rest := ReplaceAll(s[2..], "~1", "/");
        if s[1] == '1' {
          assert s[..2] == "~1" && a == "/" + rest;
          assert a[0] == '/' && !StartsWith(a, "~0") && a[1..] == rest;
        } else {
          assert s[..2] == "~0" && !StartsWith(s, "~1") && s[..2][1] == '0';
          assert s[1..][0] == '0' && !StartsWith(s[1..], "~1") && s[1..][1..] == s[2..];
          assert ReplaceAll(s[1..], "~1", "/") == ['0'] + rest;
          assert a == ['~'] + (['0'] + rest);
          assert a[..2] == "~0" && a[2..] == rest;
        }
      } else {
        assert forall i :: 0 <= i < |s[1..]| ==> s[1..][i] == s[i + 1];
        UnescapeIsDecoded(s[1..]);
        var rest := ReplaceAll(s[1..], "~1", "/");
        assert !StartsWith(s, "~1") && !StartsWith(s, "~0") by {
          if |s| >= 2 { assert s[..2][0] == s[0]; }
        }
        assert a == [s[0]] + rest && a[1..] == rest;
        assert !StartsWith(a, "~0") by {
          if |a| >= 2 { assert a[..2][0] == s[0]; }
        }
      }
    }
  }

  lemma {:induction false} DecodedEncoded(s: string)
    ensures Decoded(Encoded(s)) == s
    ensures WellEscaped(Encoded(s)) && '/' !in Encoded(s)
  {
    if s != [] {
      DecodedEncoded(s[1..]);
      var e, rest := Encoded(s), Encoded(s[1..]);
      if s[0] == '~' || s[0] == '/' {
        assert e[2..] == rest && e[..2] == (if s[0] == '~' then "~0" else "~1");
        assert forall i :: 2 <= i < |e| ==> e[i] == rest[i - 2];
        if s[0] == '/' { assert e[..2][1] == '1' && "~0"[1] == '0'; }
      } else {
        assert e[1..] == rest && e[0] == s[0];
        assert forall i :: 1 <= i < |e| ==> e[i] == rest[i - 1];
        if |e| >= 2 { assert e[..2][0] == s[0]; }
      }
    }
  }

  /** Unescaping undoes escaping, for every string. */
  lemma EscapeRoundTrip(s: string)
    ensures Unescape(Escape(s)) == s
    ensures WellEscaped(Escape(s)) && '/' !in Escape(s)
  {
    EscapeIsEncoded(s);
    DecodedEncoded(s);
    UnescapeIsDecoded(Encoded(s));
  }

  lemma EncodedFront(c: char, d: string, e: string)
    requires e == Encoded(d)
    ensures Encoded([c] + d) == if c == '~' then "~0" + e else if c == '/' then "~1" + e else [c] + e
  {
    assert ([c] + d)[1..] == d;
  }

  lemma WellEscapedTail(s: string, k: nat)
    requires WellEscaped(s) && '/' !in s && k <= |s|
    ensures WellEscaped(s[k..]) && '/' !in s[k..]
  {
    assert forall i :: 0 <= i < |s[k..]| ==> s[k..][i] == s[i + k];
  }

  lemma NothingEncoded()
    ensures Encoded([]) == []
  {
  }

  lemma {:induction false} EncodedDecoded(s: string)
    requires WellEscaped(s) && '/' !in s
    ensures Encoded(Decoded(s)) == s
    decreases |s|
  {
    hide Encoded;
    NothingEncoded();
    if s != [] {
      if s[0] == '~' {
        WellEscapedTail(s, 2);
        EncodedDecoded(s[2..]);
        EncodedFront(if s[1] == '0' then '~' else '/', Decoded(s[2..]), s[2..]);
        assert s == s[..2] + s[2..] && s[..2] == [s[0], s[1]];
      } else {
        WellEscapedTail(s, 1);
        EncodedDecoded(s[1..]);
        EncodedFront(s[0], Decoded(s[1..]), s[1..]);
        assert s == [s[0]] + s[1..];
        if |s| >= 2 { assert s[..2][0] == s[0]; }
      }
    }
  }

  /** And escaping undoes unescaping, for every reference token. */
  lemma UnescapeRoundTrip(s: string)
    requires WellEscaped(s) && '/' !in s
    ensures Escape(Unescape(s)) == s
  {
    UnescapeIsDecoded(s);
    EscapeIsEncoded(Decoded(s));
    EncodedDecoded(s);
  }

  /* ---- pointers and strings ---- */

  // The text between slashes.
  function Pieces(s: string): (r: seq<string>)
    ensures r != []
    decreases |s|
  {
    var i := Find(s, "/", 0);
    if i == |s| then [s] else [s[..i]] + Pieces(s[i + 1..])
  }

  function Tokens(pieces: seq<string>): Outcome<seq<string>> {
    if pieces == [] then Ok([])
    else if !WellEscaped(pieces[0]) then Fail(DomainError)
    else match Tokens(pieces[1..])
      case Ok(rest) => Ok([Unescape(pieces[0])] + rest)
      case Fail(e) => Fail(e)
  }

  // The reference tokens of a string.
  function Split(s: string): Outcome<seq<string>> {
    if s == "" then Ok([]) else if s[0] != '/' then Fail(DomainError) else Tokens(Pieces(s[1..]))
  }

  // The string of a pointer.
  function Render(ptr: seq<string>): string {
    if ptr == [] then "" else "/" + Escape(ptr[0]) + Render(ptr[1..])
  }

  lemma {:induction false} RenderBack(ptr: seq<string>, t: string)
    ensures Render(ptr + [t]) == Render(ptr) + "/" + Escape(t)
  {
    var p := ptr + [t];
    if ptr == [] {
      assert p[1..] == [];
    } else {
      RenderBack(ptr[1..], t);
      assert p[0] == ptr[0] && p[1..] == ptr[1..] + [t];
    }
  }

  lemma {:induction false} FindSlash(s: string, rest: string, from: nat)
    requires '/' !in s && from <= |s|
    ensures Find(s + "/" + rest, "/", from) == |s| && Find(s, "/", from) == |s|
    decreases |s| - from
  {
    var u := s + "/" + rest;
    assert u[from..][0] == u[from];
    if from < |s| {
      assert u[from] == s[from] && s[from..][0] == s[from];
      FindSlash(s, rest, from + 1);
    } else {
      assert u[from..][..1] == "/";
    }
  }

  function Escaped(ptr: seq<string>): seq<string> {
    if ptr == [] then [] else [Escape(ptr[0])] + Escaped(ptr[1..])
  }

  lemma PiecesAt(u: string, i: nat, token: string, rest: string)
    requires i == Find(u, "/", 0)
    requires if i == |u| then token == u else token == u[..i] && rest == u[i + 1..]
    ensures Pieces(u) == if i == |u| then [token] else [token] + Pieces(rest)
  {
  }

  lemma PiecesWithTail(e: string, tail: string, pieces: seq<string>)
    requires '/' !in e
    requires if tail == "" then pieces == [] else tail[0] == '/' && Pieces(tail[1..]) == pieces
    ensures Pieces(("/" + e + tail)[1..]) == [e] + pieces
  {
    var s := ("/" + e + tail)[1..];
    if tail == "" {
      assert s == e;
      FindSlash(e, "", 0);
      PiecesAt(s, |e|, e, "");
    } else {
      var r := tail[1..];
      assert s == e + "/" + r;
      FindSlash(e, r, 0);
      assert s[..|e|] == e && s[|e| + 1..] == r;
      PiecesAt(s, |e|, e, r);
    }
  }

  lemma {:induction false} PiecesOfRender(ptr: seq<string>)
    ensures if ptr == [] then Render(ptr) == "" else
              Render(ptr) != "" && Render(ptr)[0] == '/' && Pieces(Render(ptr)[1..]) == Escaped(ptr)
  {
    if ptr != [] {
      EscapeRoundTrip(ptr[0]);
      PiecesOfRender(ptr[1..]);
      PiecesWithTail(Escape(ptr[0]), Render(ptr[1..]), Escaped(ptr[1..]));
    }
  }

  lemma TokensFront(e: string, pieces: seq<string>, t: string, rest: seq<string>)
    requires WellEscaped(e) && Unescape(e) == t && Tokens(pieces) == Ok(rest)
    ensures Tokens([e] + pieces) == Ok([t] + rest)
  {
    assert ([e] + pieces)[1..] == pieces;
  }

  lemma {:induction false} TokensOfEscaped(ptr: seq<string>)
    ensures Tokens(Escaped(ptr)) == Ok(ptr)
  {
    if ptr != [] {
      EscapeRoundTrip(ptr[0]);
      TokensOfEscaped(ptr[1..]);
      TokensFront(Escape(ptr[0]), Escaped(ptr[1..]), ptr[0], ptr[1..]);
      assert ptr == [ptr[0]] + ptr[1..];
    }
  }

  /** Parsing a printed pointer gives the pointer, whatever its tokens hold. */
  lemma PointerRoundTrip(ptr: seq<string>)
    ensures Split(Render(ptr)) == Ok(ptr)
  {
    if ptr != [] {
      PiecesOfRender(ptr);
      TokensOfEscaped(ptr);
    }
  }

  /** Printing a parsed pointer gives the string. */
  lemma StringRoundTrip(s: string)
    requires Split(s).Ok?
    ensures Render(Split(s).value) == s
  {
    if s != "" {
      PiecesJoined(s[1..]);
      RenderTokens(Pieces(s[1..]));
      assert s == "/" + s[1..];
    }
  }

  // Each piece after a slash.
  function Slashed(pieces: seq<string>): string {
    if pieces == [] then "" else "/" + pieces[0] + Slashed(pieces[1..])
  }

  predicate NoSlashes(pieces: seq<string>) { forall i :: 0 <= i < |pieces| ==> '/' !in pieces[i] }

  // A string cut at a slash.
  lemma CutAtSlash(s: string, i: nat)
    requires i < |s| && StartsWith(s[i..], "/")
    ensures s == s[..i] + "/" + s[i + 1..]
  {
    assert s[i..][..1] == [s[i]];
  }

  lemma OnePieceMore(head: string, ps: seq<string>, rest: string)
    requires Slashed(ps) == "/" + rest && NoSlashes(ps) && '/' !in head
    ensures Slashed([head] + ps) == "/" + (head + "/" + rest) && NoSlashes([head] + ps)
  {
    assert ([head] + ps)[1..] == ps;
    assert "/" + head + ("/" + rest) == "/" + (head + "/" + rest);
  }

  lemma OnePiece(s: string)
    requires '/' !in s
    ensures Slashed([s]) == "/" + s && NoSlashes([s])
  {
    assert [s][1..] == [];
    assert "/" + s + "" == "/" + s;
  }

  lemma {:induction false} PiecesJoined(s: string)
    ensures Slashed(Pieces(s)) == "/" + s && NoSlashes(Pieces(s))
    decreases |s|
  {
    hide Slashed, NoSlashes, StartsWith;
    var i := Find(s, "/", 0);
    NoSlashBefore(s, 0);
    assert '/' !in s[..i];
    if i < |s| {
      PiecesJoined(s[i + 1..]);
      CutAtSlash(s, i);
      OnePieceMore(s[..i], Pieces(s[i + 1..]), s[i + 1..]);
    } else {
      assert s[..i] == s;
      OnePiece(s);
    }
  }

  lemma {:induction false} RenderTokens(pieces: seq<string>)
    requires Tokens(pieces).Ok? && NoSlashes(pieces)
    ensures Render(Tokens(pieces).value) == Slashed(pieces)
  {
    if pieces != [] {
      UnescapeRoundTrip(pieces[0]);
      RenderTokens(pieces[1..]);
      var rest := Tokens(pieces[1..]).value;
      assert ([Unescape(pieces[0])] + rest)[1..] == rest;
    }
  }

  lemma {:induction false} NoSlashBefore(s: string, from: nat)
    requires from <= |s|
    ensures forall j :: from <= j < Find(s, "/", from) ==> s[j] != '/'
    decreases |s| - from
  {
    if from < |s| && !StartsWith(s[from..], "/") {
      assert s[from..][..1] == [s[from]];
      NoSlashBefore(s, from + 1);
    }
  }

  /* ---- the loops of split ---- */

  lemma {:induction false} FindShift(s: string, f: string, start: nat, from: nat)
    requires f != [] && start + from <= |s|
    ensures Find(s[start..], f, from) == Find(s, f, start + from) - start
    decreases |s| - from
  {
    assert s[start..][from..] == s[start + from..];
    if start + from < |s| { FindShift(s, f, start, from + 1); }
  }

  function Prepended(xs: seq<string>, rest: Outcome<seq<string>>): Outcome<seq<string>> {
    match rest
    case Ok(ys) => Ok(xs + ys)
    case Fail(e) => Fail(e)
  }

  lemma SliceOfSlice(s: string, u: string, a: nat, b: nat)
    requires a <= b <= |s| && u == s[a..]
    ensures u[..b - a] == s[a..b] && u[b - a..] == s[b..]
  {
  }

  lemma SplitOne(s: string, u: string, start: nat, slash: nat, token: string)
    requires start <= |s| && slash == Find(s, "/", start) && u == s[start..] && token == s[start..slash]
    ensures Pieces(u) == if slash == |s| then [token] else [token] + Pieces(s[slash + 1..])
  {
    FindShift(s, "/", start, 0);
    SliceOfSlice(s, u, start, slash);
    if slash < |s| {
      SliceOfSlice(s, u, start, slash + 1);
      PiecesAt(u, slash - start, token, s[slash + 1..]);
    } else {
      PiecesAt(u, slash - start, token, "");
    }
  }

  lemma TokensOne(token: string, pieces: seq<string>, xs: seq<string>)
    ensures Prepended(xs, Tokens([token] + pieces)) ==
            if WellEscaped(token) then Prepended(xs + [Unescape(token)], Tokens(pieces)) else Fail(DomainError)
  {
    assert ([token] + pieces)[1..] == pieces;
    if WellEscaped(token) && Tokens(pieces).Ok? {
      assert xs + ([Unescape(token)] + Tokens(pieces).value) == (xs + [Unescape(token)]) + Tokens(pieces).value;
    }
  }

  lemma TokensLast(token: string, xs: seq<string>)
    ensures Prepended(xs, Tokens([token])) == if WellEscaped(token) then Ok(xs + [Unescape(token)]) else Fail(DomainError)
  {
    assert [token][1..] == [] && [Unescape(token)] + [] == [Unescape(token)];
  }

  // The outcome of split when xs are the tokens before `start`.
  function Todo(s: string, start: nat, xs: seq<string>): Outcome<seq<string>>
    requires start <= |s|
  {
    Prepended(xs, Tokens(Pieces(s[start..])))
  }

  lemma TodoAtStart(s: string)
    requires s != "" && s[0] == '/'
    ensures Split(s) == Todo(s, 1, [])
  {
    match Tokens(Pieces(s[1..]))
    case Ok(ys) => assert [] + ys == ys;
    case Fail(_) =>
  }

  // One turn of the loop of split.
  lemma SplitTurn(s: string, start: nat, slash: nat, token: string, xs: seq<string>)
    requires start <= |s| && slash == Find(s, "/", start) && token == s[start..slash]
    ensures Todo(s, start, xs) ==
            if !WellEscaped(token) then Fail(DomainError)
            else if slash == |s| then Ok(xs + [Unescape(token)])
            else Todo(s, slash + 1, xs + [Unescape(token)])
  {
    SplitOne(s, s[start..], start, slash, token);
    if slash == |s| {
      TokensLast(token, xs);
    } else {
      TokensOne(token, Pieces(s[slash + 1..]), xs);
    }
  }

  lemma {:induction false} FindTilde(s: string, from: nat)
    requires from <= |s|
    ensures forall j :: from <= j < Find(s, "~", from) ==> s[j] != '~'
    ensures Find(s, "~", from) < |s| ==> s[Find(s, "~", from)] == '~'
    decreases |s| - from
  {
    if from < |s| {
      assert s[from..][..1] == [s[from]];
      if !StartsWith(s[from..], "~") { FindTilde(s, from + 1); }
    }
  }

  method CheckEscapes(token: string) returns (ok: bool)
    ensures ok == WellEscaped(token)
  {
    FindTilde(token, 0);
    var pos := Find(token, "~", 0);
    while pos < |token|
      invariant 0 <= pos <= |token| && (pos < |token| ==> token[pos] == '~')
      invariant forall i :: 0 <= i < pos && token[i] == '~' ==>
                  i + 1 < |token| && (token[i + 1] == '0' || token[i + 1] == '1')
      decreases |token| - pos
    {
      if pos == |token| - 1 || (token[pos + 1] != '0' && token[pos + 1] != '1') {
        return false;
      }
      FindTilde(token, pos + 1);
      pos := Find(token, "~", pos + 1);
    }
    ok := true;
  }

  method SplitPointer(s: string) returns (r: Outcome<seq<string>>)
    ensures r == Split(s)
  {
    if s == "" { return Ok([]); }
    if s[0] != '/' { return Fail(DomainError); }
    var result: seq<string> := [];
    var start: nat, slash: nat := 1, Find(s, "/", 1);
    TodoAtStart(s);
    while true
      invariant start <= |s| && slash == Find(s, "/", start)
      invariant Split(s) == Todo(s, start, result)
      decreases |s| - start
    {
      var token := s[start..slash];
      SplitTurn(s, start, slash, token, result);
      var ok := CheckEscapes(token);
      if !ok { return Fail(DomainError); }
      token := ReplaceSubstring(token, "~1", "/");
      token := ReplaceSubstring(token, "~0", "~");
      result := result + [token];
      if slash == |s| { return Ok(result); }
      start := slash + 1;
      slash := Find(s, "/", start);
    }
  }
}
