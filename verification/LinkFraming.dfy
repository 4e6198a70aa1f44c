/** SSDB's native packets: records of a length line and a body, closed by an empty line; the parser that
    is called again on the same bytes until a whole packet has arrived. */
module LinkFraming {
  import opened Collections
  import opened Decimals

  const INT_MAX := 0x7FFF_FFFF
  const MAX_PACKET_SIZE := 128 * 1024 * 1024

  /* ---- printing ---- */

  // A line end, with or without a carriage return.
  function Eol(cr: bool): string { if cr then "\r\n" else "\n" }

  // A record as it is sent: its text, and which of its two lines end in a carriage return too.
  datatype Sent = Sent(text: string, crLine: bool, crEnd: bool)

  // What the library itself writes; other clients may end their lines otherwise.
  function Plain(s: string): Sent { Sent(s, false, false) }

  function Record(r: Sent): string { Decimal(|r.text|) + Eol(r.crLine) + r.text + Eol(r.crEnd) }

  function Records(rs: seq<Sent>): string { if rs == [] then "" else Record(rs[0]) + Records(rs[1..]) }

  datatype Pack = Pack(records: seq<Sent>, cr: bool)

  function Packet(p: Pack): string { Records(p.records) + Eol(p.cr) }

  function Stream(ps: seq<Pack>): string { if ps == [] then "" else Packet(ps[0]) + Stream(ps[1..]) }

  function Texts(rs: seq<Sent>): (t: seq<string>)
    ensures |t| == |rs|
  {
    if rs == [] then [] else [rs[0].text] + Texts(rs[1..])
  }

  /* ---- parsing ---- */

  // What recv_req comes to: a packet and how many bytes it took, nothing yet, an error, a request in the
  // Redis protocol, or a length line that atoi cannot read.
  datatype Outcome = Got(rs: seq<string>, n: nat) | NotReady | Bad | Redis | Undefined

  function FindLf(s: string, i: nat): (r: nat)
    requires i <= |s|
    ensures i <= r <= |s| && (r < |s| ==> s[r] == '\n') && forall k :: i <= k < r ==> s[k] != '\n'
    decreases |s| - i
  {
    if i == |s| || s[i] == '\n' then i else FindLf(s, i + 1)
  }

  predicate IsNewline(c: char) { c == '\n' || c == '\r' }

  function SkipNewlines(s: string, i: nat): (r: nat)
    requires i <= |s|
    ensures i <= r <= |s|
    decreases |s| - i
  {
    if i < |s| && IsNewline(s[i]) then SkipNewlines(s, i + 1) else i
  }

  // atoi on a line that starts with a digit.
  function Atoi(line: string): nat { Number(line[..Digits(line)]) }

  // What the parser makes of the line at place i: the end of the packet, or the length of a body.
  datatype Line = Waiting | End(next: nat) | Wrong | TooBig | Body(from: nat, n: nat)

  function ReadLine(s: string, i: nat): (r: Line)
    requires i < |s|
    ensures r.End? ==> i < r.next <= |s|
    ensures r.Body? ==> i < r.from <= |s|
  {
    var lf := FindLf(s, i);
    if lf == |s| then Waiting
    else if lf == i || (lf == i + 1 && s[i] == '\r') then End(lf + 1)
    else if !IsDigit(s[i]) || lf + 1 - i > 19 then Wrong
    else
      var n := Atoi(s[i..lf]);
      if n > INT_MAX then TooBig else Body(lf + 1, n)
  }

  // What closes a body that ends at place k.
  datatype Close = Open | Broken | Closed(next: nat)

  function ReadClose(s: string, k: nat): (r: Close)
    requires k <= |s|
    ensures r.Closed? ==> k < r.next <= |s|
  {
    if k < |s| && s[k] == '\n' then Closed(k + 1)
    else if k + 2 <= |s| && s[k] == '\r' && s[k + 1] == '\n' then Closed(k + 2)
    else if k + 2 <= |s| then Broken
    else Open
  }

  // The records from place i on, after those in rs.
  function ParseFrom(s: string, i: nat, rs: seq<string>): (r: Outcome)
    requires i <= |s|
    ensures r.Got? ==> i < r.n <= |s|
    decreases |s| - i
  {
    if i == |s| then NotReady
    else
      match ReadLine(s, i)
      case Waiting => NotReady
      case End(next) => Got(rs, next)
      case Wrong => Bad
      case TooBig => Undefined
      case Body(from, n) =>
        if from + n > |s| then NotReady
        else
          match ReadClose(s, from + n)
          case Open => NotReady
          case Broken => Bad
          case Closed(next) =>
            if next > MAX_PACKET_SIZE then Bad else ParseFrom(s, next, rs + [s[from..from + n]])
  }

  // `stale` is the byte behind the data, which the code looks at when there is nothing but newlines.
  function Parse(s: string, stale: char): (r: Outcome)
    ensures r.Got? ==> 0 < r.n <= |s|
  {
    if s == "" then NotReady
    else
      var i := SkipNewlines(s, 0);
      if (if i < |s| then s[i] else stale) == '*' then Redis else ParseFrom(s, i, [])
  }

  /* ---- parsing what was printed ---- */

  // The lengths an int can hold.
  predicate Sized(rs: seq<Sent>) { rs != [] && LengthsFit(rs) }

  predicate LengthsFit(rs: seq<Sent>) { forall i :: 0 <= i < |rs| ==> |rs[i].text| <= INT_MAX }

  lemma {:induction false} DecimalShort(n: nat, k: nat)
    requires n < Pow10(k) && k > 0
    ensures |Decimal(n)| <= k
  {
    if n >= 10 {
      DecimalShort(n / 10, k - 1);
    }
  }

  function Pow10(k: nat): nat { if k == 0 then 1 else 10 * Pow10(k - 1) }

  lemma LengthLineShort(n: nat)
    requires n <= INT_MAX
    ensures |Decimal(n)| <= 10
  {
    assert Pow10(5) == 100000;
    assert Pow10(10) == 10 * Pow10(9) == 100 * Pow10(8) == 1000 * Pow10(7) == 10000 * Pow10(6) == 100000 * Pow10(5);
    DecimalShort(n, 10);
  }

  // s holds t at place i, as far as s reaches.
  predicate Begins(s: string, i: nat, t: string) {
    i <= |s| && forall k :: 0 <= k < |t| && i + k < |s| ==> s[i + k] == t[k]
  }

  // How far the length line of a record goes, up to its newline.
  function LineLength(r: Sent): nat { |Decimal(|r.text|)| + if r.crLine then 1 else 0 }

  // The four parts of a record, one after the other.
  lemma RecordParts(s: string, i: nat, r: Sent)
    requires Begins(s, i, Record(r))
    ensures var line, eol := Decimal(|r.text|), Eol(r.crLine);
            var from := i + |line| + |eol|;
            && |Record(r)| == |line| + |eol| + |r.text| + |Eol(r.crEnd)| && Begins(s, i, line + eol)
            && (from <= |s| ==> Begins(s, from, r.text))
            && (from + |r.text| <= |s| ==> Begins(s, from + |r.text|, Eol(r.crEnd)))
  {
    hide Begins, Decimal;
    var line, eol, end := Decimal(|r.text|), Eol(r.crLine), Eol(r.crEnd);
    BeginsBoth(s, i, line + eol + r.text, end);
    BeginsBoth(s, i, line + eol, r.text);
  }

  // Where the length line of a record ends, if s reaches that far.
  lemma LineEnds(s: string, i: nat, r: Sent)
    requires Begins(s, i, Decimal(|r.text|) + Eol(r.crLine)) && i < |s|
    ensures var d := LineLength(r);
            IsDigit(s[i]) && FindLf(s, i) == if i + d < |s| then i + d else |s|
    ensures i + LineLength(r) < |s| ==> Atoi(s[i..i + LineLength(r)]) == |r.text|
  {
    hide Decimal, FindLf, Atoi, Begins, Eol, LineLength, IsDigit;
    LineText(r);
    LineIn(s, i, Decimal(|r.text|) + Eol(r.crLine), LineLength(r));
  }

  lemma LineIn(s: string, i: nat, t: string, d: nat)
    requires Begins(s, i, t) && i < |s| && |t| == d + 1 && t[d] == '\n' && forall k :: 0 <= k < d ==> t[k] != '\n'
    ensures s[i] == t[0] && FindLf(s, i) == if i + d < |s| then i + d else |s|
    ensures i + d < |s| ==> s[i..i + d] == t[..d]
  {
    forall k | i <= k < |s| && k < i + d ensures s[k] != '\n' { assert s[i + (k - i)] == t[k - i]; }
    assert s[i + 0] == t[0];
    if i + d < |s| {
      assert s[i + d] == t[d];
      Slice(s, i, t, 0, d);
    }
    FirstLf(s, i, if i + d < |s| then i + d else |s|);
  }

  // A length line holds one newline, at its end, and reads as its number.
  lemma LineText(r: Sent)
    ensures var t, d := Decimal(|r.text|) + Eol(r.crLine), LineLength(r);
            && |t| == d + 1 && t[d] == '\n' && IsDigit(t[0]) && Atoi(t[..d]) == |r.text|
            && forall k :: 0 <= k < d ==> t[k] != '\n'
  {
    var line, d := Decimal(|r.text|), LineLength(r);
    var t := line + Eol(r.crLine);
    assert forall k :: 0 <= k < |line| ==> t[k] == line[k];
    LineRead(t[..d], line, |r.text|);
  }

  lemma {:induction false} FirstLf(s: string, i: nat, lf: nat)
    requires i <= lf <= |s| && (forall k :: i <= k < lf ==> s[k] != '\n') && (lf < |s| ==> s[lf] == '\n')
    ensures FindLf(s, i) == lf
    decreases lf - i
  {
    if i < lf { FirstLf(s, i + 1, lf); }
  }

  lemma LineRead(t: string, line: string, n: nat)
    requires line == Decimal(n) && (t == line || t == line + "\r")
    ensures Atoi(t) == n
  {
    NumberOfDecimal(n);
    DigitsBefore(line, t[|line|..]);
    assert t == line + t[|line|..];
    assert t[..|line|] == line;
  }

  // How the parser reads a record that has arrived in full: its length line, then what closes it.
  lemma RecordRead(s: string, i: nat, r: Sent)
    requires |r.text| <= INT_MAX && Begins(s, i, Record(r)) && i + |Record(r)| <= |s|
    ensures var from, end := i + LineLength(r) + 1, i + |Record(r)|;
            && i < from && end == from + |r.text| + |Eol(r.crEnd)| && s[from..from + |r.text|] == r.text
            && ReadLine(s, i) == Body(from, |r.text|) && ReadClose(s, from + |r.text|) == Closed(end)
  {
    hide FindLf, Decimal, Atoi, Begins, ReadClose, Record;
    RecordParts(s, i, r);
    LineEnds(s, i, r);
    LengthLineShort(|r.text|);
    var from := i + LineLength(r) + 1;
    Slice(s, from, r.text, 0, |r.text|);
    CloseRead(s, from + |r.text|, r.crEnd);
  }

  lemma CloseRead(s: string, k: nat, cr: bool)
    requires Begins(s, k, Eol(cr))
    ensures ReadClose(s, k) == if k + |Eol(cr)| <= |s| then Closed(k + |Eol(cr)|) else Open
  {
    if k < |s| { assert s[k + 0] == Eol(cr)[0]; }
    if cr && k + 1 < |s| { assert s[k + 1] == Eol(cr)[1]; }
  }

  // The turn of the parser's loop on a whole record.
  lemma ParseTurn(s: string, i: nat, rs: seq<string>, from: nat, n: nat, end: nat)
    requires i < |s| && from + n <= |s| && ReadLine(s, i) == Body(from, n) && ReadClose(s, from + n) == Closed(end)
    ensures i < end <= |s| && ParseFrom(s, i, rs) ==
            if end > MAX_PACKET_SIZE then Bad else ParseFrom(s, end, rs + [s[from..from + n]])
  {
    hide ReadLine, ReadClose;
  }

  // A record that has arrived in full, and what closes it.
  lemma RecordArrived(s: string, i: nat, r: Sent, rs: seq<string>)
    requires |r.text| <= INT_MAX && Begins(s, i, Record(r)) && i + |Record(r)| <= |s|
    ensures ParseFrom(s, i, rs) ==
            if i + |Record(r)| > MAX_PACKET_SIZE then Bad else ParseFrom(s, i + |Record(r)|, rs + [r.text])
  {
    hide Begins, Record, Decimal, ReadLine, ReadClose, ParseFrom;
    RecordRead(s, i, r);
    ParseTurn(s, i, rs, i + LineLength(r) + 1, |r.text|, i + |Record(r)|);
  }

  lemma Slice(s: string, i: nat, t: string, a: nat, b: nat)
    requires Begins(s, i, t) && a <= b <= |t| && i + b <= |s|
    ensures s[i + a..i + b] == t[a..b]
  {
    forall k | a <= k < b ensures s[i + k] == t[k] { }
  }

  // A record of which a part is still to come.
  lemma RecordPartly(s: string, i: nat, r: Sent, rs: seq<string>)
    requires |r.text| <= INT_MAX && Begins(s, i, Record(r)) && i <= |s| < i + |Record(r)|
    ensures ParseFrom(s, i, rs) == NotReady
  {
    hide FindLf, Decimal, Atoi, Begins, ReadClose;
    RecordParts(s, i, r);
    if i < |s| {
      LineEnds(s, i, r);
      LengthLineShort(|r.text|);
      var from := i + LineLength(r) + 1;
      if from + |r.text| <= |s| { CloseRead(s, from + |r.text|, r.crEnd); }
    }
  }

  lemma BeginsBoth(s: string, i: nat, a: string, b: string)
    requires Begins(s, i, a + b)
    ensures Begins(s, i, a) && (i + |a| <= |s| ==> Begins(s, i + |a|, b))
  {
    var t := a + b;
    forall k | 0 <= k < |a| && i + k < |s| ensures s[i + k] == a[k] { assert t[k] == a[k]; }
    if i + |a| <= |s| {
      forall k | 0 <= k < |b| && i + |a| + k < |s| ensures s[i + |a| + k] == b[k] { assert s[i + (|a| + k)] == t[|a| + k]; }
    }
  }

  // What the parser makes of bytes that begin the packet p at place i: all of its records, or an error
  // if it is longer than the limit, when all of it is there; nothing yet when it is not.
  predicate ParsesAs(s: string, i: nat, p: Pack, done: seq<string>)
    requires i <= |s|
  {
    && (i + |Packet(p)| <= |s| ==>
          ParseFrom(s, i, done) ==
          if i + |Records(p.records)| <= MAX_PACKET_SIZE then Got(done + Texts(p.records), i + |Packet(p)|) else Bad)
    && (|s| < i + |Packet(p)| && i + |Records(p.records)| <= MAX_PACKET_SIZE ==> ParseFrom(s, i, done) == NotReady)
  }

  lemma {:induction false} RecordsParse(s: string, i: nat, p: Pack, done: seq<string>)
    requires Begins(s, i, Packet(p)) && i <= MAX_PACKET_SIZE
    requires LengthsFit(p.records)
    ensures i <= |s| && ParsesAs(s, i, p, done)
    decreases |p.records|
  {
    hide Record, Begins, ParseFrom, Packet, Records, ParsesAs, LengthsFit, Texts, Eol;
    BeginsWithin(s, i, Packet(p));
    if p.records == [] {
      EmptyPacket(s, i, p.cr, done);
    } else {
      var r, rest := p.records[0], Pack(p.records[1..], p.cr);
      FirstRecord(p.records, "");
      PacketParts(p);
      BeginsBoth(s, i, Record(r), Packet(rest));
      if i + |Record(r)| <= |s| {
        RecordArrived(s, i, r, done);
        if i + |Record(r)| <= MAX_PACKET_SIZE { RecordsParse(s, i + |Record(r)|, rest, done + [r.text]); }
        FirstParsed(s, i, p, done);
      } else {
        RecordPartly(s, i, r, done);
        NotYet(s, i, p, done);
      }
    }
  }

  lemma BeginsWithin(s: string, i: nat, t: string)
    requires Begins(s, i, t)
    ensures i <= |s|
  {
  }

  lemma FirstParsed(s: string, i: nat, p: Pack, done: seq<string>)
    requires p.records != [] && i + |Record(p.records[0])| <= |s|
    requires var r := p.records[0];
             && (ParseFrom(s, i, done) ==
                 if i + |Record(r)| > MAX_PACKET_SIZE then Bad else ParseFrom(s, i + |Record(r)|, done + [r.text]))
             && (i + |Record(r)| <= MAX_PACKET_SIZE ==>
                   ParsesAs(s, i + |Record(r)|, Pack(p.records[1..], p.cr), done + [r.text]))
    ensures ParsesAs(s, i, p, done)
  {
    PacketParts(p);
    FirstAndRest(done, p.records);
    hide Record, Records, Packet, ParseFrom, Texts;
  }

  lemma NotYet(s: string, i: nat, p: Pack, done: seq<string>)
    requires p.records != [] && i <= |s| < i + |Record(p.records[0])| && ParseFrom(s, i, done) == NotReady
    ensures ParsesAs(s, i, p, done)
  {
    PacketParts(p);
    hide Record, Records, Packet, ParseFrom;
  }

  lemma FirstAndRest(done: seq<string>, rs: seq<Sent>)
    requires rs != []
    ensures done + [rs[0].text] + Texts(rs[1..]) == done + Texts(rs)
  {
  }

  lemma EmptyPacket(s: string, i: nat, cr: bool, done: seq<string>)
    requires Begins(s, i, Packet(Pack([], cr))) && i <= MAX_PACKET_SIZE
    ensures i <= |s| && ParsesAs(s, i, Pack([], cr), done)
  {
    var t := Packet(Pack([], cr));
    assert done + [] == done && t == Eol(cr);
    if i < |s| { assert s[i + 0] == t[0]; }
    if cr && i + 1 < |s| { assert s[i + 1] == t[1]; }
    assert cr && i + 1 < |s| ==> FindLf(s, i + 1) == i + 1;
  }

  lemma PacketParts(p: Pack)
    requires p.records != []
    ensures var r, rest := p.records[0], Pack(p.records[1..], p.cr);
            Packet(p) == Record(r) + Packet(rest) && |Records(p.records)| == |Record(r)| + |Records(rest.records)|
    ensures |Packet(p)| == |Records(p.records)| + |Eol(p.cr)|
  {
    hide Record;
    Assoc(Record(p.records[0]), Records(p.records[1..]), Eol(p.cr));
  }

  // A packet the parser accepts.
  predicate Fits(p: Pack) { Sized(p.records) && |Records(p.records)| <= MAX_PACKET_SIZE }

  lemma PacketStart(p: Pack)
    requires Sized(p.records)
    ensures Packet(p) != "" && IsDigit(Packet(p)[0])
  {
    var r := p.records[0];
    assert Records(p.records)[0] == Record(r)[0] == Decimal(|r.text|)[0];
  }

  /** A printed packet, with whatever line ends and whatever comes after it, is parsed back exactly if it is
      within the limit, and is an error if it is not. A proper part of it is no packet yet. */
  lemma PacketRoundTrip(p: Pack, s: string, stale: char)
    requires Sized(p.records) && Begins(s, 0, Packet(p))
    ensures |Packet(p)| <= |s| ==> Parse(s, stale) == if Fits(p) then Got(Texts(p.records), |Packet(p)|) else Bad
    ensures |s| < |Packet(p)| && Fits(p) ==> Parse(s, stale) == NotReady
  {
    PacketStart(p);
    if s != "" {
      assert s[0 + 0] == Packet(p)[0];
      hide Packet, Records, ParseFrom;
      RecordsParse(s, 0, p, []);
      assert [] + Texts(p.records) == Texts(p.records);
    }
  }

  /* ---- what is no packet ---- */

  // Whole records are read, and the parser goes on behind them.
  lemma {:induction false} RecordsThen(s: string, i: nat, rs: seq<Sent>, rest: string, done: seq<string>)
    requires Begins(s, i, Records(rs) + rest) && LengthsFit(rs)
    requires i + |Records(rs)| <= |s| && i + |Records(rs)| <= MAX_PACKET_SIZE
    ensures ParseFrom(s, i, done) == ParseFrom(s, i + |Records(rs)|, done + Texts(rs))
    ensures Begins(s, i + |Records(rs)|, rest)
    decreases |rs|
  {
    hide Record, Begins, ParseFrom, LengthsFit, Eol, Records, Texts;
    BeginsBoth(s, i, Records(rs), rest);
    if rs == [] {
      NoRecords(done);
    } else {
      var r, more := rs[0], rs[1..];
      FirstRecord(rs, rest);
      BeginsBoth(s, i, Record(r), Records(more) + rest);
      RecordArrived(s, i, r, done);
      FirstAndRest(done, rs);
      RecordsThen(s, i + |Record(r)|, more, rest, done + [r.text]);
    }
  }

  lemma NoRecords(done: seq<string>)
    ensures Records([]) == [] && done + Texts([]) == done
  {
  }

  lemma FirstRecord(rs: seq<Sent>, rest: string)
    requires rs != [] && LengthsFit(rs)
    ensures |rs[0].text| <= INT_MAX && LengthsFit(rs[1..]) && |Records(rs)| == |Record(rs[0])| + |Records(rs[1..])|
    ensures Records(rs) + rest == Record(rs[0]) + (Records(rs[1..]) + rest)
  {
    hide Record;
    Assoc(Record(rs[0]), Records(rs[1..]), rest);
  }

  // A line, up to its newline, that starts with no digit and is not empty, or is too long for a length.
  predicate NoLength(line: string) {
    line != "" && line != "\r" && '\n' !in line && (!IsDigit(line[0]) || |line| >= 19)
  }

  lemma NoLengthIsWrong(s: string, i: nat, line: string, rest: string)
    requires NoLength(line) && Begins(s, i, line + "\n" + rest) && i + |line| < |s|
    ensures ReadLine(s, i) == Wrong
  {
    var t := line + "\n" + rest;
    forall k | i <= k < i + |line| ensures s[k] != '\n' { assert s[i + (k - i)] == t[k - i] == line[k - i]; }
    assert s[i + |line|] == t[|line|] == '\n' && s[i + 0] == t[0] == line[0];
    FirstLf(s, i, i + |line|);
    hide FindLf;
    assert |line| == 1 ==> line == [line[0]];
  }

  // Two bytes behind a body that are no line end.
  predicate NoEol(tail: string) { |tail| >= 2 && tail[0] != '\n' && tail[..2] != "\r\n" }

  lemma NoEolIsBroken(s: string, k: nat, tail: string)
    requires NoEol(tail) && Begins(s, k, tail) && k + 2 <= |s|
    ensures ReadClose(s, k) == Broken
  {
    assert s[k + 0] == tail[0] && s[k + 1] == tail[1];
    assert tail[..2] == [tail[0], tail[1]] && "\r\n" == ['\r', '\n'];
  }

  /** Behind any records within the limit, a line that is no length makes an error of them all. */
  lemma NoLengthIsBad(rs: seq<Sent>, line: string, rest: string, s: string, stale: char)
    requires Sized(rs) && |Records(rs)| <= MAX_PACKET_SIZE && NoLength(line)
    requires Begins(s, 0, Records(rs) + (line + "\n" + rest)) && |Records(rs)| + |line| < |s|
    ensures Parse(s, stale) == Bad
  {
    hide Begins, Records, Sized, ReadLine, NoLength, Parse;
    StartsWithDigit(rs, line + "\n" + rest, s, stale);
    RecordsThen(s, 0, rs, line + "\n" + rest, []);
    NoLengthIsWrong(s, |Records(rs)|, line, rest);
  }

  /** And so does a body without a line end behind it. */
  lemma NoEolIsBad(rs: seq<Sent>, text: string, cr: bool, tail: string, s: string, stale: char)
    requires Sized(rs) && |Records(rs)| <= MAX_PACKET_SIZE && |text| <= INT_MAX && NoEol(tail)
    requires Begins(s, 0, Records(rs) + ((Decimal(|text|) + Eol(cr)) + text + tail))
    requires |Records(rs)| + |Decimal(|text|)| + |Eol(cr)| + |text| + 2 <= |s|
    ensures Parse(s, stale) == Bad
  {
    hide Begins, Records, Sized, Parse, ParseFrom, NoEol, Decimal, Eol;
    StartsWithDigit(rs, (Decimal(|text|) + Eol(cr)) + text + tail, s, stale);
    RecordsThen(s, 0, rs, (Decimal(|text|) + Eol(cr)) + text + tail, []);
    UnclosedIsBad(s, |Records(rs)|, text, cr, tail, [] + Texts(rs));
  }

  lemma StartsWithDigit(rs: seq<Sent>, rest: string, s: string, stale: char)
    requires Sized(rs) && Begins(s, 0, Records(rs) + rest) && |Records(rs)| <= |s|
    ensures LengthsFit(rs) && Parse(s, stale) == ParseFrom(s, 0, [])
  {
    PacketStart(Pack(rs, false));
    assert Records(rs) != "" && IsDigit(Records(rs)[0]) by { assert Packet(Pack(rs, false)) == Records(rs) + "\n"; }
    assert s[0 + 0] == (Records(rs) + rest)[0] == Records(rs)[0];
    hide ParseFrom;
  }

  lemma UnclosedIsBad(s: string, i: nat, text: string, cr: bool, tail: string, done: seq<string>)
    requires NoEol(tail) && |text| <= INT_MAX && Begins(s, i, (Decimal(|text|) + Eol(cr)) + text + tail)
    requires i + |Decimal(|text|)| + |Eol(cr)| + |text| + 2 <= |s|
    ensures ParseFrom(s, i, done) == Bad
  {
    var line, r := Decimal(|text|) + Eol(cr), Sent(text, cr, false);
    hide Begins, Decimal, FindLf, Atoi, ReadClose, NoEol, ParseFrom;
    BeginsBoth(s, i, line + text, tail);
    BeginsBoth(s, i, line, text);
    LineEnds(s, i, r);
    LengthLineShort(|text|);
    NoEolIsBroken(s, i + |line| + |text|, tail);
    BrokenTurn(s, i, done, i + |line|, |text|);
  }

  lemma BrokenTurn(s: string, i: nat, rs: seq<string>, from: nat, n: nat)
    requires i < |s| && from + n <= |s| && ReadLine(s, i) == Body(from, n) && ReadClose(s, from + n) == Broken
    ensures ParseFrom(s, i, rs) == Bad
  {
    hide ReadLine, ReadClose;
  }

  /* ---- empty lines before a packet ---- */

  /** A request in the Redis protocol is told by its asterisk, after any empty lines. */
  lemma RedisIsTold(blank: string, rest: string, stale: char)
    requires Blank(blank)
    ensures Parse(blank + "*" + rest, stale) == Redis
  {
    var s, n := blank + "*" + rest, |blank|;
    assert s[0..n] == blank && s[n] == '*';
    Skipped(s, 0, n);
    hide ParseFrom;
  }

  predicate Blank(s: string) { forall k :: 0 <= k < |s| ==> IsNewline(s[k]) }

  lemma {:induction false} Skipped(s: string, i: nat, n: nat)
    requires i <= n < |s| && Blank(s[i..n]) && !IsNewline(s[n])
    ensures SkipNewlines(s, i) == n
    decreases n - i
  {
    if i < n {
      assert s[i] == s[i..n][0];
      assert s[i + 1..n] == s[i..n][1..];
      Skipped(s, i + 1, n);
    }
  }

  /** Empty lines before a packet are skipped, and count towards the limit. */
  lemma BlankLinesSkipped(blank: string, p: Pack, s: string, stale: char)
    requires Sized(p.records) && Blank(blank) && Begins(s, 0, blank + Packet(p)) && |blank + Packet(p)| <= |s|
    ensures Parse(s, stale) ==
            if |blank| + |Records(p.records)| <= MAX_PACKET_SIZE then Got(Texts(p.records), |blank| + |Packet(p)|) else Bad
  {
    var n, t := |blank|, blank + Packet(p);
    PacketStart(p);
    Slice(s, 0, t, 0, n);
    assert t[..n] == blank && t[n] == Packet(p)[0] == s[0 + n];
    Skipped(s, 0, n);
    hide Packet, Records, Record, ParseFrom, Begins, SkipNewlines;
    BeginsBoth(s, 0, blank, Packet(p));
    PacketParts(p);
    if n <= MAX_PACKET_SIZE {
      RecordsParse(s, n, p, []);
      assert [] + Texts(p.records) == Texts(p.records);
    } else {
      BeginsBoth(s, n, Record(p.records[0]), Packet(Pack(p.records[1..], p.cr)));
      RecordArrived(s, n, p.records[0], []);
    }
  }

  /* ---- any number of packets in any number of reads ---- */

  // The packets handed on, the bytes kept, and whether the link was closed on an error.
  datatype Drained = Drained(packets: seq<seq<string>>, rest: string, failed: bool)

  // The records of each packet.
  function Contents(ps: seq<Pack>): (c: seq<seq<string>>)
    ensures |c| == |ps| && forall i :: 0 <= i < |c| ==> c[i] == Texts(ps[i].records)
  {
    seq(|ps|, i requires 0 <= i < |ps| => Texts(ps[i].records))
  }

  // What lies behind the data at each call of the parser.
  type Behind = nat -> char

  // The loop of onRead from some call on: parse until nothing is ready.
  function Drain(s: string, stale: Behind, call: nat): Drained
    decreases |s|
  {
    match Parse(s, stale(call))
    case Got(rs, n) =>
      if rs == [] then Drained([], s[n..], false)
      else var d := Drain(s[n..], stale, call + 1); d.(packets := [rs] + d.packets)
    case NotReady => Drained([], s, false)
    case _ => Drained([], s, true)
  }

  // Reads that arrive one after the other, each with its own bytes behind the data.
  function Feed(kept: string, parts: seq<string>, stales: seq<Behind>): Drained
    requires |stales| == |parts|
    decreases |parts|
  {
    if parts == [] then Drained([], kept, false)
    else
      var d := Drain(kept + parts[0], stales[0], 0);
      if d.failed then d
      else var e := Feed(d.rest, parts[1..], stales[1..]); e.(packets := d.packets + e.packets)
  }

  function Joined(parts: seq<string>): string { if parts == [] then "" else parts[0] + Joined(parts[1..]) }

  // The kept bytes are less than the packet they begin.
  predicate Short(rest: string, ps: seq<Pack>) { rest == "" || (ps != [] && |rest| < |Packet(ps[0])|) }

  predicate AllFit(ps: seq<Pack>) { forall i :: 0 <= i < |ps| ==> Fits(ps[i]) }

  lemma StreamBegins(s: string, later: string, ps: seq<Pack>)
    requires ps != [] && s + later == Stream(ps)
    ensures Begins(s, 0, Packet(ps[0]))
    ensures |Packet(ps[0])| <= |s| ==> s[|Packet(ps[0])|..] + later == Stream(ps[1..])
  {
    hide Packet;
    var p, t := Packet(ps[0]), s + later;
    assert t == p + Stream(ps[1..]);
    forall j | 0 <= j < |p| && j < |s| ensures s[0 + j] == p[j] { assert t[j] == s[j] && t[j] == p[j]; }
    if |p| <= |s| { assert t[|p|..] == s[|p|..] + later; }
  }

  lemma FirstAmong(ps: seq<Pack>, k: nat)
    requires ps != [] && k < |ps|
    ensures ps[1..][k..] == ps[k + 1..] && Contents(ps[..k + 1]) == [Texts(ps[0].records)] + Contents(ps[1..][..k])
  {
    assert ps[..k + 1] == [ps[0]] + ps[1..][..k];
  }

  // The turn of the loop on a whole packet.
  lemma DrainTurn(s: string, stale: Behind, call: nat, rs: seq<string>, n: nat)
    requires Parse(s, stale(call)) == Got(rs, n) && rs != []
    ensures n <= |s|
    ensures var d := Drain(s[n..], stale, call + 1); Drain(s, stale, call) == d.(packets := [rs] + d.packets)
  {
    hide Parse;
  }

  lemma {:induction false} DrainYields(s: string, later: string, ps: seq<Pack>, stale: Behind, call: nat) returns (k: nat)
    requires AllFit(ps) && s + later == Stream(ps)
    ensures k <= |ps| && Drain(s, stale, call).packets == Contents(ps[..k]) && !Drain(s, stale, call).failed
    ensures Drain(s, stale, call).rest + later == Stream(ps[k..]) && Short(Drain(s, stale, call).rest, ps[k..])
    decreases |ps|
  {
    hide Parse, Packet, Begins, Fits, Sized;
    if ps == [] {
      k := 0;
      assert s == "";
      Empty(stale(call));
    } else {
      var p := ps[0];
      assert Fits(p) && AllFit(ps[1..]);
      StreamBegins(s, later, ps);
      SizedIfFits(p);
      PacketRoundTrip(p, s, stale(call));
      if |Packet(p)| <= |s| {
        DrainTurn(s, stale, call, Texts(p.records), |Packet(p)|);
        hide Drain, Stream, Contents, AllFit;
        k := DrainYields(s[|Packet(p)|..], later, ps[1..], stale, call + 1);
        FirstAmong(ps, k);
        k := k + 1;
      } else {
        k := 0;
        assert ps[0..] == ps;
      }
    }
  }

  /** A link that reads good packets and then bytes that are an error hands on the packets, and is closed. */
  lemma {:induction false} ErrorCloses(s: string, ps: seq<Pack>, junk: string, stale: Behind, call: nat)
    requires AllFit(ps) && s == Stream(ps) + junk && forall c :: Parse(junk, c) == Bad
    ensures Drain(s, stale, call) == Drained(Contents(ps), junk, true)
    decreases |ps|
  {
    hide Parse, Packet, Begins, Fits, Sized;
    if ps == [] {
      assert s == junk && Contents(ps) == [];
    } else {
      var p := ps[0];
      assert Fits(p) && AllFit(ps[1..]);
      assert s + "" == s && s == Packet(p) + (Stream(ps[1..]) + junk);
      WholeBegins(s, Packet(p), Stream(ps[1..]) + junk);
      SizedIfFits(p);
      PacketRoundTrip(p, s, stale(call));
      DrainTurn(s, stale, call, Texts(p.records), |Packet(p)|);
      hide Drain, Stream, Contents, AllFit;
      ErrorCloses(s[|Packet(p)|..], ps[1..], junk, stale, call + 1);
      ContentsFirst(ps);
    }
  }

  lemma WholeBegins(s: string, a: string, b: string)
    requires s == a + b
    ensures Begins(s, 0, a) && s[|a|..] == b
  {
  }

  lemma ContentsFirst(ps: seq<Pack>)
    requires ps != []
    ensures Contents(ps) == [Texts(ps[0].records)] + Contents(ps[1..])
  {
  }

  lemma SizedIfFits(p: Pack)
    requires Fits(p)
    ensures Sized(p.records) && Texts(p.records) != []
  {
  }

  lemma Empty(stale: char)
    ensures Parse("", stale) == NotReady
  {
  }

  lemma StreamLonger(ps: seq<Pack>)
    requires AllFit(ps)
    ensures ps != [] ==> |Stream(ps)| >= |Packet(ps[0])| > 0
  {
    if ps != [] { PacketStart(ps[0]); }
  }

  lemma FeedTurn(kept: string, parts: seq<string>, stales: seq<Behind>)
    requires |stales| == |parts| && parts != []
    ensures var d := Drain(kept + parts[0], stales[0], 0);
            !d.failed ==>
              var e := Feed(d.rest, parts[1..], stales[1..]);
              Feed(kept, parts, stales) == e.(packets := d.packets + e.packets)
  {
    hide Drain;
  }

  lemma ContentsSplit(ps: seq<Pack>, k: nat)
    requires k <= |ps|
    ensures Contents(ps[..k]) + Contents(ps[k..]) == Contents(ps)
    ensures AllFit(ps) ==> AllFit(ps[k..])
  {
  }

  lemma {:induction false} FeedYields(kept: string, parts: seq<string>, ps: seq<Pack>, stales: seq<Behind>)
    requires |stales| == |parts| && AllFit(ps) && kept + Joined(parts) == Stream(ps) && Short(kept, ps)
    ensures Feed(kept, parts, stales) == Drained(Contents(ps), "", false)
    decreases |parts|
  {
    hide Packet, Drain, Contents, AllFit;
    if parts == [] {
      assert kept == Stream(ps);
      StreamLonger(ps);
      assert ps == [] && Contents(ps) == [];
    } else {
      var s, later := kept + parts[0], Joined(parts[1..]);
      assert s + later == kept + Joined(parts);
      FeedTurn(kept, parts, stales);
      hide Stream, Feed, Short, Joined;
      var k := DrainYields(s, later, ps, stales[0], 0);
      ContentsSplit(ps, k);
      FeedYields(Drain(s, stales[0], 0).rest, parts[1..], ps[k..], stales[1..]);
    }
  }

  /** However the bytes of any sequence of packets are cut into reads, exactly those packets are handed
      on, in order, and no byte is left. */
  lemma ChunkingInvariance(parts: seq<string>, ps: seq<Pack>, stales: seq<Behind>)
    requires |stales| == |parts| && AllFit(ps) && Joined(parts) == Stream(ps)
    ensures Feed("", parts, stales) == Drained(Contents(ps), "", false)
  {
    assert "" + Joined(parts) == Joined(parts);
    FeedYields("", parts, ps, stales);
  }
}
