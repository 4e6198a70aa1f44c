/** The link's input buffer, whose live bytes move and grow in place, and the link that parses them. */
module LinkBuffer {
  import opened Decimals
  import opened LinkFraming

  class Buffer {
    var buf: array<char>
    var offset: nat // data_ - buf
    var size: nat

    ghost predicate Valid()
      reads this
    {
      offset + size <= buf.Length
    }

    // The live bytes.
    function Contents(): string
      reads this, buf
      requires Valid()
    {
      buf[offset..offset + size]
    }

    function Space(): nat
      reads this
      requires Valid()
    {
      buf.Length - offset - size
    }

    constructor (total: nat)
      ensures Valid() && Contents() == "" && fresh(buf) && buf.Length == total
    {
      buf := new char[total];
      offset, size := 0, 0;
    }

    method Decr(num: nat)
      requires Valid() && num <= size
      modifies this`size, this`offset
      ensures Valid() && buf == old(buf) && Contents() == old(Contents())[num..]
    {
      size := size - num;
      offset := offset + num;
    }

    /** Moves the live bytes to the front when more than half of the buffer lies before them, or there are
        none. Source and target of the copy never overlap. */
    method Nice()
      requires Valid()
      modifies this`offset, buf
      ensures Valid() && buf == old(buf) && Contents() == old(Contents())
      ensures offset == if size == 0 || old(offset) > buf.Length / 2 then 0 else old(offset)
    {
      if size == 0 || offset > buf.Length / 2 {
        ghost var was := Contents();
        if size > 0 {
          assert size <= offset;
          var i := 0;
          while i < size
            invariant 0 <= i <= size && buf[..i] == was[..i]
            invariant buf[offset..offset + size] == was
            modifies buf
          {
            buf[i] := buf[offset + i];
            i := i + 1;
          }
          assert buf[0..size] == buf[..size] == was[..size] == was;
        }
        offset := 0;
      }
    }

    /** A bigger block with the same bytes, if there is memory. */
    method Grow(memory: bool) returns (ok: bool)
      requires Valid()
      modifies this`buf
      ensures Valid() && Contents() == old(Contents()) && ok == memory
      ensures if ok then fresh(buf) && buf.Length > old(buf.Length) else buf == old(buf)
    {
      if !memory { return false; }
      var total := buf.Length;
      var n := if total < 8 * 1024 then 8 * 1024 else if total < 512 * 1024 then 8 * total else 2 * total;
      var p := new char[n];
      var i := 0;
      while i < total
        invariant 0 <= i <= total && forall k :: 0 <= k < i ==> p[k] == buf[k]
        modifies p
      {
        p[i] := buf[i];
        i := i + 1;
      }
      forall k | offset <= k < offset + size ensures p[k] == buf[k] { }
      assert p[offset..offset + size] == buf[offset..offset + size];
      buf := p;
      ok := true;
    }

    /** The bytes of s behind the live ones, or nothing if memory runs out. */
    method Append(s: string, memory: bool) returns (ok: bool)
      requires Valid()
      modifies this, buf
      ensures Valid() && (buf == old(buf) || fresh(buf))
      ensures Contents() == if ok then old(Contents()) + s else old(Contents())
      ensures memory ==> ok
    {
      ok := true;
      while |s| > Space()
        invariant Valid() && Contents() == old(Contents()) && (buf == old(buf) || fresh(buf)) && ok
        modifies this`buf
        decreases |s| - Space()
      {
        var more := Grow(memory);
        if !more { return false; }
      }
      Write(s);
    }

    method Write(s: string)
      requires Valid() && |s| <= Space()
      modifies this`size, buf
      ensures Valid() && buf == old(buf) && Contents() == old(Contents()) + s
    {
      ghost var was := Contents();
      var end := offset + size;
      var i := 0;
      while i < |s|
        invariant 0 <= i <= |s| && buf[offset..end] == was && buf[end..end + i] == s[..i]
        modifies buf
      {
        buf[end + i] := s[i];
        i := i + 1;
      }
      assert buf[offset..end + i] == buf[offset..end] + buf[end..end + i];
      size := size + |s|;
    }

    /** A record as the parser expects it. */
    method AppendRecord(s: string, memory: bool) returns (ok: bool)
      requires Valid() && |s| <= INT_MAX
      modifies this, buf
      ensures Valid() && (buf == old(buf) || fresh(buf)) && (memory ==> ok)
      ensures Contents() == if ok then old(Contents()) + Record(Plain(s)) else old(Contents())
    {
      while 16 + |s| + 1 > Space()
        invariant Valid() && Contents() == old(Contents()) && (buf == old(buf) || fresh(buf))
        modifies this`buf
        decreases 16 + |s| + 1 - Space()
      {
        var more := Grow(memory);
        if !more { return false; }
      }
      hide Record, Decimal;
      RecordAfter(Contents(), s);
      var line := Decimal(|s|) + "\n";
      LengthLineShort(|s|);
      Write(line);
      Write(s);
      Write("\n");
      ok := true;
    }
  }

  lemma RecordAfter(c: string, s: string)
    ensures c + (Decimal(|s|) + "\n") + s + "\n" == c + Record(Plain(s))
  {
    hide Decimal;
    Regroup3(c, Decimal(|s|) + "\n", s, "\n");
  }

  lemma Regroup3(a: string, b: string, c: string, d: string)
    ensures a + b + c + d == a + (b + c + d)
  {
  }

  class Link {
    const input: Buffer

    constructor ()
      ensures fresh(input) && fresh(input.buf) && input.Valid() && input.Contents() == ""
    {
      input := new Buffer(1024);
    }

    /** One call of the parser: it takes the bytes of the packet it returns and no others. */
    method RecvReq(stale: char, memory: bool) returns (r: Outcome)
      requires input.Valid()
      modifies input, input.buf
      ensures input.Valid() && (input.buf == old(input.buf) || fresh(input.buf))
      ensures r.Got? ==> 0 < r.n <= |old(input.Contents())|
      ensures var p := Parse(old(input.Contents()), stale); r == p || (!memory && p == NotReady && r == Bad)
      ensures input.Contents() == if r.Got? then old(input.Contents())[r.n..] else old(input.Contents())
    {
      hide ParseFrom;
      var s := input.Contents();
      if s == "" { return NotReady; }
      var i: nat := 0;
      while i < |s| && IsNewline(s[i])
        invariant i <= |s| && SkipNewlines(s, 0) == SkipNewlines(s, i)
      {
        i := i + 1;
      }
      if (if i < |s| then s[i] else stale) == '*' { return Redis; }
      r := ParseRecords(s, i);
      if r.Got? {
        input.Decr(r.n);
      } else if r == NotReady && input.Space() == 0 {
        input.Nice();
        if input.Space() == 0 {
          var ok := input.Grow(memory);
          if !ok { r := Bad; }
        }
      }
    }

    // The loop over the records.
    method ParseRecords(s: string, i0: nat) returns (r: Outcome)
      requires i0 <= |s|
      ensures r == ParseFrom(s, i0, [])
    {
      hide ReadLine, ReadClose;
      var i: nat, rs: seq<string> := i0, [];
      while i < |s|
        invariant i <= |s| && ParseFrom(s, i0, []) == ParseFrom(s, i, rs)
        decreases |s| - i
      {
        match ReadLine(s, i) {
          case Waiting => return NotReady;
          case End(next) => return Got(rs, next);
          case Wrong => return Bad;
          case TooBig => return Undefined;
          case Body(from, n) =>
            if from + n > |s| { return NotReady; }
            match ReadClose(s, from + n) {
              case Open => return NotReady;
              case Broken => return Bad;
              case Closed(next) =>
                if next > MAX_PACKET_SIZE { return Bad; }
                i, rs := next, rs + [s[from..from + n]];
            }
        }
      }
      r := NotReady;
    }

    /** One read from the peer: its bytes join those kept, unless there is no room for them and none can
        be had, and every packet that is complete is handed on. Behind the data lies any byte at each call
        of the parser, and any call that has to grow the block may fail, which closes the link. */
    method OnRead(chunk: string, stale: Behind, room: bool, memory: nat -> bool)
        returns (packets: seq<seq<string>>, failed: bool, arrived: bool)
      requires input.Valid()
      modifies input, input.buf
      ensures input.Valid() && (input.buf == old(input.buf) || fresh(input.buf)) && (room ==> arrived)
      ensures var d := Drain(if arrived then old(input.Contents()) + chunk else old(input.Contents()), stale, 0);
              && packets == d.packets && input.Contents() == d.rest && (d.failed ==> failed)
              && (failed && !d.failed ==> exists call :: !memory(call))
    {
      hide Parse, Drain, After;
      arrived := input.Append(chunk, room);
      ghost var all := input.Contents();
      packets := [];
      var call: nat := 0;
      AfterNone(Drain(all, stale, 0));
      while true
        invariant input.Valid() && (input.buf == old(input.buf) || fresh(input.buf))
        invariant Drain(all, stale, 0) == After(packets, Drain(input.Contents(), stale, call))
        decreases input.size
      {
        DrainStep(input.Contents(), packets, stale, call);
        var r := RecvReq(stale(call), memory(call));
        if !r.Got? && r != NotReady { return packets, true, arrived; }
        if r == NotReady || r.rs == [] { break; }
        packets := packets + [r.rs];
        call := call + 1;
      }
      failed := false;
    }
  }

  // More packets before those of d.
  function After(packets: seq<seq<string>>, d: Drained): Drained { d.(packets := packets + d.packets) }

  lemma AfterNone(d: Drained)
    ensures After([], d) == d
  {
    assert [] + d.packets == d.packets;
  }

  // One turn of the loop over packets.
  lemma DrainStep(s: string, packets: seq<seq<string>>, stale: Behind, call: nat)
    ensures var r := Parse(s, stale(call));
            After(packets, Drain(s, stale, call)) ==
            if r.Got? && r.rs != [] then After(packets + [r.rs], Drain(s[r.n..], stale, call + 1))
            else Drained(packets, if r.Got? then s[r.n..] else s, !r.Got? && r != NotReady)
  {
    hide Parse;
    var r := Parse(s, stale(call));
    if r.Got? && r.rs != [] {
      assert packets + ([r.rs] + Drain(s[r.n..], stale, call + 1).packets) == packets + [r.rs] + Drain(s[r.n..], stale, call + 1).packets;
    } else {
      assert packets + [] == packets;
    }
  }
}
