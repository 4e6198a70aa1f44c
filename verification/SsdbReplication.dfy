/** Replication as a whole: a master that keeps being written, the worker that alternates sync and
    copy, and a slave behind a FIFO link, in every interleaving. */
module SsdbReplication {
  import opened Collections
  import opened Lexicographic
  import opened ByteOrder
  import opened SsdbCodec
  import opened SsdbStore
  import opened SsdbImpl
  import opened SsdbReplica

  // The master's data (all keys that are not log) and its log, entry i numbered i + 1.
  datatype Master = Master(data: map<Bytes, Bytes>, log: seq<Entry>)

  // Where the worker is: about to search the log, holding an entry it took but has not sent yet,
  // or inside copy() after so many turns.
  datatype Pc = AtSync | InHand(num: nat) | AtCopy(turns: nat)

  datatype World = World(m: Master, c: Client, pc: Pc, slave: Slave)

  /* ---- the master ---- */

  ghost predicate SameAt(a: map<Bytes, Bytes>, b: map<Bytes, Bytes>, x: Bytes) {
    (x in a <==> x in b) && (x in a ==> a[x] == b[x])
  }

  ghost predicate WriteSet(m: Master, m': Master, key: Bytes, val: Bytes) {
    key != "" && m' == Master(m.data[EncodeKv(key) := val], m.log + [Entry(CMD_KSET, EncodeKv(key))])
  }

  ghost predicate WriteDel(m: Master, m': Master, key: Bytes) {
    m' == Master(m.data - {EncodeKv(key)}, m.log + [Entry(CMD_KDEL, EncodeKv(key))])
  }

  // A logged change that touches no KV key, such as a hash set.
  ghost predicate WriteOther(m: Master, m': Master, e: Entry) {
    && e.cmd != CMD_KSET && e.cmd != CMD_KDEL && e.key != "" && !IsKv(e.key)
    && m'.log == m.log + [e]
    && forall x :: IsKv(x) ==> SameAt(m'.data, m.data, x)
  }

  ghost predicate Write(m: Master, m': Master) {
    || (exists key, val :: WriteSet(m, m', key, val))
    || (exists key :: WriteDel(m, m', key))
    || (exists e :: WriteOther(m, m', e))
  }

  // The command of the last entry about x.
  ghost function LastCmd(log: seq<Entry>, x: Bytes): char {
    if log == [] then CMD_NONE
    else if log[|log| - 1].key == x then log[|log| - 1].cmd
    else LastCmd(log[..|log| - 1], x)
  }

  ghost predicate EntryOk(e: Entry) {
    && e.key != ""
    && (e.cmd == CMD_KSET ==> IsKv(e.key) && |e.key| > 1)
    && (e.cmd == CMD_KDEL ==> IsKv(e.key))
    && (e.cmd != CMD_KSET && e.cmd != CMD_KDEL ==> !IsKv(e.key))
  }

  // Store and log in step: a KV key is stored exactly if the last entry about it is a set, and
  // nothing is stored that was never logged.
  ghost predicate MasterOk(m: Master) {
    && (m.log == [] ==> m.data == map[])
    && (forall i :: 0 <= i < |m.log| ==> EntryOk(m.log[i]))
    && (forall x :: IsKv(x) ==> (x in m.data <==> LastCmd(m.log, x) == CMD_KSET))
  }

  // Some entry numbered above `from` is about x.
  ghost predicate Touched(log: seq<Entry>, from: nat, x: Bytes) {
    exists j :: from <= j < |log| && log[j].key == x
  }

  lemma KvKey(key: Bytes)
    ensures IsKv(EncodeKv(key)) && |EncodeKv(key)| == |key| + 1 && EncodeKv(key)[1..] == key
  {
  }

  lemma WriteKeeps(m: Master, m': Master)
    requires MasterOk(m) && Write(m, m')
    ensures MasterOk(m') && |m'.log| == |m.log| + 1 && m.log == m'.log[..|m.log|]
    ensures forall x :: IsKv(x) && x != m'.log[|m.log|].key ==> SameAt(m'.data, m.data, x)
  {
    if key, val :| WriteSet(m, m', key, val) {
      KvKey(key);
    } else if key :| WriteDel(m, m', key) {
      KvKey(key);
    }
    var e := m'.log[|m.log|];
    assert EntryOk(e);
    assert m'.log[..|m.log|] == m.log;
    forall x | IsKv(x)
      ensures x in m'.data <==> LastCmd(m'.log, x) == CMD_KSET
    {
      assert LastCmd(m'.log, x) == if e.key == x then e.cmd else LastCmd(m.log, x);
    }
  }

  lemma {:induction false} LastCmdIsSet(log: seq<Entry>, x: Bytes, n: nat)
    requires n < |log| && log[n].key == x && log[n].cmd == CMD_KSET && LastCmd(log, x) != CMD_KSET
    ensures Touched(log, n + 1, x)
  {
    var last := |log| - 1;
    if log[last].key == x {
      assert last >= n + 1;
    } else {
      LastCmdIsSet(log[..last], x, n);
      var j :| n + 1 <= j < last && log[..last][j].key == x;
      assert log[j].key == x;
    }
  }

  lemma {:induction false} LastCmdIsDel(log: seq<Entry>, x: Bytes, n: nat)
    requires n < |log| && log[n].key == x && log[n].cmd == CMD_KDEL && LastCmd(log, x) == CMD_KSET
    ensures Touched(log, n + 1, x)
  {
    var last := |log| - 1;
    if log[last].key == x {
      assert last >= n + 1;
    } else {
      LastCmdIsDel(log[..last], x, n);
      var j :| n + 1 <= j < last && log[..last][j].key == x;
      assert log[j].key == x;
    }
  }

  /** Any run of writes from an empty store leaves store and log in step. */
  lemma {:induction false} WritesKeepInStep(ms: seq<Master>)
    requires ms != [] && ms[0] == Master(map[], []) && forall i: nat :: 1 <= i < |ms| ==> WrittenAt(ms, i)
    ensures MasterOk(ms[|ms| - 1]) && |ms[|ms| - 1].log| == |ms| - 1
  {
    var last := |ms| - 1;
    if last > 0 {
      forall i: nat | 1 <= i < last ensures WrittenAt(ms[..last], i) { assert WrittenAt(ms, i); }
      WritesKeepInStep(ms[..last]);
      assert WrittenAt(ms, last);
      WriteKeeps(ms[last - 1], ms[last]);
    }
  }

  ghost predicate WrittenAt(ms: seq<Master>, i: nat)
    requires 1 <= i < |ms|
  {
    Write(ms[i - 1], ms[i])
  }

  // What replication sees of a store.
  ghost function MasterOf(m: map<Bytes, Bytes>, last: nat): Master { Master(DataOf(m), LogOf(m, last)) }

  /** A committed hash set is a write that leaves the KV keys alone; a committed set or delete
      meets `WriteSet` or `WriteDel` as its contract states. */
  lemma HsetIsOtherWrite(m: map<Bytes, Bytes>, m': map<Bytes, Bytes>, last: nat, name: Bytes, key: Bytes, val: Bytes)
    requires Committed(m, m', last, name, EncodeHash(name, key), val)
    ensures WriteOther(MasterOf(m, last), MasterOf(m', last + 1), Entry(CMD_HSET, EncodeHash(name, key)))
  {
    assert EncodeHash(name, key)[0] == HASH;
    assert EncodeHsize(name)[0] == HSIZE;
  }

  /* ---- steps ---- */

  ghost function AfterSync(c: Client): Pc {
    if c.status == COPY then AtCopy(0) else AtSync
  }

  ghost predicate WriteStep(w: World, w': World) {
    Write(w.m, w'.m) && |w'.m.log| < UINT64_MAX && w' == w.(m := w'.m)
  }

  ghost predicate FetchStep(w: World, w': World) {
    && w.pc == AtSync && w.c.status != OUT_OF_SYNC
    && var (c', f) := Fetch(w.c, LogView(0, w.m.log));
    && var pc' := match f
         case Nothing => AfterSync(c')
         case Dropped => AtSync
         case Fell => AfterSync(c')
         case Took(n) => InHand(n);
    && w' == w.(c := c', pc := pc')
  }

  ghost predicate DeliverStep(w: World, w': World) {
    && w.pc.InHand? && 1 <= w.pc.num <= |w.m.log|
    && w' == w.(c := Deliver(w.c, w.pc.num, w.m.log[w.pc.num - 1], w.m.data), pc := AfterSync(w.c))
  }

  // copy() opens its snapshot on entry; the loop then runs on the snapshot.
  ghost predicate CopyStep(w: World, w': World) {
    && w.pc.AtCopy?
    && if w.c.iter.None? then w' == w.(c := Opened(w.c, w.m.data))
       else if w.pc.turns + 1 > COPY_BATCH then w' == w.(pc := AtSync)
       else
         var c' := CopyNext(w.c);
         w' == w.(c := c', pc := if c'.iter.None? then AtSync else AtCopy(w.pc.turns + 1))
  }

  ghost predicate SlaveStep(w: World, w': World) {
    && w.c.link != []
    && w' == w.(c := w.c.(link := w.c.link[1..]), slave := SlaveApply(w.slave, w.c.link[0]))
  }

  ghost predicate Next(w: World, w': World) {
    WriteStep(w, w') || FetchStep(w, w') || DeliverStep(w, w') || CopyStep(w, w') || SlaveStep(w, w')
  }

  // A slave with nothing attaches to a master in any state.
  ghost predicate Attach(w: World) {
    && MasterOk(w.m) && |w.m.log| < UINT64_MAX
    && w.c == Reset(Client(INIT, 0, "", None, []))
    && w.pc == AtSync
    && w.slave.data == map[]
  }

  ghost predicate NextAt(r: seq<World>, i: nat)
    requires 1 <= i < |r|
  {
    Next(r[i - 1], r[i])
  }

  ghost predicate Steps(r: seq<World>) {
    |r| > 0 && forall i: nat :: 1 <= i < |r| ==> NextAt(r, i)
  }

  ghost predicate IsRun(r: seq<World>) {
    Steps(r) && Attach(r[0])
  }

  /* ---- what the slave will hold once the link is drained ---- */

  ghost function Drain(s: Slave, link: seq<Packet>): Slave
    decreases |link|
  {
    if link == [] then s else Drain(SlaveApply(s, link[0]), link[1..])
  }

  lemma {:induction false} DrainAppend(s: Slave, link: seq<Packet>, p: Packet)
    ensures Drain(s, link + [p]) == SlaveApply(Drain(s, link), p)
    decreases |link|
  {
    if link != [] {
      assert (link + [p])[1..] == link[1..] + [p];
      DrainAppend(SlaveApply(s, link[0]), link[1..], p);
    } else {
      assert Drain(s, [p]) == Drain(SlaveApply(s, p), [p][1..]);
    }
  }

  ghost function Ahead(w: World): map<Bytes, Bytes> { Drain(w.slave, w.c.link).data }

  lemma SetArrives(s: Slave, num: nat, typ: char, x: Bytes, val: Bytes)
    requires num <= UINT64_MAX && (typ == TYPE_SYNC || typ == TYPE_COPY) && IsKv(x) && |x| > 1
    ensures SlaveApply(s, [Packed(num, typ, CMD_KSET, x), val]) ==
            if typ == TYPE_SYNC then Slave(SYNC, num, s.lastKey, s.data[x := val]) else Slave(COPY, num, x, s.data[x := val])
  {
    RecordRoundTrip(num, typ, CMD_KSET, x);
    assert EncodeKv(x[1..]) == x;
  }

  lemma DelArrives(s: Slave, num: nat, x: Bytes)
    requires num <= UINT64_MAX && IsKv(x)
    ensures SlaveApply(s, [Packed(num, TYPE_SYNC, CMD_KDEL, x)]) == Slave(SYNC, num, s.lastKey, s.data - {x})
  {
    RecordRoundTrip(num, TYPE_SYNC, CMD_KDEL, x);
    assert EncodeKv(x[1..]) == x;
  }

  /** A slave takes a mirrored entry as it takes any other log entry. */
  lemma MirrorArrives(s: Slave, num: nat, cmd: char, key: Bytes, rest: Packet)
    requires num <= UINT64_MAX
    ensures SlaveApply(s, [Packed(num, TYPE_MIRROR, cmd, key)] + rest) == SlaveApply(s, [Packed(num, TYPE_SYNC, cmd, key)] + rest)
  {
    RecordRoundTrip(num, TYPE_MIRROR, cmd, key);
    RecordRoundTrip(num, TYPE_SYNC, cmd, key);
  }

  lemma MarkArrives(s: Slave, num: nat, cmd: char, val: Bytes)
    requires num <= UINT64_MAX && (cmd == CMD_BEGIN || cmd == CMD_END)
    ensures SlaveApply(s, [Packed(num, TYPE_COPY, cmd, ""), val]) ==
            if cmd == CMD_BEGIN then s.(status := COPY) else s.(status := SYNC, lastKey := "")
  {
    RecordRoundTrip(num, TYPE_COPY, cmd, "");
  }

  /* ---- invariant ---- */

  ghost predicate Held(w: World, x: Bytes) {
    w.pc.InHand? && 1 <= w.pc.num <= |w.m.log| && w.m.log[w.pc.num - 1].key == x
  }

  // Past the copy, or never in it: a slave that comes back is served from the log alone, in INIT.
  ghost predicate Tailing(c: Client) { c.status == SYNC || c.status == INIT }

  // Copied already: the slave gets x from the log from now on.
  ghost predicate Covered(w: World, x: Bytes) {
    Tailing(w.c) || !Less(w.c.lastKey, x)
  }

  // The KV key x is never lost: the slave is right about it, or an entry still to be processed is
  // about it, or the copy still has it ahead.
  ghost predicate KeyOk(w: World, x: Bytes) {
    if Covered(w, x) then
      SameAt(Ahead(w), w.m.data, x) || Touched(w.m.log, w.c.lastSeq, x) || Held(w, x)
    else
      && x !in Ahead(w)
      && (w.c.iter.Some? ==> SameAt(w.c.iter.value, w.m.data, x) || Touched(w.m.log, w.c.lastSeq, x))
  }

  ghost predicate ClientOk(w: World) {
    && (w.c.status == COPY || Tailing(w.c))
    && w.c.lastSeq <= |w.m.log| < UINT64_MAX
    && (w.c.status == COPY && w.c.lastSeq == 0 ==> w.c.lastKey == "" && w.c.iter.None? && w.pc == AtSync)
    && (Tailing(w.c) ==> w.c.iter.None? && w.c.lastSeq > 0)
    && (w.pc.AtCopy? ==> w.c.status == COPY)
    && (w.pc.InHand? ==> w.pc.num == w.c.lastSeq && w.pc.num >= 1)
    && (w.pc.InHand? && w.c.status == COPY ==> !Less(w.c.lastKey, w.m.log[w.pc.num - 1].key))
    && (w.c.iter.Some? ==> EncodeKv("") !in w.c.iter.value)
  }

  ghost predicate Inv(w: World) {
    && MasterOk(w.m) && w.m.log != []
    && ClientOk(w)
    && (forall x :: x in Ahead(w) ==> IsKv(x) && |x| > 1)
    && (forall x :: IsKv(x) ==> KeyOk(w, x))
  }

  /* ---- every step keeps it ---- */

  // A write leaves the slave right about every other key, and its own entry is still to be processed.
  lemma WriteKeepsKey(w: World, w': World, x: Bytes)
    requires KeyOk(w, x) && IsKv(x) && w' == w.(m := w'.m) && w.c.lastSeq <= |w.m.log|
    requires |w'.m.log| == |w.m.log| + 1 && w'.m.log[..|w.m.log|] == w.m.log
    requires x != w'.m.log[|w.m.log|].key ==> SameAt(w'.m.data, w.m.data, x)
    requires w.pc.InHand? ==> 1 <= w.pc.num <= |w.m.log|
    ensures KeyOk(w', x)
  {
    hide Ahead;
    var n := |w.m.log|;
    assert forall j :: 0 <= j < n ==> w'.m.log[j] == w'.m.log[..n][j];
    assert Ahead(w') == Ahead(w) && (Covered(w', x) <==> Covered(w, x)) && (Held(w, x) ==> Held(w', x)) by { AheadSame(w, w'); }
    if w'.m.log[n].key == x {
      assert Touched(w'.m.log, w.c.lastSeq, x);
    } else if Touched(w.m.log, w.c.lastSeq, x) {
      var j :| w.c.lastSeq <= j < n && w.m.log[j].key == x;
      assert w'.m.log[j].key == x;
    }
  }

  lemma AheadSame(w: World, w': World)
    requires w' == w.(m := w'.m)
    ensures Ahead(w') == Ahead(w)
  {
  }

  lemma WriteStepKeeps(w: World, w': World)
    requires Inv(w) && WriteStep(w, w')
    ensures Inv(w')
  {
    hide KeyOk, Write, Ahead, SameAt;
    WriteKeeps(w.m, w'.m);
    AheadSame(w, w');
    var n := |w.m.log|;
    assert forall j :: 0 <= j < n ==> w'.m.log[j] == w'.m.log[..n][j];
    forall x | IsKv(x)
      ensures KeyOk(w', x)
    {
      WriteKeepsKey(w, w', x);
    }
  }

  lemma FetchStepKeeps(w: World, w': World)
    requires Inv(w) && FetchStep(w, w')
    ensures Inv(w')
  {
    FetchKeepsClient(w, w');
    assert Ahead(w') == Ahead(w);
    forall x | IsKv(x)
      ensures KeyOk(w', x)
    {
      assert KeyOk(w, x);
      if w'.c.lastSeq != w.c.lastSeq { FetchKeepsKey(w, w', w'.c.lastSeq, x); }
    }
  }

  lemma FetchKeepsClient(w: World, w': World)
    requires MasterOk(w.m) && w.m.log != [] && ClientOk(w) && FetchStep(w, w')
    ensures ClientOk(w') && w'.m == w.m && w'.slave == w.slave
    ensures w'.c.link == w.c.link && w'.c.status == w.c.status && w'.c.lastKey == w.c.lastKey
    ensures w'.c.lastSeq == w.c.lastSeq ==> w'.c == w.c && !w'.pc.InHand?
    ensures var n := w'.c.lastSeq;
            n != w.c.lastSeq ==>
              1 <= n <= |w.m.log| && (w.c.lastSeq != 0 ==> n == w.c.lastSeq + 1) &&
              (w'.c.iter.None? || w'.c.iter == w.c.iter) &&
              (w'.pc == InHand(n) || (Less(w.c.lastKey, w.m.log[n - 1].key) && w'.c.iter.None? && w.c.status == COPY))
  {
    var (c', f) := Fetch(w.c, LogView(0, w.m.log));
    if !f.Nothing? && c'.lastSeq >= 1 {
      assert EntryOk(w.m.log[c'.lastSeq - 1]);
    }
  }

  lemma FetchKeepsKey(w: World, w': World, n: nat, x: Bytes)
    requires ClientOk(w) && FetchStep(w, w') && KeyOk(w, x) && IsKv(x)
    requires 1 <= n <= |w.m.log| && n == w'.c.lastSeq && w'.c.lastSeq != w.c.lastSeq
    requires w'.c.link == w.c.link && w'.c.status == w.c.status && w'.c.lastKey == w.c.lastKey
    requires w'.pc == InHand(n) || (Less(w.c.lastKey, w.m.log[n - 1].key) && w'.c.iter.None? && w.c.status == COPY)
    requires w'.c.iter.None? || w'.c.iter == w.c.iter
    requires w.c.lastSeq != 0 ==> n == w.c.lastSeq + 1
    ensures KeyOk(w', x)
  {
    assert Ahead(w') == Ahead(w);
    RankOrder("", x);
    if w.c.lastSeq != 0 && Touched(w.m.log, w.c.lastSeq, x) && w.m.log[n - 1].key != x {
      var j :| w.c.lastSeq <= j < |w.m.log| && w.m.log[j].key == x;
      assert j >= n;
    }
  }

  // What the slave will have once it has the entry: the key as the master has it by then.
  ghost function Delivered(ahead: map<Bytes, Bytes>, e: Entry, data: map<Bytes, Bytes>): map<Bytes, Bytes> {
    if e.cmd == CMD_KSET && e.key in data then ahead[e.key := data[e.key]]
    else if e.cmd == CMD_KDEL then ahead - {e.key}
    else ahead
  }

  lemma DeliverSends(c: Client, s: Slave, n: nat, e: Entry, data: map<Bytes, Bytes>)
    requires EntryOk(e) && n <= UINT64_MAX
    ensures Drain(s, Deliver(c, n, e, data).link).data == Delivered(Drain(s, c.link).data, e, data)
  {
    hide Drain, SlaveApply, Packed;
    var link, before, rec := c.link, Drain(s, c.link), Packed(n, TYPE_SYNC, e.cmd, e.key);
    if e.cmd == CMD_KSET && e.key in data {
      DrainAppend(s, link, [rec, data[e.key]]);
      SetArrives(before, n, TYPE_SYNC, e.key, data[e.key]);
    } else if e.cmd == CMD_KDEL {
      DrainAppend(s, link, [rec]);
      DelArrives(before, n, e.key);
    }
  }

  // If the entry does not say what the master has, a later one is about its key.
  lemma DeliverSettles(m: Master, n: nat, ahead: map<Bytes, Bytes>)
    requires MasterOk(m) && 1 <= n <= |m.log| && IsKv(m.log[n - 1].key)
    ensures var e := m.log[n - 1]; SameAt(Delivered(ahead, e, m.data), m.data, e.key) || Touched(m.log, n, e.key)
  {
    hide Touched;
    var e := m.log[n - 1];
    assert EntryOk(e);
    if e.cmd == CMD_KSET {
      if e.key !in m.data { LastCmdIsSet(m.log, e.key, n - 1); }
    } else if e.key in m.data {
      LastCmdIsDel(m.log, e.key, n - 1);
    }
  }

  lemma DeliverStepKeeps(w: World, w': World)
    requires Inv(w) && DeliverStep(w, w')
    ensures Inv(w')
  {
    var n, e := w.pc.num, w.m.log[w.pc.num - 1];
    assert EntryOk(e);
    DeliverSends(w.c, w.slave, n, e, w.m.data);
    assert Ahead(w') == Delivered(Ahead(w), e, w.m.data);
    if IsKv(e.key) { DeliverSettles(w.m, n, Ahead(w)); }
    assert w'.c.(link := w.c.link) == w.c;
    hide Ahead, MasterOk, Touched, Deliver;
    assert ClientOk(w');
    forall x | IsKv(x)
      ensures KeyOk(w', x)
    {
      assert KeyOk(w, x);
      assert Covered(w', x) <==> Covered(w, x);
      assert e.key == x ==> Covered(w, x);
    }
  }

  lemma EmptyKeyNever(m: Master)
    requires MasterOk(m)
    ensures EncodeKv("") !in m.data
  {
    KvKey("");
    NoSetOf(m.log, EncodeKv(""));
  }

  lemma {:induction false} NoSetOf(log: seq<Entry>, x: Bytes)
    requires |x| == 1 && forall i :: 0 <= i < |log| ==> EntryOk(log[i])
    ensures LastCmd(log, x) != CMD_KSET
  {
    if log != [] {
      NoSetOf(log[..|log| - 1], x);
      assert EntryOk(log[|log| - 1]);
    }
  }

  lemma CopyStepKeeps(w: World, w': World)
    requires Inv(w) && CopyStep(w, w')
    ensures Inv(w')
  {
    if w.c.iter.None? {
      EmptyKeyNever(w.m);
      assert ClientOk(w');
      forall x | IsKv(x) ensures KeyOk(w', x) { assert KeyOk(w, x); }
    } else if w.pc.turns + 1 > COPY_BATCH {
      assert ClientOk(w');
      forall x | IsKv(x) ensures KeyOk(w', x) { assert KeyOk(w, x); }
    } else {
      var snap := w.c.iter.value;
      var k := NextKey(snap, Start(w.c.lastKey));
      if k.None? || PastTypes(k.value) {
        DrainAppend(w.slave, w.c.link, [Packed(w.c.lastSeq, TYPE_COPY, CMD_END, ""), "copy_end"]);
        MarkArrives(Drain(w.slave, w.c.link), w.c.lastSeq, CMD_END, "copy_end");
        assert ClientOk(w');
        forall x | IsKv(x) ensures KeyOk(w', x) {
          assert KeyOk(w, x);
          if !Covered(w, x) { SkippedIsAbsent(w, k, x); }
        }
      } else {
        PassKeeps(w, w', k.value);
      }
    }
  }

  // A KV key the copy has ahead and now leaves behind is not in the snapshot.
  lemma SkippedIsAbsent(w: World, k: Option<Bytes>, x: Bytes)
    requires w.c.iter.Some? && IsNextKey(w.c.iter.value, Start(w.c.lastKey), k) && IsKv(x)
    requires Less(w.c.lastKey, x)
    requires k.None? || k.value != ""
    requires k.None? || PastTypes(k.value) || Less(x, k.value)
    ensures x !in w.c.iter.value
  {
    if w.c.lastKey == "" { assert Less(Start(w.c.lastKey), x); }
    if k.Some? && PastTypes(k.value) { assert Less(x, k.value); }
  }

  lemma PassAhead(w: World, w': World, k: Bytes)
    requires Inv(w) && w.c.iter.Some? && k != "" && k in w.c.iter.value && (k[0] == KV ==> |k| > 1)
    requires w'.slave == w.slave && w'.c == Pass(w.c, k, w.c.iter.value[k])
    ensures Ahead(w') == if k[0] == KV then Ahead(w)[k := w.c.iter.value[k]] else Ahead(w)
  {
    hide Drain, SlaveApply, Packed, KeyOk;
    var snap, link := w.c.iter.value, w.c.link;
    if k[0] == KV {
      DrainAppend(w.slave, link, [Packed(w.c.lastSeq, TYPE_COPY, CMD_KSET, k), snap[k]]);
      SetArrives(Drain(w.slave, link), w.c.lastSeq, TYPE_COPY, k, snap[k]);
    }
  }

  lemma PassKeeps(w: World, w': World, k: Bytes)
    requires Inv(w) && w.c.iter.Some? && w.pc.AtCopy? && k != ""
    requires IsNextKey(w.c.iter.value, Start(w.c.lastKey), Some(k))
    requires w' == w.(c := Pass(w.c, k, w.c.iter.value[k]), pc := AtCopy(w.pc.turns + 1))
    ensures Inv(w')
  {
    var snap, last := w.c.iter.value, w.c.lastKey;
    if k[0] == KV { assert k == EncodeKv(k[1..]); }
    PassAhead(w, w', k);
    assert Less(last, k) by { RankOrder("", k); }
    hide Ahead, MasterOk, Touched, Less;
    assert ClientOk(w');
    forall x | IsKv(x)
      ensures KeyOk(w', x)
    {
      assert KeyOk(w, x);
      RankOrder(last, x);
      RankOrder(k, x);
      RankOrder(x, k);
      RankOrder(last, k);
      if !Covered(w, x) && Less(x, k) { SkippedIsAbsent(w, Some(k), x); }
    }
  }

  lemma SlaveStepKeeps(w: World, w': World)
    requires Inv(w) && SlaveStep(w, w')
    ensures Inv(w')
  {
    assert Ahead(w') == Ahead(w);
    assert ClientOk(w');
    forall x | IsKv(x) ensures KeyOk(w', x) { assert KeyOk(w, x); }
  }

  lemma NextKeeps(w: World, w': World)
    requires Inv(w) && Next(w, w')
    ensures Inv(w')
  {
    if WriteStep(w, w') { WriteStepKeeps(w, w'); }
    else if FetchStep(w, w') { FetchStepKeeps(w, w'); }
    else if DeliverStep(w, w') { DeliverStepKeeps(w, w'); }
    else if CopyStep(w, w') { CopyStepKeeps(w, w'); }
    else { SlaveStepKeeps(w, w'); }
  }

  lemma AttachOk(w: World)
    requires Attach(w) && w.m.log != []
    ensures Inv(w)
  {
    var begin := [Packed(0, TYPE_COPY, CMD_BEGIN, ""), "copy_begin"];
    assert w.c.link == [] + [begin] == [begin];
    MarkArrives(w.slave, 0, CMD_BEGIN, "copy_begin");
    assert [begin][1..] == [];
    assert Drain(SlaveApply(w.slave, begin), []) == SlaveApply(w.slave, begin);
    assert Ahead(w) == map[];
    forall x | IsKv(x) ensures KeyOk(w, x) { RankOrder("", x); }
  }

  lemma {:induction false} StepsKeep(r: seq<World>, i: nat)
    requires Steps(r) && Inv(r[0]) && i < |r|
    ensures Inv(r[i])
  {
    if i > 0 {
      StepsKeep(r, i - 1);
      assert NextAt(r, i);
      NextKeeps(r[i - 1], r[i]);
    }
  }

  lemma RunOk(r: seq<World>, i: nat)
    requires IsRun(r) && r[0].m.log != [] && i < |r|
    ensures Inv(r[i])
  {
    AttachOk(r[0]);
    StepsKeep(r, i);
  }

  /* ---- main results ---- */

  // The client has caught up, holds nothing, and the link is empty.
  ghost predicate Quiet(w: World) {
    Tailing(w.c) && !w.pc.InHand? && w.c.lastSeq == |w.m.log| && w.c.link == []
  }

  ghost function KvPart(data: map<Bytes, Bytes>): map<Bytes, Bytes> {
    map x | x in data && IsKv(x) :: data[x]
  }

  /** Convergence. However writers, sync, copy and the slave interleave, whenever the client has
      caught up with the log and the link is drained, the slave holds exactly the master's KV data. */
  lemma Converges(r: seq<World>, i: nat)
    requires IsRun(r) && r[0].m.log != [] && i < |r|
    requires Quiet(r[i])
    ensures r[i].slave.data == KvPart(r[i].m.data)
  {
    RunOk(r, i);
    QuietIsRight(r[i]);
  }

  lemma QuietIsRight(w: World)
    requires Inv(w) && Quiet(w)
    ensures w.slave.data == KvPart(w.m.data)
  {
    assert Ahead(w) == w.slave.data;
    forall x | IsKv(x)
      ensures SameAt(w.slave.data, w.m.data, x)
    {
      assert KeyOk(w, x);
    }
  }

  /** A client of a master with a whole log never falls out of sync. */
  lemma NeverOutOfSync(r: seq<World>, i: nat)
    requires IsRun(r) && r[0].m.log != [] && i < |r|
    ensures r[i].c.status != OUT_OF_SYNC
  {
    RunOk(r, i);
  }
}
