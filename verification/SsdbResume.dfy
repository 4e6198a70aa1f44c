/** A slave that loses its link and comes back says what it remembers: the last sequence number and, inside
    a copy, the last key. What it hears from then on is right unless it was cut off inside a copy. */
module SsdbResume {
  import opened Collections
  import opened Lexicographic
  import opened ByteOrder
  import opened SsdbCodec
  import opened SsdbStore
  import opened SsdbReplica
  import opened SsdbReplication
  import opened SsdbSettles
  import opened SsdbEmptyLog

  // Every KV key the slave is wrong about is named by a log entry it has not heard of.
  ghost predicate Resumable(s: Slave, m: Master) {
    forall x :: IsKv(x) ==> KeyResumes(s, m, x)
  }

  ghost predicate KeyResumes(s: Slave, m: Master, x: Bytes) {
    SameAt(s.data, m.data, x) || Touched(m.log, s.lastSeq, x)
  }

  ghost predicate Good(s: Slave, m: Master) {
    && s.lastSeq <= |m.log| && (s.lastSeq == 0 ==> s.data == map[] && s.lastKey == "")
    && (forall x :: x in s.data ==> IsKv(x) && |x| > 1)
    && (s.lastKey == "" ==> Resumable(s, m))
  }

  // The slave as it is once it has taken i more packets off the link.
  ghost function Heard(w: World, i: nat): Slave
    requires i <= |w.c.link|
  {
    Drain(w.slave, w.c.link[..i])
  }

  ghost predicate GoodAt(w: World, i: nat)
    requires i <= |w.c.link|
  {
    Good(Heard(w, i), w.m)
  }

  ghost function HeardAll(w: World): Slave { Drain(w.slave, w.c.link) }

  // Wherever the link is cut, the slave remembers enough.
  ghost predicate Remembers(w: World) {
    && (forall i: nat :: i <= |w.c.link| ==> GoodAt(w, i))
    && HeardAll(w).lastSeq <= w.c.lastSeq
    && (w.c.status == COPY && IsKv(w.c.lastKey) ==> HeardAll(w).lastKey == w.c.lastKey)
  }

  /* ---- every step keeps it ---- */

  lemma WriteKeepsGood(s: Slave, m: Master, m': Master)
    requires MasterOk(m) && Good(s, m) && Write(m, m')
    ensures Good(s, m')
  {
    hide MasterOk, Write;
    WriteKeeps(m, m');
    var n := |m.log|;
    forall x | IsKv(x) && s.lastKey == "" ensures KeyResumes(s, m', x) {
      assert KeyResumes(s, m, x);
      assert m'.log[n].key != x ==> SameAt(m'.data, m.data, x);
      if Touched(m.log, s.lastSeq, x) {
        var j :| s.lastSeq <= j < n && m.log[j].key == x;
        assert m'.log[..n][j] == m'.log[j];
      }
    }
  }

  lemma WriteStepRemembers(w: World, w': World)
    requires Inv(w) && Remembers(w) && WriteStep(w, w')
    ensures Remembers(w')
  {
    assert MasterOk(w.m);
    hide Inv, MasterOk, Write, Good, Heard;
    forall i: nat | i <= |w'.c.link| ensures GoodAt(w', i) {
      assert GoodAt(w, i) && Heard(w', i) == Heard(w, i) by { SameHeard(w, w', i); }
      WriteKeepsGood(Heard(w, i), w.m, w'.m);
    }
  }

  lemma SameHeard(w: World, w': World, i: nat)
    requires w'.slave == w.slave && w'.c.link == w.c.link && i <= |w.c.link|
    ensures Heard(w', i) == Heard(w, i)
  {
  }

  // A step that leaves master, slave and link alone.
  lemma QuietStepRemembers(w: World, w': World)
    requires Remembers(w) && w'.m == w.m && w'.slave == w.slave && w'.c.link == w.c.link
    requires w'.c.lastSeq >= w.c.lastSeq && w'.c.status == w.c.status
    requires w'.c.lastKey == w.c.lastKey || !IsKv(w'.c.lastKey)
    ensures Remembers(w')
  {
    forall i: nat | i <= |w'.c.link| ensures GoodAt(w', i) {
      assert GoodAt(w, i);
    }
  }

  // A step that sends one packet more.
  lemma SendRemembers(w: World, w': World, p: Packet)
    requires Remembers(w) && w'.m == w.m && w'.slave == w.slave && w'.c.link == w.c.link + [p]
    requires var s := SlaveApply(HeardAll(w), p);
             && Good(s, w.m) && s.lastSeq <= w'.c.lastSeq
             && (w'.c.status == COPY && IsKv(w'.c.lastKey) ==> s.lastKey == w'.c.lastKey)
    ensures Remembers(w')
  {
    hide Good;
    var n := |w.c.link|;
    DrainAppend(w.slave, w.c.link, p);
    forall i: nat | i <= n + 1 ensures GoodAt(w', i) {
      if i <= n {
        assert GoodAt(w, i) && w'.c.link[..i] == w.c.link[..i];
      } else {
        assert w'.c.link[..i] == w'.c.link;
      }
    }
  }

  // Once every key is covered, a slave that has heard all is right but for what the log still has.
  lemma CoveredResumes(w: World, s: Slave)
    requires Inv(w) && !w.pc.InHand? && s.data == Ahead(w) && s.lastSeq <= w.c.lastSeq
    requires forall x :: IsKv(x) ==> Covered(w, x)
    ensures Resumable(s, w.m)
  {
    hide Ahead, MasterOk;
    forall x | IsKv(x) ensures KeyResumes(s, w.m, x) {
      assert KeyOk(w, x) && Covered(w, x);
      if Touched(w.m.log, w.c.lastSeq, x) {
        var j :| w.c.lastSeq <= j < |w.m.log| && w.m.log[j].key == x;
        assert s.lastSeq <= j;
      }
    }
  }

  // Past one KV key without being at one: past all of them.
  lemma PastAllKv(last: Bytes, key: Bytes, x: Bytes)
    requires !IsKv(last) && IsKv(key) && !Less(last, key) && IsKv(x)
    ensures !Less(last, x)
  {
  }

  lemma DeliverStepRemembers(w: World, w': World)
    requires Inv(w) && Remembers(w) && DeliverStep(w, w')
    ensures Remembers(w')
  {
    DeliverStepKeeps(w, w');
    if w'.c.link == w.c.link {
      QuietStepRemembers(w, w');
    } else {
      var n, e := w.pc.num, w.m.log[w.pc.num - 1];
      assert EntryOk(e) && n == w.c.lastSeq && n <= UINT64_MAX;
      var rec := Packed(n, TYPE_SYNC, e.cmd, e.key);
      var p := if e.cmd == CMD_KSET then [rec, w.m.data[e.key]] else [rec];
      SentIs(w.c, HeardAll(w), n, e, w.m.data, p);
      var s := SlaveApply(HeardAll(w), p);
      assert s.data == Ahead(w') by { DrainAppend(w.slave, w.c.link, p); }
      if s.lastKey == "" {
        assert w.c.status == COPY ==> !IsKv(w.c.lastKey) && !Less(w.c.lastKey, e.key);
        forall x | IsKv(x) ensures Covered(w', x) {
          if w.c.status == COPY { PastAllKv(w.c.lastKey, e.key, x); }
        }
        hide Covered;
        CoveredResumes(w', s);
      }
      SendRemembers(w, w', p);
    }
  }

  // What the packet of a log entry does to the slave.
  lemma SentIs(c: Client, s: Slave, n: nat, e: Entry, data: map<Bytes, Bytes>, p: Packet)
    requires EntryOk(e) && n <= UINT64_MAX && Deliver(c, n, e, data).link != c.link
    requires p == if e.cmd == CMD_KSET && e.key in data then [Packed(n, TYPE_SYNC, e.cmd, e.key), data[e.key]]
                  else [Packed(n, TYPE_SYNC, e.cmd, e.key)]
    ensures Deliver(c, n, e, data).link == c.link + [p] && IsKv(e.key)
    ensures var s' := SlaveApply(s, p); s'.lastSeq == n && s'.lastKey == s.lastKey
  {
    if e.cmd == CMD_KSET {
      SetArrives(s, n, TYPE_SYNC, e.key, data[e.key]);
    } else {
      DelArrives(s, n, e.key);
    }
  }

  lemma FetchStepRemembers(w: World, w': World)
    requires Inv(w) && Remembers(w) && FetchStep(w, w')
    ensures Remembers(w')
  {
    FetchKeepsClient(w, w');
    QuietStepRemembers(w, w');
  }

  lemma FinishRemembers(w: World, w': World)
    requires Inv(w) && Remembers(w) && Inv(w') && w' == w.(c := Finish(w.c), pc := AtSync)
    ensures Remembers(w')
  {
    var p := [Packed(w.c.lastSeq, TYPE_COPY, CMD_END, ""), "copy_end"];
    var s := SlaveApply(HeardAll(w), p);
    MarkArrives(HeardAll(w), w.c.lastSeq, CMD_END, "copy_end");
    assert GoodAt(w, |w.c.link|) && w.c.link[..|w.c.link|] == w.c.link;
    assert s.data == Ahead(w') by { DrainAppend(w.slave, w.c.link, p); }
    CoveredResumes(w', s);
    SendRemembers(w, w', p);
  }

  lemma PassRemembers(w: World, w': World, k: Bytes)
    requires Inv(w) && Remembers(w) && Inv(w') && w.c.iter.Some? && k in w.c.iter.value && IsKv(k) && |k| > 1
    requires w.c.status == COPY
    requires w'.m == w.m && w'.slave == w.slave && w'.c == Pass(w.c, k, w.c.iter.value[k])
    ensures Remembers(w')
  {
    var val := w.c.iter.value[k];
    var p := [Packed(w.c.lastSeq, TYPE_COPY, CMD_KSET, k), val];
    var s := SlaveApply(HeardAll(w), p);
    SetArrives(HeardAll(w), w.c.lastSeq, TYPE_COPY, k, val);
    assert s.data == Ahead(w') by { DrainAppend(w.slave, w.c.link, p); }
    SendRemembers(w, w', p);
  }

  lemma CopyStepRemembers(w: World, w': World)
    requires Inv(w) && Remembers(w) && CopyStep(w, w')
    ensures Remembers(w')
  {
    CopyStepKeeps(w, w');
    if w.c.iter.None? || w.pc.turns + 1 > COPY_BATCH {
      QuietStepRemembers(w, w');
    } else {
      var k := NextKey(w.c.iter.value, Start(w.c.lastKey));
      if k.None? || PastTypes(k.value) {
        FinishRemembers(w, w');
      } else if k.value[0] == KV {
        assert k.value == EncodeKv(k.value[1..]);
        PassRemembers(w, w', k.value);
      } else {
        QuietStepRemembers(w, w');
      }
    }
  }

  lemma SlaveStepRemembers(w: World, w': World)
    requires Remembers(w) && SlaveStep(w, w')
    ensures Remembers(w')
  {
    hide Good;
    forall i: nat | i <= |w'.c.link| ensures GoodAt(w', i) {
      assert GoodAt(w, i + 1);
      assert w.c.link[..i + 1][1..] == w'.c.link[..i];
    }
  }

  lemma NextRemembers(w: World, w': World)
    requires Inv(w) && Remembers(w) && Next(w, w')
    ensures Inv(w') && Remembers(w')
  {
    NextKeeps(w, w');
    hide Inv, Remembers, FetchStep, DeliverStep, CopyStep, SlaveStep, WriteStep;
    if WriteStep(w, w') { WriteStepRemembers(w, w'); }
    else if FetchStep(w, w') { FetchStepRemembers(w, w'); }
    else if DeliverStep(w, w') { DeliverStepRemembers(w, w'); }
    else if CopyStep(w, w') { CopyStepRemembers(w, w'); }
    else { SlaveStepRemembers(w, w'); }
  }

  /* ---- cutting the link ---- */

  // What a new connection makes of what the slave tells it.
  ghost function Returning(s: Slave): Client {
    var c := Client(INIT, s.lastSeq, s.lastKey, None, []);
    if s.lastKey == "" && s.lastSeq == 0 then Reset(c) else c
  }

  // The link is cut, with all that was on it, and the slave connects again.
  ghost function Reconnected(w: World): World { World(w.m, Returning(w.slave), AtSync, w.slave) }

  // A slave with nothing to remember attaches for the first time.
  ghost predicate FirstAttach(w: World) {
    Attach(w) && w.m.log != [] && w.slave.lastSeq == 0 && w.slave.lastKey == ""
  }

  lemma {:induction false} Logged(log: seq<Entry>, x: Bytes)
    requires LastCmd(log, x) == CMD_KSET
    ensures Touched(log, 0, x)
  {
    var last := |log| - 1;
    if log[last].key != x {
      Logged(log[..last], x);
      var j :| 0 <= j < last && log[..last][j].key == x;
      assert log[j].key == x;
    }
  }

  lemma FirstAttachOk(w: World)
    requires FirstAttach(w)
    ensures Inv(w) && Remembers(w)
  {
    AttachOk(w);
    forall x | IsKv(x) ensures KeyResumes(w.slave, w.m, x) {
      if x in w.m.data { Logged(w.m.log, x); }
    }
    var begin := [Packed(0, TYPE_COPY, CMD_BEGIN, ""), "copy_begin"];
    assert w.c.link == [begin];
    MarkArrives(w.slave, 0, CMD_BEGIN, "copy_begin");
    assert [begin][1..] == [] && [begin][..1] == [begin];
    assert Drain(SlaveApply(w.slave, begin), []) == SlaveApply(w.slave, begin);
    forall i: nat | i <= 1 ensures GoodAt(w, i) {}
  }

  lemma CutKeeps(w: World)
    requires Inv(w) && Remembers(w) && Resumable(w.slave, w.m)
    ensures Inv(Reconnected(w)) && Remembers(Reconnected(w))
  {
    var w', s := Reconnected(w), w.slave;
    assert GoodAt(w, 0) && Heard(w, 0) == s;
    if s.lastSeq == 0 {
      FirstAttachOk(w');
    } else {
      forall i: nat | i <= |w'.c.link| ensures GoodAt(w', i) {}
      assert Ahead(w') == s.data;
      forall x | IsKv(x) ensures KeyOk(w', x) { assert KeyResumes(s, w.m, x); }
    }
  }

  lemma SlaveIsGood(w: World)
    requires Remembers(w)
    ensures Good(w.slave, w.m)
  {
    assert GoodAt(w, 0) && Heard(w, 0) == w.slave;
  }

  /* ---- runs with any number of cuts ---- */

  // A step, or a cut that finds the slave outside a copy.
  ghost predicate StepOrCut(r: seq<World>, i: nat)
    requires 1 <= i < |r|
  {
    Next(r[i - 1], r[i]) || (r[i - 1].slave.lastKey == "" && r[i] == Reconnected(r[i - 1]))
  }

  ghost predicate CutRun(r: seq<World>) {
    r != [] && FirstAttach(r[0]) && forall i: nat :: 1 <= i < |r| ==> StepOrCut(r, i)
  }

  lemma StepOrCutKeeps(w: World, w': World)
    requires Inv(w) && Remembers(w) && (Next(w, w') || (w.slave.lastKey == "" && w' == Reconnected(w)))
    ensures Inv(w') && Remembers(w')
  {
    hide Inv, Remembers, Next, Reconnected;
    if Next(w, w') {
      NextRemembers(w, w');
    } else {
      SlaveIsGood(w);
      CutKeeps(w);
    }
  }

  lemma {:induction false} CutRunOk(r: seq<World>, i: nat)
    requires CutRun(r) && i < |r|
    ensures Inv(r[i]) && Remembers(r[i])
  {
    hide Inv, Remembers, Next, Reconnected, FirstAttach;
    if i == 0 {
      FirstAttachOk(r[0]);
    } else {
      CutRunOk(r, i - 1);
      assert StepOrCut(r, i);
      StepOrCutKeeps(r[i - 1], r[i]);
    }
  }

  /** Convergence through any number of cuts outside copies, with whatever was on the link lost each time. */
  lemma ConvergesThroughCuts(r: seq<World>, i: nat)
    requires CutRun(r) && i < |r| && Quiet(r[i])
    ensures r[i].slave.data == KvPart(r[i].m.data)
  {
    CutRunOk(r, i);
    QuietIsRight(r[i]);
  }

  /** What the slave remembers, wherever its link is cut: no number beyond the client's, a key only after a
      number, and outside a copy every key it is wrong about is in the log beyond its number. */
  lemma RemembersEnough(r: seq<World>, i: nat)
    requires CutRun(r) && i < |r|
    ensures var s, m := r[i].slave, r[i].m;
            && s.lastSeq <= |m.log| && (s.lastSeq == 0 ==> s.lastKey == "" && s.data == map[])
            && (s.lastKey == "" ==> Resumable(s, m))
  {
    CutRunOk(r, i);
    SlaveIsGood(r[i]);
  }

  lemma LeadsRemembers(a: World, z: World)
    requires Inv(a) && Remembers(a) && Leads(a, z)
    ensures Inv(z) && Remembers(z)
  {
    hide Inv, Remembers;
    var r :| Steps(r) && r[0] == a && r[|r| - 1] == z;
    StepsRemember(r, |r| - 1);
  }

  lemma {:induction false} StepsRemember(r: seq<World>, i: nat)
    requires Steps(r) && Inv(r[0]) && Remembers(r[0]) && i < |r|
    ensures Inv(r[i]) && Remembers(r[i])
  {
    hide Inv, Remembers, Next;
    if i > 0 {
      StepsRemember(r, i - 1);
      assert NextAt(r, i);
      NextRemembers(r[i - 1], r[i]);
    }
  }

  /* ---- exactly when coming back is safe ---- */

  // The client serves from the log alone, and the slave will stay wrong about x.
  ghost predicate StaysWrong(w: World, x: Bytes) {
    && w.c.status == INIT && w.c.iter.None? && w.pc == AtSync && 0 < w.c.lastSeq <= |w.m.log| < UINT64_MAX
    && MasterOk(w.m) && IsKv(x) && !SameAt(Ahead(w), w.m.data, x) && !Touched(w.m.log, w.c.lastSeq, x)
  }

  lemma TailOne(a: World, w: World, x: Bytes) returns (z: World)
    requires Leads(a, w) && StaysWrong(w, x) && w.c.lastSeq < |w.m.log|
    ensures Leads(a, z) && StaysWrong(z, x) && z.m == w.m && z.c.lastSeq == w.c.lastSeq + 1
  {
    hide Leads, MasterOk, Ahead;
    var n := w.c.lastSeq + 1;
    var e := w.m.log[n - 1];
    assert EntryOk(e) by { EntryIn(w.m, n - 1); }
    var y := w.(c := w.c.(lastSeq := n), pc := InHand(n));
    assert FetchStep(w, y);
    z := y.(c := Deliver(y.c, n, e, w.m.data), pc := AtSync);
    assert DeliverStep(y, z);
    TwoSteps(a, w, y, z);
    AheadDelivered(w, z, n, e);
    assert e.key != x;
  }

  lemma EntryIn(m: Master, i: nat)
    requires MasterOk(m) && i < |m.log|
    ensures EntryOk(m.log[i])
  {
  }

  lemma TwoSteps(a: World, w: World, y: World, z: World)
    requires Leads(a, w) && Next(w, y) && Next(y, z)
    ensures Leads(a, z)
  {
    LeadsOn(a, w, y);
    LeadsOn(a, y, z);
  }

  lemma AheadDelivered(w: World, z: World, n: nat, e: Entry)
    requires EntryOk(e) && n <= UINT64_MAX && z.slave == w.slave
    requires z.c.link == Deliver(w.c.(lastSeq := n), n, e, w.m.data).link
    ensures Ahead(z) == Delivered(Ahead(w), e, w.m.data)
  {
    DeliverSends(w.c.(lastSeq := n), w.slave, n, e, w.m.data);
  }

  lemma {:induction false} TailAll(a: World, w: World, x: Bytes) returns (z: World)
    requires Leads(a, w) && StaysWrong(w, x)
    ensures Leads(a, z) && Quiet(z) && !SameAt(z.slave.data, z.m.data, x)
    decreases |w.m.log| - w.c.lastSeq
  {
    if w.c.lastSeq < |w.m.log| {
      var y := TailOne(a, w, x);
      z := TailAll(a, y, x);
    } else {
      z := Drains(a, w);
    }
  }

  lemma SafeReturn(w: World)
    requires Inv(w) && Remembers(w) && Resumable(w.slave, w.m)
    ensures AlwaysConverges(Reconnected(w))
  {
    CutKeeps(w);
    var a := Reconnected(w);
    hide Inv, Quiet, Remembers, Leads, Reconnected;
    forall z | Leads(a, z) && Quiet(z) ensures z.slave.data == KvPart(z.m.data) {
      LeadsRemembers(a, z);
      QuietIsRight(z);
    }
  }

  lemma UnsafeReturn(w: World, x: Bytes)
    requires Inv(w) && Remembers(w) && IsKv(x) && !KeyResumes(w.slave, w.m, x)
    ensures !AlwaysConverges(Reconnected(w))
  {
    SlaveIsGood(w);
    var a := Reconnected(w);
    assert Ahead(a) == w.slave.data && w.slave.lastSeq > 0;
    assert StaysWrong(a, x);
    hide Inv, Remembers, Quiet, Leads, Reconnected, StaysWrong;
    LeadsSelf(a);
    var z := TailAll(a, a, x);
    assert SameAt(KvPart(z.m.data), z.m.data, x);
  }

  /** After a cut anywhere in any run, the slave that comes back ends up right in every interleaving exactly if
      the log beyond its number names every key it is wrong about. */
  lemma ComingBackExactly(r: seq<World>, i: nat)
    requires CutRun(r) && i < |r|
    ensures AlwaysConverges(Reconnected(r[i])) <==> Resumable(r[i].slave, r[i].m)
  {
    CutRunOk(r, i);
    hide Inv, Remembers, AlwaysConverges, Reconnected, KeyResumes;
    if Resumable(r[i].slave, r[i].m) {
      SafeReturn(r[i]);
    } else {
      var x :| IsKv(x) && !KeyResumes(r[i].slave, r[i].m, x);
      UnsafeReturn(r[i], x);
    }
  }

  lemma {:induction false} FilledOk(n: nat)
    requires n < 65536
    ensures MasterOk(Master(Filled(n), FillLog(n)))
  {
    if n > 0 {
      FilledOk(n - 1);
      var m, m' := Master(Filled(n - 1), FillLog(n - 1)), Master(Filled(n), FillLog(n));
      assert RawKey(n - 1) != "";
      assert WriteSet(m, m', RawKey(n - 1), "old");
      WriteKeeps(m, m');
    }
  }

  // The copy of the first n keys has sent one of them.
  lemma CopiesOneKey(a: World, n: nat) returns (z: World)
    requires FirstAttach(a) && a.m == Master(Filled(n), FillLog(n)) && 2 <= n < 65536
    ensures Leads(a, z) && z.m == a.m && z.c.link == a.c.link + [[Packed(n, TYPE_COPY, CMD_KSET, Key(0)), "old"]]
    ensures z.slave == a.slave
  {
    hide Leads, Filled, FillLog, Key, CopyNext;
    LeadsSelf(a);
    FilledHas(n, Key(0));
    LastEntry(n);
    var w1 := a.(c := a.c.(lastSeq := n));
    assert FetchStep(a, w1) by { RankOrder("", Key(n - 1)); KeyOrder(n - 1, 0); }
    var w2 := w1.(pc := AtCopy(0));
    assert FetchStep(w1, w2);
    TwoSteps(a, a, w1, w2);
    var w3 := w2.(c := Opened(w2.c, w2.m.data));
    assert CopyStep(w2, w3);
    NextFilled(n, "h", 0);
    KeyOrder(0, 0);
    z := w3.(c := CopyNext(w3.c), pc := AtCopy(1));
    OneTurn(w3, z, n, 0, 1);
    TwoSteps(a, w2, w3, z);
  }

  lemma LastEntry(n: nat)
    requires 1 <= n < 65536
    ensures |FillLog(n)| == n && FillLog(n)[n - 1].key == Key(n - 1)
  {
    FilledHas(n, "");
  }

  // The slave has taken the copied key off the link, and nothing tells it of the others any more.
  lemma HeardOneKey(a: World, w: World, n: nat)
    requires FirstAttach(a) && a.m == Master(Filled(n), FillLog(n)) && 2 <= n < 65536 && w.m == a.m
    requires w.slave == Drain(a.slave, a.c.link + [[Packed(n, TYPE_COPY, CMD_KSET, Key(0)), "old"]])
    ensures w.slave.lastKey == Key(0) && !KeyResumes(w.slave, w.m, Key(1))
  {
    hide SlaveApply, Filled, FillLog, Key, Packed;
    var begin, p := [Packed(0, TYPE_COPY, CMD_BEGIN, ""), "copy_begin"], [Packed(n, TYPE_COPY, CMD_KSET, Key(0)), "old"];
    var s := SlaveApply(a.slave, begin);
    MarkArrives(a.slave, 0, CMD_BEGIN, "copy_begin");
    assert a.c.link == [begin] && [begin][1..] == [] && Drain(s, []) == s;
    DrainAppend(a.slave, [begin], p);
    KeyOrder(0, 1);
    SetArrives(s, n, TYPE_COPY, Key(0), "old");
    FilledHas(n, Key(1));
  }

  /** A slave that is cut off inside its copy never hears of the keys that were still to come: with a master
      of two keys or more, each written once, some run ends so. */
  lemma CutInACopyLosesKeys(n: nat) returns (a: World, z: World)
    requires 2 <= n < 65536
    ensures FirstAttach(a) && a.m == Master(Filled(n), FillLog(n)) && Leads(a, z) && z.m == a.m
    ensures z.slave.lastKey != "" && !AlwaysConverges(Reconnected(z))
  {
    FilledOk(n);
    LastEntry(n);
    a := World(Master(Filled(n), FillLog(n)), Reset(Client(INIT, 0, "", None, [])), AtSync, Slave(INIT, 0, "", map[]));
    assert FirstAttach(a);
    hide FirstAttach;
    var y := CopiesOneKey(a, n);
    z := Drains(a, y);
    HeardOneKey(a, z, n);
    KeyOrder(0, 1);
    FirstAttachOk(a);
    LeadsRemembers(a, z);
    UnsafeReturn(z, Key(1));
  }
}
