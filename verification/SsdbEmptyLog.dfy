/** What goes wrong when a slave attaches to a master with no log yet: sync() finds nothing, copy()
    starts with last_seq still 0, and the next sync() jumps to the end of a log it never read. */
module SsdbEmptyLog {
  import opened Collections
  import opened Lexicographic
  import opened ByteOrder
  import opened SsdbCodec
  import opened SsdbStore
  import opened SsdbReplica
  import opened SsdbReplication
  import opened SsdbSettles

  // The i-th key, in key order.
  function RawKey(i: nat): Bytes { Be(i, 2) }

  function Key(i: nat): Bytes { EncodeKv(RawKey(i)) }

  lemma KeyOrder(i: nat, j: nat)
    requires i < 65536 && j < 65536
    ensures Less(Key(i), Key(j)) <==> i < j
    ensures Key(i) == Key(j) <==> i == j
    ensures IsKv(Key(i)) && |Key(i)| == 3 && !PastTypes(Key(i)) && Less("h", Key(i))
  {
    assert Pow256(2) == 65536;
    BeKeepsOrder(i, j, 2);
    assert Key(i)[1..] == RawKey(i) && Key(j)[1..] == RawKey(j);
  }

  // The first n keys, all written once.
  function Filled(n: nat): map<Bytes, Bytes> {
    if n == 0 then map[] else Filled(n - 1)[Key(n - 1) := "old"]
  }

  function FillLog(n: nat): seq<Entry> {
    if n == 0 then [] else FillLog(n - 1) + [Entry(CMD_KSET, Key(n - 1))]
  }

  lemma {:induction false} FilledHas(n: nat, x: Bytes)
    requires n < 65536
    ensures |FillLog(n)| == n
    ensures x in Filled(n) ==> Filled(n)[x] == "old" && exists i :: 0 <= i < n && x == Key(i)
    ensures forall i :: 0 <= i < n ==> Key(i) in Filled(n)
  {
    if n > 0 { FilledHas(n - 1, x); }
  }

  lemma NextFilled(n: nat, start: Bytes, t: nat)
    requires t <= n < 65536 && start == (if t == 0 then "h" else Key(t - 1))
    ensures NextKey(Filled(n), start) == if t < n then Some(Key(t)) else None
  {
    var snap := Filled(n);
    var r := if t < n then Some(Key(t)) else None;
    forall x | x in snap && Less(start, x)
      ensures r.Some? && !Less(x, r.value)
    {
      FilledHas(n, x);
      var i :| 0 <= i < n && x == Key(i);
      KeyOrder(i, t);
      if t > 0 { KeyOrder(t - 1, i); }
    }
    if t < n {
      FilledHas(n, Key(t));
      KeyOrder(t, t);
      if t > 0 { KeyOrder(t - 1, t); }
    }
    NextKeyUnique(snap, start, r);
  }

  /* ---- the run ---- */

  lemma ByCopy(a: World, b: World, c: World)
    requires Leads(a, b) && CopyStep(b, c)
    ensures Leads(a, c)
  {
    LeadsOn(a, b, c);
  }

  lemma ByDeliver(a: World, b: World, c: World)
    requires Leads(a, b) && DeliverStep(b, c)
    ensures Leads(a, c)
  {
    LeadsOn(a, b, c);
  }

  // The slave will hold the first value of key f.
  ghost predicate HasOld(w: World, f: nat) { Key(f) in Ahead(w) && Ahead(w)[Key(f)] == "old" }

  lemma {:induction false} Fills(a: World, b: World, n: nat) returns (w: World)
    requires n < 65536 && Leads(a, b) && b.m == Master(map[], [])
    ensures Leads(a, w) && w == b.(m := Master(Filled(n), FillLog(n)))
  {
    w := b;
    if n > 0 {
      w := Fills(a, b, n - 1);
      FilledHas(n, "");
      var w' := w.(m := Master(Filled(n), FillLog(n)));
      assert RawKey(n - 1) != "";
      assert WriteSet(w.m, w'.m, RawKey(n - 1), "old");
      assert WriteStep(w, w');
      LeadsOn(a, w, w');
      w := w';
    }
  }

  // The copy of the first n keys has passed t of them, and no log entry has been taken yet.
  ghost predicate Copied(w: World, n: nat, t: nat, f: nat) {
    && t < n < 65536 && w.m == Master(Filled(n), FillLog(n))
    && w.c.status == COPY && w.c.lastSeq == 0 && w.c.iter == Some(Filled(n))
    && w.c.lastKey == (if t == 0 then "" else Key(t - 1))
    && (t > f ==> HasOld(w, f))
  }

  lemma OneTurn(w: World, w': World, n: nat, t: nat, f: nat)
    requires w.c.iter == Some(Filled(n)) && w.c.status == COPY && t < n < 65536
    requires w.pc.AtCopy? && w.pc.turns < COPY_BATCH
    requires w.c.lastSeq <= UINT64_MAX && w.c.lastKey == (if t == 0 then "" else Key(t - 1))
    requires t > f ==> HasOld(w, f)
    requires w' == w.(c := CopyNext(w.c), pc := AtCopy(w.pc.turns + 1))
    ensures CopyStep(w, w') && (t >= f ==> HasOld(w', f))
    ensures w'.c == w.c.(lastKey := Key(t), link := w.c.link + [[Packed(w.c.lastSeq, TYPE_COPY, CMD_KSET, Key(t)), "old"]])
  {
    if t > 0 { assert Start(w.c.lastKey) == Key(t - 1); }
    NextFilled(n, Start(w.c.lastKey), t);
    if t >= f { KeyOrder(t, f); }
    KeyOrder(t, t);
    FilledHas(n, Key(t));
    DrainAppend(w.slave, w.c.link, [Packed(w.c.lastSeq, TYPE_COPY, CMD_KSET, Key(t)), "old"]);
    SetArrives(Drain(w.slave, w.c.link), w.c.lastSeq, TYPE_COPY, Key(t), "old");
  }

  lemma {:induction false} Copies(a: World, w: World, n: nat, t: nat, f: nat) returns (z: World)
    requires Leads(a, w) && Copied(w, n, 0, f) && w.pc == AtCopy(0) && t <= COPY_BATCH && t < n
    ensures Leads(a, z) && Copied(z, n, t, f) && z.pc == AtCopy(t)
  {
    if t == 0 {
      z := w;
    } else {
      var y := Copies(a, w, n, t - 1, f);
      z := CopiesOne(a, y, n, t, f);
    }
  }

  lemma CopiesOne(a: World, y: World, n: nat, t: nat, f: nat) returns (z: World)
    requires Leads(a, y) && 1 <= t <= COPY_BATCH && t < n && Copied(y, n, t - 1, f) && y.pc == AtCopy(t - 1)
    ensures Leads(a, z) && Copied(z, n, t, f) && z.pc == AtCopy(t)
  {
    hide CopyNext, HasOld, Filled, FillLog, Key, Leads;
    z := y.(c := CopyNext(y.c), pc := AtCopy(t));
    OneTurn(y, z, n, t - 1, f);
    ByCopy(a, y, z);
  }

  lemma {:induction false} Drains(a: World, w: World) returns (z: World)
    requires Leads(a, w)
    ensures Leads(a, z) && z.c.link == [] && z.slave == Drain(w.slave, w.c.link)
    ensures z == w.(c := w.c.(link := []), slave := z.slave)
    decreases |w.c.link|
  {
    if w.c.link == [] {
      z := w;
    } else {
      var w' := w.(c := w.c.(link := w.c.link[1..]), slave := SlaveApply(w.slave, w.c.link[0]));
      assert SlaveStep(w, w');
      LeadsOn(a, w, w');
      z := Drains(a, w');
    }
  }

  lemma Overwrites(a: World, w: World, i: nat) returns (z: World)
    requires Leads(a, w) && i < 65536 && |w.m.log| + 1 < UINT64_MAX
    ensures Leads(a, z) && z == w.(m := Master(w.m.data[Key(i) := "new"], w.m.log + [Entry(CMD_KSET, Key(i))]))
  {
    z := w.(m := Master(w.m.data[Key(i) := "new"], w.m.log + [Entry(CMD_KSET, Key(i))]));
    assert RawKey(i) != "";
    assert WriteSet(w.m, z.m, RawKey(i), "new");
    assert WriteStep(w, z);
    LeadsOn(a, w, z);
  }

  // The first batch: the empty log is read, then n keys are written, then a thousand are copied.
  lemma FirstBatch(a: World, n: nat, f: nat) returns (z: World)
    requires Attach(a) && a.m.log == [] && COPY_BATCH < n < 65536
    ensures Leads(a, z) && Copied(z, n, COPY_BATCH, f) && z.pc == AtSync
  {
    LeadsSelf(a);
    var b := a.(pc := AtCopy(0));
    assert FetchStep(a, b);
    LeadsOn(a, a, b);
    var w1 := Fills(a, b, n);
    var w2 := w1.(c := Opened(w1.c, w1.m.data));
    assert CopyStep(w1, w2);
    LeadsOn(a, w1, w2);
    var w3 := Copies(a, w2, n, COPY_BATCH, f);
    z := w3.(pc := AtSync);
    assert CopyStep(w3, z);
    LeadsOn(a, w3, z);
  }

  // The jump: of two new entries about the copied keys f and g, sync() takes only the last.
  lemma Jumps(a: World, w: World, n: nat, f: nat, g: nat) returns (z: World)
    requires Leads(a, w) && w.pc == AtSync && Copied(w, n, COPY_BATCH, f) && f < g < COPY_BATCH
    ensures Leads(a, z) && z.pc == InHand(n + 2)
    ensures z == w.(m := z.m, c := w.c.(lastSeq := n + 2), pc := z.pc)
    ensures |z.m.log| == n + 2 && z.m.log[n + 1] == Entry(CMD_KSET, Key(g))
    ensures z.m.data == Filled(n)[Key(f) := "new"][Key(g) := "new"]
  {
    hide Leads, Filled;
    FilledHas(n, "");
    var w1 := Overwrites(a, w, f);
    var w2 := Overwrites(a, w1, g);
    KeyOrder(COPY_BATCH - 1, g);
    z := w2.(c := w2.c.(lastSeq := n + 2), pc := InHand(n + 2));
    assert FetchStep(w2, z);
    LeadsOn(a, w2, z);
  }

  lemma Sends(a: World, w: World, num: nat, f: nat, g: nat) returns (z: World)
    requires Leads(a, w) && w.pc == InHand(num) && w.c.status == COPY && HasOld(w, f)
    requires 1 <= num == |w.m.log| <= UINT64_MAX && w.m.log[num - 1] == Entry(CMD_KSET, Key(g))
    requires Key(g) in w.m.data && f < g < 65536
    ensures Leads(a, z) && HasOld(z, f) && z == w.(c := w.c.(link := z.c.link), pc := AtCopy(0))
  {
    KeyOrder(g, f);
    var val := w.m.data[Key(g)];
    var packet := [Packed(num, TYPE_SYNC, CMD_KSET, Key(g)), val];
    z := w.(c := w.c.(link := w.c.link + [packet]), pc := AtCopy(0));
    assert DeliverStep(w, z);
    DrainAppend(w.slave, w.c.link, packet);
    SetArrives(Drain(w.slave, w.c.link), num, TYPE_SYNC, Key(g), val);
    ByDeliver(a, w, z);
  }

  // With no key left the copy ends.
  lemma Ends(a: World, w: World, n: nat, f: nat) returns (z: World)
    requires Leads(a, w) && HasOld(w, f) && w.pc.AtCopy? && w.pc.turns < COPY_BATCH && 0 < n < 65536
    requires w.c.iter == Some(Filled(n)) && w.c.lastKey == Key(n - 1) && w.c.lastSeq <= UINT64_MAX
    ensures Leads(a, z) && HasOld(z, f) && z == w.(c := Finish(w.c), pc := AtSync)
  {
    assert Start(w.c.lastKey) == Key(n - 1);
    NextFilled(n, Key(n - 1), n);
    z := w.(c := Finish(w.c), pc := AtSync);
    assert CopyStep(w, z);
    DrainAppend(w.slave, w.c.link, [Packed(w.c.lastSeq, TYPE_COPY, CMD_END, ""), "copy_end"]);
    MarkArrives(Drain(w.slave, w.c.link), w.c.lastSeq, CMD_END, "copy_end");
    ByCopy(a, w, z);
  }

  // The entry about key f is lost, whichever copied key it is.
  lemma LosesWrite(a: World, n: nat, f: nat, g: nat) returns (z: World)
    requires Attach(a) && a.m.log == [] && n == COPY_BATCH + 1 && f < g < COPY_BATCH
    ensures Leads(a, z) && Quiet(z) && z.slave.data != KvPart(z.m.data)
  {
    var w1 := FirstBatch(a, n, f);
    var w2 := Jumps(a, w1, n, f, g);
    var w3 := Sends(a, w2, n + 2, f, g);
    var w4 := w3.(c := CopyNext(w3.c), pc := AtCopy(1));
    OneTurn(w3, w4, n, n - 1, f);
    ByCopy(a, w3, w4);
    var w5 := Ends(a, w4, n, f);
    z := Drains(a, w5);
    KeyOrder(f, g);
    assert Ahead(z) == z.slave.data == Ahead(w5) && HasOld(w5, f);
    assert KvPart(z.m.data)[Key(f)] == "new";
  }

  /** A slave that attaches to a master with no log can end up quiet and wrong. */
  lemma EmptyLogLosesAWrite(a: World) returns (z: World)
    requires Attach(a) && a.m.log == []
    ensures Leads(a, z) && Quiet(z) && z.slave.data != KvPart(z.m.data)
  {
    z := LosesWrite(a, COPY_BATCH + 1, 0, 1);
  }

  ghost predicate AlwaysConverges(a: World) {
    forall z :: Leads(a, z) && Quiet(z) ==> z.slave.data == KvPart(z.m.data)
  }

  /** Replication is right in every interleaving exactly if the master had logged something before
      the slave attached. */
  lemma ConvergesExactlyWithALog(a: World)
    requires Attach(a)
    ensures AlwaysConverges(a) <==> a.m.log != []
  {
    if a.m.log == [] {
      var z := EmptyLogLosesAWrite(a);
    } else {
      forall z | Leads(a, z) && Quiet(z)
        ensures z.slave.data == KvPart(z.m.data)
      {
        var r :| Steps(r) && r[0] == a && r[|r| - 1] == z;
        Converges(r, |r| - 1);
      }
    }
  }
}
