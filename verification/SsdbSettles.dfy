/** Replication gets there: once writers stop, the worker and the slave reach a quiet state in
    finitely many steps, with the slave holding the master's data. */
module SsdbSettles {
  import opened Collections
  import opened Lexicographic
  import opened ByteOrder
  import opened SsdbCodec
  import opened SsdbStore
  import opened SsdbReplica
  import opened SsdbReplication

  ghost predicate WorkerStep(w: World, w': World) {
    FetchStep(w, w') || DeliverStep(w, w') || CopyStep(w, w')
  }

  // Nothing left for the worker to do until the master is written again.
  ghost predicate Settled(w: World) {
    Tailing(w.c) && w.pc == AtSync && w.c.lastSeq == |w.m.log|
  }

  ghost function LogAhead(w: World): int { |w.m.log| - w.c.lastSeq }

  ghost function KeysPast(snap: Snapshot, start: Bytes): set<Bytes> {
    set k | k in snap && Less(start, k)
  }

  ghost function KeysAhead(w: World): set<Bytes> {
    KeysPast(if w.c.iter.Some? then w.c.iter.value else w.m.data, Start(w.c.lastKey))
  }

  ghost function CopyAhead(w: World): nat {
    if w.c.status == COPY then 1 + |KeysAhead(w)| else 0
  }

  ghost function PcRank(w: World): nat {
    (match w.pc
     case InHand(n) => 6
     case AtCopy(t) => if t >= COPY_BATCH then 4 else 0
     case AtSync => 2)
    + if w.c.iter.None? then 1 else 0
  }

  ghost predicate Closer(w: World, w': World) {
    || LogAhead(w') < LogAhead(w)
    || (LogAhead(w') == LogAhead(w) && CopyAhead(w') < CopyAhead(w))
    || (LogAhead(w') == LogAhead(w) && CopyAhead(w') == CopyAhead(w) && PcRank(w') < PcRank(w))
  }

  /** Every worker step gets closer: the log ahead shrinks, or the keys still to copy do, or the
      worker moves on inside its loop. */
  lemma WorkerGetsCloser(w: World, w': World)
    requires Inv(w) && WorkerStep(w, w') && !Settled(w)
    ensures Closer(w, w') && w'.m == w.m
  {
    match w.pc
    case AtSync => FetchKeepsClient(w, w');
    case InHand(n) =>
    case AtCopy(t) =>
      if w.c.iter.Some? && t < COPY_BATCH && w'.c.status == COPY {
        var k := NextKey(w.c.iter.value, Start(w.c.lastKey)).value;
        KeyPassed(w.c.iter.value, w.c.lastKey, k);
      }
  }

  // Passing the key k leaves strictly fewer keys ahead.
  lemma KeyPassed(snap: Snapshot, lastKey: Bytes, k: Bytes)
    requires k in snap && k != "" && Less(Start(lastKey), k)
    ensures |KeysPast(snap, Start(k))| < |KeysPast(snap, Start(lastKey))|
  {
    var after, before := KeysPast(snap, Start(k)), KeysPast(snap, Start(lastKey));
    RankOrder(k, k);
    RankOrder(Start(lastKey), k);
    forall x | x in after
      ensures x in before
    {
      RankOrder(k, x);
      RankOrder(Start(lastKey), x);
    }
    Shrinks(after, before, k);
  }

  lemma WorkerCanStep(w: World) returns (w': World)
    requires Inv(w)
    ensures WorkerStep(w, w')
  {
    assert ClientOk(w);
    hide Inv, Fetch, Deliver, CopyNext, Opened;
    match w.pc
    case AtSync =>
      var (c', f) := Fetch(w.c, LogView(0, w.m.log));
      var pc' := match f
        case Nothing => AfterSync(c')
        case Dropped => AtSync
        case Fell => AfterSync(c')
        case Took(n) => InHand(n);
      w' := w.(c := c', pc := pc');
    case InHand(n) =>
      w' := w.(c := Deliver(w.c, n, w.m.log[n - 1], w.m.data), pc := AfterSync(w.c));
    case AtCopy(t) =>
      if w.c.iter.None? { w' := w.(c := Opened(w.c, w.m.data)); }
      else if t + 1 > COPY_BATCH { w' := w.(pc := AtSync); }
      else {
        var c' := CopyNext(w.c);
        w' := w.(c := c', pc := if c'.iter.None? then AtSync else AtCopy(t + 1));
      }
  }

  /* ---- runs by their ends ---- */

  ghost predicate Leads(a: World, b: World) {
    exists r :: Steps(r) && r[0] == a && r[|r| - 1] == b
  }

  lemma LeadsSelf(a: World)
    ensures Leads(a, a)
  {
    var r := [a];
    assert Steps(r);
  }

  lemma LeadsOn(a: World, b: World, c: World)
    requires Leads(a, b) && Next(b, c)
    ensures Leads(a, c)
  {
    var r :| Steps(r) && r[0] == a && r[|r| - 1] == b;
    var r' := r + [c];
    forall i: nat | 1 <= i < |r'|
      ensures NextAt(r', i)
    {
      if i < |r| { assert NextAt(r, i); }
    }
    assert Steps(r');
  }

  lemma {:induction false} WorkerSettles(a: World, w: World) returns (z: World)
    requires Inv(w) && Leads(a, w)
    ensures Inv(z) && Leads(a, z) && Settled(z) && z.m == w.m
    decreases LogAhead(w), CopyAhead(w), PcRank(w)
  {
    if Settled(w) {
      z := w;
    } else {
      var w' := WorkerCanStep(w);
      WorkerGetsCloser(w, w');
      NextKeeps(w, w');
      LeadsOn(a, w, w');
      z := WorkerSettles(a, w');
    }
  }

  lemma {:induction false} SlaveDrains(a: World, w: World) returns (z: World)
    requires Inv(w) && Leads(a, w) && Settled(w)
    ensures Inv(z) && Leads(a, z) && Quiet(z) && z.m == w.m
    decreases |w.c.link|
  {
    if w.c.link == [] {
      z := w;
    } else {
      var w' := w.(c := w.c.(link := w.c.link[1..]), slave := SlaveApply(w.slave, w.c.link[0]));
      assert SlaveStep(w, w');
      NextKeeps(w, w');
      LeadsOn(a, w, w');
      z := SlaveDrains(a, w');
    }
  }

  /** From any reachable state, if the master is written no more, worker and slave alone bring
      the slave to the master's KV data. */
  lemma EventuallyConverges(r: seq<World>, i: nat) returns (z: World)
    requires IsRun(r) && r[0].m.log != [] && i < |r|
    ensures Leads(r[i], z) && Quiet(z) && z.m == r[i].m && z.slave.data == KvPart(z.m.data)
  {
    RunOk(r, i);
    LeadsSelf(r[i]);
    z := WorkerSettles(r[i], r[i]);
    z := SlaveDrains(r[i], z);
    QuietIsRight(z);
  }
}
