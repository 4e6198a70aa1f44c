/** The worker's loop, made of whole calls of Sync() and Copy(): each call is a run of single steps of
    the replicated system, so what holds in every interleaving of those holds of the loop. */
module SsdbWorker {
  import opened Collections
  import opened Lexicographic
  import opened ByteOrder
  import opened SsdbCodec
  import opened SsdbStore
  import opened SsdbReplica
  import opened SsdbReplication
  import opened SsdbSettles
  import opened SsdbResume

  ghost function Final(r: seq<World>): World
    requires r != []
  {
    r[|r| - 1]
  }

  /* ---- one call of sync() ---- */

  ghost predicate Skips(w: World, w': World) {
    FetchStep(w, w') && w'.pc == AtSync && w'.c.lastSeq > w.c.lastSeq
  }

  ghost predicate Takes(w: World, w': World) {
    FetchStep(w, w') && w'.pc == InHand(w'.c.lastSeq)
  }

  // The log has nothing for the client, or has a gap.
  ghost predicate Stops(w: World, w': World) {
    FetchStep(w, w') && w'.c.lastSeq == w.c.lastSeq && w'.pc == AfterSync(w'.c)
  }

  ghost predicate SkipsAt(r: seq<World>, i: nat)
    requires 1 <= i < |r|
  {
    Skips(r[i - 1], r[i])
  }

  // Entries of keys not copied yet are skipped; then nothing is found, or one entry is taken and delivered.
  ghost predicate SyncPath(r: seq<World>) {
    || (|r| >= 2 && (forall i: nat :: 1 <= i < |r| - 1 ==> SkipsAt(r, i)) && Stops(r[|r| - 2], r[|r| - 1]))
    || (|r| >= 3 && (forall i: nat :: 1 <= i < |r| - 2 ==> SkipsAt(r, i))
        && Takes(r[|r| - 3], r[|r| - 2]) && DeliverStep(r[|r| - 2], r[|r| - 1]))
  }

  lemma SkipFirst(w: World, r: seq<World>)
    requires SyncPath(r) && Skips(w, r[0])
    ensures SyncPath([w] + r)
  {
    var r' := [w] + r;
    forall i: nat | 2 <= i < |r'| && SkipsAt(r, i - 1) ensures SkipsAt(r', i) {}
    assert SkipsAt(r', 1);
  }

  /** Whatever the state of the world, a call of Sync() leaves the client as such a path does. */
  lemma {:induction false} SyncIsSteps(w: World) returns (r: seq<World>)
    requires w.pc == AtSync && w.c.status != OUT_OF_SYNC && w.c.lastSeq <= |w.m.log|
    ensures SyncPath(r) && r[0] == w
    ensures var c := SyncRun(w.c, LogView(0, w.m.log), w.m.data).0; Final(r) == w.(c := c, pc := AfterSync(c))
    decreases |w.m.log| - w.c.lastSeq
  {
    var log := LogView(0, w.m.log);
    var (c', f) := Fetch(w.c, log);
    match f
    case Nothing => r := [w, w.(c := c', pc := AfterSync(c'))];
    case Fell => r := [w, w.(c := c', pc := AfterSync(c'))];
    case Dropped =>
      var w1 := w.(c := c');
      r := SyncIsSteps(w1);
      SkipFirst(w, r);
      r := [w] + r;
    case Took(n) =>
      var w1 := w.(c := c', pc := InHand(n));
      r := [w, w1, w1.(c := Deliver(c', n, log.At(n), w.m.data), pc := AfterSync(c'))];
  }

  // The log has lost entries the client still needs, and the first one left is not skipped.
  ghost predicate Gap(c: Client, log: LogView) {
    && 0 < c.lastSeq < log.base && log.entries != []
    && (c.status == COPY ==> !Less(c.lastKey, log.At(log.base + 1).key))
  }

  /** Sync() gives up exactly on a gap in the log, and then the slave hears of it. */
  lemma {:induction false} FallsOutExactly(c: Client, log: LogView, data: map<Bytes, Bytes>, s: Slave)
    requires c.lastSeq <= log.Last() <= UINT64_MAX
    ensures SyncRun(c, log, data).1 == if Gap(c, log) then 1 else 0
    ensures var c' := SyncRun(c, log, data).0;
            if Gap(c, log) then c'.status == Drain(s, c'.link).status == OUT_OF_SYNC && c'.lastSeq == c.lastSeq
            else c'.status == c.status
    decreases log.Last() - c.lastSeq
  {
    var (c', f) := Fetch(c, log);
    if f.Dropped? {
      DroppedClosesGap(c, log);
      hide Fetch, Drain;
      FallsOutExactly(c', log, data, s);
    } else if f.Fell? {
      var p := [Packed(c.lastSeq, TYPE_CTRL, CMD_NONE, "OUT_OF_SYNC")];
      DrainAppend(s, c.link, p);
      RecordRoundTrip(c.lastSeq, TYPE_CTRL, CMD_NONE, "OUT_OF_SYNC");
    }
  }

  lemma DroppedClosesGap(c: Client, log: LogView)
    requires c.lastSeq <= log.Last() && Fetch(c, log).1.Dropped?
    ensures !Gap(c, log) && !Gap(Fetch(c, log).0, log)
  {
  }

  /* ---- one call of copy() ---- */

  ghost predicate CopiesAt(r: seq<World>, i: nat)
    requires 1 <= i < |r|
  {
    CopyStep(r[i - 1], r[i])
  }

  ghost predicate CopyPath(r: seq<World>) {
    |r| >= 2 && r[0].pc.AtCopy? && Final(r).pc == AtSync && forall i: nat :: 1 <= i < |r| ==> CopiesAt(r, i)
  }

  lemma CopyFirst(w: World, r: seq<World>)
    requires r != [] && (CopyPath(r) || (|r| == 1 && r[0].pc == AtSync)) && CopyStep(w, r[0])
    ensures CopyPath([w] + r)
  {
    var r' := [w] + r;
    forall i: nat | 1 <= i < |r'| ensures CopiesAt(r', i) {
      if i > 1 { assert CopiesAt(r, i - 1); }
    }
  }

  lemma {:induction false} CopyRunIsSteps(w: World) returns (r: seq<World>)
    requires w.pc.AtCopy? && w.pc.turns <= COPY_BATCH && w.c.iter.Some?
    ensures CopyPath(r) && r[0] == w
    ensures Final(r) == w.(c := CopyRun(w.c, COPY_BATCH - w.pc.turns), pc := AtSync)
    decreases COPY_BATCH - w.pc.turns
  {
    if w.pc.turns == COPY_BATCH {
      r := [w.(pc := AtSync)];
    } else {
      var c' := CopyNext(w.c);
      if c'.iter.None? {
        r := [w.(c := c', pc := AtSync)];
      } else {
        r := CopyRunIsSteps(w.(c := c', pc := AtCopy(w.pc.turns + 1)));
      }
    }
    CopyFirst(w, r);
    r := [w] + r;
  }

  /** A call of Copy() leaves the client as the steps of the copy do, from its opening to the end of the batch. */
  lemma CopyIsSteps(w: World) returns (r: seq<World>)
    requires w.pc == AtCopy(0)
    ensures CopyPath(r) && r[0] == w
    ensures Final(r) == w.(c := CopyRun(Opened(w.c, w.m.data), COPY_BATCH), pc := AtSync)
  {
    if w.c.iter.Some? {
      r := CopyRunIsSteps(w);
    } else {
      r := CopyRunIsSteps(w.(c := Opened(w.c, w.m.data)));
      CopyFirst(w, r);
      r := [w] + r;
    }
  }

  /* ---- paths and progress ---- */

  // Steps of the worker, none of them from a settled world.
  ghost predicate BusyAt(r: seq<World>, i: nat)
    requires 1 <= i < |r|
  {
    WorkerStep(r[i - 1], r[i]) && !Settled(r[i - 1])
  }

  ghost predicate Busy(r: seq<World>) {
    |r| >= 2 && forall i: nat :: 1 <= i < |r| ==> BusyAt(r, i)
  }

  lemma SyncIsBusy(r: seq<World>)
    requires SyncPath(r) && !Settled(r[0])
    ensures Busy(r)
  {
    forall i: nat | 1 <= i < |r| ensures BusyAt(r, i) {
      assert 1 < i < |r| - 1 ==> SkipsAt(r, i - 1);
      assert i < |r| - 2 ==> SkipsAt(r, i);
      assert i > 1 && i == |r| - 1 && r[i - 1].pc == AtSync ==> SkipsAt(r, i - 1);
      assert i == |r| - 2 ==> SkipsAt(r, i) || Takes(r[i - 1], r[i]);
    }
  }

  lemma CopyIsBusy(r: seq<World>)
    requires CopyPath(r)
    ensures Busy(r)
  {
    hide Settled;
    forall i: nat | 1 <= i < |r| ensures BusyAt(r, i) {
      assert CopiesAt(r, i);
      NotSettled(r[i - 1]);
    }
  }

  lemma NotSettled(w: World)
    requires w.pc != AtSync
    ensures !Settled(w)
  {
  }

  lemma CloserOn(a: World, b: World, c: World)
    requires Closer(a, b) && Closer(b, c)
    ensures Closer(a, c)
  {
  }

  lemma IsNext(a: World, b: World)
    requires WorkerStep(a, b)
    ensures Next(a, b)
  {
  }

  /** A path of the worker keeps the invariant, comes closer, and is a run of the system. */
  lemma {:induction false} BusyGetsCloser(a0: World, r: seq<World>)
    requires Busy(r) && Inv(r[0]) && Leads(a0, r[0])
    ensures Inv(Final(r)) && Final(r).m == r[0].m && Closer(r[0], Final(r)) && Leads(a0, Final(r))
    decreases |r|
  {
    hide Inv, Closer, WorkerStep, Settled;
    var n := |r| - 1;
    var a, b := r[n - 1], r[n];
    assert BusyAt(r, n);
    if n > 1 {
      forall i: nat | 1 <= i < n ensures BusyAt(r[..n], i) { assert BusyAt(r, i); }
      BusyGetsCloser(a0, r[..n]);
    }
    WorkerGetsCloser(a, b);
    IsNext(a, b);
    NextKeeps(a, b);
    LeadsOn(a0, a, b);
    if n > 1 { CloserOn(r[0], a, b); }
  }

  // One turn of the worker's loop while nobody else moves.
  ghost function TurnOf(w: World): Client
    requires w.c.lastSeq <= |w.m.log|
  {
    var c := SyncRun(w.c, LogView(0, w.m.log), w.m.data).0;
    if c.status == COPY then CopyRun(Opened(c, w.m.data), COPY_BATCH) else c
  }

  lemma TurnGetsCloser(w: World)
    requires Inv(w) && w.pc == AtSync
    ensures var z := w.(c := TurnOf(w)); Inv(z) && Leads(w, z) && (!Settled(w) ==> Closer(w, z))
  {
    LeadsSelf(w);
    if Settled(w) {
      assert TurnOf(w) == w.c;
    } else {
      var r := SyncIsSteps(w);
      var w1 := Final(r);
      SyncIsBusy(r);
      assert w.c.lastSeq <= |w.m.log|;
      hide Inv, Closer, Settled, CopyRun, SyncRun, Opened;
      BusyGetsCloser(w, r);
      if w1.c.status == COPY {
        var r2 := CopyIsSteps(w1);
        CopyIsBusy(r2);
        BusyGetsCloser(w, r2);
        CloserOn(w, w1, Final(r2));
      }
    }
  }

  lemma {:induction false} LeadsJoin(a: World, b: World, c: World)
    requires Leads(a, b) && Leads(b, c)
    ensures Leads(a, c)
  {
    var r :| Steps(r) && r[0] == b && r[|r| - 1] == c;
    LeadsAlong(a, r, |r| - 1);
  }

  lemma {:induction false} LeadsAlong(a: World, r: seq<World>, i: nat)
    requires Steps(r) && i < |r| && Leads(a, r[0])
    ensures Leads(a, r[i])
  {
    if i > 0 {
      LeadsAlong(a, r, i - 1);
      assert NextAt(r, i);
      LeadsOn(a, r[i - 1], r[i]);
    }
  }

  lemma SlaveStepLeads(a: World, w: World, w': World)
    requires Inv(w) && Leads(a, w) && SlaveStep(w, w')
    ensures Inv(w') && Leads(a, w')
  {
    NextKeeps(w, w');
    LeadsOn(a, w, w');
  }

  // The measure of `Closer`, as a lexicographic one.
  lemma CloserFalls(w: World, w': World)
    requires Closer(w, w')
    ensures LogAhead(w') <= LogAhead(w)
    ensures LogAhead(w') == LogAhead(w) ==> CopyAhead(w') <= CopyAhead(w)
    ensures LogAhead(w') == LogAhead(w) && CopyAhead(w') == CopyAhead(w) ==> PcRank(w') < PcRank(w)
  {
  }

  lemma CountsLog(w: World)
    requires Inv(w)
    ensures LogAhead(w) >= 0
  {
  }

  lemma NotDone(w: World)
    requires !Tailing(w.c) || w.c.lastSeq != |w.m.log|
    ensures !Settled(w)
  {
  }

  lemma DoneIsQuiet(w: World)
    requires Inv(w) && w.pc == AtSync && Tailing(w.c) && w.c.lastSeq == |w.m.log| && w.c.link == []
    ensures Quiet(w) && w.slave.data == KvPart(w.m.data)
  {
    assert Quiet(w);
    QuietIsRight(w);
  }

  /** The system as its two ends run it: the worker's loop of Sync() and Copy(), the slave's loop of Proc(),
      and a master that may be written between their turns. */
  class Replication {
    var m: Master
    var client: BackendClient
    const node: SlaveNode

    ghost function Now(): World
      reads this, client, node
    {
      World(m, client.State(), AtSync, node.State())
    }

    /** A slave with nothing attaches to a master with a log. */
    constructor (m: Master)
      requires MasterOk(m) && 0 < |m.log| < UINT64_MAX
      ensures this.m == m && fresh(client) && fresh(node) && Attach(Now()) && Inv(Now())
    {
      this.m := m;
      client := new BackendClient();
      node := new SlaveNode();
      new;
      client.Init(0, "");
      AttachOk(Now());
    }

    method Write(m': Master)
      requires Inv(Now()) && SsdbReplication.Write(m, m') && |m'.log| < UINT64_MAX
      modifies this
      ensures m == m' && Leads(old(Now()), Now()) && Inv(Now())
    {
      ghost var w := Now();
      m := m';
      LeadsSelf(w);
      LeadsOn(w, w, Now());
      WriteStepKeeps(w, Now());
    }

    /** One turn of the worker's loop. */
    method Turn()
      requires Inv(Now())
      modifies client
      ensures Leads(old(Now()), Now()) && Inv(Now())
      ensures !old(Settled(Now())) ==> Closer(old(Now()), Now())
    {
      TurnGetsCloser(Now());
      assert client.lastSeq <= |m.log| && client.status != OUT_OF_SYNC;
      hide Inv, Leads, Settled, Closer, SyncRun, CopyRun, Opened;
      var r := client.Sync(LogView(0, m.log), m.data);
      if client.status == COPY {
        var ret := client.Copy(m.data);
      }
    }

    /** The slave takes the next packet off the link. */
    method Receive()
      requires Inv(Now()) && client.link != []
      modifies client, node
      ensures Leads(old(Now()), Now()) && Inv(Now()) && client.link == old(client.link[1..])
      ensures client.status == old(client.status) && client.lastSeq == old(client.lastSeq)
    {
      ghost var w := Now();
      LeadsSelf(w);
      var packet := client.link[0];
      client.link := client.link[1..];
      if packet != [] {
        node.Proc(packet);
      }
      SlaveStepLeads(w, w, Now());
    }

    /** The link breaks with all that is on it, and a new client starts from what the slave remembers. */
    method Reconnect()
      modifies this`client
      ensures fresh(client) && Now() == Reconnected(old(Now()))
    {
      client := new BackendClient();
      client.Init(node.lastSeq, node.lastKey);
    }

    /** When writing stops, the two loops end with the slave holding the master's KV data. */
    method CatchUp()
      requires Inv(Now())
      modifies client, node
      ensures Leads(old(Now()), Now()) && Inv(Now()) && Quiet(Now())
      ensures node.data == KvPart(m.data)
    {
      ghost var w := Now();
      LeadsSelf(w);
      CountsLog(w);
      hide Inv, Leads, Closer, LogAhead, CopyAhead, PcRank, Settled, Quiet, KvPart;
      while client.status == COPY || client.lastSeq != |m.log|
        invariant Inv(Now()) && Leads(w, Now()) && LogAhead(Now()) >= 0
        decreases LogAhead(Now()), CopyAhead(Now()), PcRank(Now())
      {
        ghost var w1 := Now();
        NotDone(w1);
        Turn();
        LeadsJoin(w, w1, Now());
        CountsLog(Now());
        CloserFalls(w1, Now());
      }
      while client.link != []
        invariant Inv(Now()) && Leads(w, Now()) && Tailing(Now().c) && client.lastSeq == |m.log|
        decreases |client.link|
      {
        ghost var w1 := Now();
        Receive();
        LeadsJoin(w, w1, Now());
      }
      DoneIsQuiet(Now());
    }
  }
}
