/** The two ends of replication: the master's sync client, which copies a sorted snapshot while it
    tails the log, and the slave, which applies what it is sent. First as functions on their state,
    then as the classes that update it. */
module SsdbReplica {
  import opened Collections
  import opened Lexicographic
  import opened ByteOrder
  import opened SsdbCodec
  import opened SsdbStore

  datatype Status = INIT | OUT_OF_SYNC | COPY | SYNC

  // The records of one packet: a log record, and for some commands a value.
  type Packet = seq<Bytes>

  // The snapshot the copy iterates, if one is open. Its position is the client's last key.
  type Snapshot = map<Bytes, Bytes>

  datatype Client = Client(status: Status, lastSeq: nat, lastKey: Bytes, iter: Option<Snapshot>, link: seq<Packet>)

  const COPY_BATCH: nat := 1000

  function Packed(num: nat, typ: char, cmd: char, key: Bytes): Bytes { Record(num, typ, cmd, key).buf }

  /* ---- the master's end ---- */

  function Reset(c: Client): Client {
    c.(status := COPY, lastSeq := 0, lastKey := "",
       link := c.link + [[Packed(0, TYPE_COPY, CMD_BEGIN, ""), "copy_begin"]])
  }

  function FallOut(c: Client): Client {
    c.(status := OUT_OF_SYNC, link := c.link + [[Packed(c.lastSeq, TYPE_CTRL, CMD_NONE, "OUT_OF_SYNC")]])
  }

  datatype Fetched = Nothing | Dropped | Fell | Took(num: nat)

  // A log whose entries are numbered base + 1, base + 2, ...; a whole log has base 0.
  datatype LogView = LogView(base: nat, entries: seq<Entry>) {
    function Last(): nat { base + |entries| }

    function At(num: nat): Entry
      requires base < num <= Last()
    {
      entries[num - 1 - base]
    }

    function FindLast(): Option<nat> {
      if entries == [] then None else Some(Last())
    }

    // The least number from `num` on.
    function FindNext(num: nat): Option<nat> {
      if entries == [] || num > Last() then None else Some(if num <= base then base + 1 else num)
    }
  }

  // The view of a store's whole log.
  ghost function ViewOf(m: map<Bytes, Bytes>, last: nat): LogView { LogView(0, LogOf(m, last)) }

  // A record of the queue is the view's answer: same number, same entry.
  ghost predicate Answers(m: map<Bytes, Bytes>, last: nat, r: Option<Binlog>, n: Option<nat>) {
    && (r.Some? <==> n.Some?)
    && (r.Some? ==>
          r.value.Loads() && r.value.Seq() == n.value && 0 < n.value <= last &&
          ViewOf(m, last).At(n.value) == Entry(r.value.Cmd(), r.value.Key()))
  }

  // A stored record stands in the view at its own number.
  lemma RecordInView(m: map<Bytes, Bytes>, last: nat, b: Binlog)
    requires InStep(m, last) && b.Loads() && EncodeSeqKey(b.Seq()) in m && m[EncodeSeqKey(b.Seq())] == b.buf
    ensures 1 <= b.Seq() <= last && ViewOf(m, last).At(b.Seq()) == Entry(b.Cmd(), b.Key())
  {
    hide Be, UnBe;
    var k := EncodeSeqKey(b.Seq());
    assert IsLogKey(k);
    assert IsSlot(m, k);
    assert Binlog(m[k]) == b;
  }

  lemma NumberInStore(m: map<Bytes, Bytes>, last: nat, n: nat)
    requires InStep(m, last) && 1 <= n <= last
    ensures EncodeSeqKey(n) in m && IsLogKey(EncodeSeqKey(n)) && DecodeSeqKey(EncodeSeqKey(n)) == n
  {
    SeqKeyRoundTrip(n);
  }

  /** What the log queue finds last in a store in step with its log is what the view finds last. */
  lemma QueueFindsLast(m: map<Bytes, Bytes>, last: nat, r: Option<Binlog>)
    requires InStep(m, last) && IsLatest(m, r)
    ensures Answers(m, last, r, ViewOf(m, last).FindLast())
  {
    hide EncodeSeqKey, DecodeSeqKey, IsLogKey, IsSlot;
    if last > 0 { NumberInStore(m, last, last); }
    if r.Some? { RecordInView(m, last, r.value); }
    if r.Some? { NumberInStore(m, last, r.value.Seq()); }
  }

  /** And so for the least record from a number on. */
  lemma QueueFindsNext(m: map<Bytes, Bytes>, last: nat, num: nat, r: Option<Binlog>)
    requires InStep(m, last) && num >= 1 && IsNext(m, num, r)
    ensures Answers(m, last, r, ViewOf(m, last).FindNext(num))
  {
    hide EncodeSeqKey, DecodeSeqKey, IsLogKey, IsSlot;
    if num <= last { NumberInStore(m, last, num); }
    if r.Some? { RecordInView(m, last, r.value); }
    if r.Some? { NumberInStore(m, last, r.value.Seq()); }
  }

  function Found(c: Client, log: LogView): Option<nat> {
    if c.status == COPY && c.lastSeq == 0 then log.FindLast() else log.FindNext(c.lastSeq + 1)
  }

  // One turn of sync()'s search loop.
  function Fetch(c: Client, log: LogView): (r: (Client, Fetched))
    ensures r.1.Took? ==> log.base < r.1.num <= log.Last()
    ensures r.1.Dropped? ==> c.lastSeq < r.0.lastSeq <= log.Last()
  {
    match Found(c, log)
    case None => (c, Nothing)
    case Some(n) =>
      if c.status == COPY && Less(c.lastKey, log.At(n).key) then (c.(lastSeq := n, iter := None), Dropped)
      else if c.lastSeq != 0 && n != c.lastSeq + 1 then (FallOut(c), Fell)
      else (c.(lastSeq := n), Took(n))
  }

  // What sync() sends for the entry it took, reading the store as it is by then.
  function Deliver(c: Client, num: nat, e: Entry, data: map<Bytes, Bytes>): Client {
    var rec := Packed(num, TYPE_SYNC, e.cmd, e.key);
    if e.cmd == CMD_KSET then
      if e.key in data then c.(link := c.link + [[rec, data[e.key]]]) else c
    else if e.cmd == CMD_KDEL then c.(link := c.link + [[rec]])
    else c
  }

  function SyncRun(c: Client, log: LogView, data: map<Bytes, Bytes>): (Client, int)
    requires c.lastSeq <= log.Last()
    decreases log.Last() - c.lastSeq
  {
    var (c', f) := Fetch(c, log);
    match f
    case Nothing => (c', 0)
    case Dropped => SyncRun(c', log, data)
    case Fell => (c', 1)
    case Took(n) => (Deliver(c', n, log.At(n), data), 0)
  }

  function Start(lastKey: Bytes): Bytes { if lastKey == "" then [MIN_PREFIX] else lastKey }

  // r is the least key of the snapshot past `start`.
  ghost predicate IsNextKey(snap: Snapshot, start: Bytes, r: Option<Bytes>) {
    match r
    case None => forall k :: k in snap ==> !Less(start, k)
    case Some(n) => n in snap && Less(start, n) && forall k :: k in snap && Less(start, k) ==> !Less(k, n)
  }

  ghost function NextKey(snap: Snapshot, start: Bytes): (r: Option<Bytes>)
    ensures IsNextKey(snap, start, r)
  {
    NextKeyExists(snap, start);
    var r :| IsNextKey(snap, start, r);
    r
  }

  lemma {:induction false} NextKeyExists(snap: Snapshot, start: Bytes)
    ensures exists r :: IsNextKey(snap, start, r)
    decreases |snap|
  {
    if k :| k in snap {
      var rest := snap - {k};
      NextKeyExists(rest, start);
      var r :| IsNextKey(rest, start, r);
      LessIsTransitive(k, r);
      RankOrder(k, k);
      if r.Some? { RankOrder(r.value, k); }
      assert forall x :: x in snap ==> x == k || x in rest;
      if Less(start, k) && (r.None? || Less(k, r.value)) {
        assert IsNextKey(snap, start, Some(k));
      } else {
        assert IsNextKey(snap, start, r);
      }
    } else {
      assert IsNextKey(snap, start, None);
    }
  }

  lemma NextKeyUnique(snap: Snapshot, start: Bytes, r: Option<Bytes>)
    requires IsNextKey(snap, start, r)
    ensures r == NextKey(snap, start)
  {
    var s := NextKey(snap, start);
    if r.Some? && s.Some? {
      RankOrder(r.value, s.value);
      RankOrder(s.value, r.value);
    }
  }

  // char is signed on the host: bytes from 128 up compare below every prefix.
  predicate PastTypes(k: Bytes)
    requires k != ""
  {
    MAX_PREFIX < k[0] < '\U{0080}'
  }

  function Finish(c: Client): Client {
    c.(status := SYNC, iter := None,
       link := c.link + [[Packed(c.lastSeq, TYPE_COPY, CMD_END, ""), "copy_end"]])
  }

  function Pass(c: Client, k: Bytes, val: Bytes): Client
    requires k != ""
  {
    if k[0] == KV then c.(lastKey := k, link := c.link + [[Packed(c.lastSeq, TYPE_COPY, CMD_KSET, k), val]])
    else c.(lastKey := k)
  }

  // One turn of copy()'s loop over the open snapshot.
  ghost function CopyNext(c: Client): Client
    requires c.iter.Some?
  {
    var k := NextKey(c.iter.value, Start(c.lastKey));
    if k.None? || PastTypes(k.value) then Finish(c) else Pass(c, k.value, c.iter.value[k.value])
  }

  // `turns` more turns at most.
  ghost function CopyRun(c: Client, turns: nat): Client
    requires c.iter.Some?
    decreases turns
  {
    if turns == 0 then c
    else
      var c' := CopyNext(c);
      if c'.iter.None? then c' else CopyRun(c', turns - 1)
  }

  lemma {:induction false} CopyRunStep(c: Client, turns: nat)
    requires c.iter.Some? && CopyRun(c, turns).iter.Some?
    ensures CopyRun(c, turns + 1) == CopyNext(CopyRun(c, turns))
    decreases turns
  {
    if turns > 0 { CopyRunStep(CopyNext(c), turns - 1); }
  }

  ghost function Opened(c: Client, data: map<Bytes, Bytes>): Client {
    if c.iter.None? then c.(iter := Some(data)) else c
  }

  class BackendClient {
    var status: Status
    var lastSeq: nat
    var lastKey: Bytes
    var iter: Option<Snapshot>
    var link: seq<Packet>

    ghost function State(): Client
      reads this
    {
      Client(status, lastSeq, lastKey, iter, link)
    }

    constructor ()
      ensures State() == Client(INIT, 0, "", None, [])
    {
      status, lastSeq, lastKey, iter, link := INIT, 0, "", None, [];
    }

    /** Only a slave with nothing yet starts a copy; any other stays where it is. */
    method Init(lastSeq: nat, lastKey: Bytes)
      modifies this
      ensures var c := old(State()).(lastSeq := lastSeq, lastKey := lastKey);
              State() == if lastKey == "" && lastSeq == 0 then Reset(c) else c
    {
      this.lastSeq := lastSeq;
      this.lastKey := lastKey;
      if lastKey == "" && lastSeq == 0 {
        status := COPY;
        this.lastSeq := 0;
        this.lastKey := "";
        link := link + [[Packed(0, TYPE_COPY, CMD_BEGIN, ""), "copy_begin"]];
      }
    }

    method OutOfSync()
      modifies this
      ensures State() == FallOut(old(State()))
    {
      status := OUT_OF_SYNC;
      link := link + [[Packed(lastSeq, TYPE_CTRL, CMD_NONE, "OUT_OF_SYNC")]];
    }

    method Sync(log: LogView, data: map<Bytes, Bytes>) returns (r: int)
      requires lastSeq <= log.Last()
      modifies this
      ensures (State(), r) == SyncRun(old(State()), log, data)
    {
      var num := 0;
      while true
        invariant lastSeq <= log.Last()
        invariant SyncRun(State(), log, data) == SyncRun(old(State()), log, data)
        decreases log.Last() - lastSeq
      {
        var wanted := lastSeq + 1;
        var found := if status == COPY && lastSeq == 0 then log.FindLast() else log.FindNext(wanted);
        if found.None? {
          return 0;
        }
        num := found.value;
        if status == COPY && Less(lastKey, log.At(num).key) {
          lastSeq := num;
          iter := None;
          continue;
        }
        if lastSeq != 0 && num != wanted {
          OutOfSync();
          return 1;
        }
        lastSeq := num;
        break;
      }
      var e := log.At(num);
      if e.cmd == CMD_KSET {
        if e.key in data {
          link := link + [[Packed(num, TYPE_SYNC, e.cmd, e.key), data[e.key]]];
        }
      } else if e.cmd == CMD_KDEL {
        link := link + [[Packed(num, TYPE_SYNC, e.cmd, e.key)]];
      }
      r := 0;
    }

    // The body of copy()'s loop: whether the copy ends, and whether a key is sent.
    method CopyTurn() returns (ended: bool, sent: bool)
      requires iter.Some?
      modifies this
      ensures State() == CopyNext(old(State())) && (ended <==> iter.None?)
      ensures !ended ==> |link| == |old(link)| + if sent then 1 else 0
    {
      var k := NextOf(iter.value, Start(lastKey));
      NextKeyUnique(iter.value, Start(lastKey), k);
      if k.None? || PastTypes(k.value) {
        status := SYNC;
        iter := None;
        link := link + [[Packed(lastSeq, TYPE_COPY, CMD_END, ""), "copy_end"]];
        return true, true;
      }
      var val := iter.value[k.value];
      lastKey := k.value;
      ended, sent := false, k.value[0] == KV;
      if sent {
        link := link + [[Packed(lastSeq, TYPE_COPY, CMD_KSET, k.value), val]];
      }
    }

    /** Returns the number of keys sent, or 1 at the end of the copy; on 0 the worker may sleep. */
    method Copy(data: map<Bytes, Bytes>) returns (ret: nat)
      modifies this
      ensures State() == CopyRun(Opened(old(State()), data), COPY_BATCH)
      ensures ret == if iter.None? then 1 else |link| - |old(link)|
    {
      hide CopyNext;
      if iter.None? {
        iter := Some(data);
      }
      ghost var entry, before := State(), |link|;
      var count := 0;
      ret := 0;
      while true
        invariant 0 <= count <= COPY_BATCH && iter.Some? && |link| == before + ret
        invariant State() == CopyRun(entry, count)
        decreases COPY_BATCH - count
      {
        count := count + 1;
        if count > COPY_BATCH {
          break;
        }
        CopyRunStep(entry, count - 1);
        var ended, sent := CopyTurn();
        if ended {
          CopyRunStops(entry, count, COPY_BATCH);
          return 1;
        }
        ret := ret + if sent then 1 else 0;
      }
    }
  }

  // Once the copy has ended, further turns change nothing.
  lemma {:induction false} CopyRunStops(c: Client, n: nat, m: nat)
    requires c.iter.Some? && n <= m && CopyRun(c, n).iter.None?
    ensures CopyRun(c, m) == CopyRun(c, n)
    decreases n
  {
    if n > 0 && CopyNext(c).iter.Some? {
      CopyRunStops(CopyNext(c), n - 1, m - 1);
    }
  }

  method NextOf(snap: Snapshot, start: Bytes) returns (r: Option<Bytes>)
    ensures IsNextKey(snap, start, r)
    ensures r.Some? ==> r.value != ""
  {
    r := None;
    var todo := snap.Keys;
    while todo != {}
      invariant todo <= snap.Keys
      invariant r.Some? ==> r.value in snap && Less(start, r.value)
      invariant forall k :: k in snap && k !in todo && Less(start, k) ==> r.Some? && !Less(k, r.value)
      decreases |todo|
    {
      var k := AnyOf(todo);
      todo := todo - {k};
      if Less(start, k) && (r.None? || Less(k, r.value)) {
        LessIsTransitive(k, r);
        r := Some(k);
      }
      RankOrder(k, k);
    }
  }

  /* ---- the slave's end ---- */

  datatype Slave = Slave(status: Status, lastSeq: nat, lastKey: Bytes, data: map<Bytes, Bytes>)

  // The slave's own store: set refuses an empty key, del does not.
  function StoreSet(data: map<Bytes, Bytes>, key: Bytes, val: Bytes): map<Bytes, Bytes> {
    if key == "" then data else data[EncodeKv(key) := val]
  }

  function SlaveSync(s: Slave, log: Binlog, req: Packet): Slave
    requires log.Loads()
  {
    var key := DecodeKv(log.Key());
    var data :=
      if log.Cmd() == CMD_KSET then
        if |req| == 2 && key.Some? then StoreSet(s.data, key.value, req[1]) else s.data
      else if log.Cmd() == CMD_KDEL then
        if key.Some? then s.data - {EncodeKv(key.value)} else s.data
      else s.data;
    s.(data := data, lastSeq := log.Seq(), lastKey := if log.Type() == TYPE_COPY then log.Key() else s.lastKey)
  }

  function SlaveCopy(s: Slave, log: Binlog, req: Packet): Slave
    requires log.Loads()
  {
    if log.Cmd() == CMD_BEGIN then s
    else if log.Cmd() == CMD_END then s.(status := SYNC, lastKey := "")
    else SlaveSync(s, log, req)
  }

  function SlaveApply(s: Slave, req: Packet): Slave {
    if req == [] || !Binlog(req[0]).Loads() then s
    else
      var log := Binlog(req[0]);
      if log.Type() == TYPE_CTRL then (if log.Key() == "OUT_OF_SYNC" then s.(status := OUT_OF_SYNC) else s)
      else if log.Type() == TYPE_COPY then SlaveCopy(s.(status := COPY), log, req)
      else if log.Type() == TYPE_SYNC || log.Type() == TYPE_MIRROR then SlaveSync(s.(status := SYNC), log, req)
      else s
  }

  class SlaveNode {
    var status: Status
    var lastSeq: nat
    var lastKey: Bytes
    var data: map<Bytes, Bytes>

    ghost function State(): Slave
      reads this
    {
      Slave(status, lastSeq, lastKey, data)
    }

    constructor ()
      ensures State() == Slave(INIT, 0, "", map[])
    {
      status, lastSeq, lastKey, data := INIT, 0, "", map[];
    }

    method Proc(req: Packet)
      requires req != []
      modifies this
      ensures State() == SlaveApply(old(State()), req)
    {
      var log := Binlog(req[0]);
      if !log.Loads() {
        return;
      }
      match log.Type() {
        case '\U{0004}' =>
          if log.Key() == "OUT_OF_SYNC" {
            status := OUT_OF_SYNC;
          }
        case '\U{0003}' =>
          status := COPY;
          ProcCopy(log, req);
        case '\U{0001}' =>
          status := SYNC;
          ProcSync(log, req);
        case '\U{0002}' =>
          status := SYNC;
          ProcSync(log, req);
        case _ =>
      }
    }

    method ProcSync(log: Binlog, req: Packet)
      requires log.Loads()
      modifies this
      ensures State() == SlaveSync(old(State()), log, req)
    {
      if log.Cmd() == CMD_KSET {
        if |req| == 2 {
          var key := DecodeKv(log.Key());
          if key.Some? && key.value != "" {
            data := data[EncodeKv(key.value) := req[1]];
          }
        }
      } else if log.Cmd() == CMD_KDEL {
        var key := DecodeKv(log.Key());
        if key.Some? {
          data := data - {EncodeKv(key.value)};
        }
      }
      lastSeq := log.Seq();
      if log.Type() == TYPE_COPY {
        lastKey := log.Key();
      }
    }

    method ProcCopy(log: Binlog, req: Packet)
      requires log.Loads()
      modifies this
      ensures State() == SlaveCopy(old(State()), log, req)
    {
      if log.Cmd() == CMD_BEGIN {
      } else if log.Cmd() == CMD_END {
        status := SYNC;
        lastKey := "";
      } else {
        ProcSync(log, req);
      }
    }
  }
}
