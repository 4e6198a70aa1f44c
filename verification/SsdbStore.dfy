/** The store and its log: every change and its log record go to disk in one batch. */
module SsdbStore {
  import opened Collections
  import opened Lexicographic
  import opened ByteOrder
  import opened SsdbCodec

  /* ---- the disk: an ordered map with atomic batches ---- */

  datatype Op = PutOp(key: Bytes, value: Bytes) | DelOp(key: Bytes)

  function Apply(m: map<Bytes, Bytes>, op: Op): map<Bytes, Bytes> {
    match op
    case PutOp(k, v) => m[k := v]
    case DelOp(k) => m - {k}
  }

  function ApplyAll(m: map<Bytes, Bytes>, ops: seq<Op>): map<Bytes, Bytes> {
    if ops == [] then m else Apply(ApplyAll(m, ops[..|ops| - 1]), ops[|ops| - 1])
  }

  // r is the least key at or above `target`.
  ghost predicate IsCeiling(m: map<Bytes, Bytes>, target: Bytes, r: Option<Bytes>) {
    match r
    case None => forall k :: k in m ==> Less(k, target)
    case Some(c) => c in m && !Less(c, target) && forall k :: k in m && !Less(k, target) ==> !Less(k, c)
  }

  // r is the greatest key below `target`, or the greatest key if there is no target.
  ghost predicate IsFloor(m: map<Bytes, Bytes>, target: Option<Bytes>, r: Option<Bytes>) {
    match r
    case None => forall k :: k in m ==> target.Some? && !Less(k, target.value)
    case Some(f) =>
      && f in m && (target.Some? ==> Less(f, target.value))
      && forall k :: k in m && (target.Some? ==> Less(k, target.value)) ==> !Less(f, k)
  }

  class Disk {
    var m: map<Bytes, Bytes>

    constructor ()
      ensures m == map[]
    {
      m := map[];
    }

    // Whether the write succeeds is the disk's affair; it is all or nothing.
    method Write(batch: seq<Op>, ok: bool)
      modifies this
      ensures m == if ok then ApplyAll(old(m), batch) else old(m)
    {
      if ok {
        for i := 0 to |batch|
          invariant m == ApplyAll(old(m), batch[..i])
        {
          assert batch[..i + 1][..i] == batch[..i];
          match batch[i] {
            case PutOp(k, v) => m := m[k := v];
            case DelOp(k) => m := m - {k};
          }
        }
        assert batch[..|batch|] == batch;
      }
    }

    method Seek(target: Bytes) returns (r: Option<Bytes>)
      ensures IsCeiling(m, target, r)
    {
      r := None;
      var todo := m.Keys;
      while todo != {}
        invariant todo <= m.Keys
        invariant r.Some? ==> r.value in m && !Less(r.value, target)
        invariant forall k :: k in m && k !in todo && !Less(k, target) ==> r.Some? && !Less(k, r.value)
        decreases |todo|
      {
        var k := AnyOf(todo);
        todo := todo - {k};
        if !Less(k, target) && (r.None? || Less(k, r.value)) {
          LessIsTransitive(k, r);
          r := Some(k);
        }
        RankOrder(k, k);
      }
    }

    method Prev(target: Option<Bytes>) returns (r: Option<Bytes>)
      ensures IsFloor(m, target, r)
    {
      r := None;
      var todo := m.Keys;
      while todo != {}
        invariant todo <= m.Keys
        invariant r.Some? ==> r.value in m && (target.Some? ==> Less(r.value, target.value))
        invariant forall k :: k in m && k !in todo && (target.Some? ==> Less(k, target.value)) ==>
                    r.Some? && !Less(r.value, k)
        decreases |todo|
      {
        var k := AnyOf(todo);
        todo := todo - {k};
        if (target.None? || Less(k, target.value)) && (r.None? || Less(r.value, k)) {
          LessIsTransitive(k, r);
          r := Some(k);
        }
        RankOrder(k, k);
      }
    }
  }

  method AnyOf(s: set<Bytes>) returns (k: Bytes)
    requires s != {}
    ensures k in s
  {
    k :| k in s;
  }

  lemma LessIsTransitive(k: Bytes, r: Option<Bytes>)
    ensures r.Some? && Less(k, r.value) ==> forall x :: !Less(x, r.value) ==> !Less(x, k)
    ensures r.Some? && Less(r.value, k) ==> forall x :: !Less(r.value, x) ==> !Less(k, x)
  {
    if r.Some? {
      RankOrder(k, r.value);
      RankOrder(r.value, k);
      forall x
        ensures Less(k, r.value) && !Less(x, r.value) ==> !Less(x, k)
        ensures Less(r.value, k) && !Less(r.value, x) ==> !Less(k, x)
      {
        RankOrder(x, r.value);
        RankOrder(x, k);
        RankOrder(r.value, x);
        RankOrder(k, x);
      }
    }
  }

  /* ---- what the log part of the disk means ---- */

  datatype Entry = Entry(cmd: char, key: Bytes)

  ghost predicate IsSlot(m: map<Bytes, Bytes>, k: Bytes) {
    var n := DecodeSeqKey(k);
    k in m && 1 <= n < UINT64_MAX && k == EncodeSeqKey(n) && Binlog(m[k]).Loads() && Binlog(m[k]).Seq() == n
  }

  // Keys in the log's range are log keys, each holding its own record.
  ghost predicate LogClean(m: map<Bytes, Bytes>) {
    forall k :: k in m && IsLogKey(k) ==> IsSlot(m, k)
  }

  // The log keys are exactly 1..last.
  ghost predicate InStep(m: map<Bytes, Bytes>, last: nat) {
    && LogClean(m) && last < UINT64_MAX
    && (forall n :: 1 <= n <= last ==> EncodeSeqKey(n) in m)
    && (forall k :: k in m && IsLogKey(k) ==> DecodeSeqKey(k) <= last)
  }

  ghost function EntryAt(m: map<Bytes, Bytes>, n: nat): Entry {
    var key := EncodeSeqKey(n);
    if key in m && Binlog(m[key]).Loads() then Entry(Binlog(m[key]).Cmd(), Binlog(m[key]).Key()) else Entry(CMD_NONE, "")
  }

  lemma SlotsLoad(m: map<Bytes, Bytes>, last: nat, n: nat)
    requires InStep(m, last) && 1 <= n <= last
    ensures EncodeSeqKey(n) in m && Binlog(m[EncodeSeqKey(n)]).Loads()
    ensures Binlog(m[EncodeSeqKey(n)]).Seq() == n
  {
    SeqKeyRoundTrip(n);
    assert IsSlot(m, EncodeSeqKey(n));
  }

  // The log as a sequence: entry i has sequence number i + 1.
  ghost function LogOf(m: map<Bytes, Bytes>, last: nat): (log: seq<Entry>)
    ensures |log| == last
  {
    seq(last, i requires 0 <= i < last => EntryAt(m, i + 1))
  }

  // Everything that is not log.
  function DataOf(m: map<Bytes, Bytes>): map<Bytes, Bytes> {
    map k | k in m && !IsLogKey(k) :: m[k]
  }

  ghost predicate IsLatest(m: map<Bytes, Bytes>, r: Option<Binlog>) {
    match r
    case None => forall k :: k in m ==> !IsLogKey(k)
    case Some(b) =>
      && b.Loads() && EncodeSeqKey(b.Seq()) in m && m[EncodeSeqKey(b.Seq())] == b.buf
      && forall k :: k in m && IsLogKey(k) ==> DecodeSeqKey(k) <= b.Seq()
  }

  // r is the record with the least sequence number from n on.
  ghost predicate IsNext(m: map<Bytes, Bytes>, n: nat, r: Option<Binlog>) {
    match r
    case None => forall k :: k in m && IsLogKey(k) ==> DecodeSeqKey(k) < n
    case Some(b) =>
      && b.Loads() && b.Seq() >= n && EncodeSeqKey(b.Seq()) in m && m[EncodeSeqKey(b.Seq())] == b.buf
      && forall k :: k in m && IsLogKey(k) && DecodeSeqKey(k) >= n ==> DecodeSeqKey(k) >= b.Seq()
  }

  // A key between two keys of the log's range is in that range.
  lemma BetweenLogKeys(a: Bytes, x: Bytes, b: Bytes)
    requires IsLogKey(a) && IsLogKey(b) && !Less(x, a) && !Less(b, x)
    ensures IsLogKey(x)
  {
  }

  /* ---- the log queue ---- */

  // The record of a new log entry.
  function NewRecord(last: nat, typ: char, cmd: char, key: Bytes): (b: Bytes)
    requires last + 1 < UINT64_MAX
    ensures Binlog(b).Loads() && Binlog(b).Seq() == last + 1 && Binlog(b).Cmd() == cmd && Binlog(b).Key() == key
  {
    RecordRoundTrip(last + 1, typ, cmd, key);
    Record(last + 1, typ, cmd, key).buf
  }

  function LogOp(last: nat, typ: char, cmd: char, key: Bytes): Op
    requires last + 1 < UINT64_MAX
  {
    PutOp(EncodeSeqKey(last + 1), NewRecord(last, typ, cmd, key))
  }

  class BinlogQueue {
    const db: Disk
    var lastSeq: nat
    var tranSeq: nat
    var batch: seq<Op>

    ghost predicate Valid()
      reads this, db
    {
      InStep(db.m, lastSeq)
    }

    /** Opening a store finds where its log ends. */
    constructor (db: Disk, ghost last: nat)
      requires InStep(db.m, last)
      ensures this.db == db && Valid() && lastSeq == last
    {
      this.db := db;
      lastSeq := 0;
      tranSeq := 0;
      batch := [];
      new;
      var log := FindLast();
      if log.Some? {
        lastSeq := log.value.Seq();
      }
      if last > 0 {
        SlotsLoad(db.m, last, last);
        SeqKeyRoundTrip(last);
        assert IsLogKey(EncodeSeqKey(last));
      }
      if log.Some? {
        var k := EncodeSeqKey(lastSeq);
        assert IsSlot(db.m, k);
        SeqKeyRoundTrip(lastSeq);
      }
    }

    method Put(key: Bytes, value: Bytes)
      modifies `batch
      ensures batch == old(batch) + [PutOp(key, value)]
    {
      batch := batch + [PutOp(key, value)];
    }

    method Delete(key: Bytes)
      modifies `batch
      ensures batch == old(batch) + [DelOp(key)]
    {
      batch := batch + [DelOp(key)];
    }

    method Begin()
      modifies `tranSeq, `batch
      ensures tranSeq == lastSeq && batch == []
    {
      tranSeq := lastSeq;
      batch := [];
    }

    method Commit(ok: bool) returns (s: bool)
      modifies `lastSeq, `tranSeq, db
      ensures s == ok
      ensures db.m == if ok then ApplyAll(old(db.m), batch) else old(db.m)
      ensures lastSeq == if ok then old(tranSeq) else old(lastSeq)
      ensures tranSeq == if ok then 0 else old(tranSeq)
    {
      db.Write(batch, ok);
      s := ok;
      if s {
        lastSeq := tranSeq;
        tranSeq := 0;
      }
    }

    method Rollback()
      modifies `tranSeq
      ensures tranSeq == 0
    {
      tranSeq := 0;
    }

    method AddLog(typ: char, cmd: char, key: Bytes)
      requires tranSeq + 1 < UINT64_MAX
      modifies `tranSeq, `batch
      ensures tranSeq == old(tranSeq) + 1
      ensures batch == old(batch) + [LogOp(old(tranSeq), typ, cmd, key)]
    {
      tranSeq := tranSeq + 1;
      var log := Record(tranSeq, typ, cmd, key);
      batch := batch + [PutOp(EncodeSeqKey(tranSeq), log.buf)];
    }

    method FindLast() returns (r: Option<Binlog>)
      requires LogClean(db.m)
      ensures IsLatest(db.m, r)
    {
      r := None;
      var top := EncodeSeqKey(UINT64_MAX);
      var it := db.Seek(top);
      if it.None? {
        it := db.Prev(None);
      } else {
        it := db.Prev(it);
      }
      if it.Some? && DecodeSeqKey(it.value) != 0 {
        var b := Binlog(db.m[it.value]);
        if b.Loads() {
          r := Some(b);
        }
      }
      LatestBelow(db.m, top, it, r);
    }

    method Get(num: nat) returns (r: Option<Binlog>)
      ensures r == (if EncodeSeqKey(num) in db.m && Binlog(db.m[EncodeSeqKey(num)]).Loads()
                    then Some(Binlog(db.m[EncodeSeqKey(num)])) else None)
    {
      var key := EncodeSeqKey(num);
      if key in db.m {
        var b := Binlog(db.m[key]);
        if b.Loads() {
          return Some(b);
        }
      }
      return None;
    }

    method FindNext(num: nat) returns (r: Option<Binlog>)
      requires LogClean(db.m) && num <= UINT64_MAX
      ensures IsNext(db.m, num, r)
    {
      SeqKeyRoundTrip(num);
      r := Get(num);
      if r.Some? {
        assert IsSlot(db.m, EncodeSeqKey(num));
        return;
      }
      var it := db.Seek(EncodeSeqKey(num));
      if it.Some? && DecodeSeqKey(it.value) != 0 {
        var b := Binlog(db.m[it.value]);
        if b.Loads() {
          r := Some(b);
        }
      }
      NextAbove(db.m, num, it, r);
    }
  }

  // The greatest key below everything past the log's range is the latest log key, if any is.
  lemma LatestBelow(m: map<Bytes, Bytes>, top: Bytes, it: Option<Bytes>, r: Option<Binlog>)
    requires LogClean(m) && top == EncodeSeqKey(UINT64_MAX)
    requires exists c: Option<Bytes> :: IsCeiling(m, top, c) && IsFloor(m, c, it)
    requires r == if it.Some? && DecodeSeqKey(it.value) != 0 && Binlog(m[it.value]).Loads()
                  then Some(Binlog(m[it.value])) else None
    ensures IsLatest(m, r)
  {
    var c: Option<Bytes> :| IsCeiling(m, top, c) && IsFloor(m, c, it);
    forall k | k in m && IsLogKey(k)
      ensures it.Some? && IsLogKey(it.value) && it.value in m && DecodeSeqKey(k) <= DecodeSeqKey(it.value)
    {
      assert IsSlot(m, k);
      SeqKeyOrder(DecodeSeqKey(k), UINT64_MAX);
      if c.Some? {
        RankOrder(c.value, top);
        RankOrder(k, c.value);
        RankOrder(k, top);
      }
      var f := it.value;
      if c.Some? { RankOrder(f, c.value); RankOrder(f, top); }
      RankOrder(top, f);
      RankOrder(f, top);
      RankOrder(f, k);
      RankOrder(k, f);
      BetweenLogKeys(k, f, top);
      assert IsSlot(m, f);
      SeqKeyOrder(DecodeSeqKey(f), DecodeSeqKey(k));
    }
    if it.Some? && IsLogKey(it.value) {
      assert IsSlot(m, it.value);
    }
  }

  lemma NextAbove(m: map<Bytes, Bytes>, num: nat, it: Option<Bytes>, r: Option<Binlog>)
    requires LogClean(m) && num <= UINT64_MAX && IsCeiling(m, EncodeSeqKey(num), it)
    requires r == if it.Some? && DecodeSeqKey(it.value) != 0 && Binlog(m[it.value]).Loads()
                  then Some(Binlog(m[it.value])) else None
    ensures IsNext(m, num, r)
  {
    var low := EncodeSeqKey(num);
    forall k | k in m && IsLogKey(k) && DecodeSeqKey(k) >= num
      ensures it.Some? && IsLogKey(it.value) && it.value in m && DecodeSeqKey(k) >= DecodeSeqKey(it.value)
    {
      assert IsSlot(m, k);
      SeqKeyOrder(DecodeSeqKey(k), num);
      var c := it.value;
      BetweenLogKeys(low, c, k);
      assert IsSlot(m, c);
      SeqKeyOrder(DecodeSeqKey(k), DecodeSeqKey(c));
    }
    if it.Some? && IsLogKey(it.value) {
      assert IsSlot(m, it.value);
      SeqKeyOrder(DecodeSeqKey(it.value), num);
    }
  }
}
