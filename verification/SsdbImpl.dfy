/** The database operations over the store: KV set and delete, hash set with its size counter. */
module SsdbImpl {
  import opened Collections
  import opened Lexicographic
  import opened ByteOrder
  import opened SsdbCodec
  import opened SsdbStore

  const KEY_LEN_MAX := 255

  /* ---- effect of one disk write on data and log ---- */

  lemma SlotAdded(m: map<Bytes, Bytes>, last: nat, rec: Bytes)
    requires InStep(m, last) && last + 1 < UINT64_MAX
    requires Binlog(rec).Loads() && Binlog(rec).Seq() == last + 1
    ensures InStep(m[EncodeSeqKey(last + 1) := rec], last + 1)
  {
    SeqKeyRoundTrip(last + 1);
    hide EncodeSeqKey, DecodeSeqKey, IsLogKey;
    var fresh_ := EncodeSeqKey(last + 1);
    var m' := m[fresh_ := rec];
    forall k | k in m' && IsLogKey(k)
      ensures IsSlot(m', k) && DecodeSeqKey(k) <= last + 1
    {
      if k != fresh_ { assert IsSlot(m, k); }
    }
  }

  // Earlier entries are where they were.
  lemma EntryKept(m: map<Bytes, Bytes>, last: nat, rec: Bytes, n: nat)
    requires n <= last && last + 1 < UINT64_MAX
    ensures EntryAt(m[EncodeSeqKey(last + 1) := rec], n) == EntryAt(m, n)
  {
    SeqKeyOrder(n, last + 1);
    SeqKeyRoundTrip(n);
    SeqKeyRoundTrip(last + 1);
  }

  lemma LogAppended(m: map<Bytes, Bytes>, last: nat, rec: Bytes)
    requires InStep(m, last) && last + 1 < UINT64_MAX
    requires Binlog(rec).Loads() && Binlog(rec).Seq() == last + 1
    ensures var m' := m[EncodeSeqKey(last + 1) := rec];
            InStep(m', last + 1) && DataOf(m') == DataOf(m) &&
            LogOf(m', last + 1) == LogOf(m, last) + [Entry(Binlog(rec).Cmd(), Binlog(rec).Key())]
  {
    SlotAdded(m, last, rec);
    var m' := m[EncodeSeqKey(last + 1) := rec];
    assert DataOf(m') == DataOf(m);
    assert EntryAt(m', last + 1) == Entry(Binlog(rec).Cmd(), Binlog(rec).Key());
    hide EncodeSeqKey, EntryAt, InStep, DataOf;
    forall i | 0 <= i < last
      ensures LogOf(m', last + 1)[i] == LogOf(m, last)[i]
    {
      EntryKept(m, last, rec, i + 1);
    }
  }

  lemma DataPut(m: map<Bytes, Bytes>, last: nat, k: Bytes, v: Bytes)
    requires InStep(m, last) && !IsLogKey(k)
    ensures InStep(m[k := v], last) && DataOf(m[k := v]) == DataOf(m)[k := v]
    ensures LogOf(m[k := v], last) == LogOf(m, last)
  {
    SameLog(m, m[k := v], last);
  }

  lemma DataDeleted(m: map<Bytes, Bytes>, last: nat, k: Bytes)
    requires InStep(m, last) && !IsLogKey(k)
    ensures InStep(m - {k}, last) && DataOf(m - {k}) == DataOf(m) - {k}
    ensures LogOf(m - {k}, last) == LogOf(m, last)
  {
    SameLog(m, m - {k}, last);
  }

  // What every operation keeps of the disk, besides the log.
  ghost predicate Sound(m: map<Bytes, Bytes>) { SizesOk(m) && EncodeKv("") !in m }

  lemma SetApplied(m: map<Bytes, Bytes>, last: nat, key: Bytes, val: Bytes)
    requires InStep(m, last) && Sound(m) && last + 1 < UINT64_MAX && key != ""
    ensures var buf := EncodeKv(key);
            var m' := ApplyAll(m, [PutOp(buf, val), LogOp(last, TYPE_SYNC, CMD_KSET, buf)]);
            InStep(m', last + 1) && Sound(m') && DataOf(m') == DataOf(m)[buf := val] &&
            LogOf(m', last + 1) == LogOf(m, last) + [Entry(CMD_KSET, buf)]
  {
    var buf := EncodeKv(key);
    assert buf[0] == KV && buf[1..] == key;
    var op := LogOp(last, TYPE_SYNC, CMD_KSET, buf);
    TwoOps(m, [PutOp(buf, val), op]);
    DataPut(m, last, buf, val);
    LogAppended(m[buf := val], last, op.value);
    assert op.key[0] == SYNCLOG;
    SizesUntouched(m, m[buf := val][op.key := op.value]);
  }

  lemma DelApplied(m: map<Bytes, Bytes>, last: nat, key: Bytes)
    requires InStep(m, last) && Sound(m) && last + 1 < UINT64_MAX
    ensures var buf := EncodeKv(key);
            var m' := ApplyAll(m, [DelOp(buf), LogOp(last, TYPE_SYNC, CMD_KDEL, buf)]);
            InStep(m', last + 1) && Sound(m') && DataOf(m') == DataOf(m) - {buf} &&
            LogOf(m', last + 1) == LogOf(m, last) + [Entry(CMD_KDEL, buf)]
  {
    var buf := EncodeKv(key);
    assert buf[0] == KV;
    var op := LogOp(last, TYPE_SYNC, CMD_KDEL, buf);
    TwoOps(m, [DelOp(buf), op]);
    DataDeleted(m, last, buf);
    LogAppended(m - {buf}, last, op.value);
    assert op.key[0] == SYNCLOG;
    SizesUntouched(m, (m - {buf})[op.key := op.value]);
  }

  lemma SameLog(m: map<Bytes, Bytes>, m': map<Bytes, Bytes>, last: nat)
    requires InStep(m, last)
    requires forall k :: IsLogKey(k) ==> (k in m <==> k in m') && (k in m ==> m[k] == m'[k])
    ensures InStep(m', last) && LogOf(m', last) == LogOf(m, last)
  {
    forall n | 1 <= n <= last
      ensures EncodeSeqKey(n) in m'
    {
      assert IsLogKey(EncodeSeqKey(n));
    }
    forall k | k in m' && IsLogKey(k)
      ensures IsSlot(m', k)
    {
      assert IsSlot(m, k);
    }
    forall i | 0 <= i < last
      ensures LogOf(m', last)[i] == LogOf(m, last)[i]
    {
      SlotsLoad(m, last, i + 1);
      assert IsLogKey(EncodeSeqKey(i + 1));
    }
  }

  /* ---- hash sizes ---- */

  // The size an eight-byte record stands for: a signed number, negative ones read as zero.
  function SizeFrom(val: Bytes): nat {
    if |val| != 8 then 0 else if UnLe(val) > INT64_MAX then 0 else UnLe(val)
  }

  function StoredSize(m: map<Bytes, Bytes>, name: Bytes): nat {
    if EncodeHsize(name) in m then SizeFrom(m[EncodeHsize(name)]) else 0
  }

  // The stored keys of the fields of hash `name`.
  ghost function Fields(m: map<Bytes, Bytes>, name: Bytes): set<Bytes> {
    set k | k in m && IsFieldOf(name, k)
  }

  // Every counter agrees with the fields it counts.
  ghost predicate SizesOk(m: map<Bytes, Bytes>) {
    forall name {:trigger Fields(m, name)} {:trigger StoredSize(m, name)} :: |name| <= 255 ==> StoredSize(m, name) == |Fields(m, name)|
  }

  lemma SizesUntouched(m: map<Bytes, Bytes>, m': map<Bytes, Bytes>)
    requires SizesOk(m)
    requires forall k :: k != "" && (k[0] == HASH || k[0] == HSIZE) ==>
               (k in m <==> k in m') && (k in m ==> m[k] == m'[k])
    ensures SizesOk(m')
  {
    forall name | |name| <= 255
      ensures StoredSize(m', name) == |Fields(m', name)|
    {
      assert Fields(m', name) == Fields(m, name);
    }
  }

  lemma FieldAdded(m: map<Bytes, Bytes>, name: Bytes, hkey: Bytes, val: Bytes, size: Bytes)
    requires SizesOk(m) && |name| <= 255 && IsFieldOf(name, hkey) && hkey !in m
    requires SizeFrom(size) == StoredSize(m, name) + 1
    ensures SizesOk(m[hkey := val][EncodeHsize(name) := size])
  {
    var sizeKey := EncodeHsize(name);
    var m' := m[hkey := val][sizeKey := size];
    assert sizeKey[0] == HSIZE && sizeKey[1..] == name;
    forall other | |other| <= 255
      ensures StoredSize(m', other) == |Fields(m', other)|
    {
      if other == name {
        assert Fields(m', name) == Fields(m, name) + {hkey};
      } else {
        if IsFieldOf(other, hkey) { HashKeysAreApart(name, other, hkey); }
        assert Fields(m', other) == Fields(m, other);
        assert EncodeHsize(other)[0] == HSIZE && EncodeHsize(other)[1..] == other;
      }
    }
  }

  lemma FieldOverwritten(m: map<Bytes, Bytes>, name: Bytes, hkey: Bytes, val: Bytes)
    requires SizesOk(m) && IsFieldOf(name, hkey) && hkey in m
    ensures SizesOk(m[hkey := val])
  {
    forall other | |other| <= 255
      ensures StoredSize(m[hkey := val], other) == |Fields(m[hkey := val], other)|
    {
      assert EncodeHsize(other)[0] == HSIZE;
      assert Fields(m[hkey := val], other) == Fields(m, other);
    }
  }

  lemma SizeRoundTrip(size: nat)
    requires size <= INT64_MAX
    ensures SizeFrom(Le(size, 8)) == size
  {
    Pow256Of8();
    LeRoundTrip(size, 8);
  }

  /* ---- the database ---- */

  class SSDBImpl {
    const ldb: Disk
    const binlogs: BinlogQueue

    ghost predicate Valid()
      reads this, ldb, binlogs
    {
      && binlogs.db == ldb && InStep(ldb.m, binlogs.lastSeq)
      && Sound(ldb.m)
    }

    ghost function Data(): map<Bytes, Bytes>
      reads ldb
    {
      DataOf(ldb.m)
    }

    ghost function Log(): seq<Entry>
      reads this, ldb, binlogs
    {
      LogOf(ldb.m, binlogs.lastSeq)
    }

    /** Opening, or reopening, a store whose log keys are 1..last. */
    constructor Open(ldb: Disk, ghost last: nat)
      requires InStep(ldb.m, last) && Sound(ldb.m)
      ensures this.ldb == ldb && fresh(binlogs) && Valid() && binlogs.lastSeq == last
    {
      this.ldb := ldb;
      binlogs := new BinlogQueue(ldb, last);
    }

    method Set(key: Bytes, val: Bytes, ok: bool) returns (r: int)
      requires Valid() && binlogs.lastSeq + 1 < UINT64_MAX
      modifies binlogs, ldb
      ensures Valid()
      ensures r == if key == "" then 0 else if ok then 1 else -1
      ensures r == 1 ==> Data() == old(Data())[EncodeKv(key) := val] &&
                         Log() == old(Log()) + [Entry(CMD_KSET, EncodeKv(key))]
      ensures r != 1 ==> ldb.m == old(ldb.m) && binlogs.lastSeq == old(binlogs.lastSeq)
    {
      if key == "" {
        return 0;
      }
      var last, m := binlogs.lastSeq, ldb.m;
      binlogs.Begin();
      var buf := EncodeKv(key);
      binlogs.Put(buf, val);
      binlogs.AddLog(TYPE_SYNC, CMD_KSET, buf);
      assert binlogs.batch == [PutOp(buf, val), LogOp(last, TYPE_SYNC, CMD_KSET, buf)];
      SetApplied(m, last, key, val);
      var s := binlogs.Commit(ok);
      binlogs.Rollback();
      r := if s then 1 else -1;
    }

    method Del(key: Bytes, ok: bool) returns (r: int)
      requires Valid() && binlogs.lastSeq + 1 < UINT64_MAX
      modifies binlogs, ldb
      ensures Valid()
      ensures r == if ok then 1 else -1
      ensures r == 1 ==> Data() == old(Data()) - {EncodeKv(key)} &&
                         Log() == old(Log()) + [Entry(CMD_KDEL, EncodeKv(key))]
      ensures r != 1 ==> ldb.m == old(ldb.m) && binlogs.lastSeq == old(binlogs.lastSeq)
    {
      var last, m := binlogs.lastSeq, ldb.m;
      binlogs.Begin();
      var buf := EncodeKv(key);
      binlogs.Delete(buf);
      binlogs.AddLog(TYPE_SYNC, CMD_KDEL, buf);
      assert binlogs.batch == [DelOp(buf), LogOp(last, TYPE_SYNC, CMD_KDEL, buf)];
      DelApplied(m, last, key);
      var s := binlogs.Commit(ok);
      binlogs.Rollback();
      r := if s then 1 else -1;
    }

    method Get(key: Bytes) returns (r: Option<Bytes>)
      ensures r == if EncodeKv(key) in ldb.m then Some(ldb.m[EncodeKv(key)]) else None
    {
      var buf := EncodeKv(key);
      r := if buf in ldb.m then Some(ldb.m[buf]) else None;
    }

    method Hget(name: Bytes, key: Bytes) returns (r: Option<Bytes>)
      ensures r == FieldOf(ldb.m, name, key)
    {
      var dbkey := EncodeHash(name, key);
      r := if dbkey in ldb.m then Some(ldb.m[dbkey]) else None;
    }

    /** The counter is the number of distinct fields stored under the name. */
    method Hsize(name: Bytes) returns (size: nat)
      requires Valid()
      ensures size == StoredSize(ldb.m, name)
      ensures |name| <= 255 ==> size == |Fields(ldb.m, name)|
    {
      var sizeKey := EncodeHsize(name);
      if sizeKey !in ldb.m {
        return 0;
      }
      var val := ldb.m[sizeKey];
      if |val| != 8 {
        return 0;
      }
      size := if UnLe(val) > INT64_MAX then 0 else UnLe(val);
    }

    // Returns -1 for a refused name or key, else the number of fields added.
    method HsetOne(name: Bytes, key: Bytes, val: Bytes, typ: char) returns (r: int)
      requires Valid() && binlogs.lastSeq + 1 < UINT64_MAX
      requires binlogs.tranSeq == binlogs.lastSeq && binlogs.batch == []
      modifies binlogs`tranSeq, binlogs`batch
      ensures Refused(name, key) ==> r == -1 && binlogs.batch == [] && binlogs.tranSeq == binlogs.lastSeq
      ensures !Refused(name, key) ==> r == if EncodeHash(name, key) in ldb.m then 0 else 1
      ensures var last := binlogs.lastSeq;
              !Refused(name, key) ==>
                var hkey := EncodeHash(name, key);
                binlogs.tranSeq == (if Changes(ldb.m, hkey, val) then last + 1 else last) &&
                binlogs.batch == (if Changes(ldb.m, hkey, val) then FieldOps(last, hkey, val, typ) else [])
    {
      if name == "" || key == "" {
        return -1;
      }
      if |name| > KEY_LEN_MAX {
        return -1;
      }
      if |key| > KEY_LEN_MAX {
        return -1;
      }
      var dbval := Hget(name, key);
      var hkey := EncodeHash(name, key);
      ghost var last := binlogs.lastSeq;
      if dbval.None? {
        binlogs.Put(hkey, val);
        binlogs.AddLog(typ, CMD_HSET, hkey);
        r := 1;
      } else {
        if dbval.value != val {
          binlogs.Put(hkey, val);
          binlogs.AddLog(typ, CMD_HSET, hkey);
        }
        r := 0;
      }
    }

    method IncrHsize(name: Bytes, incr: int)
      requires Valid() && StoredSize(ldb.m, name) + incr >= 0
      modifies binlogs`batch
      ensures var size := StoredSize(ldb.m, name) + incr;
              binlogs.batch == old(binlogs.batch) +
                [if size == 0 then DelOp(EncodeHsize(name)) else PutOp(EncodeHsize(name), Le(size, 8))]
    {
      var size := Hsize(name);
      var total := size + incr;
      var sizeKey := EncodeHsize(name);
      if total == 0 {
        binlogs.Delete(sizeKey);
      } else {
        binlogs.Put(sizeKey, Le(total, 8));
      }
    }

    method Hset(name: Bytes, key: Bytes, val: Bytes, typ: char, ok: bool) returns (r: int)
      requires Valid() && binlogs.lastSeq + 1 < UINT64_MAX && StoredSize(ldb.m, name) < INT64_MAX
      modifies binlogs, ldb
      ensures Valid()
      ensures var hkey := EncodeHash(name, key);
              r == if Refused(name, key) || !ok then -1 else if hkey in old(ldb.m) then 0 else 1
      ensures var hkey := EncodeHash(name, key);
              if r != -1 && Changes(old(ldb.m), hkey, val)
              then Committed(old(ldb.m), ldb.m, old(binlogs.lastSeq), name, hkey, val) &&
                   binlogs.lastSeq == old(binlogs.lastSeq) + 1
              else ldb.m == old(ldb.m) && binlogs.lastSeq == old(binlogs.lastSeq)
    {
      var last, m := binlogs.lastSeq, ldb.m;
      binlogs.Begin();
      r := HsetOne(name, key, val, typ);
      if r >= 0 {
        if r > 0 {
          IncrHsize(name, r);
        }
        ghost var hkey := EncodeHash(name, key);
        assert binlogs.batch == HsetBatch(m, last, name, hkey, val, typ);
        assert binlogs.tranSeq == if Changes(m, hkey, val) then last + 1 else last;
        HsetApplied(m, last, binlogs.batch, name, key, val, typ);
        var s := binlogs.Commit(ok);
        if !s {
          binlogs.Rollback();
          return -1;
        }
      }
      binlogs.Rollback();
    }
  }

  predicate Refused(name: Bytes, key: Bytes) {
    name == "" || key == "" || |name| > KEY_LEN_MAX || |key| > KEY_LEN_MAX
  }

  // What an hget finds; it checks no lengths.
  function FieldOf(m: map<Bytes, Bytes>, name: Bytes, key: Bytes): Option<Bytes> {
    if EncodeHash(name, key) in m then Some(m[EncodeHash(name, key)]) else None
  }

  /** After an accepted hset the field reads back, and every other name and field, of any length, reads
      as it did before. */
  lemma HsetThenHget(m: map<Bytes, Bytes>, m': map<Bytes, Bytes>, name: Bytes, key: Bytes, val: Bytes)
    requires !Refused(name, key) && HsetDone(m, m', name, EncodeHash(name, key), val)
    ensures FieldOf(m', name, key) == Some(val)
    ensures forall name', key' :: name' != name || key' != key ==> FieldOf(m', name', key') == FieldOf(m, name', key')
  {
    hide Fields;
    ReadsApartExactly(KEY_LEN_MAX, KEY_LEN_MAX);
    forall name', key' | name' != name || key' != key ensures FieldOf(m', name', key') == FieldOf(m, name', key') {
      var k := EncodeHash(name', key');
      assert k[0] == HASH && EncodeHsize(name)[0] == HSIZE;
      assert k != EncodeHash(name, key);
    }
  }

  // An hset that stores what is already there writes nothing.
  predicate Changes(m: map<Bytes, Bytes>, hkey: Bytes, val: Bytes) {
    hkey !in m || m[hkey] != val
  }

  function FieldOps(last: nat, hkey: Bytes, val: Bytes, typ: char): seq<Op>
    requires last + 1 < UINT64_MAX
  {
    [PutOp(hkey, val), LogOp(last, typ, CMD_HSET, hkey)]
  }

  // The field holds the value, the name gained at most that field, and no other data changed.
  ghost predicate HsetDone(m: map<Bytes, Bytes>, m': map<Bytes, Bytes>, name: Bytes, hkey: Bytes, val: Bytes) {
    && hkey in m' && m'[hkey] == val
    && Fields(m', name) == Fields(m, name) + {hkey}
    && forall k :: !IsLogKey(k) && k != hkey && k != EncodeHsize(name) ==>
         (k in m' <==> k in m) && (k in m ==> m'[k] == m[k])
  }

  lemma TwoOps(m: map<Bytes, Bytes>, ops: seq<Op>)
    requires |ops| == 2
    ensures ApplyAll(m, ops) == Apply(Apply(m, ops[0]), ops[1])
  {
    assert ops[..1][..0] == [] && ops[..1][0] == ops[0];
    assert ApplyAll(m, ops[..1]) == Apply(m, ops[0]);
  }

  lemma ThreeOps(m: map<Bytes, Bytes>, ops: seq<Op>)
    requires |ops| == 3
    ensures ApplyAll(m, ops) == Apply(Apply(Apply(m, ops[0]), ops[1]), ops[2])
  {
    TwoOps(m, ops[..2]);
  }

  ghost predicate Committed(m: map<Bytes, Bytes>, m': map<Bytes, Bytes>, last: nat, name: Bytes, hkey: Bytes, val: Bytes) {
    && InStep(m', last + 1) && Sound(m')
    && LogOf(m', last + 1) == LogOf(m, last) + [Entry(CMD_HSET, hkey)]
    && HsetDone(m, m', name, hkey, val)
  }

  // The batch an hset of a stored or a new field commits.
  ghost function HsetBatch(m: map<Bytes, Bytes>, last: nat, name: Bytes, hkey: Bytes, val: Bytes, typ: char): seq<Op>
    requires last + 1 < UINT64_MAX
  {
    if hkey !in m then FieldOps(last, hkey, val, typ) + [PutOp(EncodeHsize(name), Le(StoredSize(m, name) + 1, 8))]
    else if m[hkey] != val then FieldOps(last, hkey, val, typ)
    else []
  }

  lemma HsetApplied(m: map<Bytes, Bytes>, last: nat, batch: seq<Op>, name: Bytes, key: Bytes, val: Bytes, typ: char)
    requires InStep(m, last) && Sound(m) && last + 1 < UINT64_MAX
    requires |name| <= 255 && StoredSize(m, name) < INT64_MAX
    requires batch == HsetBatch(m, last, name, EncodeHash(name, key), val, typ)
    ensures var hkey := EncodeHash(name, key);
            if Changes(m, hkey, val) then Committed(m, ApplyAll(m, batch), last, name, hkey, val)
            else ApplyAll(m, batch) == m
  {
    var hkey := EncodeHash(name, key);
    HashKeyIsField(name, key);
    if hkey !in m {
      FieldIsNew(m, last, batch, name, hkey, val, typ);
    } else if m[hkey] != val {
      FieldIsOld(m, last, batch, name, hkey, val, typ);
    }
  }

  lemma FieldIsNew(m: map<Bytes, Bytes>, last: nat, batch: seq<Op>, name: Bytes, hkey: Bytes, val: Bytes, typ: char)
    requires InStep(m, last) && SizesOk(m) && EncodeKv("") !in m && last + 1 < UINT64_MAX
    requires |name| <= 255 && IsFieldOf(name, hkey) && StoredSize(m, name) < INT64_MAX && hkey !in m
    requires batch == FieldOps(last, hkey, val, typ) + [PutOp(EncodeHsize(name), Le(StoredSize(m, name) + 1, 8))]
    ensures Committed(m, ApplyAll(m, batch), last, name, hkey, val)
  {
    var sizeKey, size := EncodeHsize(name), Le(StoredSize(m, name) + 1, 8);
    SizeRoundTrip(StoredSize(m, name) + 1);
    NewFieldStored(m, last, name, hkey, val, size);
    var logKey, rec := EncodeSeqKey(last + 1), NewRecord(last, typ, CMD_HSET, hkey);
    ThreeOps(m, batch);
    assert batch[0] == PutOp(hkey, val) && batch[1] == PutOp(logKey, rec) && batch[2] == PutOp(sizeKey, size);
    assert sizeKey[0] == HSIZE && logKey[0] == SYNCLOG;
    Reordered(m, sizeKey, size, hkey, val, logKey, rec);
    LogWritten(m, m[hkey := val][sizeKey := size], last, name, hkey, val, rec);
  }

  lemma NewFieldStored(m: map<Bytes, Bytes>, last: nat, name: Bytes, hkey: Bytes, val: Bytes, size: Bytes)
    requires InStep(m, last) && SizesOk(m) && EncodeKv("") !in m
    requires |name| <= 255 && IsFieldOf(name, hkey) && hkey !in m && SizeFrom(size) == StoredSize(m, name) + 1
    ensures var m2 := m[hkey := val][EncodeHsize(name) := size];
            InStep(m2, last) && LogOf(m2, last) == LogOf(m, last) && SizesOk(m2) && EncodeKv("") !in m2 &&
            HsetDone(m, m2, name, hkey, val)
  {
    FieldAdded(m, name, hkey, val, size);
    var sizeKey := EncodeHsize(name);
    assert sizeKey[0] == HSIZE;
    SameLog(m, m[hkey := val][sizeKey := size], last);
    assert Fields(m[hkey := val][sizeKey := size], name) == Fields(m, name) + {hkey};
  }

  lemma Reordered(m: map<Bytes, Bytes>, a: Bytes, x: Bytes, b: Bytes, y: Bytes, c: Bytes, z: Bytes)
    requires a != c
    ensures m[b := y][c := z][a := x] == m[b := y][a := x][c := z]
  {
  }

  lemma FieldIsOld(m: map<Bytes, Bytes>, last: nat, batch: seq<Op>, name: Bytes, hkey: Bytes, val: Bytes, typ: char)
    requires InStep(m, last) && SizesOk(m) && EncodeKv("") !in m && last + 1 < UINT64_MAX
    requires |name| <= 255 && IsFieldOf(name, hkey) && hkey in m
    requires batch == FieldOps(last, hkey, val, typ)
    ensures Committed(m, ApplyAll(m, batch), last, name, hkey, val)
  {
    TwoOps(m, batch);
    OldFieldStored(m, last, name, hkey, val);
    LogWritten(m, m[hkey := val], last, name, hkey, val, NewRecord(last, typ, CMD_HSET, hkey));
  }

  lemma OldFieldStored(m: map<Bytes, Bytes>, last: nat, name: Bytes, hkey: Bytes, val: Bytes)
    requires InStep(m, last) && SizesOk(m) && EncodeKv("") !in m && IsFieldOf(name, hkey) && hkey in m
    ensures var m2 := m[hkey := val];
            InStep(m2, last) && LogOf(m2, last) == LogOf(m, last) && SizesOk(m2) && EncodeKv("") !in m2 &&
            HsetDone(m, m2, name, hkey, val)
  {
    FieldOverwritten(m, name, hkey, val);
    SameLog(m, m[hkey := val], last);
    assert Fields(m[hkey := val], name) == Fields(m, name) + {hkey};
  }

  // The log record of an hset goes on top of its data.
  lemma LogWritten(m: map<Bytes, Bytes>, m2: map<Bytes, Bytes>, last: nat, name: Bytes, hkey: Bytes, val: Bytes, rec: Bytes)
    requires InStep(m2, last) && LogOf(m2, last) == LogOf(m, last) && last + 1 < UINT64_MAX
    requires SizesOk(m2) && EncodeKv("") !in m2 && HsetDone(m, m2, name, hkey, val) && !IsLogKey(hkey)
    requires Binlog(rec).Loads() && Binlog(rec).Seq() == last + 1
    requires Binlog(rec).Cmd() == CMD_HSET && Binlog(rec).Key() == hkey
    ensures Committed(m, m2[EncodeSeqKey(last + 1) := rec], last, name, hkey, val)
  {
    LogAppended(m2, last, rec);
    LogKeyAdded(m, m2, EncodeSeqKey(last + 1), name, hkey, val, rec);
  }

  lemma LogKeyAdded(m: map<Bytes, Bytes>, m2: map<Bytes, Bytes>, logKey: Bytes, name: Bytes, hkey: Bytes, val: Bytes, rec: Bytes)
    requires IsLogKey(logKey) && !IsLogKey(hkey)
    requires SizesOk(m2) && EncodeKv("") !in m2 && HsetDone(m, m2, name, hkey, val)
    ensures var m' := m2[logKey := rec];
            SizesOk(m') && EncodeKv("") !in m' && HsetDone(m, m', name, hkey, val)
  {
    var m' := m2[logKey := rec];
    assert EncodeKv("")[0] == KV;
    SizesUntouched(m2, m');
    assert Fields(m', name) == Fields(m2, name);
  }
}
