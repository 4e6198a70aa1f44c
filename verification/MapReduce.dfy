/** MapReduce: the files the jobs write, the master's two phases with failed and repeated jobs, and that the
    merged output is the plain group-by. */
module MapReduce {
  import opened Collections
  import opened Lexicographic

  datatype KeyValue = KeyValue(key: string, value: string)

  type Hash = string -> nat
  type Reduce = (string, seq<string>) -> string

  /* ---- the plain group-by ---- */

  // The values emitted for a key, in order.
  function ValuesOf(kvs: seq<KeyValue>, k: string): seq<string> {
    if kvs == [] then []
    else (if kvs[0].key == k then [kvs[0].value] else []) + ValuesOf(kvs[1..], k)
  }

  function KeysOf(kvs: seq<KeyValue>): set<string> { set i | 0 <= i < |kvs| :: kvs[i].key }

  function Joined(files: seq<seq<KeyValue>>): seq<KeyValue> {
    if files == [] then [] else Joined(files[..|files| - 1]) + files[|files| - 1]
  }

  function Listing(m: map<string, string>, ks: seq<string>): seq<KeyValue>
    requires forall k :: k in ks ==> k in m
  {
    if ks == [] then [] else [KeyValue(ks[0], m[ks[0]])] + Listing(m, ks[1..])
  }

  function Sorted(m: map<string, string>): seq<KeyValue> {
    SortedKeysHolds(m.Keys);
    Listing(m, SortedKeys(m.Keys))
  }

  // Each key with Reduce applied to its values.
  function Reduced(kvs: seq<KeyValue>, reduce: Reduce): map<string, string> {
    map k | k in KeysOf(kvs) :: reduce(k, ValuesOf(kvs, k))
  }

  // The list names each key of the pairs once, in order.
  ghost predicate ListsKeys(out: seq<KeyValue>, kvs: seq<KeyValue>) {
    KeysOf(out) == KeysOf(kvs) && forall i, j :: 0 <= i < j < |out| ==> Less(out[i].key, out[j].key)
  }

  // And gives each the result of Reduce on its values.
  ghost predicate Groups(out: seq<KeyValue>, kvs: seq<KeyValue>, reduce: Reduce) {
    ListsKeys(out, kvs) && forall i :: 0 <= i < |out| ==> out[i].value == reduce(out[i].key, ValuesOf(kvs, out[i].key))
  }

  lemma {:induction false} ListedAt(m: map<string, string>, ks: seq<string>)
    requires forall k :: k in ks ==> k in m
    ensures |Listing(m, ks)| == |ks| && forall i :: 0 <= i < |ks| ==> Listing(m, ks)[i] == KeyValue(ks[i], m[ks[i]])
  {
    if ks != [] { ListedAt(m, ks[1..]); }
  }

  lemma SortedLists(m: map<string, string>)
    ensures forall i, j :: 0 <= i < j < |Sorted(m)| ==> Less(Sorted(m)[i].key, Sorted(m)[j].key)
    ensures forall i :: 0 <= i < |Sorted(m)| ==> Sorted(m)[i].key in m && Sorted(m)[i].value == m[Sorted(m)[i].key]
    ensures KeysOf(Sorted(m)) == m.Keys
  {
    SortedKeysHolds(m.Keys);
    ListedAt(m, SortedKeys(m.Keys));
    forall k | k in m ensures k in KeysOf(Sorted(m)) {
      var i :| 0 <= i < |SortedKeys(m.Keys)| && SortedKeys(m.Keys)[i] == k;
      assert Sorted(m)[i].key == k;
    }
  }

  lemma SortedGroups(kvs: seq<KeyValue>, reduce: Reduce)
    ensures Groups(Sorted(Reduced(kvs, reduce)), kvs, reduce)
  {
    hide Sorted, KeysOf, ValuesOf;
    SortedLists(Reduced(kvs, reduce));
    assert Reduced(kvs, reduce).Keys == KeysOf(kvs);
  }

  lemma {:induction false} ValuesOfBoth(a: seq<KeyValue>, b: seq<KeyValue>, k: string)
    ensures ValuesOf(a + b, k) == ValuesOf(a, k) + ValuesOf(b, k)
  {
    if a == [] {
      assert a + b == b;
    } else {
      assert (a + b)[0] == a[0] && (a + b)[1..] == a[1..] + b;
      ValuesOfBoth(a[1..], b, k);
    }
  }

  lemma KeysOfBoth(a: seq<KeyValue>, b: seq<KeyValue>)
    ensures KeysOf(a + b) == KeysOf(a) + KeysOf(b)
  {
    forall k | k in KeysOf(a + b) ensures k in KeysOf(a) + KeysOf(b) {
      var i :| 0 <= i < |a + b| && (a + b)[i].key == k;
      if i < |a| { assert a[i].key == k; } else { assert b[i - |a|].key == k; }
    }
    forall k | k in KeysOf(a) ensures k in KeysOf(a + b) {
      var i :| 0 <= i < |a| && a[i].key == k;
      assert (a + b)[i].key == k;
    }
    forall k | k in KeysOf(b) ensures k in KeysOf(a + b) {
      var i :| 0 <= i < |b| && b[i].key == k;
      assert (a + b)[|a| + i].key == k;
    }
  }

  lemma {:induction false} NoValues(kvs: seq<KeyValue>, k: string)
    ensures k !in KeysOf(kvs) <==> ValuesOf(kvs, k) == []
  {
    if kvs != [] {
      assert kvs == [kvs[0]] + kvs[1..];
      KeysOfBoth([kvs[0]], kvs[1..]);
      NoValues(kvs[1..], k);
      assert KeysOf([kvs[0]]) == {kvs[0].key} by { assert [kvs[0]][0].key in KeysOf([kvs[0]]); }
    }
  }

  /* ---- DoMap ---- */

  // The reduce job of a key.
  function JobOf(k: string, n: nat, hash: Hash): nat
    requires n > 0
  {
    hash(k) % n
  }

  // The pairs whose keys go to reduce job r.
  function Partition(kvs: seq<KeyValue>, r: nat, n: nat, hash: Hash): seq<KeyValue>
    requires n > 0
  {
    if kvs == [] then []
    else (if JobOf(kvs[0].key, n, hash) == r then [kvs[0]] else []) + Partition(kvs[1..], r, n, hash)
  }

  // The file holds exactly the pairs whose key hashes to r.
  ghost predicate HoldsJob(file: seq<KeyValue>, kvs: seq<KeyValue>, r: nat, n: nat, hash: Hash)
    requires n > 0
  {
    forall kv :: kv in file <==> kv in kvs && hash(kv.key) % n == r
  }

  lemma {:induction false} InPartition(kvs: seq<KeyValue>, r: nat, n: nat, hash: Hash)
    requires n > 0
    ensures HoldsJob(Partition(kvs, r, n, hash), kvs, r, n, hash)
  {
    if kvs != [] {
      InPartition(kvs[1..], r, n, hash);
      assert kvs == [kvs[0]] + kvs[1..];
    }
  }

  lemma {:induction false} PartitionSnoc(kvs: seq<KeyValue>, kv: KeyValue, r: nat, n: nat, hash: Hash)
    requires n > 0
    ensures Partition(kvs + [kv], r, n, hash) ==
            Partition(kvs, r, n, hash) + if JobOf(kv.key, n, hash) == r then [kv] else []
  {
    hide JobOf;
    var last := if JobOf(kv.key, n, hash) == r then [kv] else [];
    if kvs == [] {
      PartitionOne(kv, r, n, hash);
      assert kvs + [kv] == [kv] && [] + last == last;
    } else {
      assert (kvs + [kv])[0] == kvs[0] && (kvs + [kv])[1..] == kvs[1..] + [kv];
      PartitionSnoc(kvs[1..], kv, r, n, hash);
      var first := if JobOf(kvs[0].key, n, hash) == r then [kvs[0]] else [];
      Assoc(first, Partition(kvs[1..], r, n, hash), last);
    }
  }

  lemma PartitionOne(kv: KeyValue, r: nat, n: nat, hash: Hash)
    requires n > 0
    ensures Partition([kv], r, n, hash) == if JobOf(kv.key, n, hash) == r then [kv] else []
  {
    assert [kv][1..] == [];
  }

  method DoMap(res: seq<KeyValue>, nReduce: nat, hash: Hash) returns (files: seq<seq<KeyValue>>)
    requires nReduce > 0
    ensures |files| == nReduce && forall r :: 0 <= r < nReduce ==> files[r] == Partition(res, r, nReduce, hash)
    ensures forall r :: 0 <= r < nReduce ==> HoldsJob(files[r], res, r, nReduce, hash)
  {
    hide HoldsJob;
    files := [];
    for r := 0 to nReduce
      invariant |files| == r && forall q :: 0 <= q < r ==> files[q] == Partition(res, q, nReduce, hash)
      invariant forall q :: 0 <= q < r ==> HoldsJob(files[q], res, q, nReduce, hash)
    {
      InPartition(res, r, nReduce, hash);
      var file: seq<KeyValue> := [];
      for e := 0 to |res|
        invariant file == Partition(res[..e], r, nReduce, hash)
      {
        assert res[..e + 1] == res[..e] + [res[e]];
        PartitionSnoc(res[..e], res[e], r, nReduce, hash);
        if JobOf(res[e].key, nReduce, hash) == r { file := file + [res[e]]; }
      }
      assert res[..|res|] == res;
      files := files + [file];
    }
  }

  /** A key's values all go to one job, in order. */
  lemma {:induction false} PartitionValues(kvs: seq<KeyValue>, r: nat, n: nat, hash: Hash, k: string)
    requires n > 0
    ensures ValuesOf(Partition(kvs, r, n, hash), k) == if JobOf(k, n, hash) == r then ValuesOf(kvs, k) else []
  {
    hide JobOf;
    if kvs != [] {
      var rest := Partition(kvs[1..], r, n, hash);
      PartitionValues(kvs[1..], r, n, hash, k);
      if JobOf(kvs[0].key, n, hash) == r {
        assert Partition(kvs, r, n, hash) == [kvs[0]] + rest;
        ValuesMore(kvs[0], rest, k);
      } else {
        assert Partition(kvs, r, n, hash) == [] + rest == rest;
        assert kvs[0].key == k ==> JobOf(k, n, hash) != r;
      }
    }
  }

  lemma ValuesMore(kv: KeyValue, rest: seq<KeyValue>, k: string)
    ensures ValuesOf([kv] + rest, k) == (if kv.key == k then [kv.value] else []) + ValuesOf(rest, k)
  {
    assert ([kv] + rest)[0] == kv && ([kv] + rest)[1..] == rest;
  }

  /* ---- DoReduce and Merge ---- */

  // What DoReduce has in its table after some pairs.
  function Table(kvs: seq<KeyValue>): map<string, seq<string>> { map k | k in KeysOf(kvs) :: ValuesOf(kvs, k) }

  lemma TableMore(kvs: seq<KeyValue>, kv: KeyValue)
    ensures var t := Table(kvs);
            Table(kvs + [kv]) == t[kv.key := (if kv.key in t then t[kv.key] else []) + [kv.value]]
  {
    KeysOfBoth(kvs, [kv]);
    assert KeysOf([kv]) == {kv.key} by { assert [kv][0].key in KeysOf([kv]); }
    forall k ensures ValuesOf(kvs + [kv], k) == ValuesOf(kvs, k) + if kv.key == k then [kv.value] else [] {
      ValuesOfBoth(kvs, [kv], k);
      assert [kv][1..] == [];
    }
    NoValues(kvs, kv.key);
    var t, u := Table(kvs), Table(kvs + [kv]);
    var w := t[kv.key := (if kv.key in t then t[kv.key] else []) + [kv.value]];
    forall k ensures k in u <==> k in w { }
    forall k | k in u ensures u[k] == w[k] { }
  }

  /** `files[i]` is what map job i wrote for this reduce job. */
  method DoReduce(files: seq<seq<KeyValue>>, reduce: Reduce) returns (out: seq<KeyValue>)
    ensures out == Sorted(Reduced(Joined(files), reduce)) && Groups(out, Joined(files), reduce)
  {
    hide Groups;
    SortedGroups(Joined(files), reduce);
    var kvs: map<string, seq<string>> := map[];
    for i := 0 to |files|
      invariant kvs == Table(Joined(files[..i]))
    {
      assert Joined(files[..i]) + files[i][..0] == Joined(files[..i]);
      for e := 0 to |files[i]|
        invariant kvs == Table(Joined(files[..i]) + files[i][..e])
      {
        var kv := files[i][e];
        ghost var seen := Joined(files[..i]) + files[i][..e];
        assert Joined(files[..i]) + files[i][..e + 1] == seen + [kv];
        TableMore(seen, kv);
        var before := if kv.key in kvs then kvs[kv.key] else [];
        kvs := kvs[kv.key := before + [kv.value]];
      }
      assert files[i][..|files[i]|] == files[i];
      assert files[..i + 1][..i] == files[..i];
    }
    assert files[..|files|] == files;
    var m := map k | k in kvs :: reduce(k, kvs[k]);
    assert m == Reduced(Joined(files), reduce);
    out := Sorted(m);
  }

  // The map Merge collects from the outputs, later ones last.
  function Collected(outs: seq<map<string, string>>): map<string, string> {
    if outs == [] then map[] else Collected(outs[..|outs| - 1]) + outs[|outs| - 1]
  }

  /* ---- the whole ---- */

  // What the reduce jobs compute from complete map outputs.
  function JobResult(emits: seq<seq<KeyValue>>, r: nat, n: nat, hash: Hash, reduce: Reduce): map<string, string>
    requires n > 0
  {
    Reduced(Joined(Parts(emits, r, n, hash)), reduce)
  }

  function Parts(emits: seq<seq<KeyValue>>, r: nat, n: nat, hash: Hash): seq<seq<KeyValue>>
    requires n > 0
  {
    if emits == [] then []
    else Parts(emits[..|emits| - 1], r, n, hash) + [Partition(emits[|emits| - 1], r, n, hash)]
  }

  lemma {:induction false} PartsValues(emits: seq<seq<KeyValue>>, r: nat, n: nat, hash: Hash, k: string)
    requires n > 0
    ensures ValuesOf(Joined(Parts(emits, r, n, hash)), k) ==
            if JobOf(k, n, hash) == r then ValuesOf(Joined(emits), k) else []
  {
    hide JobOf, Partition;
    if emits != [] {
      var m := |emits| - 1;
      var before, last := Parts(emits[..m], r, n, hash), Partition(emits[m], r, n, hash);
      PartsValues(emits[..m], r, n, hash, k);
      PartitionValues(emits[m], r, n, hash, k);
      assert (before + [last])[..|before|] == before;
      ValuesOfBoth(Joined(before), last, k);
      ValuesOfBoth(Joined(emits[..m]), emits[m], k);
    }
  }

  lemma JobResultIs(emits: seq<seq<KeyValue>>, r: nat, n: nat, hash: Hash, reduce: Reduce, k: string)
    requires n > 0
    ensures var j := JobResult(emits, r, n, hash, reduce); var all := Reduced(Joined(emits), reduce);
            (k in j <==> k in all && JobOf(k, n, hash) == r) && (k in j ==> j[k] == all[k])
  {
    PartsValues(emits, r, n, hash, k);
    NoValues(Joined(Parts(emits, r, n, hash)), k);
    NoValues(Joined(emits), k);
  }

  lemma {:induction false} CollectedIs(outs: seq<map<string, string>>, emits: seq<seq<KeyValue>>, n: nat, hash: Hash, reduce: Reduce, k: string)
    requires n > 0 && |outs| <= n
    requires forall r :: 0 <= r < |outs| ==> outs[r] == JobResult(emits, r, n, hash, reduce)
    ensures var c := Collected(outs); var all := Reduced(Joined(emits), reduce);
            (k in c <==> k in all && JobOf(k, n, hash) < |outs|) && (k in c ==> c[k] == all[k])
  {
    hide JobOf, JobResult, Reduced;
    if outs != [] {
      CollectedIs(outs[..|outs| - 1], emits, n, hash, reduce, k);
      JobResultIs(emits, |outs| - 1, n, hash, reduce, k);
    }
  }

  /** What is merged from the outputs of all reduce jobs is the group-by of everything emitted. */
  lemma MergedIsGroupBy(outs: seq<map<string, string>>, emits: seq<seq<KeyValue>>, n: nat, hash: Hash, reduce: Reduce)
    requires n > 0 && |outs| == n
    requires forall r :: 0 <= r < n ==> outs[r] == JobResult(emits, r, n, hash, reduce)
    ensures Collected(outs) == Reduced(Joined(emits), reduce)
  {
    var c, all := Collected(outs), Reduced(Joined(emits), reduce);
    forall k ensures (k in c <==> k in all) && (k in c ==> c[k] == all[k]) { CollectedIs(outs, emits, n, hash, reduce, k); }
  }

  /* ---- Merge ---- */

  function FromList(kvs: seq<KeyValue>): map<string, string> {
    if kvs == [] then map[] else FromList(kvs[..|kvs| - 1])[kvs[|kvs| - 1].key := kvs[|kvs| - 1].value]
  }

  lemma {:induction false} ListingSnoc(m: map<string, string>, ks: seq<string>)
    requires ks != [] && forall k :: k in ks ==> k in m
    ensures var n := |ks| - 1; Listing(m, ks) == Listing(m, ks[..n]) + [KeyValue(ks[n], m[ks[n]])]
  {
    var n := |ks| - 1;
    if n > 0 {
      ListingSnoc(m, ks[1..]);
      assert ks[1..][..n - 1] == ks[..n][1..];
    } else {
      assert ks[1..] == [];
    }
  }

  lemma FromListSnoc(kvs: seq<KeyValue>, kv: KeyValue)
    ensures FromList(kvs + [kv]) == FromList(kvs)[kv.key := kv.value]
  {
    assert (kvs + [kv])[..|kvs|] == kvs;
  }

  // The part of m at the given keys.
  function Restricted(m: map<string, string>, ks: seq<string>): map<string, string> { map k | k in m && k in ks :: m[k] }

  lemma RestrictedSnoc(m: map<string, string>, ks: seq<string>, k: string)
    requires k in m
    ensures Restricted(m, ks + [k]) == Restricted(m, ks)[k := m[k]]
  {
    assert forall i :: i in ks + [k] <==> i in ks || i == k;
  }

  lemma {:induction false} ListedBack(m: map<string, string>, ks: seq<string>)
    requires forall k :: k in ks ==> k in m
    ensures FromList(Listing(m, ks)) == Restricted(m, ks)
  {
    hide FromList, Listing, Restricted;
    if ks == [] {
      NothingListed(m);
    } else {
      var n := |ks| - 1;
      assert ks == ks[..n] + [ks[n]];
      ListingSnoc(m, ks);
      ListedBack(m, ks[..n]);
      FromListSnoc(Listing(m, ks[..n]), KeyValue(ks[n], m[ks[n]]));
      RestrictedSnoc(m, ks[..n], ks[n]);
    }
  }

  lemma NothingListed(m: map<string, string>)
    ensures FromList(Listing(m, [])) == Restricted(m, []) == map[]
  {
  }

  lemma SortedBack(m: map<string, string>)
    ensures FromList(Sorted(m)) == m
  {
    SortedKeysHolds(m.Keys);
    ListedBack(m, SortedKeys(m.Keys));
    assert Restricted(m, SortedKeys(m.Keys)) == m;
  }

  // The table of Merge after some files.
  function Read(files: seq<seq<KeyValue>>): map<string, string> {
    if files == [] then map[] else Read(files[..|files| - 1]) + FromList(files[|files| - 1])
  }

  // The last value of a key.
  function LastValue(kvs: seq<KeyValue>, k: string): Option<string> {
    var vs := ValuesOf(kvs, k);
    if vs == [] then None else Some(vs[|vs| - 1])
  }

  function Lookup(m: map<string, string>, k: string): Option<string> { if k in m then Some(m[k]) else None }

  lemma {:induction false} FromListIsLast(kvs: seq<KeyValue>, k: string)
    ensures Lookup(FromList(kvs), k) == LastValue(kvs, k)
  {
    if kvs != [] {
      var front, last := kvs[..|kvs| - 1], kvs[|kvs| - 1];
      assert kvs == front + [last] && [last][1..] == [];
      FromListIsLast(front, k);
      ValuesOfBoth(front, [last], k);
    }
  }

  lemma {:induction false} LastIsRead(files: seq<seq<KeyValue>>, k: string)
    ensures Lookup(Read(files), k) == LastValue(Joined(files), k)
  {
    if files != [] {
      hide FromList, ValuesOf;
      var front, last := files[..|files| - 1], files[|files| - 1];
      LastIsRead(front, k);
      FromListIsLast(last, k);
      ValuesOfBoth(Joined(front), last, k);
    }
  }

  lemma ReadIsLast(files: seq<seq<KeyValue>>)
    ensures forall k {:trigger Lookup(Read(files), k)} :: Lookup(Read(files), k) == LastValue(Joined(files), k)
    ensures Read(files).Keys == KeysOf(Joined(files))
  {
    forall k ensures Lookup(Read(files), k) == LastValue(Joined(files), k) { LastIsRead(files, k); }
    forall k ensures k in Read(files) <==> k in KeysOf(Joined(files)) {
      LastIsRead(files, k);
      NoValues(Joined(files), k);
    }
  }

  // The list gives each key the last of its values.
  ghost predicate LastValues(lines: seq<KeyValue>, kvs: seq<KeyValue>) {
    ListsKeys(lines, kvs) && forall i :: 0 <= i < |lines| ==> LastValue(kvs, lines[i].key) == Some(lines[i].value)
  }

  lemma MergedLast(files: seq<seq<KeyValue>>)
    ensures LastValues(Sorted(Read(files)), Joined(files))
  {
    hide Sorted, Read, Joined, KeysOf, LastValue;
    var m, lines := Read(files), Sorted(Read(files));
    SortedLists(m);
    ReadIsLast(files);
    forall i | 0 <= i < |lines| ensures LastValue(Joined(files), lines[i].key) == Some(lines[i].value) {
      assert Lookup(m, lines[i].key) == Some(lines[i].value);
    }
  }

  lemma {:induction false} ReadIsCollected(files: seq<seq<KeyValue>>, ms: seq<map<string, string>>)
    requires |files| == |ms| && forall r :: 0 <= r < |ms| ==> files[r] == Sorted(ms[r])
    ensures Read(files) == Collected(ms)
  {
    if ms != [] {
      ReadIsCollected(files[..|files| - 1], ms[..|ms| - 1]);
      SortedBack(ms[|ms| - 1]);
    }
  }

  method Merge(files: seq<seq<KeyValue>>) returns (lines: seq<KeyValue>)
    ensures lines == Sorted(Read(files)) && LastValues(lines, Joined(files))
  {
    hide LastValues, Joined;
    var kvs: map<string, string> := map[];
    for i := 0 to |files|
      invariant kvs == Read(files[..i])
    {
      assert files[..i + 1][..i] == files[..i];
      assert Read(files[..i]) + FromList(files[i][..0]) == Read(files[..i]);
      for e := 0 to |files[i]|
        invariant kvs == Read(files[..i]) + FromList(files[i][..e])
      {
        assert files[i][..e + 1][..e] == files[i][..e];
        kvs := kvs[files[i][e].key := files[i][e].value];
      }
      assert files[i][..|files[i]|] == files[i];
    }
    assert files[..|files|] == files;
    lines := Sorted(kvs);
    MergedLast(files);
  }

  /* ---- the master's two phases ---- */

  // What the jobs are given: the pairs Map emits for each split, and the rest of the program.
  datatype Program = Program(emits: seq<seq<KeyValue>>, nReduce: nat, hash: Hash, reduce: Reduce)

  // The files on disk, and the jobs the master was told are done.
  datatype Disk = Disk(parts: map<(nat, nat), seq<KeyValue>>, outs: map<nat, seq<KeyValue>>,
                       mapsDone: set<nat>, reducesDone: set<nat>)

  // The files a map job writes.
  function MapFiles(p: Program, m: nat): map<(nat, nat), seq<KeyValue>>
    requires p.nReduce > 0 && m < |p.emits|
  {
    map r | r in Upto(p.nReduce) :: (m, r) := Partition(p.emits[m], r, p.nReduce, p.hash)
  }

  lemma MapFilesAre(p: Program, m: nat)
    requires p.nReduce > 0 && m < |p.emits|
    ensures var f := MapFiles(p, m);
            forall m': nat, r: nat :: ((m', r) in f <==> m' == m && r < p.nReduce) &&
                            ((m', r) in f ==> f[(m', r)] == Partition(p.emits[m], r, p.nReduce, p.hash))
  {
    var f := MapFiles(p, m);
    forall m': nat, r: nat ensures (m', r) in f <==> m' == m && r < p.nReduce {
      if m' == m && r < p.nReduce { assert r in Upto(p.nReduce); }
    }
  }

  // An attempt at a map job runs or not, and the master hears of it or not; it may run again, and also
  // late, while the reduce jobs are under way.
  ghost predicate MapStep(p: Program, d: Disk, d': Disk, m: nat, runs: bool, heard: bool)
    requires p.nReduce > 0
  {
    m < |p.emits| && (heard ==> runs) &&
    d' == d.(parts := if runs then d.parts + MapFiles(p, m) else d.parts,
             mapsDone := if heard then d.mapsDone + {m} else d.mapsDone)
  }

  // The files for reduce job r, in the order of the map jobs.
  function FilesFor(d: Disk, r: nat, n: nat): seq<seq<KeyValue>>
    requires forall m :: 0 <= m < n ==> (m, r) in d.parts
  {
    if n == 0 then [] else FilesFor(d, r, n - 1) + [d.parts[(n - 1, r)]]
  }

  // Reduce jobs start once every map job is done.
  ghost predicate ReduceStep(p: Program, d: Disk, d': Disk, r: nat, runs: bool, heard: bool)
    requires p.nReduce > 0
  {
    r < p.nReduce && (heard ==> runs) && d.mapsDone == Upto(|p.emits|) &&
    (forall m :: 0 <= m < |p.emits| ==> (m, r) in d.parts) &&
    d' == d.(outs := if runs then d.outs[r := Sorted(Reduced(Joined(FilesFor(d, r, |p.emits|)), p.reduce))] else d.outs,
             reducesDone := if heard then d.reducesDone + {r} else d.reducesDone)
  }

  ghost predicate Step(p: Program, d: Disk, d': Disk)
    requires p.nReduce > 0
  {
    exists j: nat, runs, heard :: MapStep(p, d, d', j, runs, heard) || ReduceStep(p, d, d', j, runs, heard)
  }

  ghost predicate StepAt(p: Program, run: seq<Disk>, i: nat)
    requires p.nReduce > 0 && 1 <= i < |run|
  {
    Step(p, run[i - 1], run[i])
  }

  ghost predicate IsRun(p: Program, run: seq<Disk>)
    requires p.nReduce > 0
  {
    run != [] && run[0] == Disk(map[], map[], {}, {}) && forall i :: 1 <= i < |run| ==> StepAt(p, run, i)
  }

  // Every file holds what it should, and the files of finished jobs are there.
  ghost predicate Sound(p: Program, d: Disk)
    requires p.nReduce > 0
  {
    && (forall m: nat, r: nat :: (m, r) in d.parts ==> m < |p.emits| && d.parts[(m, r)] == Partition(p.emits[m], r, p.nReduce, p.hash))
    && (forall m: nat, r: nat :: m in d.mapsDone && r < p.nReduce ==> (m, r) in d.parts)
    && (forall r :: r in d.outs ==> d.outs[r] == Sorted(JobResult(p.emits, r, p.nReduce, p.hash, p.reduce)))
    && (forall r :: r in d.reducesDone ==> r in d.outs)
  }

  lemma {:induction false} FilesAreParts(p: Program, d: Disk, r: nat, n: nat)
    requires p.nReduce > 0 && Sound(p, d) && n <= |p.emits| && forall m :: 0 <= m < n ==> (m, r) in d.parts
    ensures FilesFor(d, r, n) == Parts(p.emits[..n], r, p.nReduce, p.hash)
  {
    if n > 0 {
      FilesAreParts(p, d, r, n - 1);
      assert p.emits[..n][..n - 1] == p.emits[..n - 1];
    }
  }

  lemma MapStepKeeps(p: Program, d: Disk, d': Disk, m: nat, runs: bool, heard: bool)
    requires p.nReduce > 0 && Sound(p, d) && MapStep(p, d, d', m, runs, heard)
    ensures Sound(p, d')
  {
    hide Sorted, JobResult, MapFiles, Partition;
    MapFilesAre(p, m);
  }

  lemma ReduceStepKeeps(p: Program, d: Disk, d': Disk, r: nat, runs: bool, heard: bool)
    requires p.nReduce > 0 && Sound(p, d) && ReduceStep(p, d, d', r, runs, heard)
    ensures Sound(p, d')
  {
    hide Sorted, JobResult, Partition, Reduced, Joined, FilesFor, Parts;
    FilesAreParts(p, d, r, |p.emits|);
    assert p.emits[..|p.emits|] == p.emits;
    JobFiles(p, r);
  }

  lemma StepKeeps(p: Program, d: Disk, d': Disk)
    requires p.nReduce > 0 && Sound(p, d) && Step(p, d, d')
    ensures Sound(p, d')
  {
    hide Sound, MapStep, ReduceStep;
    var j: nat, runs, heard :| MapStep(p, d, d', j, runs, heard) || ReduceStep(p, d, d', j, runs, heard);
    if MapStep(p, d, d', j, runs, heard) {
      MapStepKeeps(p, d, d', j, runs, heard);
    } else {
      ReduceStepKeeps(p, d, d', j, runs, heard);
    }
  }

  lemma JobFiles(p: Program, r: nat)
    requires p.nReduce > 0
    ensures JobResult(p.emits, r, p.nReduce, p.hash, p.reduce) == Reduced(Joined(Parts(p.emits, r, p.nReduce, p.hash)), p.reduce)
  {
  }

  lemma {:induction false} RunIsSound(p: Program, run: seq<Disk>, i: nat)
    requires p.nReduce > 0 && IsRun(p, run) && i < |run|
    ensures Sound(p, run[i])
  {
    if i > 0 {
      RunIsSound(p, run, i - 1);
      assert StepAt(p, run, i);
      StepKeeps(p, run[i - 1], run[i]);
    }
  }

  // The outputs in the order Merge reads them.
  function Outputs(d: Disk, n: nat): seq<seq<KeyValue>>
    requires forall r :: 0 <= r < n ==> r in d.outs
  {
    seq(n, r requires 0 <= r < n => d.outs[r])
  }

  /** Whatever jobs fail, are repeated or run late: once every reduce job is done, what Merge lists is every
      key in order with Reduce applied to all its values in emission order. */
  lemma DistributedIsGroupBy(p: Program, run: seq<Disk>, i: nat)
    requires p.nReduce > 0 && IsRun(p, run) && i < |run| && run[i].reducesDone == Upto(p.nReduce)
    ensures forall r :: 0 <= r < p.nReduce ==> r in run[i].outs
    ensures Sorted(Read(Outputs(run[i], p.nReduce))) == Sorted(Reduced(Joined(p.emits), p.reduce))
    ensures Groups(Sorted(Read(Outputs(run[i], p.nReduce))), Joined(p.emits), p.reduce)
  {
    SortedGroups(Joined(p.emits), p.reduce);
    hide Groups;
    hide Sorted, JobResult, Reduced, Joined, Read, Partition;
    RunIsSound(p, run, i);
    var d := run[i];
    forall r | 0 <= r < p.nReduce ensures r in d.outs { assert r in d.reducesDone; }
    var ms := seq(p.nReduce, r requires 0 <= r < p.nReduce => JobResult(p.emits, r, p.nReduce, p.hash, p.reduce));
    ReadIsCollected(Outputs(d, p.nReduce), ms);
    MergedIsGroupBy(ms, p.emits, p.nReduce, p.hash, p.reduce);
  }

  /* ---- Split ---- */

  function Concat(files: seq<seq<string>>): seq<string> {
    if files == [] then [] else Concat(files[..|files| - 1]) + files[|files| - 1]
  }

  // The bytes written for some lines, each with its newline.
  function Written(lines: seq<string>): nat {
    if lines == [] then 0 else Written(lines[..|lines| - 1]) + |lines[|lines| - 1]| + 1
  }

  lemma {:induction false} WrittenGrows(lines: seq<string>, k: nat)
    requires k < |lines|
    ensures Written(lines[..k]) < Written(lines)
  {
    if k < |lines| - 1 {
      WrittenGrows(lines[..|lines| - 1], k);
      assert lines[..|lines| - 1][..k] == lines[..k];
    }
  }

  // The lines before file f.
  function Before(files: seq<seq<string>>, f: nat): nat
    requires f <= |files|
  {
    |Concat(files[..f])|
  }

  // The bytes of n chunks.
  function Chunks(nchunk: nat, n: nat): nat { nchunk * n }

  // The lines from b up to e are file f: but for the first, it starts when more than f chunks are written, and
  // it goes on until more than f + 1 are.
  ghost predicate CutBetween(lines: seq<string>, b: nat, e: nat, nchunk: nat, f: nat) {
    && b <= e <= |lines|
    && (f > 0 ==> b < |lines| && Written(lines[..b]) > Chunks(nchunk, f))
    && forall k :: b < k < e ==> Written(lines[..k]) <= Chunks(nchunk, f + 1)
  }

  ghost predicate CutAt(files: seq<seq<string>>, lines: seq<string>, nchunk: nat, f: nat)
    requires f < |files|
  {
    CutBetween(lines, Before(files, f), Before(files, f + 1), nchunk, f)
  }

  ghost predicate CutRight(files: seq<seq<string>>, lines: seq<string>, nchunk: nat) {
    |Concat(files)| <= |lines| && forall f :: 0 <= f < |files| ==> CutAt(files, lines, nchunk, f)
  }

  /** The lines of the input, in order, in at most nMap files, each cut where a chunk is full. The scanner drops
      a final newline, so that writing the lines takes at most one byte more than the input has. */
  method Split(lines: seq<string>, size: nat, nMap: nat) returns (files: seq<seq<string>>)
    requires nMap > 0 && Written(lines) <= size + 1
    ensures Concat(files) == lines && 1 <= |files| <= nMap && CutRight(files, lines, size / nMap + 1)
  {
    var nchunk := size / nMap + 1;
    ChunksCover(size, nMap);
    files := SplitInto(lines, size, nMap, nchunk);
  }

  // The loop over the lines.
  method SplitInto(lines: seq<string>, ghost size: nat, ghost nMap: nat, nchunk: nat) returns (files: seq<seq<string>>)
    requires nMap > 0 && Written(lines) <= size + 1 && nchunk * nMap > size
    ensures Concat(files) == lines && 1 <= |files| <= nMap && CutRight(files, lines, nchunk)
  {
    OneEmptyFile();
    files := [[]];
    NoLineCut(lines, nchunk);
    hide Concat, Written, CutRight, WithLine;
    var m, i := 1, 0;
    for j := 0 to |lines|
      invariant 1 <= m == |files| <= nMap && i == Written(lines[..j]) && Concat(files) == lines[..j]
      invariant CutRight(files, lines, nchunk)
    {
      WrittenGrows(lines, j);
      LineCut(files, lines, j, nchunk);
      if i > nchunk * m {
        RoomForMore(nchunk, m, nMap);
        FileAdded(files);
        files := files + [[]];
        m := m + 1;
      }
      var line := lines[j] + "\n";
      LineAdded(files, lines[j]);
      LineWritten(lines, j);
      files := WithLine(files, lines[j]);
      i := i + |line|;
    }
    assert lines[..|lines|] == lines;
  }

  lemma NoLineCut(lines: seq<string>, nchunk: nat)
    ensures CutRight([[]], lines, nchunk)
  {
    var files: seq<seq<string>> := [[]];
    assert files[..0] == [] && files[..1] == files;
    OneEmptyFile();
    assert CutAt(files, lines, nchunk, 0);
  }

  // A line more at the end of the last file.
  function WithLine(files: seq<seq<string>>, line: string): (r: seq<seq<string>>)
    requires files != []
    ensures |r| == |files|
  {
    files[..|files| - 1] + [files[|files| - 1] + [line]]
  }

  lemma BeforeWithLine(files: seq<seq<string>>, line: string, f: nat)
    requires files != [] && f <= |files|
    ensures Before(WithLine(files, line), f) == Before(files, f) + if f == |files| then 1 else 0
  {
    if f == |files| {
      LineAdded(files, line);
      assert WithLine(files, line)[..f] == WithLine(files, line) && files[..f] == files;
    } else {
      assert WithLine(files, line)[..f] == files[..f];
    }
  }

  lemma BeforeNewFile(files: seq<seq<string>>, f: nat)
    requires f <= |files| + 1
    ensures Before(files + [[]], f) == Before(files, if f <= |files| then f else |files|)
  {
    if f <= |files| {
      assert (files + [[]])[..f] == files[..f];
    } else {
      FileAdded(files);
      assert (files + [[]])[..f] == files + [[]] && files[..|files|] == files;
    }
  }

  lemma AllBefore(files: seq<seq<string>>)
    ensures Before(files, |files|) == |Concat(files)|
  {
    assert files[..|files|] == files;
  }

  // File f takes the line j: as its first line, or as one more.
  lemma CutFirst(lines: seq<string>, j: nat, nchunk: nat, f: nat)
    requires j < |lines| && Written(lines[..j]) > Chunks(nchunk, f)
    ensures CutBetween(lines, j, j + 1, nchunk, f)
  {
    hide Written, Chunks;
  }

  lemma CutMore(lines: seq<string>, b: nat, j: nat, nchunk: nat, f: nat)
    requires j < |lines| && CutBetween(lines, b, j, nchunk, f) && Written(lines[..j]) <= Chunks(nchunk, f + 1)
    ensures CutBetween(lines, b, j + 1, nchunk, f)
  {
    hide Written, Chunks;
  }

  // The next line goes to a new file exactly when the chunks of those so far are exceeded.
  lemma LineCut(files: seq<seq<string>>, lines: seq<string>, j: nat, nchunk: nat)
    requires j < |lines| && files != [] && Concat(files) == lines[..j] && CutRight(files, lines, nchunk)
    ensures var next := if Written(lines[..j]) > Chunks(nchunk, |files|) then files + [[]] else files;
            CutRight(WithLine(next, lines[j]), lines, nchunk)
  {
    hide Concat, Written, Before, WithLine, Chunks, CutBetween;
    var n := |files|;
    var full := Written(lines[..j]) > Chunks(nchunk, n);
    var next := if full then files + [[]] else files;
    AllBefore(files);
    forall f | 0 <= f < |next| ensures CutAt(WithLine(next, lines[j]), lines, nchunk, f) {
      BeforeWithLine(next, lines[j], f);
      BeforeWithLine(next, lines[j], f + 1);
      BeforeNewFile(files, f);
      BeforeNewFile(files, f + 1);
      if f == n { CutFirst(lines, j, nchunk, f); }
      else {
        assert CutAt(files, lines, nchunk, f);
        if f == n - 1 && !full { CutMore(lines, Before(files, f), j, nchunk, f); }
      }
    }
    LineAdded(next, lines[j]);
    FileAdded(files);
  }

  lemma OneEmptyFile()
    ensures Concat([[]]) == [] && Written([]) == 0
  {
    var files: seq<seq<string>> := [[]];
    assert files[..0] == [];
  }

  lemma FileAdded(files: seq<seq<string>>)
    ensures Concat(files + [[]]) == Concat(files)
  {
    assert (files + [[]])[..|files|] == files;
  }

  lemma LineWritten(lines: seq<string>, j: nat)
    requires j < |lines|
    ensures Written(lines[..j + 1]) == Written(lines[..j]) + |lines[j]| + 1 && lines[..j + 1] == lines[..j] + [lines[j]]
  {
    assert lines[..j + 1][..j] == lines[..j];
  }

  // Chunks beyond the last would lie past the end of the input.
  lemma RoomForMore(nchunk: nat, m: nat, nMap: nat)
    ensures m >= nMap ==> nchunk * m >= nchunk * nMap
  {
    if m >= nMap { assert nchunk * m == nchunk * nMap + nchunk * (m - nMap); }
  }

  lemma LineAdded(files: seq<seq<string>>, line: string)
    requires files != []
    ensures Concat(WithLine(files, line)) == Concat(files) + [line]
  {
    var n := |files| - 1;
    var front, last := files[..n], files[n];
    assert (front + [last + [line]])[..n] == front;
    Assoc(Concat(front), last, [line]);
  }

  lemma ChunksCover(size: nat, nMap: nat)
    requires nMap > 0
    ensures (size / nMap + 1) * nMap > size
  {
    var q := size / nMap;
    assert size == q * nMap + size % nMap;
    assert (q + 1) * nMap == q * nMap + nMap;
  }
}
