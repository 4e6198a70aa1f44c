/** The byte layouts SSDB stores and sends: sequence keys, log records, KV, hash and size keys.
    The host is little-endian. */
module SsdbCodec {
  import opened Collections
  import opened Lexicographic
  import opened ByteOrder

  const SYNCLOG: char := '\U{0001}'
  const KV: char := 'k'
  const HASH: char := 'h'
  const HSIZE: char := 'H'
  const MIN_PREFIX: char := 'h'
  const MAX_PREFIX: char := 's'

  const TYPE_SYNC: char := '\U{0001}'
  const TYPE_MIRROR: char := '\U{0002}'
  const TYPE_COPY: char := '\U{0003}'
  const TYPE_CTRL: char := '\U{0004}'

  const CMD_NONE: char := '\U{0000}'
  const CMD_KSET: char := '\U{0001}'
  const CMD_KDEL: char := '\U{0002}'
  const CMD_HSET: char := '\U{0003}'
  const CMD_BEGIN: char := '\U{0007}'
  const CMD_END: char := '\U{0008}'

  const UINT64_MAX: nat := 0xFFFF_FFFF_FFFF_FFFF
  const INT64_MAX: nat := 0x7FFF_FFFF_FFFF_FFFF

  /* ---- log keys ---- */

  function EncodeSeqKey(num: nat): Bytes { [SYNCLOG] + Be(num, 8) }

  function DecodeSeqKey(key: Bytes): nat {
    if |key| == 9 && key[0] == SYNCLOG then UnBe(key[1..]) else 0
  }

  predicate IsLogKey(key: Bytes) { key != "" && key[0] == SYNCLOG }

  lemma SeqKeyRoundTrip(num: nat)
    requires num <= UINT64_MAX
    ensures DecodeSeqKey(EncodeSeqKey(num)) == num
  {
    Pow256Of8();
    BeRoundTrip(num, 8);
    assert EncodeSeqKey(num)[1..] == Be(num, 8);
  }

  /** Log keys sort by sequence number. */
  lemma SeqKeyOrder(a: nat, b: nat)
    requires a <= UINT64_MAX && b <= UINT64_MAX
    ensures Less(EncodeSeqKey(a), EncodeSeqKey(b)) <==> a < b
    ensures EncodeSeqKey(a) == EncodeSeqKey(b) <==> a == b
  {
    Pow256Of8();
    BeKeepsOrder(a, b, 8);
    assert EncodeSeqKey(a)[1..] == Be(a, 8) && EncodeSeqKey(b)[1..] == Be(b, 8);
  }

  /* ---- log records ---- */

  const HEADER_LEN := 10

  datatype Binlog = Binlog(buf: Bytes) {
    predicate Loads() { |buf| >= HEADER_LEN }

    function Seq(): nat
      requires Loads()
    {
      UnLe(buf[..8])
    }

    function Type(): char
      requires Loads()
    {
      buf[8]
    }

    function Cmd(): char
      requires Loads()
    {
      buf[9]
    }

    function Key(): Bytes
      requires Loads()
    {
      buf[HEADER_LEN..]
    }
  }

  function Record(num: nat, typ: char, cmd: char, key: Bytes): Binlog {
    Binlog(Le(num, 8) + [typ, cmd] + key)
  }

  /** A record yields back what it was made of. */
  lemma RecordRoundTrip(num: nat, typ: char, cmd: char, key: Bytes)
    requires num <= UINT64_MAX
    ensures var r := Record(num, typ, cmd, key);
            r.Loads() && r.Seq() == num && r.Type() == typ && r.Cmd() == cmd && r.Key() == key
  {
    Pow256Of8();
    LeRoundTrip(num, 8);
    var r := Record(num, typ, cmd, key);
    assert r.buf[..8] == Le(num, 8) && r.buf[10..] == key;
  }

  /* ---- data keys ---- */

  function EncodeKv(key: Bytes): Bytes { [KV] + key }

  // skip one byte, take the rest
  function DecodeKv(slice: Bytes): Option<Bytes> {
    if |slice| < 1 then None else Some(slice[1..])
  }

  predicate IsKv(key: Bytes) { key != "" && key[0] == KV }

  function EncodeHash(name: Bytes, key: Bytes): Bytes {
    [HASH, (|name| % 256) as char] + name + "=" + key
  }

  function EncodeHsize(name: Bytes): Bytes { [HSIZE] + name }

  // k reads as a field of hash `name`: type byte, length byte, name, '='.
  predicate IsFieldOf(name: Bytes, k: Bytes) {
    && |k| >= |name| + 3 && k[0] == HASH && k[1] == (|name| % 256) as char
    && k[2..2 + |name|] == name && k[2 + |name|] == '='
  }

  lemma HashKeyIsField(name: Bytes, key: Bytes)
    ensures IsFieldOf(name, EncodeHash(name, key))
    ensures EncodeHash(name, key)[3 + |name|..] == key
  {
  }

  /** One stored key belongs to one hash only: names of up to 255 bytes never run together. */
  lemma HashKeysAreApart(name: Bytes, other: Bytes, k: Bytes)
    requires |name| <= 255 && |other| <= 255
    requires IsFieldOf(name, k) && IsFieldOf(other, k)
    ensures name == other
  {
    assert |name| as char == |other| as char;
  }

  /** Two fields share one stored key exactly when they are one, or when the longer name continues the
      shorter with an equals sign and a rest that makes up whole turns of the length byte. */
  lemma HashKeysMeet(name: Bytes, key: Bytes, name': Bytes, key': Bytes)
    requires |name| <= |name'|
    ensures EncodeHash(name, key) == EncodeHash(name', key') <==>
            (name == name' && key == key') || Continues(name, key, name', key')
  {
    var k, k' := EncodeHash(name, key), EncodeHash(name', key');
    HashKeyIsField(name, key);
    HashKeyIsField(name', key');
    if k == k' {
      assert (|name| % 256) as char == (|name'| % 256) as char;
      if |name| == |name'| {
        assert name == k[2..2 + |name|] == name';
      } else {
        SameStoredKey(name, key, name', key');
      }
    }
    if Continues(name, key, name', key') { KeysMeet(name, name'[|name| + 1..], key'); }
  }

  lemma KeysMeet(name: Bytes, rest: Bytes, key: Bytes)
    ensures name + "=" + (rest + "=" + key) == (name + "=" + rest) + "=" + key
  {
  }

  predicate Continues(name: Bytes, key: Bytes, name': Bytes, key': Bytes) {
    && |name| < |name'| && |name'| % 256 == |name| % 256
    && var rest := name'[|name| + 1..];
       name' == name + "=" + rest && key == rest + "=" + key'
  }

  lemma SameStoredKey(name: Bytes, key: Bytes, name': Bytes, key': Bytes)
    requires |name| < |name'| && |name'| % 256 == |name| % 256
    requires EncodeHash(name, key) == EncodeHash(name', key')
    ensures Continues(name, key, name', key')
  {
    var k, n := EncodeHash(name, key), |name|;
    HashKeyIsField(name, key);
    HashKeyIsField(name', key');
    var rest := name'[n + 1..];
    assert name'[..n] == k[2..2 + |name'|][..n] == k[2..2 + n];
    assert name'[n] == k[2 + n];
    assert name' == name'[..n] + [name'[n]] + rest;
    var t := k[3 + n..];
    assert t == key;
    assert t[..|rest|] == k[2..2 + |name'|][n + 1..] == rest;
    assert t[|rest|] == k[2 + |name'|];
    assert t[|rest| + 1..] == k[3 + |name'|..] == key';
    assert t == t[..|rest|] + [t[|rest|]] + t[|rest| + 1..];
  }

  // Names of 1..n bytes never share a stored key, whatever the fields.
  ghost predicate NamesApart(n: nat) {
    forall name, key, name', key' | 1 <= |name| <= n && 1 <= |name'| <= n && EncodeHash(name, key) == EncodeHash(name', key')
      :: name == name' && key == key'
  }

  // A stored field within the limits is read by its own name and field only, with no limit on reads.
  ghost predicate ReadsApart(nameMax: nat, keyMax: nat) {
    forall name, key, name', key' | 1 <= |name| <= nameMax && 1 <= |key| <= keyMax && EncodeHash(name, key) == EncodeHash(name', key')
      :: name == name' && key == key'
  }

  lemma MeetEitherWay(name: Bytes, key: Bytes, name': Bytes, key': Bytes)
    requires EncodeHash(name, key) == EncodeHash(name', key')
    ensures (name == name' && key == key') || Continues(name, key, name', key') || Continues(name', key', name, key)
  {
    hide EncodeHash, Continues;
    if |name| <= |name'| { HashKeysMeet(name, key, name', key'); } else { HashKeysMeet(name', key', name, key); }
  }

  /** Past 255 bytes the length byte wraps, and two different fields can share one stored key. */
  lemma LongHashNamesCollide(name: Bytes, rest: Bytes, key: Bytes)
    requires |rest| == 255
    ensures EncodeHash(name, rest + "=" + key) == EncodeHash(name + "=" + rest, key)
  {
    var key', name' := rest + "=" + key, name + "=" + rest;
    assert name'[|name| + 1..] == rest;
    HashKeysMeet(name, key', name', key);
  }

  function Bytes255(): (r: Bytes)
    ensures |r| == 255
  {
    seq(255, _ => 'x')
  }

  /** The length byte tells names of 1..n bytes apart exactly up to n = 256. */
  lemma NamesApartExactly(n: nat)
    ensures NamesApart(n) <==> n <= 256
  {
    hide EncodeHash, Bytes255;
    if n <= 256 {
      forall name, key, name', key' | 1 <= |name| <= n && 1 <= |name'| <= n && EncodeHash(name, key) == EncodeHash(name', key')
        ensures name == name' && key == key'
      {
        MeetEitherWay(name, key, name', key');
      }
    } else {
      var name' := "a=" + Bytes255();
      LongHashNamesCollide("a", Bytes255(), "");
      assert "a" + "=" == "a=" && |name'| == 257;
    }
  }

  /** Both limits of 255 bytes that a write checks are what keeps unchecked reads right: with either
      one any larger, some read of another name or field meets a stored one. */
  lemma ReadsApartExactly(nameMax: nat, keyMax: nat)
    requires nameMax >= 1 && keyMax >= 1
    ensures ReadsApart(nameMax, keyMax) <==> nameMax <= 255 && keyMax <= 255
  {
    hide EncodeHash, Bytes255;
    if nameMax <= 255 && keyMax <= 255 {
      forall name, key, name', key' | 1 <= |name| <= nameMax && 1 <= |key| <= keyMax && EncodeHash(name, key) == EncodeHash(name', key')
        ensures name == name' && key == key'
      {
        MeetEitherWay(name, key, name', key');
      }
    } else if keyMax > 255 {
      var key := Bytes255() + "=" + "";
      LongHashNamesCollide("a", Bytes255(), "");
      assert |"a" + "=" + Bytes255()| == 257;
      assert EncodeHash("a", key) == EncodeHash("a" + "=" + Bytes255(), "");
    } else {
      var name := "" + "=" + Bytes255();
      LongHashNamesCollide("", Bytes255(), "b");
      assert |name| == 256;
      assert EncodeHash("", Bytes255() + "=" + "b") == EncodeHash(name, "b");
    }
  }

  lemma HashKeyInjective(name: Bytes, key: Bytes, name': Bytes, key': Bytes)
    requires |name| <= 255 && |name'| <= 255
    requires EncodeHash(name, key) == EncodeHash(name', key')
    ensures name == name' && key == key'
  {
    HashKeyIsField(name, key);
    HashKeyIsField(name', key');
    HashKeysAreApart(name, name', EncodeHash(name, key));
  }
}
