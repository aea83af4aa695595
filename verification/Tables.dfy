/** The map codecs of the metadata store: ordered maps of 36-byte entries, written in key order. */
module Tables {
  import opened ByteCodec
  import Ordered
  import Seqs

  datatype MetaError = NotFound | AlreadyExists | NotADirectory | InvalidName | Corrupted

  /** The two layouts of an entry: inode number then digest, or digest then count. */
  datatype Layout = InoDigest | DigestCount

  type Table = map<int, int>

  ghost predicate EntryFits(l: Layout, k: int, v: int) {
    match l
    case InoDigest => 0 <= k < U64_LIMIT && 0 <= v < DIGEST_LIMIT
    case DigestCount => 0 <= k < DIGEST_LIMIT && 0 <= v < U64_LIMIT
  }

  ghost predicate Fits(l: Layout, m: Table) {
    |m| < U64_LIMIT && forall k :: k in m ==> EntryFits(l, k, m[k])
  }

  function EntryBytes(l: Layout, k: int, v: int): (b: Bytes)
    requires EntryFits(l, k, v)
    ensures |b| == 36
  {
    if l.InoDigest? then U64Bytes(k) + DigestBytes(v) else DigestBytes(k) + U64Bytes(v)
  }

  function EntryKey(l: Layout, b: Bytes): (k: int)
    requires |b| == 36
  {
    if l.InoDigest? then ReadU64(b[..8]) else ReadDigest(b[..28])
  }

  function EntryValue(l: Layout, b: Bytes): (v: int)
    requires |b| == 36
  {
    if l.InoDigest? then ReadDigest(b[8..]) else ReadU64(b[28..])
  }

  lemma EntryRoundTrip(l: Layout, k: int, v: int)
    requires EntryFits(l, k, v)
    ensures EntryKey(l, EntryBytes(l, k, v)) == k && EntryValue(l, EntryBytes(l, k, v)) == v
  {
    if l.InoDigest? {
      U64RoundTrip(k);
      DigestRoundTrip(v);
      Seqs.Parts(U64Bytes(k), DigestBytes(v));
    } else {
      DigestRoundTrip(k);
      U64RoundTrip(v);
      Seqs.Parts(DigestBytes(k), U64Bytes(v));
    }
  }

  // ------------------------------------------------------------- runs of entries

  ghost predicate KeysIn(ks: seq<int>, l: Layout, m: Table) {
    forall i :: 0 <= i < |ks| ==> ks[i] in m && EntryFits(l, ks[i], m[ks[i]])
  }

  function EncodeEntries(l: Layout, m: Table, ks: seq<int>): (b: Bytes)
    requires KeysIn(ks, l, m)
    ensures |b| == 36 * |ks|
  {
    if ks == [] then []
    else
      var k := ks[|ks| - 1];
      EncodeEntries(l, m, ks[..|ks| - 1]) + EntryBytes(l, k, m[k])
  }

  /** A length that is a whole number of entries. */
  predicate Whole(n: nat) {
    n % 36 == 0
  }

  lemma WholeSteps(n: nat, length: nat)
    requires Whole(n)
    ensures Whole(n + 36)
    ensures n >= 36 ==> Whole(n - 36)
    ensures Whole(length) && n < length ==> n + 36 <= length
    ensures Whole(0) && Whole(36 * length)
  {
  }

  /** Entries are inserted in order; a repeated key keeps its last value. */
  function DecodeEntries(l: Layout, b: Bytes): (m: Table)
    requires Whole(|b|)
  {
    if b == [] then map[]
    else
      var last := b[|b| - 36..];
      DecodeEntries(l, b[..|b| - 36])[EntryKey(l, last) := EntryValue(l, last)]
  }

  /** Whatever is decoded has keys and values of the right width. */
  lemma {:induction false} DecodedFits(l: Layout, b: Bytes)
    requires Whole(|b|)
    ensures forall k :: k in DecodeEntries(l, b) ==> EntryFits(l, k, DecodeEntries(l, b)[k])
  {
    if b != [] { DecodedFits(l, b[..|b| - 36]); }
  }

  ghost function Restrict(m: Table, ks: seq<int>): (r: Table) {
    map k | k in m && k in ks :: m[k]
  }

  lemma RestrictSnoc(m: Table, ks: seq<int>)
    requires ks != [] && ks[|ks| - 1] in m
    ensures Restrict(m, ks) == Restrict(m, ks[..|ks| - 1])[ks[|ks| - 1] := m[ks[|ks| - 1]]]
  {
    Seqs.SplitLast(ks);
    assert forall k :: k in ks <==> k in ks[..|ks| - 1] || k == ks[|ks| - 1];
  }

  lemma {:induction false} EntriesRoundTrip(l: Layout, m: Table, ks: seq<int>)
    requires KeysIn(ks, l, m)
    ensures DecodeEntries(l, EncodeEntries(l, m, ks)) == Restrict(m, ks)
  {
    hide EntryBytes, EntryKey, EntryValue;
    if ks == [] {
      assert Restrict(m, ks) == map[];
    } else {
      var front, k := ks[..|ks| - 1], ks[|ks| - 1];
      EntriesRoundTrip(l, m, front);
      EntryRoundTrip(l, k, m[k]);
      Seqs.Parts(EncodeEntries(l, m, front), EntryBytes(l, k, m[k]));
      RestrictSnoc(m, ks);
    }
  }

  lemma AllKeys(l: Layout, m: Table)
    requires Fits(l, m)
    ensures KeysIn(Ordered.Ascending(m.Keys), l, m)
    ensures |Ordered.Ascending(m.Keys)| == |m|
    ensures Restrict(m, Ordered.Ascending(m.Keys)) == m
  {
    var ks := Ordered.Ascending(m.Keys);
    forall i | 0 <= i < |ks| ensures ks[i] in m { assert ks[i] in ks; }
    assert |m.Keys| == |m|;
    assert forall k :: k in m ==> k in ks;
  }

  lemma EncodeSnoc(l: Layout, m: Table, ks: seq<int>, i: nat)
    requires KeysIn(ks, l, m) && i < |ks|
    ensures KeysIn(ks[..i], l, m) && KeysIn(ks[..i + 1], l, m)
    ensures ks[i] in m && EntryFits(l, ks[i], m[ks[i]])
    ensures EncodeEntries(l, m, ks[..i + 1]) == EncodeEntries(l, m, ks[..i]) + EntryBytes(l, ks[i], m[ks[i]])
  {
    Seqs.PrefixSnoc(ks, i);
  }

  lemma DecodeSnoc(l: Layout, b: Bytes, i: nat)
    requires Whole(i) && i + 36 <= |b|
    ensures var entry := b[i..i + 36];
            DecodeEntries(l, b[..i + 36]) == DecodeEntries(l, b[..i])[EntryKey(l, entry) := EntryValue(l, entry)]
  {
    hide EntryKey, EntryValue;
    var upto := b[..i + 36];
    assert upto[..i] == b[..i] && upto[i..] == b[i..i + 36];
  }

  // ------------------------------------------------------------ counted tables

  ghost function EncodeTable(l: Layout, m: Table): (b: Bytes)
    requires Fits(l, m)
  {
    AllKeys(l, m);
    U64Bytes(|m|) + EncodeEntries(l, m, Ordered.Ascending(m.Keys))
  }

  function DecodeTable(l: Layout, b: Bytes): (r: Result<Table, MetaError>) {
    if |b| < 8 then Err(Corrupted)
    else if |b| != 8 + ReadU64(b[..8]) * 36 then Err(Corrupted)
    else Ok(DecodeEntries(l, b[8..]))
  }

  lemma DecodedTableFits(l: Layout, b: Bytes)
    requires DecodeTable(l, b).Ok?
    ensures forall k :: k in DecodeTable(l, b).value ==> EntryFits(l, k, DecodeTable(l, b).value[k])
  {
    hide DecodeEntries;
    DecodedFits(l, b[8..]);
  }

  lemma TableRoundTrip(l: Layout, m: Table)
    requires Fits(l, m)
    ensures DecodeTable(l, EncodeTable(l, m)) == Ok(m)
  {
    hide EncodeEntries, DecodeEntries;
    AllKeys(l, m);
    var ks := Ordered.Ascending(m.Keys);
    U64RoundTrip(|m|);
    Seqs.Parts(U64Bytes(|m|), EncodeEntries(l, m, ks));
    EntriesRoundTrip(l, m, ks);
  }

  /** `intern_u64_digest_map` and `intern_digest224_u64_map`, up to the push: the loop over the
      map in key order. */
  method SerializeTable(l: Layout, m: Table, keys: seq<int>) returns (b: Bytes)
    requires Fits(l, m) && keys == Ordered.Ascending(m.Keys)
    ensures b == EncodeTable(l, m)
  {
    AllKeys(l, m);
    var entries := SerializeEntries(l, m, keys);
    b := U64Bytes(|m|) + entries;
  }

  method SerializeEntries(l: Layout, m: Table, keys: seq<int>) returns (b: Bytes)
    requires KeysIn(keys, l, m)
    ensures b == EncodeEntries(l, m, keys)
  {
    b := [];
    for i := 0 to |keys|
      invariant KeysIn(keys[..i], l, m)
      invariant b == EncodeEntries(l, m, keys[..i])
    {
      EncodeSnoc(l, m, keys, i);
      b := b + EntryBytes(l, keys[i], m[keys[i]]);
    }
    Seqs.Units(keys);
  }

  /** `load_u64_digest_map` and `load_digest224_u64_map`, after the fetch. */
  method DeserializeTable(l: Layout, b: Bytes) returns (r: Result<Table, MetaError>)
    ensures r == DecodeTable(l, b)
  {
    if |b| < 8 { return Err(Corrupted); }
    var count: int := ReadU64(b[..8]);
    if |b| != 8 + count * 36 { return Err(Corrupted); }
    var m: Table := map[];
    var body := b[8..];
    assert DecodeEntries(l, body[..0]) == map[];
    hide DecodeEntries, EntryKey, EntryValue, Whole;
    for i := 0 to count
      invariant Whole(36 * i)
      invariant m == DecodeEntries(l, body[..36 * i])
    {
      var entry := body[36 * i..36 * i + 36];
      WholeSteps(36 * i, |body|);
      DecodeSnoc(l, body, 36 * i);
      m := m[EntryKey(l, entry) := EntryValue(l, entry)];
    }
    Seqs.Units(body);
    return Ok(m);
  }

  // --------------------------------------------------------------- the inode map

  /** The inode map has no count; its next inode number is recovered from the largest key. */
  ghost function EncodeInodeMap(m: Table): (b: Bytes)
    requires Fits(InoDigest, m)
  {
    AllKeys(InoDigest, m);
    EncodeEntries(InoDigest, m, Ordered.Ascending(m.Keys))
  }

  /** The largest inode number met, at least that of the root. */
  function MaxIno(b: Bytes): (n: int)
    requires Whole(|b|)
    ensures n >= 1
  {
    if b == [] then 1
    else
      var m := MaxIno(b[..|b| - 36]);
      var k := EntryKey(InoDigest, b[|b| - 36..]);
      if k > m then k else m
  }

  lemma MaxInoSnoc(b: Bytes, i: nat)
    requires Whole(i) && i + 36 <= |b|
    ensures var k := EntryKey(InoDigest, b[i..i + 36]);
            MaxIno(b[..i + 36]) == if k > MaxIno(b[..i]) then k else MaxIno(b[..i])
  {
    hide EntryKey;
    var upto := b[..i + 36];
    assert upto[..i] == b[..i] && upto[i..] == b[i..i + 36];
  }

  function DecodeInodeMap(b: Bytes): (r: Result<(Table, int), MetaError>) {
    if !Whole(|b|) then Err(Corrupted) else Ok((DecodeEntries(InoDigest, b), MaxIno(b) + 1))
  }

  lemma InodeMapRoundTrip(m: Table)
    requires Fits(InoDigest, m)
    ensures DecodeInodeMap(EncodeInodeMap(m)).Ok?
    ensures DecodeInodeMap(EncodeInodeMap(m)).value.0 == m
  {
    hide EncodeEntries, DecodeEntries, MaxIno, EntryBytes, Whole;
    AllKeys(InoDigest, m);
    WholeSteps(0, |m|);
    EntriesRoundTrip(InoDigest, m, Ordered.Ascending(m.Keys));
  }

  /** The recovered number is above every key of the decoded map, so none is handed out twice. */
  lemma {:induction false} RecoveredNextIno(b: Bytes)
    requires Whole(|b|)
    ensures forall k :: k in DecodeEntries(InoDigest, b) ==> k < MaxIno(b) + 1
    ensures MaxIno(b) == 1 || MaxIno(b) in DecodeEntries(InoDigest, b)
  {
    if b != [] {
      RecoveredNextIno(b[..|b| - 36]);
    }
  }

  /** `deserialize_inode_map`. */
  method DeserializeInodeMap(b: Bytes) returns (r: Result<(Table, int), MetaError>)
    ensures r == DecodeInodeMap(b)
  {
    if !Whole(|b|) { return Err(Corrupted); }
    var m: Table := map[];
    var maxIno := 1;
    var i := 0;
    WholeSteps(|b|, 0);
    assert DecodeEntries(InoDigest, b[..0]) == map[] && MaxIno(b[..0]) == 1;
    hide DecodeEntries, EntryKey, EntryValue, MaxIno, Whole;
    while i < |b|
      invariant 0 <= i <= |b| && Whole(i)
      invariant m == DecodeEntries(InoDigest, b[..i]) && maxIno == MaxIno(b[..i])
    {
      WholeSteps(i, |b|);
      var entry := b[i..i + 36];
      var ino := EntryKey(InoDigest, entry);
      DecodeSnoc(InoDigest, b, i);
      MaxInoSnoc(b, i);
      m := m[ino := EntryValue(InoDigest, entry)];
      if ino > maxIno { maxIno := ino; }
      i := i + 36;
    }
    Seqs.Units(b);
    return Ok((m, maxIno + 1));
  }

  // ------------------------------------------------------------- digest lists

  /** Digests one after the other, 28 bytes each: a manifest, and the tail of a root record. */
  function DigestList(ds: seq<Digest>): (b: Bytes)
    ensures |b| == 28 * |ds|
  {
    if ds == [] then [] else DigestList(ds[..|ds| - 1]) + DigestBytes(ds[|ds| - 1])
  }

  function ReadDigestList(b: Bytes): (ds: seq<Digest>)
    requires |b| % 28 == 0
    ensures 28 * |ds| == |b|
  {
    if b == [] then [] else ReadDigestList(b[..|b| - 28]) + [ReadDigest(b[|b| - 28..])]
  }

  lemma {:induction false} DigestListRoundTrip(ds: seq<Digest>)
    ensures ReadDigestList(DigestList(ds)) == ds
  {
    if ds != [] {
      var front, last := ds[..|ds| - 1], ds[|ds| - 1];
      DigestListRoundTrip(front);
      DigestRoundTrip(last);
      Seqs.Parts(DigestList(front), DigestBytes(last));
      Seqs.SplitLast(ds);
    }
  }

  lemma {:induction false} DigestListOnto(b: Bytes)
    requires |b| % 28 == 0
    ensures DigestList(ReadDigestList(b)) == b
  {
    if b != [] {
      var front, last := b[..|b| - 28], b[|b| - 28..];
      hide DigestBytes, ReadDigest;
      DigestListOnto(front);
      DigestOnto(last);
      Seqs.Parts(ReadDigestList(front), [ReadDigest(last)]);
      Seqs.Rejoin(b, |b| - 28);
    }
  }

  lemma {:induction false} DigestListAt(ds: seq<Digest>, i: nat)
    requires i < |ds|
    ensures ReadDigest(DigestList(ds)[28 * i..28 * i + 28]) == ds[i]
  {
    var front, last := ds[..|ds| - 1], ds[|ds| - 1];
    var a, b := DigestList(front), DigestBytes(last);
    if i == |ds| - 1 {
      DigestRoundTrip(last);
      Seqs.Parts(a, b);
    } else {
      DigestListAt(front, i);
      assert (a + b)[28 * i..28 * i + 28] == a[28 * i..28 * i + 28];
    }
  }

  /** `load_manifest`, after the fetch. */
  function DecodeManifest(b: Bytes): (r: Result<seq<Digest>, MetaError>) {
    if |b| % 28 != 0 then Err(Corrupted) else Ok(ReadDigestList(b))
  }

  method DeserializeManifest(b: Bytes) returns (r: Result<seq<Digest>, MetaError>)
    ensures r == DecodeManifest(b)
  {
    if |b| % 28 != 0 { return Err(Corrupted); }
    var blocks: seq<Digest> := [];
    for i := 0 to |b| / 28
      invariant blocks == ReadDigestList(b[..28 * i])
    {
      var upto := b[..28 * (i + 1)];
      assert upto[..|upto| - 28] == b[..28 * i] && upto[|upto| - 28..] == b[28 * i..28 * i + 28];
      blocks := blocks + [ReadDigest(b[28 * i..28 * i + 28])];
    }
    Seqs.Units(b);
    return Ok(blocks);
  }

  /** Manifests and their byte strings correspond one to one. */
  lemma ManifestCodec(ds: seq<Digest>, b: Bytes)
    ensures DecodeManifest(b) == Ok(ds) <==> b == DigestList(ds)
  {
    if DecodeManifest(b) == Ok(ds) {
      DigestListOnto(b);
    }
    if b == DigestList(ds) {
      DigestListRoundTrip(ds);
    }
  }
}
