/** Committing the metadata store to a 184-byte root record over six map blobs, and loading it
    back from the root digest. */
module Persist {
  import opened ByteCodec
  import opened Cas
  import opened Tables
  import Seqs

  /** Everything `commit` writes: the inode map with its allocation counter, the four maps from
      inode number to digest, and the reference counts. */
  datatype Meta = Meta(
    inodeMap: Table, nextIno: int,
    inodeData: Table, dirData: Table, manifestData: Table, xattrData: Table,
    refcounts: Table)

  ghost predicate MetaFits(m: Meta) {
    && Fits(InoDigest, m.inodeMap) && 0 <= m.nextIno < U64_LIMIT
    && Fits(InoDigest, m.inodeData) && Fits(InoDigest, m.dirData)
    && Fits(InoDigest, m.manifestData) && Fits(InoDigest, m.xattrData)
    && Fits(DigestCount, m.refcounts)
  }

  const ROOT_INO: u64 := 1

  // ------------------------------------------------------------- the root record

  /** The digests of the five counted tables, in record order. */
  ghost function TableDigests(h: Hash, m: Meta): (ds: seq<Digest>)
    requires MetaFits(m)
    ensures |ds| == 5
  {
    [h(EncodeTable(InoDigest, m.inodeData)), h(EncodeTable(InoDigest, m.dirData)),
     h(EncodeTable(InoDigest, m.manifestData)), h(EncodeTable(InoDigest, m.xattrData)),
     h(EncodeTable(DigestCount, m.refcounts))]
  }

  function RecordBytes(inodeMap: Digest, nextIno: u64, tables: seq<Digest>): (b: Bytes)
    ensures |b| == 44 + 28 * |tables|
  {
    DigestBytes(inodeMap) + U64Bytes(ROOT_INO) + U64Bytes(nextIno) + DigestList(tables)
  }

  ghost function RootRecord(h: Hash, m: Meta): (b: Bytes)
    requires MetaFits(m)
    ensures |b| == 184
  {
    RecordBytes(h(EncodeInodeMap(m.inodeMap)), m.nextIno, TableDigests(h, m))
  }

  ghost function RootOf(h: Hash, m: Meta): (d: Digest)
    requires MetaFits(m)
  {
    h(RootRecord(h, m))
  }

  /** Every byte string a commit pushes, in order; the root record comes last. */
  ghost function Pushes(h: Hash, m: Meta): (ss: seq<Bytes>)
    requires MetaFits(m)
    ensures |ss| == 7
  {
    [EncodeInodeMap(m.inodeMap),
     EncodeTable(InoDigest, m.inodeData), EncodeTable(InoDigest, m.dirData),
     EncodeTable(InoDigest, m.manifestData), EncodeTable(InoDigest, m.xattrData),
     EncodeTable(DigestCount, m.refcounts),
     RootRecord(h, m)]
  }

  ghost predicate Stored(h: Hash, blobs: Blobs, m: Meta) {
    MetaFits(m) && forall i :: 0 <= i < 7 ==> Has(h, blobs, Pushes(h, m)[i])
  }

  lemma RecordFields(inodeMap: Digest, nextIno: u64, tables: seq<Digest>)
    ensures var b := RecordBytes(inodeMap, nextIno, tables);
            ReadDigest(b[0..28]) == inodeMap && ReadU64(b[28..36]) == ROOT_INO && ReadU64(b[36..44]) == nextIno
            && b[44..] == DigestList(tables)
  {
    hide DigestBytes, U64Bytes, DigestList, ReadDigest, ReadU64;
    var b := RecordBytes(inodeMap, nextIno, tables);
    DigestRoundTrip(inodeMap);
    U64RoundTrip(ROOT_INO);
    U64RoundTrip(nextIno);
    assert b[0..28] == DigestBytes(inodeMap);
    assert b[28..36] == U64Bytes(ROOT_INO);
    assert b[36..44] == U64Bytes(nextIno);
    Seqs.Parts(DigestBytes(inodeMap) + U64Bytes(ROOT_INO) + U64Bytes(nextIno), DigestList(tables));
  }

  // -------------------------------------------------------------------- loading

  function Fetch(blobs: Blobs, d: Digest): (r: Result<Bytes, MetaError>) {
    if d in blobs then Ok(blobs[d]) else Err(Corrupted)
  }

  function LoadTable(l: Layout, blobs: Blobs, d: Digest): (r: Result<Table, MetaError>) {
    var b :- Fetch(blobs, d);
    DecodeTable(l, b)
  }

  function LoadInodeMap(blobs: Blobs, d: Digest): (r: Result<(Table, int), MetaError>) {
    var b :- Fetch(blobs, d);
    DecodeInodeMap(b)
  }

  /** The `i`th table digest of a root record. */
  function TableField(record: Bytes, i: nat): (d: Digest)
    requires |record| >= 72 + 28 * i
  {
    ReadDigest(record[44..][28 * i..28 * i + 28])
  }

  /** `load_from_root`: accepts the 156-byte records without reference counts as well. */
  function Load(blobs: Blobs, root: Digest): (r: Result<Meta, MetaError>) {
    var record :- Fetch(blobs, root);
    if |record| != 156 && |record| != 184 then Err(Corrupted)
    else
      var inodeMap :- LoadInodeMap(blobs, ReadDigest(record[0..28]));
      var rootIno, nextIno := ReadU64(record[28..36]), ReadU64(record[36..44]);
      var inodeData :- LoadTable(InoDigest, blobs, TableField(record, 0));
      var dirData :- LoadTable(InoDigest, blobs, TableField(record, 1));
      var manifestData :- LoadTable(InoDigest, blobs, TableField(record, 2));
      var xattrData :- LoadTable(InoDigest, blobs, TableField(record, 3));
      var refcounts :- if |record| == 184 then LoadTable(DigestCount, blobs, TableField(record, 4)) else Ok(map[]);
      if rootIno !in inodeData then Err(Corrupted)
      else Ok(Meta(inodeMap.0, nextIno, inodeData, dirData, manifestData, xattrData, refcounts))
  }

  lemma LoadTableOf(h: Hash, l: Layout, blobs: Blobs, m: Table)
    requires Fits(l, m) && Has(h, blobs, EncodeTable(l, m))
    ensures LoadTable(l, blobs, h(EncodeTable(l, m))) == Ok(m)
  {
    TableRoundTrip(l, m);
  }

  lemma LoadInodeMapOf(h: Hash, blobs: Blobs, m: Table)
    requires Fits(InoDigest, m) && Has(h, blobs, EncodeInodeMap(m))
    ensures LoadInodeMap(blobs, h(EncodeInodeMap(m))).Ok?
    ensures LoadInodeMap(blobs, h(EncodeInodeMap(m))).value.0 == m
  {
    InodeMapRoundTrip(m);
  }

  lemma TableFieldOf(record: Bytes, tables: seq<Digest>, i: nat)
    requires |record| >= 44 && record[44..] == DigestList(tables) && i < |tables|
    ensures |record| >= 72 + 28 * i && TableField(record, i) == tables[i]
  {
    DigestListAt(tables, i);
  }

  lemma LoadTables(h: Hash, blobs: Blobs, m: Meta)
    requires Stored(h, blobs, m)
    ensures var ds := TableDigests(h, m);
            && LoadTable(InoDigest, blobs, ds[0]) == Ok(m.inodeData)
            && LoadTable(InoDigest, blobs, ds[1]) == Ok(m.dirData)
            && LoadTable(InoDigest, blobs, ds[2]) == Ok(m.manifestData)
            && LoadTable(InoDigest, blobs, ds[3]) == Ok(m.xattrData)
            && LoadTable(DigestCount, blobs, ds[4]) == Ok(m.refcounts)
  {
    hide Fits, EncodeTable, LoadTable, RootRecord, EncodeInodeMap;
    var ss := Pushes(h, m);
    assert Has(h, blobs, ss[1]) && Has(h, blobs, ss[2]) && Has(h, blobs, ss[3])
        && Has(h, blobs, ss[4]) && Has(h, blobs, ss[5]);
    LoadTableOf(h, InoDigest, blobs, m.inodeData);
    LoadTableOf(h, InoDigest, blobs, m.dirData);
    LoadTableOf(h, InoDigest, blobs, m.manifestData);
    LoadTableOf(h, InoDigest, blobs, m.xattrData);
    LoadTableOf(h, DigestCount, blobs, m.refcounts);
  }

  /** Loading a committed root is the identity on everything persisted; it is refused exactly when
      the committed state lost its root directory's inode. */
  lemma LoadOfCommit(h: Hash, blobs: Blobs, m: Meta)
    requires Stored(h, blobs, m)
    ensures Load(blobs, RootOf(h, m)) == if ROOT_INO in m.inodeData then Ok(m) else Err(Corrupted)
  {
    hide Fits, EncodeTable, LoadTable, LoadInodeMap, RecordBytes, DigestList, ReadDigest, ReadU64, TableDigests,
         TableField;
    var record, ds := RootRecord(h, m), TableDigests(h, m);
    assert Has(h, blobs, Pushes(h, m)[6]) && Has(h, blobs, Pushes(h, m)[0]);
    RecordFields(h(EncodeInodeMap(m.inodeMap)), m.nextIno, ds);
    LoadInodeMapOf(h, blobs, m.inodeMap);
    TableFieldOf(record, ds, 0);
    TableFieldOf(record, ds, 1);
    TableFieldOf(record, ds, 2);
    TableFieldOf(record, ds, 3);
    TableFieldOf(record, ds, 4);
    LoadTables(h, blobs, m);
  }

  /** Committing a freshly loaded state names the same root again. */
  lemma RecommitIsSameRoot(h: Hash, blobs: Blobs, m: Meta)
    requires Stored(h, blobs, m) && ROOT_INO in m.inodeData
    ensures var loaded := Load(blobs, RootOf(h, m));
            loaded.Ok? && MetaFits(loaded.value) && RootOf(h, loaded.value) == RootOf(h, m)
  {
    LoadOfCommit(h, blobs, m);
  }

  /** A committed state stays loadable, unchanged, in every later store. */
  lemma CommittedForGood(h: Hash, blobs: Blobs, later: Blobs, m: Meta)
    requires Stored(h, blobs, m) && Grows(blobs, later)
    ensures Stored(h, later, m)
  {
    hide Fits, Pushes;
  }
}
