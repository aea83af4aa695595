/** How the digest tables of the metadata store stand for what its callers see. */
module StoreTies {
  import opened ByteCodec
  import opened Cas
  import opened Tables
  import opened StoreView
  import Directory
  import Inodes
  import Persist
  import Xattrs

  type DigestMap = map<u64, Digest>

  /** The fields of `DictMetadataStore`, with the blob store they point into. */
  datatype Store = Store(
    blobs: Blobs,
    inodeMap: DigestMap, nextIno: u64,
    inodeData: DigestMap, dirData: DigestMap, manifestData: DigestMap, xattrData: DigestMap,
    refcounts: Counts, logicalBytes: u64, inodeCount: u64)

  ghost predicate HoldsInode(blobs: Blobs, d: Digest, i: Inode) {
    Inodes.InodeFits(i) && d in blobs && blobs[d] == Inodes.EncodeInode(i)
  }

  ghost predicate HoldsManifest(blobs: Blobs, d: Digest, ds: seq<Digest>) {
    d in blobs && blobs[d] == DigestList(ds)
  }

  ghost predicate HoldsXattrs(blobs: Blobs, d: Digest, xs: Xattrs.Attrs) {
    Xattrs.AttrsFit(xs) && d in blobs && blobs[d] == Xattrs.EncodeAttrs(xs)
  }

  ghost predicate InodesTie(st: Store, v: View) {
    st.inodeData.Keys == v.inodes.Keys && forall i :: i in v.inodes ==>
        HoldsInode(st.blobs, st.inodeData[i], v.inodes[i])
  }

  ghost predicate DirsTie(h: Hash, st: Store, v: View) {
    st.dirData.Keys == v.dirs.Keys && forall i :: i in v.dirs ==> Directory.DirOf(h, st.blobs, st.dirData[i], v.dirs[i])
  }

  ghost predicate ManifestsTie(st: Store, v: View) {
    st.manifestData.Keys == v.manifests.Keys
    && forall i :: i in v.manifests ==> HoldsManifest(st.blobs, st.manifestData[i], v.manifests[i])
  }

  ghost predicate XattrsTie(st: Store, v: View) {
    st.xattrData.Keys == v.xattrs.Keys && forall i :: i in v.xattrs ==>
        HoldsXattrs(st.blobs, st.xattrData[i], v.xattrs[i])
  }

  ghost predicate CountersTie(st: Store, v: View) {
    && st.inodeMap == st.inodeData && st.nextIno == v.nextIno && st.refcounts == v.refcounts
    && st.logicalBytes == v.logicalBytes && st.inodeCount == v.inodeCount
  }

  /** The tables hold exactly the view, each entry resolving in the blob store. */
  ghost predicate Ties(h: Hash, st: Store, v: View) {
    InodesTie(st, v) && DirsTie(h, st, v) && ManifestsTie(st, v) && XattrsTie(st, v) && CountersTie(st, v)
        && Numbered(v)
  }

  /** Pushing more never disturbs what is there. */
  lemma TiesGrow(h: Hash, st: Store, blobs: Blobs, v: View)
    requires Ties(h, st, v) && Grows(st.blobs, blobs)
    ensures Ties(h, st.(blobs := blobs), v)
  {
    hide Directory.DirOf, Inodes.InodeFits, Inodes.EncodeInode, DigestList, Xattrs.AttrsFit, Xattrs.EncodeAttrs;
    forall i | i in v.dirs ensures Directory.DirOf(h, blobs, st.dirData[i], v.dirs[i]) {
      Directory.OldDigestsResolve(h, st.blobs, blobs, st.dirData[i], v.dirs[i]);
    }
  }

  lemma TiesPut(h: Hash, st: Store, b: Bytes, v: View)
    requires Ties(h, st, v) && NoClash(h, st.blobs, b)
    ensures Ties(h, st.(blobs := Put(h, st.blobs, b)), v) && Has(h, Put(h, st.blobs, b), b)
            && Grows(st.blobs, Put(h, st.blobs, b))
  {
    hide Ties;
    PutGrowsIff(h, st.blobs, b);
    TiesGrow(h, st, Put(h, st.blobs, b), v);
  }

  /** An inode is written under its digest. */
  lemma TiesInode(h: Hash, st: Store, v: View, i: u64, m: Inode, d: Digest)
    requires Ties(h, st, v) && HoldsInode(st.blobs, d, m) && m.ino == i < v.nextIno
    ensures Ties(h, st.(inodeMap := st.inodeMap[i := d], inodeData := st.inodeData[i := d]),
            v.(inodes := v.inodes[i := m]))
  {
    hide Directory.DirOf, HoldsInode, HoldsManifest, HoldsXattrs;
  }

  lemma TiesNoInode(h: Hash, st: Store, v: View, i: u64)
    requires Ties(h, st, v)
    ensures Ties(h, st.(inodeMap := st.inodeMap - {i}, inodeData := st.inodeData - {i}), v.(inodes := v.inodes - {i}))
  {
    hide Directory.DirOf, HoldsInode, HoldsManifest, HoldsXattrs;
  }

  lemma TiesDir(h: Hash, st: Store, v: View, i: u64, m: map<Name, nat>, d: Digest)
    requires Ties(h, st, v) && Directory.DirOf(h, st.blobs, d, m)
    ensures Ties(h, st.(dirData := st.dirData[i := d]), v.(dirs := v.dirs[i := m]))
  {
    hide Directory.DirOf, HoldsInode, HoldsManifest, HoldsXattrs;
  }

  lemma TiesManifest(h: Hash, st: Store, v: View, i: u64, ds: seq<Digest>, d: Digest)
    requires Ties(h, st, v) && HoldsManifest(st.blobs, d, ds)
    ensures Ties(h, st.(manifestData := st.manifestData[i := d]), v.(manifests := v.manifests[i := ds]))
  {
    hide Directory.DirOf, HoldsInode, HoldsManifest, HoldsXattrs;
  }

  lemma TiesXattrs(h: Hash, st: Store, v: View, i: u64, xs: Xattrs.Attrs, d: Digest)
    requires Ties(h, st, v) && HoldsXattrs(st.blobs, d, xs)
    ensures Ties(h, st.(xattrData := st.xattrData[i := d]), v.(xattrs := v.xattrs[i := xs]))
  {
    hide Directory.DirOf, HoldsInode, HoldsManifest, HoldsXattrs;
  }

  /** Counters and reference counts change together. */
  lemma TiesCounters(h: Hash, st: Store, v: View, st': Store, v': View)
    requires Ties(h, st, v) && CountersTie(st', v') && v'.nextIno >= v.nextIno
    requires st' == st.(nextIno := st'.nextIno, refcounts := st'.refcounts, logicalBytes := st'.logicalBytes,
             inodeCount := st'.inodeCount)
    requires v' == v.(nextIno := v'.nextIno, refcounts := v'.refcounts, logicalBytes := v'.logicalBytes,
             inodeCount := v'.inodeCount)
    ensures Ties(h, st', v')
  {
    hide Directory.DirOf, HoldsInode, HoldsManifest, HoldsXattrs;
  }

  // -------------------------------------------------------------- attributes seen

  /** The attributes of an inode; none for one that never had any. */
  function AttrsOf(v: View, ino: nat): (xs: Xattrs.Attrs) {
    if ino in v.xattrs then v.xattrs[ino] else []
  }

  function SetXattr(v: View, ino: nat, name: Name, value: Bytes): (r: View) {
    v.(xattrs := v.xattrs[ino := Xattrs.SetAttr(AttrsOf(v, ino), name, value)])
  }

  function GetXattr(v: View, ino: nat, name: Name): (r: Result<Bytes, MetaError>) {
    match Xattrs.GetAttr(AttrsOf(v, ino), name)
    case Some(b) => Ok(b)
    case None => Err(NotFound)
  }

  function RemoveXattr(v: View, ino: nat, name: Name): (r: Result<View, MetaError>) {
    var xs := AttrsOf(v, ino);
    if |Xattrs.Retain(xs, name)| == |xs| then Err(NotFound)
    else Ok(v.(xattrs := v.xattrs[ino := Xattrs.Retain(xs, name)]))
  }

  // ------------------------------------------------------- fitting the fields on disk

  /** The entry that linking `name` under `parent` would add fits its fields. */
  ghost predicate LinkFits(v: View, parent: nat, name: Name) {
    parent in v.dirs ==> Directory.NameFits(v.dirs[parent], name)
  }

  /** So do the number and the entry of a new directory. */
  ghost predicate DirectoryFits(v: View, parent: nat, name: Name) {
    parent in v.inodes && IsDir(v.inodes[parent]) && parent in v.dirs ==>
      v.nextIno + 1 < U64_LIMIT && Directory.NameFits(v.dirs[parent], name)
  }

  // ------------------------------------------------------------ what a commit holds

  /** The tables as a commit writes them. */
  function MetaOf(st: Store): (m: Persist.Meta) {
    Persist.Meta(st.inodeMap, st.nextIno, st.inodeData, st.dirData, st.manifestData, st.xattrData, st.refcounts)
  }

  /** No table in memory has 2^64 entries or more. */
  ghost predicate SizesFit(st: Store) {
    && |st.inodeMap| < U64_LIMIT && |st.inodeData| < U64_LIMIT && |st.dirData| < U64_LIMIT
    && |st.manifestData| < U64_LIMIT && |st.xattrData| < U64_LIMIT && |st.refcounts| < U64_LIMIT
  }

  lemma SizesMakeMetaFit(st: Store)
    requires SizesFit(st)
    ensures Persist.MetaFits(MetaOf(st))
  {
  }

  /** The state committed as `st` with view `v` can be loaded from `root` in `blobs`. */
  ghost predicate Recorded(h: Hash, blobs: Blobs, root: Digest, st: Store, v: View) {
    && Ties(h, st, v) && Grows(st.blobs, blobs) && ROOT in v.inodes
    && Persist.Stored(h, blobs, MetaOf(st)) && root == Persist.RootOf(h, MetaOf(st))
  }

  /** A recorded state, with all its directories, inodes, manifests, attributes and counts, stays
      recorded in every larger blob store: nothing done later can change a snapshot. */
  lemma RecordedForGood(h: Hash, blobs: Blobs, later: Blobs, root: Digest, st: Store, v: View)
    requires Recorded(h, blobs, root, st, v) && Grows(blobs, later)
    ensures Recorded(h, later, root, st, v)
  {
    hide Ties, Persist.Stored, Persist.RootOf;
    Persist.CommittedForGood(h, blobs, later, MetaOf(st));
    GrowsTransitive(st.blobs, blobs, later);
  }
}
