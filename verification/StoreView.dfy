/** The metadata store as its callers see it: inodes, directories, manifests, attributes, reference
    counts and running totals, with the operations of the `MetadataStore` interface. */
module StoreView {
  import opened ByteCodec
  import opened Tables

  datatype Inode = Inode(
    ino: nat, mode: nat, uid: nat, gid: nat, nlinks: nat, size: nat,
    mtimeSec: int, mtimeNsec: nat, ctimeSec: int, ctimeNsec: nat)

  /** File names are the UTF-8 bytes of Rust strings. */
  type Name = Bytes

  const DOT: Name := [46]
  const DOTDOT: Name := [46, 46]

  predicate IsDot(n: Name) {
    n == DOT || n == DOTDOT
  }

  /** `mode & S_IFDIR != 0`, where S_IFDIR is 0o040000. */
  predicate IsDir(i: Inode) {
    i.mode / 16384 % 2 == 1
  }

  datatype View = View(
    inodes: map<nat, Inode>,
    dirs: map<nat, map<Name, nat>>,
    manifests: map<nat, seq<Digest>>,
    xattrs: map<nat, seq<(Name, Bytes)>>,
    refcounts: Counts,
    nextIno: nat,
    logicalBytes: u64,
    inodeCount: u64)

  const ROOT: nat := 1
  const U64_MAX: nat := 0xFFFF_FFFF_FFFF_FFFF

  function SaturatingSub(a: nat, b: nat): (r: nat)
    ensures r <= a
  {
    if a < b then 0 else a - b
  }

  // ------------------------------------------------------------ reference counts

  function Count(v: View, d: Digest): (n: u64) {
    if d in v.refcounts then v.refcounts[d] else 0
  }

  type Counts = map<Digest, u64>

  /** Counts stop at the largest 64-bit value. */
  function Raised(c: Counts, d: Digest): (r: Counts) {
    var n: u64 := if d in c then c[d] else 0;
    if n == U64_MAX then c else c[d := n + 1]
  }

  /** A count at the largest value is never lowered; one that reaches zero is dropped. */
  function Lowered(c: Counts, d: Digest): (r: Counts) {
    if d !in c || c[d] == U64_MAX then c
    else if c[d] <= 1 then c - {d}
    else c[d := c[d] - 1]
  }

  function IncRef(v: View, d: Digest): (r: View) {
    v.(refcounts := Raised(v.refcounts, d))
  }

  function DecRef(v: View, d: Digest): (r: View) {
    v.(refcounts := Lowered(v.refcounts, d))
  }

  function DecRefs(v: View, ds: seq<Digest>): (r: View) {
    if ds == [] then v else DecRef(DecRefs(v, ds[..|ds| - 1]), ds[|ds| - 1])
  }

  // --------------------------------------------------------------------- inodes

  /** Every number in use is below the counter, and inodes know their own number. */
  ghost predicate Numbered(v: View) {
    forall i :: i in v.inodes ==> i < v.nextIno && v.inodes[i].ino == i
  }

  /** The number is fresh: the counter only moves up. */
  function CreateInode(v: View, meta: Inode): (r: (View, nat)) {
    var ino := v.nextIno;
    (v.(inodes := v.inodes[ino := meta.(ino := ino)],
        nextIno := ino + 1,
        logicalBytes := (v.logicalBytes + meta.size) % U64_LIMIT,
        inodeCount := (v.inodeCount + 1) % U64_LIMIT),
     ino)
  }

  function GetInode(v: View, ino: nat): (r: Result<Inode, MetaError>) {
    if ino in v.inodes then Ok(v.inodes[ino]) else Err(NotFound)
  }

  function UpdateInode(v: View, meta: Inode): (r: Result<View, MetaError>) {
    if meta.ino !in v.inodes then Err(NotFound)
    else
      var before, after := v.inodes[meta.ino].size, meta.size;
      Ok(v.(inodes := v.inodes[meta.ino := meta],
            logicalBytes := if after > before then (v.logicalBytes + (after - before)) % U64_LIMIT
                            else SaturatingSub(v.logicalBytes, before - after)))
  }

  /** Only the inode goes; its directory, manifest and attribute entries stay behind. */
  function DeleteInode(v: View, ino: nat): (r: Result<View, MetaError>) {
    if ino !in v.inodes then Err(NotFound)
    else
      Ok(v.(inodes := v.inodes - {ino},
            logicalBytes := SaturatingSub(v.logicalBytes, v.inodes[ino].size),
            inodeCount := SaturatingSub(v.inodeCount, 1)))
  }

  // ----------------------------------------------------------------- directories

  function Lookup(v: View, parent: nat, name: Name): (r: Result<nat, MetaError>) {
    if parent !in v.dirs then Err(NotADirectory)
    else if name in v.dirs[parent] then Ok(v.dirs[parent][name])
    else Err(NotFound)
  }

  function LinkEntry(v: View, parent: nat, name: Name, ino: nat): (r: Result<View, MetaError>) {
    if parent !in v.dirs then Err(NotADirectory)
    else if IsDot(name) then Err(InvalidName)
    else if name in v.dirs[parent] then Err(AlreadyExists)
    else
      var entries: map<Name, nat> := v.dirs[parent][name := ino];
      Ok(v.(dirs := v.dirs[parent := entries]))
  }

  function UnlinkEntry(v: View, parent: nat, name: Name): (r: Result<View, MetaError>) {
    if parent !in v.dirs then Err(NotADirectory)
    else if IsDot(name) then Err(InvalidName)
    else if name !in v.dirs[parent] then Err(NotFound)
    else Ok(v.(dirs := v.dirs[parent := v.dirs[parent] - {name}]))
  }

  /** A failed call may still have used up an inode number. Link counts are 32-bit and wrap. */
  function CreateDirectory(v: View, parent: nat, name: Name, meta: Inode): (r: (View, Result<nat, MetaError>)) {
    if parent !in v.inodes then (v, Err(NotFound))
    else if !IsDir(v.inodes[parent]) || parent !in v.dirs then (v, Err(NotADirectory))
    else
      var ino := v.nextIno;
      var v1 := v.(nextIno := ino + 1);
      match LinkEntry(v1, parent, name, ino)
      case Err(e) => (v1, Err(e))
      case Ok(v2) =>
        var dir := meta.(ino := ino, mode := if IsDir(meta) then meta.mode else meta.mode + 16384);
        var p := v.inodes[parent];
        var entries: map<Name, nat> := map[DOT := ino, DOTDOT := parent];
        (v2.(inodes := v2.inodes[ino := dir][parent := p.(nlinks := AsU32(p.nlinks + 1))],
             dirs := v2.dirs[ino := entries],
             inodeCount := (v2.inodeCount + 1) % U64_LIMIT),
         Ok(ino))
  }

  // ------------------------------------------------------------------- manifests

  function SetManifest(v: View, ino: nat, blocks: seq<Digest>): (r: View) {
    v.(manifests := v.manifests[ino := blocks])
  }

  function GetManifest(v: View, ino: nat): (r: Result<seq<Digest>, MetaError>) {
    if ino in v.manifests then Ok(v.manifests[ino]) else Err(NotFound)
  }

  /** The manifest's blocks; none for a file that never got a manifest. */
  function Blocks(v: View, ino: nat): (ds: seq<Digest>) {
    if ino in v.manifests then v.manifests[ino] else []
  }
}
