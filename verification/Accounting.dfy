/** The running totals of the metadata store, and inode numbers, over runs of store operations with
    reloads in between. */
module Accounting {
  import opened ByteCodec
  import opened StoreView
  import Ordered

  /** The sum of the sizes of all inodes. */
  ghost function Total(m: map<int, Inode>): (n: nat)
    decreases |m.Keys|
  {
    if m.Keys == {} then 0
    else
      var k := Ordered.Least(m.Keys);
      m[k].size + Total(m - {k})
  }

  /** Any one inode can be counted first. */
  lemma {:induction false} TotalWithout(m: map<int, Inode>, i: int)
    requires i in m
    ensures Total(m) == m[i].size + Total(m - {i})
    decreases |m.Keys|
  {
    var k := Ordered.Least(m.Keys);
    if k != i {
      assert i in m - {k};
      TotalWithout(m - {k}, i);
      assert (m - {i}).Keys == m.Keys - {i};
      assert Ordered.IsLeast(k, (m - {i}).Keys);
      assert (m - {k}) - {i} == (m - {i}) - {k};
    }
  }

  lemma TotalPut(m: map<int, Inode>, i: int, x: Inode)
    ensures Total(m[i := x]) == x.size + Total(m - {i})
    ensures i in m ==> Total(m) == m[i].size + Total(m - {i})
    ensures i !in m ==> m - {i} == m
  {
    TotalWithout(m[i := x], i);
    assert m[i := x] - {i} == m - {i};
    if i in m { TotalWithout(m, i); }
  }

  /** The totals are those of the live inodes; every number in use is below the counter. */
  ghost predicate Accounted(v: View) {
    && v.logicalBytes == Total(v.inodes) && v.inodeCount == |v.inodes|
    && Numbered(v)
  }

  // ------------------------------------------------------------------- operations

  datatype StoreOp =
    | MakeInode(meta: Inode)
    | ChangeInode(meta: Inode)
    | RemoveInode(ino: nat)
    | MakeDirectory(parent: nat, name: Name, meta: Inode)
    | AddName(parent: nat, name: Name, ino: nat)
    | RemoveName(parent: nat, name: Name)
    | PutManifest(ino: nat, blocks: seq<Digest>)
    | Reload

  /** `load_from_root` counts again from the loaded inodes. */
  ghost function Reloaded(v: View): (r: View) {
    v.(logicalBytes := Total(v.inodes) % U64_LIMIT, inodeCount := |v.inodes| % U64_LIMIT)
  }

  function Or<T, E>(r: Result<T, E>, old0: T): (v: T) {
    match r
    case Ok(v) => v
    case Err(_) => old0
  }

  ghost function StoreStep(v: View, op: StoreOp): (v': View) {
    match op
    case MakeInode(meta) => CreateInode(v, meta).0
    case ChangeInode(meta) => Or(UpdateInode(v, meta), v)
    case RemoveInode(ino) => Or(DeleteInode(v, ino), v)
    case MakeDirectory(parent, name, meta) => CreateDirectory(v, parent, name, meta).0
    case AddName(parent, name, ino) => Or(LinkEntry(v, parent, name, ino), v)
    case RemoveName(parent, name) => Or(UnlinkEntry(v, parent, name), v)
    case PutManifest(ino, blocks) => SetManifest(v, ino, blocks)
    case Reload => Reloaded(v)
  }

  /** The totals stay below 2^64, and new directories have size 0. */
  ghost predicate TotalsFit(v: View, op: StoreOp) {
    && Total(StoreStep(v, op).inodes) < U64_LIMIT && |StoreStep(v, op).inodes| < U64_LIMIT
    && (op.MakeDirectory? ==> op.meta.size == 0)
  }

  ghost function RunStore(v: View, ops: seq<StoreOp>): (v': View)
    decreases |ops|
  {
    if ops == [] then v else RunStore(StoreStep(v, ops[0]), ops[1..])
  }

  ghost predicate AllFit(v: View, ops: seq<StoreOp>)
    decreases |ops|
  {
    ops == [] || (TotalsFit(v, ops[0]) && AllFit(StoreStep(v, ops[0]), ops[1..]))
  }

  lemma PutCount(m: map<int, Inode>, i: int, x: Inode)
    ensures |m[i := x]| == if i in m then |m| else |m| + 1
    ensures |m - {i}| == if i in m then |m| - 1 else |m|
  {
    assert m[i := x].Keys == m.Keys + {i};
    assert (m - {i}).Keys == m.Keys - {i};
    assert |m[i := x]| == |m[i := x].Keys| && |m - {i}| == |(m - {i}).Keys| && |m| == |m.Keys|;
  }

  lemma NoWrap(n: nat)
    requires n < U64_LIMIT
    ensures n % U64_LIMIT == n
  {
  }

  lemma MadeTotals(m: map<int, Inode>, i: int, x: Inode)
    requires i !in m
    ensures Total(m[i := x]) == Total(m) + x.size && |m[i := x]| == |m| + 1
  {
    hide Total;
    TotalPut(m, i, x);
    PutCount(m, i, x);
  }

  lemma MakeAccounted(v: View, meta: Inode)
    requires Accounted(v) && TotalsFit(v, MakeInode(meta))
    ensures Accounted(CreateInode(v, meta).0)
  {
    hide Total;
    var v' := CreateInode(v, meta).0;
    MadeTotals(v.inodes, v.nextIno, meta.(ino := v.nextIno));
    assert Total(v'.inodes) < U64_LIMIT && |v'.inodes| < U64_LIMIT;
    NoWrap(Total(v'.inodes));
    NoWrap(|v'.inodes|);
  }

  lemma ChangeAccounted(v: View, meta: Inode)
    requires Accounted(v) && TotalsFit(v, ChangeInode(meta))
    ensures Accounted(StoreStep(v, ChangeInode(meta)))
  {
    hide Total;
    if meta.ino in v.inodes {
      TotalPut(v.inodes, meta.ino, meta);
      PutCount(v.inodes, meta.ino, meta);
      NoWrap(Total(v.inodes[meta.ino := meta]));
    }
  }

  lemma RemoveAccounted(v: View, ino: nat)
    requires Accounted(v)
    ensures Accounted(StoreStep(v, RemoveInode(ino)))
  {
    if ino in v.inodes {
      TotalWithout(v.inodes, ino);
      PutCount(v.inodes, ino, v.inodes[ino]);
    }
  }

  /** The inodes after a directory is made: one more, and its parent has one more link. */
  ghost function WithDirectory(v: View, parent: nat, meta: Inode): (m: map<int, Inode>)
    requires parent in v.inodes
  {
    var ino := v.nextIno;
    var dir := meta.(ino := ino, mode := if IsDir(meta) then meta.mode else meta.mode + 16384);
    v.inodes[ino := dir][parent := v.inodes[parent].(nlinks := AsU32(v.inodes[parent].nlinks + 1))]
  }

  lemma DirectoryTotals(v: View, parent: nat, meta: Inode)
    requires Accounted(v) && parent in v.inodes && meta.size == 0
    ensures var m := WithDirectory(v, parent, meta);
            && Total(m) == Total(v.inodes) && |m| == |v.inodes| + 1
            && forall i :: i in m ==> i < v.nextIno + 1 && m[i].ino == i
  {
    hide Total, IsDir;
    var ino := v.nextIno;
    var dir := meta.(ino := ino, mode := if IsDir(meta) then meta.mode else meta.mode + 16384);
    var p := v.inodes[parent].(nlinks := AsU32(v.inodes[parent].nlinks + 1));
    TotalPut(v.inodes, ino, dir);
    PutCount(v.inodes, ino, dir);
    TotalPut(v.inodes[ino := dir], parent, p);
    PutCount(v.inodes[ino := dir], parent, p);
  }

  lemma DirectoryView(v: View, parent: nat, name: Name, meta: Inode)
    ensures var (v', r) := CreateDirectory(v, parent, name, meta);
            && v'.logicalBytes == v.logicalBytes
            && (r.Err? ==> v'.inodes == v.inodes && v'.inodeCount == v.inodeCount && v.nextIno <= v'.nextIno)
            && (r.Ok? ==> parent in v.inodes && v'.inodes == WithDirectory(v, parent, meta)
                          && v'.inodeCount == (v.inodeCount + 1) % U64_LIMIT && v'.nextIno == v.nextIno + 1)
  {
    hide IsDir, LinkEntry, UnlinkEntry;
    LinkFrame(v.(nextIno := v.nextIno + 1), parent, name, v.nextIno);
  }

  lemma MakeDirectoryAccounted(v: View, parent: nat, name: Name, meta: Inode)
    requires Accounted(v) && TotalsFit(v, MakeDirectory(parent, name, meta))
    ensures Accounted(CreateDirectory(v, parent, name, meta).0)
  {
    hide Total, CreateDirectory, WithDirectory;
    DirectoryView(v, parent, name, meta);
    var (v', r) := CreateDirectory(v, parent, name, meta);
    if r.Ok? {
      DirectoryTotals(v, parent, meta);
      NoWrap(|v'.inodes|);
    }
  }

  lemma LinkFrame(v: View, parent: nat, name: Name, ino: nat)
    ensures var r := LinkEntry(v, parent, name, ino); r.Ok? ==> r.value == v.(dirs := r.value.dirs)
    ensures var r := UnlinkEntry(v, parent, name); r.Ok? ==> r.value == v.(dirs := r.value.dirs)
  {
  }

  lemma StepAccounted(v: View, op: StoreOp)
    requires Accounted(v) && TotalsFit(v, op)
    ensures Accounted(StoreStep(v, op))
  {
    hide IsDir, LinkEntry, UnlinkEntry, Total, CreateDirectory, UpdateInode, DeleteInode;
    match op
    case MakeInode(meta) => MakeAccounted(v, meta);
    case ChangeInode(meta) => ChangeAccounted(v, meta);
    case RemoveInode(ino) => RemoveAccounted(v, ino);
    case MakeDirectory(parent, name, meta) => MakeDirectoryAccounted(v, parent, name, meta);
    case AddName(parent, name, ino) => LinkFrame(v, parent, name, ino);
    case RemoveName(parent, name) => LinkFrame(v, parent, name, 0);
    case PutManifest(ino, blocks) =>
    case Reload =>
  }

  /** After every run of store operations and reloads, the logical bytes are the sum of the live
      inodes' sizes, and the inode count is their number. */
  lemma {:induction false} TotalsAreExact(v: View, ops: seq<StoreOp>)
    requires Accounted(v) && AllFit(v, ops)
    ensures Accounted(RunStore(v, ops))
    decreases |ops|
  {
    hide Accounted, TotalsFit, StoreStep;
    if ops != [] {
      StepAccounted(v, ops[0]);
      TotalsAreExact(StoreStep(v, ops[0]), ops[1..]);
    }
  }

  // --------------------------------------------------------------- inode numbers

  /** The number an operation takes, if any; a failed `create_directory` may take one as well. */
  ghost function Taken(v: View, op: StoreOp): (ns: seq<nat>) {
    if StoreStep(v, op).nextIno == v.nextIno then [] else [v.nextIno]
  }

  ghost function Numbers(v: View, ops: seq<StoreOp>): (ns: seq<nat>)
    decreases |ops|
  {
    if ops == [] then [] else Taken(v, ops[0]) + Numbers(StoreStep(v, ops[0]), ops[1..])
  }

  lemma CounterMoves(v: View, op: StoreOp)
    ensures v.nextIno <= StoreStep(v, op).nextIno <= v.nextIno + 1
    ensures op.MakeInode? ==> CreateInode(v, op.meta).1 == v.nextIno && StoreStep(v, op).nextIno == v.nextIno + 1
    ensures op.MakeDirectory? && CreateDirectory(v, op.parent, op.name, op.meta).1.Ok? ==>
              CreateDirectory(v, op.parent, op.name, op.meta).1.value == v.nextIno
                  && StoreStep(v, op).nextIno == v.nextIno + 1
  {
    hide IsDir, LinkEntry, UnlinkEntry, Total;
    if op.AddName? { LinkFrame(v, op.parent, op.name, op.ino); }
    if op.RemoveName? { LinkFrame(v, op.parent, op.name, 0); }
    if op.MakeDirectory? { LinkFrame(v.(nextIno := v.nextIno + 1), op.parent, op.name, v.nextIno); }
  }

  /** Inode numbers are handed out in increasing order, below the counter, through deletions and
      reloads: none is ever used twice. */
  lemma {:induction false} NumbersNeverReused(v: View, ops: seq<StoreOp>)
    ensures v.nextIno <= RunStore(v, ops).nextIno
    ensures forall i :: 0 <= i < |Numbers(v, ops)| ==> v.nextIno <= Numbers(v, ops)[i] < RunStore(v, ops).nextIno
    ensures forall i, j :: 0 <= i < j < |Numbers(v, ops)| ==> Numbers(v, ops)[i] < Numbers(v, ops)[j]
    decreases |ops|
  {
    hide StoreStep;
    if ops != [] {
      CounterMoves(v, ops[0]);
      NumbersNeverReused(StoreStep(v, ops[0]), ops[1..]);
    }
  }

  // ------------------------------------------------------------------- recounting

  /** The sizes summed in a given order, as loading does. */
  ghost function SumOver(m: map<int, Inode>, ks: seq<int>): (n: nat)
    requires forall i :: 0 <= i < |ks| ==> ks[i] in m
  {
    if ks == [] then 0 else m[ks[0]].size + SumOver(m, ks[1..])
  }

  lemma {:induction false} SumWithout(m: map<int, Inode>, ks: seq<int>, k: int)
    requires (forall i :: 0 <= i < |ks| ==> ks[i] in m) && k !in ks
    ensures SumOver(m, ks) == SumOver(m - {k}, ks)
  {
    if ks != [] {
      assert ks[0] in ks;
      SumWithout(m, ks[1..], k);
    }
  }

  /** Summing in key order gives the total. */
  lemma {:induction false} TotalInOrder(m: map<int, Inode>)
    ensures forall i :: 0 <= i < |Ordered.Ascending(m.Keys)| ==> Ordered.Ascending(m.Keys)[i] in m
    ensures SumOver(m, Ordered.Ascending(m.Keys)) == Total(m)
    decreases |m.Keys|
  {
    var ks := Ordered.Ascending(m.Keys);
    forall i | 0 <= i < |ks| ensures ks[i] in m { assert ks[i] in ks; }
    if m.Keys != {} {
      var k := Ordered.Least(m.Keys);
      assert (m - {k}).Keys == m.Keys - {k};
      TotalInOrder(m - {k});
      var rest := Ordered.Ascending(m.Keys - {k});
      assert ks == [k] + rest && ks[1..] == rest;
      assert k !in rest;
      SumWithout(m, rest, k);
    }
  }
}
