/** The running totals over runs of filesystem calls: logical bytes and inode count stay exact. */
module FsTotals {
  import opened ByteCodec
  import opened Cas
  import opened StoreView
  import opened Fs
  import opened FsRuns
  import opened Accounting

  function SizeOf(v: View, i: nat): (n: nat) {
    if i in v.inodes then v.inodes[i].size else 0
  }

  function HandleSize(s: Fs, fh: nat): (n: nat) {
    if fh in s.files then SizeOf(s.view, s.files[fh].ino) else 0
  }

  /** How many bytes a call can add to the sum of all sizes. */
  function Growth(s: Fs, op: Op): (n: nat) {
    match op
    case OpSymlink(_, _, target, _, _) => |target|
    case OpFsync(fh, _) => if fh in s.files then SaturatingSub(s.files[fh].byteCount, HandleSize(s, fh)) else 0
    case OpRelease(fh, _) => if fh in s.files then SaturatingSub(s.files[fh].byteCount, HandleSize(s, fh)) else 0
    case OpTruncateOpen(fh, n, _) => SaturatingSub(n, HandleSize(s, fh))
    case OpTruncateClosed(ino, n, _) => SaturatingSub(n, SizeOf(s.view, ino))
    case _ => 0
  }

  /** The 64-bit totals have room for the call. */
  ghost predicate Room(s: Fs, op: Op) {
    Total(s.view.inodes) + Growth(s, op) < U64_LIMIT && |s.view.inodes| + 1 < U64_LIMIT
  }

  ghost predicate RoomThroughout(h: Hash, s: Fs, ops: seq<Op>)
    decreases |ops|
  {
    ops == [] || (Room(s, ops[0]) && RoomThroughout(h, Step(h, s, ops[0]), ops[1..]))
  }

  // ------------------------------------------------------------------ the primitives

  /** Nothing that is counted has changed. */
  ghost predicate SameAccounts(v: View, v': View) {
    v'.inodes == v.inodes && v'.logicalBytes == v.logicalBytes && v'.inodeCount == v.inodeCount
    && v'.nextIno >= v.nextIno
  }

  lemma SameAccounted(v: View, v': View)
    requires Accounted(v) && SameAccounts(v, v')
    ensures Accounted(v')
  {
    hide Total;
  }

  lemma EntryAccounts(v: View, parent: nat, name: Name, ino: nat)
    ensures LinkEntry(v, parent, name, ino).Ok? ==> SameAccounts(v, LinkEntry(v, parent, name, ino).value)
    ensures UnlinkEntry(v, parent, name).Ok? ==> SameAccounts(v, UnlinkEntry(v, parent, name).value)
  {
  }

  /** An inode is replaced, its size grows within the room there is. */
  lemma ResizedAccounted(v: View, meta: Inode)
    requires Accounted(v) && meta.ino in v.inodes
    requires Total(v.inodes) + SaturatingSub(meta.size, v.inodes[meta.ino].size) < U64_LIMIT
    ensures Accounted(UpdateInode(v, meta).value)
    ensures meta.size == v.inodes[meta.ino].size ==> Total(UpdateInode(v, meta).value.inodes) == Total(v.inodes)
    ensures |UpdateInode(v, meta).value.inodes| == |v.inodes|
  {
    hide Total;
    TotalPut(v.inodes, meta.ino, meta);
    PutCount(v.inodes, meta.ino, meta);
    ChangeAccounted(v, meta);
  }

  lemma SetSizeAccounted(v: View, ino: nat, n: nat, now: Time, mtime: bool)
    requires Accounted(v) && Total(v.inodes) + SaturatingSub(n, SizeOf(v, ino)) < U64_LIMIT
    ensures Accounted(SetSize(v, ino, n, now, mtime).0)
  {
    hide Total, UpdateInode;
    if ino in v.inodes {
      ResizedAccounted(v, (if mtime then Stamped(v.inodes[ino], now) else Touched(v.inodes[ino], now)).(size := n));
    }
  }

  lemma DropLinkAccounted(v: View, ino: nat)
    requires Accounted(v) && ino in v.inodes && Total(v.inodes) < U64_LIMIT
    ensures Accounted(DropLink(v, ino)) && Total(DropLink(v, ino).inodes) <= Total(v.inodes)
  {
    hide Total, UpdateInode;
    DecRefsFrame(v, Blocks(v, ino));
    var v1 := DecRefs(v, Blocks(v, ino));
    SameAccounted(v, v1);
    RemoveAccounted(v1, ino);
    TotalWithout(v.inodes, ino);
    ResizedAccounted(v, v.inodes[ino].(nlinks := SaturatingSub(v.inodes[ino].nlinks, 1)));
  }

  // ------------------------------------------------------------------- the calls

  lemma MakeFileAccounted(v: View, parent: nat, name: Name, meta: Inode)
    requires Accounted(v) && Total(v.inodes) + meta.size < U64_LIMIT && |v.inodes| + 1 < U64_LIMIT
    ensures Accounted(MakeFile(v, parent, name, meta).0)
  {
    hide Total, LinkEntry, UnlinkEntry;
    var (v1, ino) := CreateInode(v, meta);
    MadeTotals(v.inodes, v.nextIno, meta.(ino := v.nextIno));
    MakeAccounted(v, meta);
    EntryAccounts(v1, parent, name, ino);
    var linked := LinkEntry(v1, parent, name, ino);
    if linked.Ok? {
      SameAccounted(v1, linked.value);
    } else {
      RemoveAccounted(v1, ino);
    }
  }

  lemma SymlinkAccounted(h: Hash, s: Fs, parent: nat, name: Name, target: Bytes, uid: nat, gid: nat)
    requires Accounted(s.view) && Room(s, OpSymlink(parent, name, target, uid, gid))
    ensures Accounted(Symlink(h, s, parent, name, target, uid, gid).0.view)
  {
    hide Total, MakeFile;
    MakeFileAccounted(s.view, parent, name, NewSymlink(uid, gid, |target|));
    SameAccounted(MakeFile(s.view, parent, name, NewSymlink(uid, gid, |target|)).0,
        Symlink(h, s, parent, name, target, uid, gid).0.view);
  }

  lemma MkdirAccounted(s: Fs, parent: nat, name: Name, perm: nat, uid: nat, gid: nat)
    requires Accounted(s.view) && Total(s.view.inodes) < U64_LIMIT && |s.view.inodes| + 1 < U64_LIMIT
    ensures Accounted(Mkdir(s, parent, name, perm, uid, gid).0.view)
  {
    hide Total, CreateDirectory, WithDirectory;
    var meta := NewDir(uid, gid, perm);
    DirectoryView(s.view, parent, name, meta);
    if parent in s.view.inodes { DirectoryTotals(s.view, parent, meta); }
    MakeDirectoryAccounted(s.view, parent, name, meta);
  }

  lemma RmdirAccounted(s: Fs, parent: nat, name: Name)
    requires Accounted(s.view) && Total(s.view.inodes) < U64_LIMIT
    ensures Accounted(Rmdir(s, parent, name).0.view)
  {
    hide IsDir, Total, UpdateInode, LinkEntry, UnlinkEntry, EmptyDir;
    var v := s.view;
    EntryAccounts(v, parent, name, 0);
    var found, removed := Lookup(v, parent, name), UnlinkEntry(v, parent, name);
    if found.Ok? && found.value in v.inodes && removed.Ok? {
      var v1 := removed.value;
      SameAccounted(v, v1);
      RemoveAccounted(v1, found.value);
      TotalWithout(v.inodes, found.value);
      var v2 := DeleteInode(v1, found.value).value;
      if parent in v2.inodes && v2.inodes[parent].nlinks > 0 {
        ResizedAccounted(v2, v2.inodes[parent].(nlinks := v2.inodes[parent].nlinks - 1));
      }
    }
  }

  lemma HardLinkAccounted(s: Fs, ino: nat, parent: nat, name: Name, now: Time)
    requires Accounted(s.view) && Total(s.view.inodes) < U64_LIMIT
    ensures Accounted(HardLink(s, ino, parent, name, now).0.view)
  {
    hide IsDir, Total, UpdateInode, LinkEntry, UnlinkEntry;
    var v := s.view;
    EntryAccounts(v, parent, name, ino);
    var linked := LinkEntry(v, parent, name, ino);
    if ino in v.inodes && linked.Ok? {
      SameAccounted(v, linked.value);
      ResizedAccounted(linked.value, Touched(v.inodes[ino], now).(nlinks := AsU32(v.inodes[ino].nlinks + 1)));
    }
  }

  lemma UnlinkAccounted(s: Fs, parent: nat, name: Name)
    requires Accounted(s.view) && Total(s.view.inodes) < U64_LIMIT
    ensures Accounted(Unlink(s, parent, name).0.view)
  {
    hide IsDir, Total, LinkEntry, UnlinkEntry, DropLink;
    var v := s.view;
    EntryAccounts(v, parent, name, 0);
    var found, removed := Lookup(v, parent, name), UnlinkEntry(v, parent, name);
    if found.Ok? && found.value in v.inodes && removed.Ok? {
      SameAccounted(v, removed.value);
      DropLinkAccounted(removed.value, found.value);
    }
  }

  lemma MoveAccounted(s: Fs, src: nat, parent: nat, name: Name, newParent: nat, newName: Name, now: Time)
    requires Accounted(s.view) && Total(s.view.inodes) < U64_LIMIT
    ensures Accounted(Move(s, src, parent, name, newParent, newName, now).0.view)
  {
    hide Total, UpdateInode, LinkEntry, UnlinkEntry;
    EntryAccounts(s.view, newParent, newName, src);
    var linked := LinkEntry(s.view, newParent, newName, src);
    if linked.Ok? {
      var v1 := linked.value;
      SameAccounted(s.view, v1);
      EntryAccounts(v1, parent, name, src);
      var removed := UnlinkEntry(v1, parent, name);
      if removed.Ok? {
        SameAccounted(v1, removed.value);
        if src in v1.inodes { ResizedAccounted(removed.value, Touched(v1.inodes[src], now)); }
      }
    }
  }

  lemma RenameAccounted(s: Fs, parent: nat, name: Name, newParent: nat, newName: Name, noReplace: bool, now: Time)
    requires Accounted(s.view) && Total(s.view.inodes) < U64_LIMIT
    ensures Accounted(Rename(s, parent, name, newParent, newName, noReplace, now).0.view)
  {
    hide IsDir, Total, LinkEntry, UnlinkEntry, DropLink, Move, Accounted;
    var v := s.view;
    EntryAccounts(v, newParent, newName, 0);
    var source, target, removed := Lookup(v, parent, name), Lookup(v, newParent, newName),
        UnlinkEntry(v, newParent, newName);
    if source.Ok? {
      if target.Ok? && removed.Ok? && target.value in v.inodes {
        SameAccounted(v, removed.value);
        DropLinkAccounted(removed.value, target.value);
        MoveAccounted(s.(view := Displace(removed.value, target.value)), source.value, parent, name, newParent, newName,
            now);
      } else {
        MoveAccounted(s, source.value, parent, name, newParent, newName, now);
      }
    }
  }

  lemma CommitAccounted(v: View, ino: nat, prior: Option<Digest>, d: Digest, n: nat, now: Time)
    requires Accounted(v) && Total(v.inodes) + SaturatingSub(n, SizeOf(v, ino)) < U64_LIMIT
    ensures Accounted(SetSize(Rebind(v, ino, prior, d), ino, n, now, true).0)
  {
    hide Total, Rebind, SetSize;
    RebindFrame(v, ino, prior, d);
    SameAccounted(v, Rebind(v, ino, prior, d));
    SetSizeAccounted(Rebind(v, ino, prior, d), ino, n, now, true);
  }

  lemma TruncateOpenAccounted(h: Hash, s: Fs, fh: nat, n: nat, now: Time)
    requires Accounted(s.view) && fh in s.files
    requires Total(s.view.inodes) + SaturatingSub(n, HandleSize(s, fh)) < U64_LIMIT
    ensures Accounted(TruncateOpen(h, s, s.files[fh].ino, fh, n, now).0.view)
  {
    hide Total, SetSize, Resize;
    var f := s.files[fh];
    SameAccounted(s.view, DropRoot(s.view, f.lastRoot));
    SetSizeAccounted(s.view, f.ino, n, now, false);
    SetSizeAccounted(DropRoot(s.view, f.lastRoot), f.ino, n, now, false);
  }

  lemma TruncateClosedAccounted(h: Hash, s: Fs, ino: nat, n: nat, now: Time)
    requires Accounted(s.view) && Room(s, OpTruncateClosed(ino, n, now))
    ensures Accounted(TruncateClosed(h, s, ino, n, now).0.view)
  {
    hide Total, SetSize, Resize;
    var m := Blocks(s.view, ino);
    if m == [] || m[0] in s.cas {
      var content := Resize(if m == [] then [] else s.cas[m[0]], n);
      var v1 := if m == [] then s.view else DecRef(s.view, m[0]);
      var v2 :=
        if content == [] then SetManifest(v1, ino, []) else IncRef(SetManifest(v1, ino, [h(content)]), h(content));
      SameAccounted(s.view, v2);
      SetSizeAccounted(v2, ino, n, now, false);
    }
  }

  /** Calls through a handle: a write and a read leave the inodes alone, a commit sets the size. */
  lemma HandleAccounted(h: Hash, s: Fs, op: Op)
    requires Accounted(s.view) && Room(s, op)
    requires op.OpOpen? || op.OpWrite? || op.OpFsync? || op.OpRelease? || op.OpTruncateOpen? || op.OpRead?
    ensures Accounted(Step(h, s, op).view)
  {
    hide Total, SetSize, Rebind, Resize, Pwrite, FallbackBase, TruncateOpen, Accounted;
    match op
    case OpOpen(ino, write, trunc, now) =>
      var (s1, fh) := AddHandle(s, ino);
      TruncateOpenAccounted(h, s1, fh, 0, now);
    case OpTruncateOpen(fh, n, now) => if fh in s.files { TruncateOpenAccounted(h, s, fh, n, now); }
    case OpFsync(fh, now) =>
      if fh in s.files {
        var f := s.files[fh];
        CommitAccounted(s.view, f.ino, f.lastRoot, h(InFlight(f)), f.byteCount, now);
      }
    case OpRelease(fh, now) =>
      if fh in s.files {
        var f := s.files[fh];
        CommitAccounted(s.view, f.ino, f.lastRoot, h(InFlight(f)), f.byteCount, now);
        SameAccounted(s.view, SetManifest(s.view, f.ino, []));
      }
    case _ => SameAccounted(s.view, Step(h, s, op).view);
  }

  /** Every call keeps the totals exact when they have room for it. */
  lemma CallAccounted(h: Hash, s: Fs, op: Op)
    requires Accounted(s.view) && Room(s, op)
    ensures Accounted(Step(h, s, op).view)
  {
    hide IsDir, Total, Accounted, Mkdir, Rmdir, Unlink, HardLink, Rename, MakeFile, TruncateClosed;
    match op
    case OpCreate(parent, name, perm, uid, gid) => MakeFileAccounted(s.view, parent, name, NewFile(uid, gid, perm));
    case OpMknod(parent, name, kind, perm, uid, gid) =>
      MakeFileAccounted(s.view, parent, name, NewFile(uid, gid, perm));
    case OpSymlink(parent, name, target, uid, gid) => SymlinkAccounted(h, s, parent, name, target, uid, gid);
    case OpHardLink(ino, parent, name, now) => HardLinkAccounted(s, ino, parent, name, now);
    case OpUnlink(parent, name) => UnlinkAccounted(s, parent, name);
    case OpRename(parent, name, newParent, newName, noReplace, now) =>
      RenameAccounted(s, parent, name, newParent, newName, noReplace, now);
    case OpMkdir(parent, name, perm, uid, gid) => MkdirAccounted(s, parent, name, perm, uid, gid);
    case OpRmdir(parent, name) => RmdirAccounted(s, parent, name);
    case OpTruncateClosed(ino, n, now) => TruncateClosedAccounted(h, s, ino, n, now);
    case _ => HandleAccounted(h, s, op);
  }

  /** After every run of filesystem calls that the 64-bit totals have room for, the logical bytes are the
      sum of the sizes of the live inodes, and the inode count is their number. */
  lemma {:induction false} TotalsOverRuns(h: Hash, s: Fs, ops: seq<Op>)
    requires Accounted(s.view) && RoomThroughout(h, s, ops)
    ensures Accounted(RunFs(h, s, ops).view)
    decreases |ops|
  {
    hide Accounted, Room, Step;
    if ops != [] {
      CallAccounted(h, s, ops[0]);
      TotalsOverRuns(h, Step(h, s, ops[0]), ops[1..]);
    }
  }

  lemma FreshAccounted(s: Fs)
    requires Fresh(s)
    ensures Accounted(s.view)
  {
    var m := s.view.inodes;
    TotalWithout(m, ROOT);
    assert (m - {ROOT}).Keys == {};
    assert |m| == |m.Keys|;
  }

  lemma TotalsFromFresh(h: Hash, s: Fs, ops: seq<Op>)
    requires Fresh(s) && RoomThroughout(h, s, ops)
    ensures Accounted(RunFs(h, s, ops).view)
  {
    hide Accounted, RoomThroughout, RunFs;
    FreshAccounted(s);
    TotalsOverRuns(h, s, ops);
  }
}
