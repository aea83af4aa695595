/** Runs of filesystem calls, and the link-count invariant over them. */
module FsRuns {
  import opened ByteCodec
  import opened Cas
  import opened StoreView
  import opened Links
  import opened Fs

  datatype Op =
    | OpCreate(parent: nat, name: Name, perm: nat, uid: nat, gid: nat)
    | OpMknod(parent: nat, name: Name, kind: nat, perm: nat, uid: nat, gid: nat)
    | OpSymlink(parent: nat, name: Name, target: Bytes, uid: nat, gid: nat)
    | OpOpen(ino: nat, write: bool, trunc: bool, now: Time)
    | OpWrite(fh: nat, off: nat, data: Bytes)
    | OpFsync(fh: nat, now: Time)
    | OpRelease(fh: nat, now: Time)
    | OpTruncateOpen(fh: nat, size: nat, now: Time)
    | OpTruncateClosed(ino: nat, size: nat, now: Time)
    | OpRead(ino: nat, writer: Option<nat>)
    | OpHardLink(ino: nat, parent: nat, name: Name, now: Time)
    | OpUnlink(parent: nat, name: Name)
    | OpRename(parent: nat, name: Name, newParent: nat, newName: Name, noReplace: bool, now: Time)
    | OpMkdir(parent: nat, name: Name, perm: nat, uid: nat, gid: nat)
    | OpRmdir(parent: nat, name: Name)

  function InoOf(s: Fs, fh: nat): (ino: nat) {
    if fh in s.files then s.files[fh].ino else 0
  }

  function Step(h: Hash, s: Fs, op: Op): (s': Fs) {
    match op
    case OpCreate(parent, name, perm, uid, gid) => Create(s, parent, name, perm, uid, gid).0
    case OpMknod(parent, name, kind, perm, uid, gid) => Mknod(s, parent, name, kind, perm, uid, gid).0
    case OpSymlink(parent, name, target, uid, gid) => Symlink(h, s, parent, name, target, uid, gid).0
    case OpOpen(ino, write, trunc, now) => Open(h, s, ino, write, trunc, now).0
    case OpWrite(fh, off, data) => Write(h, s, fh, off, data).0
    case OpFsync(fh, now) => Fsync(h, s, InoOf(s, fh), fh, now).0
    case OpRelease(fh, now) => Release(h, s, InoOf(s, fh), fh, now).0
    case OpTruncateOpen(fh, size, now) =>
      if fh in s.files then TruncateOpen(h, s, s.files[fh].ino, fh, size, now).0 else s
    case OpTruncateClosed(ino, size, now) => TruncateClosed(h, s, ino, size, now).0
    case OpRead(ino, writer) => if writer.Some? && writer.value !in s.files then s else ReadVia(h, s, ino, writer).0
    case OpHardLink(ino, parent, name, now) => HardLink(s, ino, parent, name, now).0
    case OpUnlink(parent, name) => Unlink(s, parent, name).0
    case OpRename(parent, name, newParent, newName, noReplace, now) =>
      Rename(s, parent, name, newParent, newName, noReplace, now).0
    case OpMkdir(parent, name, perm, uid, gid) => Mkdir(s, parent, name, perm, uid, gid).0
    case OpRmdir(parent, name) => Rmdir(s, parent, name).0
  }

  function RunFs(h: Hash, s: Fs, ops: seq<Op>): (s': Fs)
    decreases |ops|
  {
    if ops == [] then s else RunFs(h, Step(h, s, ops[0]), ops[1..])
  }

  /** A fresh store: the root directory alone. */
  ghost predicate Fresh(s: Fs) {
    && s.view.inodes.Keys == {ROOT} && s.view.nextIno == 2
    && IsDir(s.view.inodes[ROOT]) && s.view.inodes[ROOT].nlinks == 2 && s.view.inodes[ROOT].ino == ROOT
    && s.view.inodes[ROOT].size == 0
    && s.view.dirs == map[ROOT := map[DOT := ROOT, DOTDOT := ROOT]]
    && s.view.manifests == map[] && s.view.refcounts == map[] && s.files == map[]
    && s.view.logicalBytes == 0 && s.view.inodeCount == 1
  }

  // ----------------------------------------------------------- when links stay counted

  /** The rename gets past its checks: it will take the displaced entry out and put the source in. */
  ghost predicate Moves(v: View, parent: nat, name: Name, newParent: nat, newName: Name, noReplace: bool) {
    && Lookup(v, parent, name).Ok? && newParent in v.dirs && !IsDot(newName)
    && (newName in v.dirs[newParent] ==> !noReplace && v.dirs[newParent][newName] in v.inodes)
  }

  /** The source is a real entry, a directory stays in its parent, and no directory is displaced. */
  ghost predicate MovesWell(v: View, parent: nat, name: Name, newParent: nat, newName: Name)
    requires Lookup(v, parent, name).Ok? && newParent in v.dirs
  {
    && !IsDot(name) && (LiveDir(v, v.dirs[parent][name]) ==> newParent == parent)
    && (newName in v.dirs[newParent] ==> !LiveDir(v, v.dirs[newParent][newName]))
  }

  /** What the link counts need of a call: 32-bit counts do not wrap, and a rename moves well. */
  ghost predicate LinkGuard(s: Fs, op: Op) {
    match op
    case OpHardLink(ino, parent, name, _) =>
      ino in s.view.inodes && !IsDir(s.view.inodes[ino]) && LinkEntry(s.view, parent, name, ino).Ok? ==>
        s.view.inodes[ino].nlinks + 1 < U32_LIMIT
    case OpMkdir(parent, name, _, _, _) =>
      LiveDir(s.view, parent) && LinkEntry(s.view, parent, name, s.view.nextIno).Ok? ==>
        s.view.inodes[parent].nlinks + 1 < U32_LIMIT
    case OpRename(parent, name, newParent, newName, noReplace, _) =>
      Moves(s.view, parent, name, newParent, newName, noReplace) ==>
        MovesWell(s.view, parent, name, newParent, newName)
    case _ => true
  }

  ghost predicate LinkGuarded(h: Hash, s: Fs, ops: seq<Op>)
    decreases |ops|
  {
    ops == [] || (LinkGuard(s, ops[0]) && LinkGuarded(h, Step(h, s, ops[0]), ops[1..]))
  }

  // ------------------------------------------------------ calls that leave links alone

  lemma {:induction false} DecRefsFrame(v: View, ds: seq<Digest>)
    ensures DecRefs(v, ds) == v.(refcounts := DecRefs(v, ds).refcounts)
  {
    if ds != [] {
      DecRefsFrame(v, ds[..|ds| - 1]);
    }
  }

  lemma SetSizeLinks(v: View, ino: nat, size: nat, now: Time, mtime: bool)
    requires Numbered(v)
    ensures SameLinks(v, SetSize(v, ino, size, now, mtime).0)
  {
  }

  lemma RebindFrame(v: View, ino: nat, prior: Option<Digest>, d: Digest)
    ensures var v' := Rebind(v, ino, prior, d);
            v' == v.(refcounts := v'.refcounts, manifests := v.manifests[ino := [d]])
  {
    hide IncRef, DecRef;
    var v1 := if prior.Some? && prior.value != d then DecRef(v, prior.value) else v;
    if prior.Some? { CountFrame(v, prior.value); }
    CountFrame(SetManifest(v1, ino, [d]), d);
  }

  lemma CountFrame(v: View, d: Digest)
    ensures IncRef(v, d) == v.(refcounts := IncRef(v, d).refcounts)
    ensures DecRef(v, d) == v.(refcounts := DecRef(v, d).refcounts)
  {
  }

  lemma HandleOpLinks(h: Hash, s: Fs, op: Op)
    requires Numbered(s.view)
    requires op.OpOpen? || op.OpWrite? || op.OpFsync? || op.OpRelease? || op.OpTruncateOpen? || op.OpTruncateClosed?
             || op.OpRead?
    ensures SameLinks(s.view, Step(h, s, op).view)
  {
    hide IsDir, Numbered, SameLinks, Open, Write, Fsync, Release, TruncateOpen, TruncateClosed, ReadVia;
    FrameLinks(s.view, s.view);
    match op
    case OpOpen(ino, write, trunc, now) => OpenLinks(h, s, ino, write, trunc, now);
    case OpWrite(fh, off, data) => WriteLinks(h, s, fh, off, data);
    case OpRead(ino, writer) =>
      if writer.Some? ==> writer.value in s.files { ReadLinks(h, s, ino, writer); }
    case OpFsync(fh, now) => FsyncLinks(h, s, fh, now);
    case OpRelease(fh, now) => ReleaseLinks(h, s, fh, now);
    case OpTruncateOpen(fh, size, now) => if fh in s.files { TruncateOpenLinks(h, s, fh, size, now); }
    case OpTruncateClosed(ino, size, now) => ClosedLinks(h, s, ino, size, now);
  }

  lemma WriteLinks(h: Hash, s: Fs, fh: nat, off: nat, data: Bytes)
    requires Numbered(s.view)
    ensures SameLinks(s.view, Write(h, s, fh, off, data).0.view)
  {
    hide IsDir, Numbered, SameLinks, Pwrite, FallbackBase, DecRef;
    FrameLinks(s.view, s.view);
    if fh in s.files && s.files[fh].lastRoot.Some? {
      CountFrame(s.view, s.files[fh].lastRoot.value);
      FrameLinks(s.view, DecRef(s.view, s.files[fh].lastRoot.value));
    }
  }

  lemma ReadLinks(h: Hash, s: Fs, ino: nat, writer: Option<nat>)
    requires Numbered(s.view) && (writer.Some? ==> writer.value in s.files)
    ensures SameLinks(s.view, ReadVia(h, s, ino, writer).0.view)
  {
    hide IsDir, Numbered, SameLinks;
    FrameLinks(s.view, s.view);
  }

  lemma TruncateOpenLinks(h: Hash, s: Fs, fh: nat, size: nat, now: Time)
    requires Numbered(s.view) && fh in s.files
    ensures SameLinks(s.view, TruncateOpen(h, s, s.files[fh].ino, fh, size, now).0.view)
  {
    hide IsDir, Numbered, SameLinks, SetSize, Resize, DecRef;
    var f := s.files[fh];
    if f.lastRoot.Some? { CountFrame(s.view, f.lastRoot.value); }
    SizeAfter(s.view, DropRoot(s.view, f.lastRoot), f.ino, size, now, false);
    SizeAfter(s.view, s.view, f.ino, size, now, false);
  }

  lemma OpenLinks(h: Hash, s: Fs, ino: nat, write: bool, trunc: bool, now: Time)
    requires Numbered(s.view)
    ensures SameLinks(s.view, Open(h, s, ino, write, trunc, now).0.view)
  {
    hide IsDir, Numbered, SameLinks, TruncateOpen;
    FrameLinks(s.view, s.view);
    var (s1, fh) := AddHandle(s, ino);
    TruncateOpenLinks(h, s1, fh, 0, now);
  }

  lemma FrameLinks(v: View, v': View)
    requires Numbered(v) && v'.inodes == v.inodes && v'.dirs == v.dirs && v'.nextIno == v.nextIno
    ensures SameLinks(v, v')
  {
  }

  lemma SizeAfter(v: View, v1: View, ino: nat, size: nat, now: Time, mtime: bool)
    requires Numbered(v)
    requires v1.inodes == v.inodes && v1.dirs == v.dirs && v1.nextIno == v.nextIno
    ensures SameLinks(v, SetSize(v1, ino, size, now, mtime).0)
  {
    hide IsDir, SetSize;
    SetSizeLinks(v1, ino, size, now, mtime);
  }

  lemma RebindLinks(h: Hash, s: Fs, f: Handle, now: Time)
    requires Numbered(s.view)
    ensures SameLinks(s.view,
            SetSize(Rebind(s.view, f.ino, f.lastRoot, h(InFlight(f))), f.ino, f.byteCount, now, true).0)
  {
    hide IsDir, SetSize, Rebind;
    var d := h(InFlight(f));
    RebindFrame(s.view, f.ino, f.lastRoot, d);
    SizeAfter(s.view, Rebind(s.view, f.ino, f.lastRoot, d), f.ino, f.byteCount, now, true);
  }

  lemma FsyncLinks(h: Hash, s: Fs, fh: nat, now: Time)
    requires Numbered(s.view)
    ensures SameLinks(s.view, Fsync(h, s, InoOf(s, fh), fh, now).0.view)
  {
    hide IsDir, Numbered, SameLinks, SetSize, Rebind;
    FrameLinks(s.view, s.view);
    if fh in s.files { RebindLinks(h, s, s.files[fh], now); }
  }

  lemma ReleaseLinks(h: Hash, s: Fs, fh: nat, now: Time)
    requires Numbered(s.view)
    ensures SameLinks(s.view, Release(h, s, InoOf(s, fh), fh, now).0.view)
  {
    hide IsDir, Numbered, SameLinks, SetSize, Rebind;
    FrameLinks(s.view, s.view);
    FrameLinks(s.view, SetManifest(s.view, InoOf(s, fh), []));
    if fh in s.files { RebindLinks(h, s, s.files[fh], now); }
  }

  lemma ClosedLinks(h: Hash, s: Fs, ino: nat, size: nat, now: Time)
    requires Numbered(s.view)
    ensures SameLinks(s.view, TruncateClosed(h, s, ino, size, now).0.view)
  {
    hide IsDir, SetSize, Resize;
    var m := Blocks(s.view, ino);
    if m == [] || m[0] in s.cas {
      var content := Resize(if m == [] then [] else s.cas[m[0]], size);
      var v1 := if m == [] then s.view else DecRef(s.view, m[0]);
      var v2 :=
        if content == [] then SetManifest(v1, ino, []) else IncRef(SetManifest(v1, ino, [h(content)]), h(content));
      SizeAfter(s.view, v2, ino, size, now, false);
    }
  }

  // ---------------------------------------------------------------- calls that change links

  lemma MakeFileLinks(v: View, parent: nat, name: Name, meta: Inode)
    requires LinkInv(v) && !IsDir(meta) && meta.nlinks == 1
    ensures LinkInv(MakeFile(v, parent, name, meta).0)
  {
    hide IsDir, DirLinked, FileLinked;
    var (v', made) := MakeFile(v, parent, name, meta);
    assert v.nextIno !in v.inodes;
    if made.Ok? {
      KindIgnoresIno(meta, v.nextIno);
      AddFileKeeps(v, v', (parent, name), meta.(ino := v.nextIno));
    } else {
      assert v'.inodes == v.inodes;
      SameLinksKeep(v, v');
    }
  }

  lemma NewInodeKinds(uid: nat, gid: nat, perm: nat, size: nat)
    ensures !IsDir(NewFile(uid, gid, perm)) && !IsDir(NewSymlink(uid, gid, size)) && IsDir(NewDir(uid, gid, perm))
  {
  }

  lemma MkdirLinks(s: Fs, parent: nat, name: Name, perm: nat, uid: nat, gid: nat)
    requires LinkInv(s.view) && LinkGuard(s, OpMkdir(parent, name, perm, uid, gid))
    ensures LinkInv(Mkdir(s, parent, name, perm, uid, gid).0.view)
  {
    hide IsDir, DirLinked, FileLinked;
    NewInodeKinds(uid, gid, perm, 0);
    var v := s.view;
    var (v', r) := CreateDirectory(v, parent, name, NewDir(uid, gid, perm));
    if r.Ok? {
      var mid := LinkEntry(v.(nextIno := v.nextIno + 1), parent, name, v.nextIno).value;
      var m := NewDir(uid, gid, perm).(ino := v.nextIno);
      var pm := v.inodes[parent].(nlinks := v.inodes[parent].nlinks + 1);
      KindIgnoresLinks(v.inodes[parent], v.inodes[parent].nlinks + 1);
      KindIgnoresIno(NewDir(uid, gid, perm), v.nextIno);
      AddDirKeeps(v, mid, v', (parent, name), m, pm);
    } else {
      SameLinksKeep(v, v');
    }
  }

  lemma KindIgnoresLinks(i: Inode, n: nat)
    ensures IsDir(i.(nlinks := n)) == IsDir(i)
  {
  }

  lemma KindIgnoresIno(i: Inode, n: nat)
    ensures IsDir(i.(ino := n)) == IsDir(i)
  {
  }

  lemma RmdirLinks(s: Fs, parent: nat, name: Name)
    requires LinkInv(s.view)
    ensures LinkInv(Rmdir(s, parent, name).0.view)
  {
    hide IsDir, DirLinked, FileLinked;
    var v := s.view;
    var s' := Rmdir(s, parent, name).0;
    if s'.view != v {
      var p: Place := (parent, name);
      ParentOf(v, p);
      HasLinks(v, parent);
      var i := Target(v, p);
      assert parent != i;
      var pm := v.inodes[parent].(nlinks := v.inodes[parent].nlinks - 1);
      KindIgnoresLinks(v.inodes[parent], v.inodes[parent].nlinks - 1);
      RemoveDirKeeps(v, s'.view, p, pm);
    }
  }

  lemma HasLinks(v: View, d: nat)
    requires LinkInv(v) && LiveDir(v, d)
    ensures v.inodes[d].nlinks >= 2
  {
    assert DirLinked(v, d);
  }

  /** Removing an entry together with one link of the file it named. */
  lemma DropLinkKeeps(v: View, parent: nat, name: Name)
    requires LinkInv(v) && UnlinkEntry(v, parent, name).Ok?
    requires !LiveDir(v, v.dirs[parent][name])
    ensures v.dirs[parent][name] in v.inodes
    ensures LinkInv(DropLink(UnlinkEntry(v, parent, name).value, v.dirs[parent][name]))
  {
    hide IsDir, DirLinked;
    var p: Place := (parent, name);
    assert IsEntry(v, p);
    var i, v1 := Target(v, p), UnlinkEntry(v, parent, name).value;
    assert FileLinked(v, i);
    NamedOnce(v, p);
    DecRefsFrame(v1, Blocks(v1, i));
    var v' := DropLink(v1, i);
    if v.inodes[i].nlinks == 1 {
      RemoveLastKeeps(v, v', p);
    } else {
      KindIgnoresLinks(v.inodes[i], v.inodes[i].nlinks - 1);
      RemoveLinkKeeps(v, v', p, v.inodes[i].(nlinks := v.inodes[i].nlinks - 1));
    }
  }

  lemma NamedOnce(v: View, p: Place)
    requires IsEntry(v, p)
    ensures |Naming(v, Target(v, p))| >= 1
  {
    assert p in Naming(v, Target(v, p));
  }

  lemma UnlinkLinks(s: Fs, parent: nat, name: Name)
    requires LinkInv(s.view)
    ensures LinkInv(Unlink(s, parent, name).0.view)
  {
    hide IsDir, LinkInv, DropLink;
    if UnlinkEntry(s.view, parent, name).Ok? && !LiveDir(s.view, s.view.dirs[parent][name]) {
      DropLinkKeeps(s.view, parent, name);
    }
  }

  lemma HardLinkLinks(s: Fs, ino: nat, parent: nat, name: Name, now: Time)
    requires LinkInv(s.view) && LinkGuard(s, OpHardLink(ino, parent, name, now))
    ensures LinkInv(HardLink(s, ino, parent, name, now).0.view)
  {
    hide IsDir, DirLinked, FileLinked;
    var v := s.view;
    if ino in v.inodes && !IsDir(v.inodes[ino]) && LinkEntry(v, parent, name, ino).Ok? {
      var m := Touched(v.inodes[ino], now).(nlinks := v.inodes[ino].nlinks + 1);
      KindIgnoresTime(v.inodes[ino], now);
      KindIgnoresLinks(Touched(v.inodes[ino], now), v.inodes[ino].nlinks + 1);
      AddLinkKeeps(v, HardLink(s, ino, parent, name, now).0.view, (parent, name), ino, m);
    }
  }

  lemma KindIgnoresTime(i: Inode, now: Time)
    ensures IsDir(Touched(i, now)) == IsDir(i)
  {
  }

  /** Moving an entry to a free place, a directory's entry within its parent. */
  lemma MoveLinks(s: Fs, src: nat, parent: nat, name: Name, newParent: nat, newName: Name, now: Time)
    requires LinkInv(s.view) && Lookup(s.view, parent, name) == Ok(src) && !IsDot(name)
    requires LiveDir(s.view, src) ==> newParent == parent
    ensures LinkInv(Move(s, src, parent, name, newParent, newName, now).0.view)
  {
    hide IsDir, DirLinked, FileLinked;
    var v := s.view;
    var linked := LinkEntry(v, newParent, newName, src);
    if linked.Ok? {
      var mid := linked.value;
      var p: Place, q: Place := (parent, name), (newParent, newName);
      assert IsEntry(v, p) && p != q;
      var removed := UnlinkEntry(mid, parent, name);
      assert removed.Ok?;
      MoveKeeps(v, mid, removed.value, p, q);
      KindIgnoresTime(v.inodes[src], now);
      SameLinksKeep(removed.value, Move(s, src, parent, name, newParent, newName, now).0.view);
    }
  }

  /** The source entry survives the removal of a different target entry. */
  lemma SourceStays(v: View, parent: nat, name: Name, newParent: nat, newName: Name)
    requires LinkInv(v) && UnlinkEntry(v, newParent, newName).Ok? && (parent, name) != (newParent, newName)
    requires Lookup(v, parent, name).Ok? && !LiveDir(v, v.dirs[newParent][newName])
    ensures v.dirs[newParent][newName] in v.inodes
    ensures var v' := DropLink(UnlinkEntry(v, newParent, newName).value, v.dirs[newParent][newName]);
            Lookup(v', parent, name) == Lookup(v, parent, name)
            && forall t :: !LiveDir(v, t) ==> !LiveDir(v', t)
  {
    hide IsDir, DirLinked, FileLinked;
    var v1 := UnlinkEntry(v, newParent, newName).value;
    assert IsEntry(v, (newParent, newName));
    var dst := Target(v, (newParent, newName));
    DecRefsFrame(v1, Blocks(v1, dst));
    KindIgnoresLinks(v.inodes[dst], SaturatingSub(v.inodes[dst].nlinks, 1));
  }

  lemma DropLinkFrame(v: View, ino: nat)
    requires ino in v.inodes
    ensures DropLink(v, ino).dirs == v.dirs
  {
    DecRefsFrame(v, Blocks(v, ino));
  }

  /** A rename that stops at its checks changes nothing. */
  lemma RenameStops(s: Fs, parent: nat, name: Name, newParent: nat, newName: Name, noReplace: bool, now: Time)
    requires !Moves(s.view, parent, name, newParent, newName, noReplace)
    ensures Rename(s, parent, name, newParent, newName, noReplace, now).0 == s
  {
    hide IsDot, Displace;
  }

  /** A file renamed onto itself is unlinked: its entry goes in and out again. */
  lemma MoveInPlace(s: Fs, src: nat, parent: nat, name: Name, now: Time)
    requires LinkInv(s.view) && parent in s.view.dirs && !IsDot(name) && name !in s.view.dirs[parent]
    ensures LinkInv(Move(s, src, parent, name, parent, name, now).0.view)
  {
    hide IsDir, DirLinked, FileLinked;
    var v' := Move(s, src, parent, name, parent, name, now).0.view;
    var entries := s.view.dirs[parent];
    assert entries[name := src] - {name} == entries;
    assert v'.dirs == s.view.dirs;
    if src in s.view.inodes { KindIgnoresTime(s.view.inodes[src], now); }
    SameLinksKeep(s.view, v');
  }

  lemma RenameLinks(s: Fs, parent: nat, name: Name, newParent: nat, newName: Name, noReplace: bool, now: Time)
    requires LinkInv(s.view) && LinkGuard(s, OpRename(parent, name, newParent, newName, noReplace, now))
    ensures LinkInv(Rename(s, parent, name, newParent, newName, noReplace, now).0.view)
  {
    hide IsDir, DirLinked, FileLinked, LinkInv, Move, DropLink;
    var v := s.view;
    if !Moves(v, parent, name, newParent, newName, noReplace) {
      RenameStops(s, parent, name, newParent, newName, noReplace, now);
    } else if newName !in v.dirs[newParent] {
      MoveLinks(s, v.dirs[parent][name], parent, name, newParent, newName, now);
    } else {
      var dst := v.dirs[newParent][newName];
      DropLinkKeeps(v, newParent, newName);
      var v1 := UnlinkEntry(v, newParent, newName).value;
      var v2 := DropLink(v1, dst);
      if (parent, name) == (newParent, newName) {
        DropLinkFrame(v1, dst);
        MoveInPlace(s.(view := v2), dst, parent, name, now);
      } else {
        SourceStays(v, parent, name, newParent, newName);
        MoveLinks(s.(view := v2), v.dirs[parent][name], parent, name, newParent, newName, now);
      }
    }
  }

  // ------------------------------------------------------------------- whole runs

  lemma LinkStep(h: Hash, s: Fs, op: Op)
    requires LinkInv(s.view) && LinkGuard(s, op)
    ensures LinkInv(Step(h, s, op).view)
  {
    hide IsDir, LinkInv, LinkGuard, Mkdir, Rmdir, Unlink, HardLink, Rename, MakeFile;
    match op
    case OpCreate(parent, name, perm, uid, gid) =>
      NewInodeKinds(uid, gid, perm, 0);
      MakeFileLinks(s.view, parent, name, NewFile(uid, gid, perm));
    case OpMknod(parent, name, kind, perm, uid, gid) =>
      NewInodeKinds(uid, gid, perm, 0);
      MakeFileLinks(s.view, parent, name, NewFile(uid, gid, perm));
    case OpSymlink(parent, name, target, uid, gid) => SymlinkLinks(h, s, parent, name, target, uid, gid);
    case OpHardLink(ino, parent, name, now) => HardLinkLinks(s, ino, parent, name, now);
    case OpUnlink(parent, name) => UnlinkLinks(s, parent, name);
    case OpRename(parent, name, newParent, newName, noReplace, now) =>
      RenameLinks(s, parent, name, newParent, newName, noReplace, now);
    case OpMkdir(parent, name, perm, uid, gid) => MkdirLinks(s, parent, name, perm, uid, gid);
    case OpRmdir(parent, name) => RmdirLinks(s, parent, name);
    case _ => HandleOpKeeps(h, s, op);
  }

  lemma HandleOpKeeps(h: Hash, s: Fs, op: Op)
    requires LinkInv(s.view)
    requires op.OpOpen? || op.OpWrite? || op.OpFsync? || op.OpRelease? || op.OpTruncateOpen? || op.OpTruncateClosed?
             || op.OpRead?
    ensures LinkInv(Step(h, s, op).view)
  {
    hide IsDir, Step, SameLinks, DirLinked, FileLinked;
    HandleOpLinks(h, s, op);
    SameLinksKeep(s.view, Step(h, s, op).view);
  }

  lemma SymlinkLinks(h: Hash, s: Fs, parent: nat, name: Name, target: Bytes, uid: nat, gid: nat)
    requires LinkInv(s.view)
    ensures LinkInv(Symlink(h, s, parent, name, target, uid, gid).0.view)
  {
    hide IsDir, MakeFile, DirLinked, FileLinked;
    NewInodeKinds(uid, gid, 0, |target|);
    MakeFileLinks(s.view, parent, name, NewSymlink(uid, gid, |target|));
    SameLinksKeep(MakeFile(s.view, parent, name, NewSymlink(uid, gid, |target|)).0,
        Symlink(h, s, parent, name, target, uid, gid).0.view);
  }

  lemma FreshLinks(s: Fs)
    requires Fresh(s)
    ensures LinkInv(s.view)
  {
    hide IsDir;
    var v := s.view;
    assert Entries(v) == {};
    assert Naming(v, ROOT) == {};
    assert ChildDirs(v, ROOT) == {};
    assert DirLinked(v, ROOT);
  }

  /** The link-count invariant holds after every run: each live file's link count is the number of
      entries naming it, no entry dangles, each live directory counts its child directories and
      agrees with its one entry about its parent. */
  lemma {:induction false} LinkCounts(h: Hash, s: Fs, ops: seq<Op>)
    requires LinkInv(s.view) && LinkGuarded(h, s, ops)
    ensures LinkInv(RunFs(h, s, ops).view)
    decreases |ops|
  {
    hide LinkInv, LinkGuard, Step;
    if ops != [] {
      LinkStep(h, s, ops[0]);
      LinkCounts(h, Step(h, s, ops[0]), ops[1..]);
    }
  }

  lemma LinkCountsFromFresh(h: Hash, s: Fs, ops: seq<Op>)
    requires Fresh(s) && LinkGuarded(h, s, ops)
    ensures LinkInv(RunFs(h, s, ops).view)
  {
    hide LinkInv, LinkGuarded, RunFs;
    FreshLinks(s);
    LinkCounts(h, s, ops);
  }
}
