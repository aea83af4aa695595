/** The root directory over runs of filesystem calls: its inode exists and no entry names it. */
module FsRoots {
  import opened ByteCodec
  import opened Cas
  import opened StoreView
  import opened Links
  import opened Fs
  import opened FsRuns
  import Renames

  /** The root is a directory, and only `.` and `..` entries may name it. */
  ghost predicate RootSafe(v: View) {
    && Numbered(v) && LiveDir(v, ROOT)
    && forall p :: IsEntry(v, p) ==> Target(v, p) != ROOT
  }

  /** A rename with a dot entry as its source does not reach the root through it. */
  ghost predicate RootGuard(v: View, op: Op) {
    op.OpRename? && IsDot(op.name) && Moves(v, op.parent, op.name, op.newParent, op.newName, op.noReplace) ==>
      v.dirs[op.parent][op.name] != ROOT
  }

  lemma SameLinksSafe(v: View, v': View)
    requires RootSafe(v) && SameLinks(v, v')
    ensures RootSafe(v')
  {
    hide IsDir;
    forall p | IsEntry(v', p) ensures Target(v', p) != ROOT { assert IsEntry(v, p); }
  }

  lemma AddedSafe(v: View, v': View, p: Place, i: nat)
    requires RootSafe(v) && Added(v, v', p, i) && i != ROOT && LiveDir(v', ROOT) && Numbered(v')
    ensures RootSafe(v')
  {
    hide IsDir, Numbered;
    AddedSameBut(v, v', p, i);
    forall q | IsEntry(v', q) ensures Target(v', q) != ROOT {
      if q != p { SameElsewhere(v, v', p, q); }
    }
  }

  lemma RemovedSafe(v: View, v': View, p: Place)
    requires RootSafe(v) && Removed(v, v', p) && LiveDir(v', ROOT) && Numbered(v')
    ensures RootSafe(v')
  {
    hide IsDir, Numbered;
    RemovedSameBut(v, v', p);
    forall q | IsEntry(v', q) ensures Target(v', q) != ROOT { SameElsewhere(v, v', p, q); }
  }

  lemma MakeFileSafe(v: View, parent: nat, name: Name, meta: Inode)
    requires RootSafe(v)
    ensures RootSafe(MakeFile(v, parent, name, meta).0)
  {
    hide IsDir;
    var (v', made) := MakeFile(v, parent, name, meta);
    if made.Ok? {
      AddedSafe(v, v', (parent, name), v.nextIno);
    } else {
      SameLinksSafe(v, v');
    }
  }

  lemma SymlinkSafe(h: Hash, s: Fs, parent: nat, name: Name, target: Bytes, uid: nat, gid: nat)
    requires RootSafe(s.view)
    ensures RootSafe(Symlink(h, s, parent, name, target, uid, gid).0.view)
  {
    hide IsDir, MakeFile;
    var made := MakeFile(s.view, parent, name, NewSymlink(uid, gid, |target|)).0;
    MakeFileSafe(s.view, parent, name, NewSymlink(uid, gid, |target|));
    SameLinksSafe(made, Symlink(h, s, parent, name, target, uid, gid).0.view);
  }

  lemma HardLinkSafe(s: Fs, ino: nat, parent: nat, name: Name, now: Time)
    requires RootSafe(s.view)
    ensures RootSafe(HardLink(s, ino, parent, name, now).0.view)
  {
    hide IsDir;
    var v, v' := s.view, HardLink(s, ino, parent, name, now).0.view;
    if ino in v.inodes && !IsDir(v.inodes[ino]) && LinkEntry(v, parent, name, ino).Ok? {
      AddedSafe(v, v', (parent, name), ino);
    }
  }

  lemma DropLinkSafe(v: View, p: Place)
    requires RootSafe(v) && IsEntry(v, p) && Target(v, p) in v.inodes
    ensures var v1 := UnlinkEntry(v, p.0, p.1).value;
            RootSafe(DropLink(v1, Target(v, p))) && RootSafe(v1) && DropLink(v1, Target(v, p)).dirs == v1.dirs
  {
    hide IsDir;
    var v1, i := UnlinkEntry(v, p.0, p.1).value, Target(v, p);
    DecRefsFrame(v1, Blocks(v1, i));
    RemovedSafe(v, v1, p);
    RemovedSafe(v, DropLink(v1, i), p);
  }

  lemma UnlinkSafe(s: Fs, parent: nat, name: Name)
    requires RootSafe(s.view)
    ensures RootSafe(Unlink(s, parent, name).0.view)
  {
    hide IsDir, RootSafe, DropLink;
    var v, p: Place := s.view, (parent, name);
    if IsEntry(v, p) && Target(v, p) in v.inodes { DropLinkSafe(v, p); }
  }

  lemma MkdirSafe(s: Fs, parent: nat, name: Name, perm: nat, uid: nat, gid: nat)
    requires RootSafe(s.view)
    ensures RootSafe(Mkdir(s, parent, name, perm, uid, gid).0.view)
  {
    hide IsDir;
    var v := s.view;
    var (v', r) := CreateDirectory(v, parent, name, NewDir(uid, gid, perm));
    if r.Ok? {
      var mid := LinkEntry(v.(nextIno := v.nextIno + 1), parent, name, v.nextIno).value;
      AddedSameBut(v, mid, (parent, name), v.nextIno);
      KindIgnoresLinks(v.inodes[parent], AsU32(v.inodes[parent].nlinks + 1));
      forall q | IsEntry(v', q) ensures Target(v', q) != ROOT {
        if q.0 != v.nextIno && q != (parent, name) { SameElsewhere(v, mid, (parent, name), q); }
      }
    } else {
      SameLinksSafe(v, v');
    }
  }

  lemma RmdirSafe(s: Fs, parent: nat, name: Name)
    requires RootSafe(s.view)
    ensures RootSafe(Rmdir(s, parent, name).0.view)
  {
    hide IsDir;
    var v, v', p: Place := s.view, Rmdir(s, parent, name).0.view, (parent, name);
    if v' != v {
      if parent in v.inodes { KindIgnoresLinks(v.inodes[parent], SaturatingSub(v.inodes[parent].nlinks, 1)); }
      RemovedSafe(v, v', p);
    }
  }

  lemma MoveSafe(s: Fs, src: nat, parent: nat, name: Name, newParent: nat, newName: Name, now: Time)
    requires RootSafe(s.view) && src != ROOT
    ensures RootSafe(Move(s, src, parent, name, newParent, newName, now).0.view)
  {
    hide IsDir, Numbered;
    var v := s.view;
    var linked := LinkEntry(v, newParent, newName, src);
    if linked.Ok? {
      var v1 := linked.value;
      SameNumbers(v, v1);
      AddedSafe(v, v1, (newParent, newName), src);
      var removed := UnlinkEntry(v1, parent, name);
      if removed.Ok? {
        SameNumbers(v1, removed.value);
        RemovedSafe(v1, removed.value, (parent, name));
        if src in v.inodes { TouchSafe(removed.value, src, now); }
      }
    }
  }

  lemma SameNumbers(v: View, v': View)
    requires Numbered(v) && v'.inodes == v.inodes && v'.nextIno == v.nextIno
    ensures Numbered(v')
  {
  }

  lemma TouchSafe(v: View, i: nat, now: Time)
    requires RootSafe(v) && i in v.inodes
    ensures UpdateInode(v, Touched(v.inodes[i], now)).Ok?
            && RootSafe(UpdateInode(v, Touched(v.inodes[i], now)).value)
  {
    hide IsDir;
    KindIgnoresTime(v.inodes[i], now);
    SameLinksSafe(v, UpdateInode(v, Touched(v.inodes[i], now)).value);
  }

  lemma RenameSafe(s: Fs, parent: nat, name: Name, newParent: nat, newName: Name, noReplace: bool, now: Time)
    requires RootSafe(s.view) && RootGuard(s.view, OpRename(parent, name, newParent, newName, noReplace, now))
    ensures RootSafe(Rename(s, parent, name, newParent, newName, noReplace, now).0.view)
  {
    hide IsDir, IsDot, Numbered, Move, DropLink;
    var v := s.view;
    if !Moves(v, parent, name, newParent, newName, noReplace) {
      RenameStops(s, parent, name, newParent, newName, noReplace, now);
    } else {
      var src := v.dirs[parent][name];
      assert !IsDot(name) ==> IsEntry(v, (parent, name)) && src == Target(v, (parent, name));
      if newName in v.dirs[newParent] {
        DropLinkSafe(v, (newParent, newName));
        var v' := Displace(UnlinkEntry(v, newParent, newName).value, v.dirs[newParent][newName]);
        MoveSafe(s.(view := v'), src, parent, name, newParent, newName, now);
      } else {
        MoveSafe(s, src, parent, name, newParent, newName, now);
      }
    }
  }

  /** A rename that reaches the root through a dot entry gives the root an entry. */
  lemma RootNamed(s: Fs, parent: nat, name: Name, newParent: nat, newName: Name, noReplace: bool, now: Time)
    requires RootSafe(s.view) && !RootGuard(s.view, OpRename(parent, name, newParent, newName, noReplace, now))
    ensures var v' := Rename(s, parent, name, newParent, newName, noReplace, now).0.view;
            IsEntry(v', (newParent, newName)) && Target(v', (newParent, newName)) == ROOT
  {
    hide IsDir, IsDot, Numbered, Move, DropLink;
    var v := s.view;
    if newName in v.dirs[newParent] {
      DropLinkSafe(v, (newParent, newName));
      var v' := Displace(UnlinkEntry(v, newParent, newName).value, v.dirs[newParent][newName]);
      Renames.DotMove(s.(view := v'), ROOT, parent, name, newParent, newName, now);
    } else {
      Renames.DotMove(s, ROOT, parent, name, newParent, newName, now);
    }
  }

  /** Over every call the root keeps its inode and stays unnamed, if and only if the call is not a
      rename that reaches the root through a dot entry. */
  lemma RootStepIff(h: Hash, s: Fs, op: Op)
    requires RootSafe(s.view)
    ensures RootSafe(Step(h, s, op).view) <==> RootGuard(s.view, op)
  {
    hide IsDir, RootSafe, Mkdir, Rmdir, Unlink, HardLink, Rename, MakeFile;
    match op
    case OpCreate(parent, name, perm, uid, gid) => MakeFileSafe(s.view, parent, name, NewFile(uid, gid, perm));
    case OpMknod(parent, name, kind, perm, uid, gid) => MakeFileSafe(s.view, parent, name, NewFile(uid, gid, perm));
    case OpSymlink(parent, name, target, uid, gid) => SymlinkSafe(h, s, parent, name, target, uid, gid);
    case OpHardLink(ino, parent, name, now) => HardLinkSafe(s, ino, parent, name, now);
    case OpUnlink(parent, name) => UnlinkSafe(s, parent, name);
    case OpRename(parent, name, newParent, newName, noReplace, now) =>
      RenameSafeIff(s, parent, name, newParent, newName, noReplace, now);
    case OpMkdir(parent, name, perm, uid, gid) => MkdirSafe(s, parent, name, perm, uid, gid);
    case OpRmdir(parent, name) => RmdirSafe(s, parent, name);
    case _ => HandleOpSafe(h, s, op);
  }

  lemma RenameSafeIff(s: Fs, parent: nat, name: Name, newParent: nat, newName: Name, noReplace: bool, now: Time)
    requires RootSafe(s.view)
    ensures RootSafe(Rename(s, parent, name, newParent, newName, noReplace, now).0.view)
            <==> RootGuard(s.view, OpRename(parent, name, newParent, newName, noReplace, now))
  {
    hide IsDir, Rename, RootGuard, Numbered;
    if RootGuard(s.view, OpRename(parent, name, newParent, newName, noReplace, now)) {
      RenameSafe(s, parent, name, newParent, newName, noReplace, now);
    } else {
      RootNamed(s, parent, name, newParent, newName, noReplace, now);
    }
  }

  lemma HandleOpSafe(h: Hash, s: Fs, op: Op)
    requires RootSafe(s.view)
    requires op.OpOpen? || op.OpWrite? || op.OpFsync? || op.OpRelease? || op.OpTruncateOpen? || op.OpTruncateClosed?
             || op.OpRead?
    ensures RootSafe(Step(h, s, op).view)
  {
    hide IsDir, Step, SameLinks, Numbered;
    HandleOpLinks(h, s, op);
    SameLinksSafe(s.view, Step(h, s, op).view);
  }
}
