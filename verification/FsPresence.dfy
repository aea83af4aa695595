/** Whatever a manifest names has been pushed, after every run of calls. */
module FsPresence {
  import opened ByteCodec
  import opened Cas
  import opened StoreView
  import opened Fs
  import opened FsRuns

  /** Every digest of every manifest is that of some content pushed. */
  ghost predicate Present(v: View, cas: Blobs) {
    forall i :: i in v.manifests ==> AllPushed(v.manifests[i], cas)
  }

  ghost predicate AllPushed(ds: seq<Digest>, cas: Blobs) {
    forall k :: 0 <= k < |ds| ==> ds[k] in cas
  }

  lemma PresentMore(v: View, cas: Blobs, v': View, cas': Blobs)
    requires Present(v, cas) && v'.manifests == v.manifests && cas.Keys <= cas'.Keys
    ensures Present(v', cas')
  {
    forall i | i in v'.manifests ensures AllPushed(v'.manifests[i], cas') {
      assert AllPushed(v.manifests[i], cas);
    }
  }

  lemma PresentSet(v: View, cas: Blobs, v': View, cas': Blobs, ino: nat, ds: seq<Digest>)
    requires Present(v, cas) && v'.manifests == v.manifests[ino := ds] && cas.Keys <= cas'.Keys && AllPushed(ds, cas')
    ensures Present(v', cas')
  {
    forall i | i in v'.manifests ensures AllPushed(v'.manifests[i], cas') {
      if i != ino { assert AllPushed(v.manifests[i], cas); }
    }
  }

  // ------------------------------------------------------- what the steps do to manifests

  lemma SetSizeManifests(v: View, ino: nat, size: nat, now: Time, mtime: bool)
    ensures SetSize(v, ino, size, now, mtime).0.manifests == v.manifests
  {
  }

  lemma DropRootManifests(v: View, root: Option<Digest>)
    ensures DropRoot(v, root).manifests == v.manifests
  {
    if root.Some? { CountFrame(v, root.value); }
  }

  lemma MakeFileManifests(v: View, parent: nat, name: Name, m: Inode)
    ensures MakeFile(v, parent, name, m).0.manifests == v.manifests
  {
  }

  lemma DropLinkManifests(v: View, ino: nat)
    requires ino in v.inodes
    ensures DropLink(v, ino).manifests == v.manifests
  {
    hide DecRefs;
    DecRefsFrame(v, Blocks(v, ino));
  }

  lemma UnlinkManifests(s: Fs, parent: nat, name: Name)
    ensures Unlink(s, parent, name).0 == s.(view := Unlink(s, parent, name).0.view)
    ensures Unlink(s, parent, name).0.view.manifests == s.view.manifests
  {
    hide DropLink, IsDir;
    var found := Lookup(s.view, parent, name);
    if found.Ok? && UnlinkEntry(s.view, parent, name).Ok? && found.value in s.view.inodes {
      DropLinkManifests(UnlinkEntry(s.view, parent, name).value, found.value);
    }
  }

  lemma MoveManifests(s: Fs, src: nat, parent: nat, name: Name, newParent: nat, newName: Name, now: Time)
    ensures var s' := Move(s, src, parent, name, newParent, newName, now).0;
            s' == s.(view := s'.view) && s'.view.manifests == s.view.manifests
  {
    hide IsDot;
  }

  lemma RenameManifests(s: Fs, parent: nat, name: Name, newParent: nat, newName: Name, noReplace: bool, now: Time)
    ensures var s' := Rename(s, parent, name, newParent, newName, noReplace, now).0;
            s' == s.(view := s'.view) && s'.view.manifests == s.view.manifests
  {
    hide Move, DropLink, IsDir;
    var source, target := Lookup(s.view, parent, name), Lookup(s.view, newParent, newName);
    if source.Ok? {
      MoveManifests(s, source.value, parent, name, newParent, newName, now);
      if target.Ok? && target.value in s.view.inodes && UnlinkEntry(s.view, newParent, newName).Ok? {
        var v := UnlinkEntry(s.view, newParent, newName).value;
        DropLinkManifests(v, target.value);
        MoveManifests(s.(view := Displace(v, target.value)), source.value, parent, name, newParent, newName, now);
      }
    }
  }

  lemma HardLinkManifests(s: Fs, ino: nat, parent: nat, name: Name, now: Time)
    ensures var s' := HardLink(s, ino, parent, name, now).0;
            s' == s.(view := s'.view) && s'.view.manifests == s.view.manifests
  {
    hide IsDir;
  }

  lemma MkdirManifests(s: Fs, parent: nat, name: Name, perm: nat, uid: nat, gid: nat)
    ensures var s' := Mkdir(s, parent, name, perm, uid, gid).0;
            s' == s.(view := s'.view) && s'.view.manifests == s.view.manifests
  {
    hide IsDir;
  }

  lemma RmdirManifests(s: Fs, parent: nat, name: Name)
    ensures var s' := Rmdir(s, parent, name).0;
            s' == s.(view := s'.view) && s'.view.manifests == s.view.manifests
  {
    hide IsDir, EmptyDir;
  }

  lemma RebindManifests(v: View, ino: nat, prior: Option<Digest>, d: Digest, size: nat, now: Time)
    ensures SetSize(Rebind(v, ino, prior, d), ino, size, now, true).0.manifests == v.manifests[ino := [d]]
  {
    hide SetSize, Rebind;
    RebindFrame(v, ino, prior, d);
    SetSizeManifests(Rebind(v, ino, prior, d), ino, size, now, true);
  }

  // ------------------------------------------------------------------- the calls

  lemma WritePresent(h: Hash, s: Fs, fh: nat, off: nat, data: Bytes)
    requires Present(s.view, s.cas)
    ensures var s' := Write(h, s, fh, off, data).0; Present(s'.view, s'.cas)
  {
    hide Present, DropRoot, Pwrite, FallbackBase;
    var s' := Write(h, s, fh, off, data).0;
    if fh in s.files { DropRootManifests(s.view, s.files[fh].lastRoot); }
    PresentMore(s.view, s.cas, s'.view, s'.cas);
  }

  lemma FsyncPresent(h: Hash, s: Fs, ino: nat, fh: nat, now: Time)
    requires Present(s.view, s.cas)
    ensures var s' := Fsync(h, s, ino, fh, now).0; Present(s'.view, s'.cas)
  {
    hide Present, SetSize, Rebind;
    var s' := Fsync(h, s, ino, fh, now).0;
    if fh in s.files && s.files[fh].byteCount > 0 {
      var f := s.files[fh];
      var d := h(InFlight(f));
      RebindManifests(s.view, ino, f.lastRoot, d, f.byteCount, now);
      PresentSet(s.view, s.cas, s'.view, s'.cas, ino, [d]);
    }
  }

  lemma ReleasePresent(h: Hash, s: Fs, ino: nat, fh: nat, now: Time)
    requires Present(s.view, s.cas)
    ensures var s' := Release(h, s, ino, fh, now).0; Present(s'.view, s'.cas)
  {
    hide Present, SetSize, Rebind;
    var s' := Release(h, s, ino, fh, now).0;
    if fh in s.files {
      var f := s.files[fh];
      var d := h(InFlight(f));
      if s'.view == s.view {
        PresentMore(s.view, s.cas, s'.view, s'.cas);
      } else if f.byteCount == 0 {
        PresentSet(s.view, s.cas, s'.view, s'.cas, ino, []);
      } else {
        RebindManifests(s.view, ino, f.lastRoot, d, f.byteCount, now);
        PresentSet(s.view, s.cas, s'.view, s'.cas, ino, [d]);
      }
    }
  }

  lemma TruncateOpenPresent(h: Hash, s: Fs, ino: nat, fh: nat, n: nat, now: Time)
    requires Present(s.view, s.cas) && fh in s.files
    ensures var s' := TruncateOpen(h, s, ino, fh, n, now).0; Present(s'.view, s'.cas)
  {
    hide Present, SetSize, DropRoot, Resize;
    var s' := TruncateOpen(h, s, ino, fh, n, now).0;
    DropRootManifests(s.view, s.files[fh].lastRoot);
    SetSizeManifests(s.view, ino, n, now, false);
    SetSizeManifests(DropRoot(s.view, s.files[fh].lastRoot), ino, n, now, false);
    PresentMore(s.view, s.cas, s'.view, s'.cas);
  }

  lemma TruncateClosedPresent(h: Hash, s: Fs, ino: nat, n: nat, now: Time)
    requires Present(s.view, s.cas)
    ensures var s' := TruncateClosed(h, s, ino, n, now).0; Present(s'.view, s'.cas)
  {
    hide Present, SetSize, Resize, IncRef, DecRef;
    var s' := TruncateClosed(h, s, ino, n, now).0;
    var m := Blocks(s.view, ino);
    if m == [] || m[0] in s.cas {
      var content := Resize(if m == [] then [] else s.cas[m[0]], n);
      var v1 := if m == [] then s.view else DecRef(s.view, m[0]);
      if m != [] { CountFrame(s.view, m[0]); }
      var ds := if content == [] then [] else [h(content)];
      CountFrame(SetManifest(v1, ino, ds), h(content));
      var v2 := if content == [] then SetManifest(v1, ino, []) else IncRef(SetManifest(v1, ino, ds), h(content));
      SetSizeManifests(v2, ino, n, now, false);
      PresentSet(s.view, s.cas, s'.view, s'.cas, ino, ds);
    }
  }

  lemma OpenPresent(h: Hash, s: Fs, ino: nat, write: bool, trunc: bool, now: Time)
    requires Present(s.view, s.cas)
    ensures var s' := Open(h, s, ino, write, trunc, now).0; Present(s'.view, s'.cas)
  {
    hide Present, TruncateOpen;
    if write && trunc {
      var (s1, fh) := AddHandle(s, ino);
      TruncateOpenPresent(h, s1, ino, fh, 0, now);
    }
  }

  lemma SymlinkPresent(h: Hash, s: Fs, parent: nat, name: Name, target: Bytes, uid: nat, gid: nat)
    requires Present(s.view, s.cas)
    ensures var s' := Symlink(h, s, parent, name, target, uid, gid).0; Present(s'.view, s'.cas)
  {
    hide Present, MakeFile, IncRef;
    var s' := Symlink(h, s, parent, name, target, uid, gid).0;
    var (v, made) := MakeFile(s.view, parent, name, NewSymlink(uid, gid, |target|));
    MakeFileManifests(s.view, parent, name, NewSymlink(uid, gid, |target|));
    if made.Ok? {
      CountFrame(SetManifest(v, made.value, [h(target)]), h(target));
      PresentSet(s.view, s.cas, s'.view, s'.cas, made.value, [h(target)]);
    } else {
      PresentMore(s.view, s.cas, s'.view, s'.cas);
    }
  }

  lemma NamesKeepManifests(h: Hash, s: Fs, op: Op)
    requires op.OpHardLink? || op.OpUnlink? || op.OpRename? || op.OpMkdir? || op.OpRmdir? || op.OpCreate? || op.OpMknod?
    ensures var s' := Step(h, s, op);
            s'.cas == s.cas && s'.view.manifests == s.view.manifests
  {
    hide MakeFile, Rename, Unlink, HardLink, Mkdir, Rmdir;
    match op
    case OpCreate(parent, name, perm, uid, gid) => MakeFileManifests(s.view, parent, name, NewFile(uid, gid, perm));
    case OpMknod(parent, name, kind, perm, uid, gid) =>
      MakeFileManifests(s.view, parent, name, NewFile(uid, gid, perm));
    case OpHardLink(ino, parent, name, now) => HardLinkManifests(s, ino, parent, name, now);
    case OpUnlink(parent, name) => UnlinkManifests(s, parent, name);
    case OpRename(parent, name, newParent, newName, noReplace, now) =>
      RenameManifests(s, parent, name, newParent, newName, noReplace, now);
    case OpMkdir(parent, name, perm, uid, gid) => MkdirManifests(s, parent, name, perm, uid, gid);
    case OpRmdir(parent, name) => RmdirManifests(s, parent, name);
  }

  /** No call leaves a manifest that names content which was never pushed. */
  lemma PresenceStep(h: Hash, s: Fs, op: Op)
    requires Present(s.view, s.cas)
    ensures Present(Step(h, s, op).view, Step(h, s, op).cas)
  {
    hide Present, Create, Mknod, Symlink, Open, Write, Fsync, Release, TruncateOpen, TruncateClosed, ReadVia, HardLink,
         Unlink, Rename, Mkdir, Rmdir;
    match op
    case OpSymlink(parent, name, target, uid, gid) => SymlinkPresent(h, s, parent, name, target, uid, gid);
    case OpOpen(ino, write, trunc, now) => OpenPresent(h, s, ino, write, trunc, now);
    case OpWrite(fh, off, data) => WritePresent(h, s, fh, off, data);
    case OpFsync(fh, now) => FsyncPresent(h, s, InoOf(s, fh), fh, now);
    case OpRelease(fh, now) => ReleasePresent(h, s, InoOf(s, fh), fh, now);
    case OpTruncateOpen(fh, n, now) => if fh in s.files { TruncateOpenPresent(h, s, s.files[fh].ino, fh, n, now); }
    case OpTruncateClosed(ino, n, now) => TruncateClosedPresent(h, s, ino, n, now);
    case OpRead(ino, writer) => if writer.Some? ==> writer.value in s.files { ReadPresent(h, s, ino, writer); }
    case _ =>
      NamesKeepManifests(h, s, op);
      PresentMore(s.view, s.cas, Step(h, s, op).view, Step(h, s, op).cas);
  }

  lemma ReadPresent(h: Hash, s: Fs, ino: nat, writer: Option<nat>)
    requires Present(s.view, s.cas) && (writer.Some? ==> writer.value in s.files)
    ensures var s' := ReadVia(h, s, ino, writer).0; Present(s'.view, s'.cas)
  {
    hide Present;
    var s' := ReadVia(h, s, ino, writer).0;
    PresentMore(s.view, s.cas, s'.view, s'.cas);
  }

  /** Content presence over every run, whatever the calls and their results. */
  lemma {:induction false} ContentIsPresent(h: Hash, s: Fs, ops: seq<Op>)
    requires Present(s.view, s.cas)
    ensures Present(RunFs(h, s, ops).view, RunFs(h, s, ops).cas)
    decreases |ops|
  {
    hide Present, Step;
    if ops != [] {
      PresenceStep(h, s, ops[0]);
      ContentIsPresent(h, Step(h, s, ops[0]), ops[1..]);
    }
  }
}
