/** Runs of calls on the filesystem object, and what they come to as runs on values. */
module SliceRuns {
  import opened ByteCodec
  import opened Cas
  import opened StoreView
  import opened StoreTies
  import opened Fs
  import opened FsRuns
  import opened SliceFs
  import FsContents

  /** The arguments have the widths of the calls' parameters. */
  predicate Typed(op: Op) {
    match op
    case OpCreate(parent, _, _, uid, gid) => parent < U64_LIMIT && uid < U32_LIMIT && gid < U32_LIMIT
    case OpMknod(parent, _, _, _, uid, gid) => parent < U64_LIMIT && uid < U32_LIMIT && gid < U32_LIMIT
    case OpSymlink(parent, _, target, uid, gid) =>
      parent < U64_LIMIT && |target| < U64_LIMIT && uid < U32_LIMIT && gid < U32_LIMIT
    case OpOpen(ino, _, _, now) => ino < U64_LIMIT && TimeFits(now)
    case OpWrite(_, off, data) => off + |data| < U64_LIMIT
    case OpFsync(_, now) => TimeFits(now)
    case OpRelease(_, now) => TimeFits(now)
    case OpTruncateOpen(_, size, now) => size < U64_LIMIT && TimeFits(now)
    case OpTruncateClosed(ino, size, now) => ino < U64_LIMIT && size < U64_LIMIT && TimeFits(now)
    case OpRead(ino, _) => ino < U64_LIMIT
    case OpHardLink(ino, parent, _, now) => ino < U64_LIMIT && parent < U64_LIMIT && TimeFits(now)
    case OpUnlink(parent, _) => parent < U64_LIMIT
    case OpRename(parent, _, newParent, _, _, now) => parent < U64_LIMIT && newParent < U64_LIMIT && TimeFits(now)
    case OpMkdir(parent, _, _, uid, gid) => parent < U64_LIMIT && uid < U32_LIMIT && gid < U32_LIMIT
    case OpRmdir(parent, _) => parent < U64_LIMIT
  }

  /** Whatever the call adds to the directories and numbers fits its fields on disk. */
  ghost predicate StepFits(v: View, op: Op) {
    match op
    case OpCreate(parent, name, _, _, _) => FileFits(v, parent, name)
    case OpMknod(parent, name, kind, _, _, _) => kind == S_IFREG || kind == 0 ==> FileFits(v, parent, name)
    case OpSymlink(parent, name, _, _, _) => FileFits(v, parent, name)
    case OpHardLink(ino, parent, name, _) => HardLinkFits(v, ino, parent, name)
    case OpRename(parent, name, newParent, newName, _, _) => RenameFits(v, parent, name, newParent, newName)
    case OpMkdir(parent, name, _, _, _) => DirectoryFits(v, parent, name)
    case _ => true
  }

  ghost predicate RunFits(h: Hash, s: Fs, ops: seq<Op>)
    decreases |ops|
  {
    ops == [] || (StepFits(s.view, ops[0]) && RunFits(h, Step(h, s, ops[0]), ops[1..]))
  }

  /** The same call; a read may have been served by any handle that has bytes for the file. */
  ghost predicate SameCall(s: Fs, op: Op, done: Op) {
    if op.OpRead? then done.OpRead? && done.ino == op.ino && FsContents.Finds(s, op.ino, done.writer) else done == op
  }

  ghost predicate SameCalls(h: Hash, s: Fs, ops: seq<Op>, done: seq<Op>)
    decreases |ops|
  {
    |done| == |ops|
    && (ops == [] || (SameCall(s, ops[0], done[0]) && SameCalls(h, Step(h, s, done[0]), ops[1..], done[1..])))
  }

  /** The calls that go through handles and contents, not names. */
  predicate OnContents(op: Op) {
    op.OpOpen? || op.OpWrite? || op.OpFsync? || op.OpRelease? || op.OpTruncateOpen? || op.OpTruncateClosed?
        || op.OpRead?
  }

  method PerformOnContents(fs: SliceFsFilesystem, op: Op) returns (ghost done: Op)
    requires fs.Valid() && Typed(op) && OnContents(op)
    modifies fs, fs.meta
    ensures fs.Valid() && SameCall(old(fs.State()), op, done) && fs.meta.Kept(true) && OnContents(done)
    ensures fs.meta.intact ==> fs.State() == Step(fs.meta.h, old(fs.State()), done)
  {
    hide HandlesFit, Held, PutAll, Clean, FsContents.Finds, Open, Write, Fsync, Release, TruncateOpen, TruncateClosed,
         ReadVia;
    done := op;
    match op {
      case OpOpen(ino, write, trunc, now) => var r := fs.Open(ino, write, trunc, now);
      case OpWrite(fh, off, data) => var r := fs.Write(fh, off, data);
      case OpFsync(fh, now) =>
        var ino := fs.InoOf(fh);
        var r := fs.Fsync(ino, fh, now);
      case OpRelease(fh, now) =>
        var ino := fs.InoOf(fh);
        var r := fs.Release(ino, fh, now);
      case OpTruncateOpen(fh, size, now) =>
        if fh in fs.openFiles {
          var ino := fs.InoOf(fh);
          var r := fs.SetattrSize(ino, Some(fh), size, now);
        }
      case OpTruncateClosed(ino, size, now) => var r := fs.SetattrSize(ino, None, size, now);
      case OpRead(ino, _) =>
        var r, writer := fs.Read(ino, 0, 0);
        done := OpRead(ino, writer);
    }
  }

  method PerformOnNames(fs: SliceFsFilesystem, op: Op)
    requires fs.Valid() && Typed(op) && !OnContents(op)
    modifies fs, fs.meta
    ensures fs.Valid() && fs.meta.Kept(StepFits(old(fs.meta.view), op))
    ensures fs.meta.intact ==> fs.State() == Step(fs.meta.h, old(fs.State()), op)
  {
    hide HandlesFit, Held, PutAll, Clean, FileFits, HardLinkFits, RenameFits, DirectoryFits, Create, Mknod, Symlink,
         HardLink, Unlink, Rename, Mkdir, Rmdir;
    match op {
      case OpCreate(parent, name, perm, uid, gid) => var r := fs.Create(parent, name, perm, uid, gid);
      case OpMknod(parent, name, kind, perm, uid, gid) => var r := fs.Mknod(parent, name, kind, perm, uid, gid);
      case OpSymlink(parent, name, target, uid, gid) => var r := fs.Symlink(parent, name, target, uid, gid);
      case OpHardLink(ino, parent, name, now) => var r := fs.HardLink(ino, parent, name, now);
      case OpUnlink(parent, name) => var r := fs.Unlink(parent, name);
      case OpRename(parent, name, newParent, newName, noReplace, now) =>
        var r := fs.Rename(parent, name, newParent, newName, noReplace, now);
      case OpMkdir(parent, name, perm, uid, gid) => var r := fs.Mkdir(parent, name, perm, uid, gid);
      case OpRmdir(parent, name) => var r := fs.Rmdir(parent, name);
    }
  }

  /** One call on the object. */
  method Perform(fs: SliceFsFilesystem, op: Op) returns (ghost done: Op)
    requires fs.Valid() && Typed(op)
    modifies fs, fs.meta
    ensures fs.Valid() && SameCall(old(fs.State()), op, done) && fs.meta.Kept(StepFits(old(fs.meta.view), done))
    ensures fs.meta.intact ==> fs.State() == Step(fs.meta.h, old(fs.State()), done)
  {
    hide HandlesFit, Held, PutAll, Clean, FsContents.Finds, Step;
    if OnContents(op) {
      done := PerformOnContents(fs, op);
    } else {
      PerformOnNames(fs, op);
      done := op;
    }
  }

  /** Any sequence of calls on the object is the run of the same calls on values, for as long as no
      pushed string clashes and what is added fits on disk. */
  method Run(fs: SliceFsFilesystem, ops: seq<Op>) returns (ghost done: seq<Op>)
    requires fs.Valid() && forall k :: 0 <= k < |ops| ==> Typed(ops[k])
    modifies fs, fs.meta
    ensures fs.Valid() && fs.meta.Kept(RunFits(fs.meta.h, old(fs.State()), done)) && |done| == |ops|
    ensures fs.meta.intact ==>
              && fs.State() == RunFs(fs.meta.h, old(fs.State()), done)
              && SameCalls(fs.meta.h, old(fs.State()), ops, done)
    decreases |ops|
  {
    hide Step, StepFits, Typed, SameCall, HandlesFit, Held, PutAll, Clean;
    if ops == [] {
      done := [];
    } else {
      var first := Perform(fs, ops[0]);
      var rest := Run(fs, ops[1..]);
      done := [first] + rest;
      assert done[0] == first && done[1..] == rest;
    }
  }

  /** What a read returns: those bytes of the file, or EIO for an empty file without a manifest. Only a
      file that was emptied and not written since reads as what was committed before. */
  ghost predicate ReadsAs(s: Fs, c: FsContents.Contents, ino: nat, off: nat, size: nat, r: Result<Bytes, Errno>) {
    && ino in c
    && (if exists fh :: IsWriter(s, ino, fh) then r == Ok(Clip(c[ino], off, size))
        else if ino !in s.view.manifests then r == Err(EIO) && c[ino] == []
        else if FsContents.Stale(s, ino) then
          && c[ino] == []
          && r == (match FsContents.Committed(s, ino) case Ok(b) => Ok(Clip(b, off, size)) case Err(e) => Err(e))
        else r == Ok(Clip(c[ino], off, size)))
  }

  /** On a new store: after any guarded calls on the object, a read through the object returns what the
      plain byte sequences hold. */
  method RunAndRead(fs: SliceFsFilesystem, ops: seq<Op>, ino: u64, off: nat, size: nat)
    returns (r: Result<Bytes, Errno>, ghost done: seq<Op>, ghost reached: Fs)
    requires fs.Valid() && Fresh(fs.State()) && forall k :: 0 <= k < |ops| ==> Typed(ops[k])
    modifies fs, fs.meta
    ensures fs.Valid() && fs.meta.Kept(RunFits(fs.meta.h, old(fs.State()), done)) && |done| == |ops|
    ensures fs.meta.intact ==>
              SameCalls(fs.meta.h, old(fs.State()), ops, done) && reached == RunFs(fs.meta.h, old(fs.State()), done)
    ensures fs.meta.intact && FsContents.ContentGuarded(fs.meta.h, old(fs.State()), done)
            && FsContents.LiveFile(reached.view, ino) ==>
              ReadsAs(reached, FsContents.RunContents(fs.meta.h, old(fs.State()), map[], done), ino, off, size, r)
  {
    hide Step, StepFits, Typed, SameCall, HandlesFit, Held, PutAll, Clean, RunFs, RunFits, SameCalls, Fresh, ReadVia,
         FsContents.ContentGuarded, FsContents.RunContents, FsContents.LiveFile, FsContents.ContentStep, Clip;
    done := Run(fs, ops);
    reached := fs.State();
    ghost var writer;
    r, writer := fs.Read(ino, off, size);
    if fs.meta.intact && FsContents.ContentGuarded(fs.meta.h, old(fs.State()), done)
        && FsContents.LiveFile(reached.view, ino) {
      FsContents.ReadsAfterRuns(fs.meta.h, old(fs.State()), done, ino, writer);
    }
  }
}
