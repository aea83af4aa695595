/** One open handle at a time: what its bytes are, how they survive commits, and exactly when a
    truncated or reopened handle does not do what it should. */
module FsHandles {
  import opened ByteCodec
  import opened Cas
  import opened StoreView
  import opened Fs
  import opened FsRuns
  import opened FsRefs
  import opened FsContents

  // ------------------------------------------------------------- one handle's bytes

  /** A write, truncation or fsync through handle `fh`. */
  ghost predicate Through(op: Op, fh: nat) {
    (op.OpWrite? || op.OpTruncateOpen? || op.OpFsync?) && op.fh == fh
  }

  /** What the calls through a handle make of a plain byte sequence. */
  function Folded(b: Bytes, ops: seq<Op>): (r: Bytes)
    decreases |ops|
  {
    if ops == [] then b else Folded(Effect(b, ops[0]), ops[1..])
  }

  function Effect(b: Bytes, op: Op): (r: Bytes) {
    match op
    case OpWrite(_, off, data) => Pwrite(b, off, data)
    case OpTruncateOpen(_, n, _) => Resize(b, n)
    case _ => b
  }

  /** The handle's bytes are `b`. */
  ghost predicate Holds(s: Fs, fh: nat, b: Bytes) {
    fh in s.files && Sound(s.files[fh]) && InFlight(s.files[fh]) == b
  }

  /** A streaming handle without bytes, written elsewhere than at the start, falls back to the committed
      file: that must make no difference. */
  ghost predicate FallbackGuard(s: Fs, fh: nat, op: Op) {
    op.OpWrite? && op.off != 0 && fh in s.files && s.files[fh].mode.Streaming? && s.files[fh].byteCount == 0 ==>
      Pwrite(FallbackBase(s, s.files[fh]), op.off, op.data) == Pwrite([], op.off, op.data)
  }

  ghost predicate FallbackGuarded(h: Hash, s: Fs, fh: nat, ops: seq<Op>)
    decreases |ops|
  {
    ops == [] || (FallbackGuard(s, fh, ops[0]) && FallbackGuarded(h, Step(h, s, ops[0]), fh, ops[1..]))
  }

  lemma WriteHolds(h: Hash, s: Fs, fh: nat, off: nat, data: Bytes, b: Bytes)
    requires Holds(s, fh, b)
    ensures Holds(Write(h, s, fh, off, data).0, fh, Pwrite(b, off, data))
            <==> FallbackGuard(s, fh, OpWrite(fh, off, data))
  {
    hide Pwrite, Resize, DecRef;
    var f := s.files[fh];
    if f.mode.Streaming? && off == f.mode.next {
      PwriteAppends(b, data);
    } else if f.mode.Streaming? && f.byteCount > 0 {
      assert FallbackBase(s, f) == b;
    }
  }

  lemma TruncateHolds(h: Hash, s: Fs, fh: nat, n: nat, now: Time, b: Bytes)
    requires Holds(s, fh, b)
    ensures Holds(TruncateOpen(h, s, s.files[fh].ino, fh, n, now).0, fh, Resize(b, n))
  {
    hide SetSize, DecRef;
  }

  lemma SizeManifests(v: View, i: nat, n: nat, now: Time, mtime: bool)
    ensures SetSize(v, i, n, now, mtime).0.manifests == v.manifests
  {
  }

  lemma FsyncHolds(h: Hash, s: Fs, fh: nat, now: Time, b: Bytes)
    requires Holds(s, fh, b)
    ensures Holds(Fsync(h, s, s.files[fh].ino, fh, now).0, fh, b)
  {
    hide SetSize, Rebind;
  }

  /** The bytes in flight are the fold of plain pwrite and resize over the calls made through the
      handle, through any truncations to nothing; the byte count and the streaming offset are their
      length. */
  lemma {:induction false} WritePathRefinement(h: Hash, s: Fs, fh: nat, b: Bytes, ops: seq<Op>)
    requires Holds(s, fh, b) && (forall k :: 0 <= k < |ops| ==> Through(ops[k], fh)) && FallbackGuarded(h, s, fh, ops)
    ensures Holds(RunFs(h, s, ops), fh, Folded(b, ops))
    decreases |ops|
  {
    hide Holds, Write, TruncateOpen, Fsync, Pwrite, Resize, FallbackGuard;
    if ops != [] {
      assert Through(ops[0], fh);
      assert fh in s.files by { HoldsOpen(s, fh, b); }
      match ops[0] {
        case OpWrite(_, off, data) => WriteHolds(h, s, fh, off, data, b);
        case OpTruncateOpen(_, n, now) => TruncateHolds(h, s, fh, n, now, b);
        case OpFsync(_, now) => FsyncHolds(h, s, fh, now, b);
      }
      assert forall k :: 0 <= k < |ops[1..]| ==> ops[1..][k] == ops[k + 1];
      WritePathRefinement(h, Step(h, s, ops[0]), fh, Effect(b, ops[0]), ops[1..]);
    }
  }

  lemma HoldsOpen(s: Fs, fh: nat, b: Bytes)
    requires Holds(s, fh, b)
    ensures fh in s.files
  {
  }

  /** For a handle that `create` returned, from the empty file. */
  lemma CreatedHandleRefines(h: Hash, s: Fs, parent: nat, name: Name, perm: nat, uid: nat, gid: nat, ops: seq<Op>)
    requires Shape(s) && Create(s, parent, name, perm, uid, gid).1.Ok?
    requires var (s1, r) := Create(s, parent, name, perm, uid, gid);
             (forall k :: 0 <= k < |ops| ==> Through(ops[k], r.value.1))
             && FallbackGuarded(h, s1, r.value.1, ops)
    ensures var (s1, r) := Create(s, parent, name, perm, uid, gid);
            var e := RunFs(h, s1, ops);
            var fh, whole := r.value.1, Folded([], ops);
            && fh in e.files && InFlight(e.files[fh]) == whole && e.files[fh].byteCount == |whole|
            && (e.files[fh].mode.Streaming? ==> e.files[fh].mode.next == |whole|)
  {
    hide MakeFile, FallbackGuarded, Folded, RunFs, Through, IsDir;
    var (s1, r) := Create(s, parent, name, perm, uid, gid);
    MakeFileView(s.view, parent, name, NewFile(uid, gid, perm));
    WritePathRefinement(h, s1, r.value.1, [], ops);
  }

  /** In every run, a handle that has gone to the plain buffer never streams again. */
  ghost predicate Settled(s: Fs, fh: nat) {
    fh <= s.nextFh && (fh in s.files ==> s.files[fh].mode.Buffered?)
  }

  lemma SettledStep(h: Hash, s: Fs, op: Op, fh: nat)
    requires Settled(s, fh)
    ensures Settled(Step(h, s, op), fh)
  {
    hide IsDir, MakeFile, SetSize, Rebind, Pwrite, Resize, FallbackBase, DropRoot, UpdateInode, DeleteInode,
         CreateDirectory, Lookup, LinkEntry, UnlinkEntry, DropLink, Displace, EmptyDir, IncRef, DecRef;
  }

  lemma {:induction false} BufferedForGood(h: Hash, s: Fs, ops: seq<Op>, fh: nat)
    requires Settled(s, fh)
    ensures Settled(RunFs(h, s, ops), fh)
    decreases |ops|
  {
    hide Settled, Step;
    if ops != [] {
      SettledStep(h, s, ops[0], fh);
      BufferedForGood(h, Step(h, s, ops[0]), ops[1..], fh);
    }
  }

  // ------------------------------------------------------------- byte by byte

  /** A write puts its bytes at the offset, keeps the others and fills any gap with zeros. */
  lemma PwriteMeans(b: Bytes, off: nat, data: Bytes)
    ensures var r := Pwrite(b, off, data);
            && |r| == (if off + |data| > |b| then off + |data| else |b|)
            && forall k :: 0 <= k < |r| ==>
                 r[k] == if off <= k < off + |data| then data[k - off] else if k < |b| then b[k] else 0
  {
  }

  /** A resize keeps the common prefix and fills with zeros. */
  lemma ResizeMeans(b: Bytes, n: nat)
    ensures |Resize(b, n)| == n && forall k :: 0 <= k < n ==> Resize(b, n)[k] == if k < |b| then b[k] else 0
  {
  }

  /** A read of `size` bytes at `off` returns those bytes of the file, fewer only at its end. */
  lemma ClipMeans(b: Bytes, off: nat, size: nat)
    ensures var r := Clip(b, off, size);
            && |r| == (if off >= |b| then 0 else if off + size <= |b| then size else |b| - off)
            && forall k :: 0 <= k < |r| ==> r[k] == b[off + k]
  {
  }

  /** A commit writes size and both times, a truncation size and change time; nothing else of the
      inode or of other inodes changes, and the byte total moves by the difference in size. */
  lemma SizeUpdateMeans(v: View, ino: nat, size: nat, now: Time, mtime: bool)
    requires ino in v.inodes && v.inodes[ino].ino == ino
    ensures var (v', r) := SetSize(v, ino, size, now, mtime);
            var i := v.inodes[ino];
            && r == Ok(()) && v'.inodes.Keys == v.inodes.Keys
                && (forall j :: j in v.inodes && j != ino ==> v'.inodes[j] == v.inodes[j])
            && v'.inodes[ino] == Inode(ino, i.mode, i.uid, i.gid, i.nlinks, size,
                                       if mtime then now.sec else i.mtimeSec, if mtime then now.nsec else i.mtimeNsec,
                                           now.sec, now.nsec)
            && v' == v.(inodes := v'.inodes, logicalBytes := v'.logicalBytes)
            && (i.size <= v.logicalBytes && v.logicalBytes - i.size + size < U64_LIMIT ==>
                  v'.logicalBytes == v.logicalBytes - i.size + size)
  {
  }

  // ------------------------------------------------------- reads across commits

  /** The manifest resolves to `b`, the size agrees, and a read through `writer` returns `b`. */
  ghost predicate Serves(h: Hash, s: Fs, ino: nat, writer: Option<nat>, b: Bytes) {
    && Resting(s, ino, b) && (writer.Some? ==> writer.value in s.files)
    && ReadVia(h, s, ino, writer).1 == Ok(b)
  }

  /** A read returns the same bytes before an fsync, after it, and after the release that follows,
      or the release alone; after either commit the manifest resolves to them and the size is their
      length. The release after an fsync takes its early return. The bytes in flight may have been
      committed before. */
  lemma ReadsStableAcrossCommits(h: Hash, s: Fs, fh: nat, now: Time, later: Time)
    requires Shape(s) && fh in s.files && s.files[fh].byteCount > 0 && s.files[fh].ino in s.view.inodes
    requires s.files[fh].committed ==> Resting(s, s.files[fh].ino, InFlight(s.files[fh]))
    ensures var f := s.files[fh];
            var b, ino := InFlight(f), f.ino;
            var synced := Fsync(h, s, ino, fh, now).0;
            && ReadVia(h, s, ino, Some(fh)).1 == Ok(b)
            && Serves(h, synced, ino, Some(fh), b)
            && Serves(h, Release(h, s, ino, fh, now).0, ino, None, b)
            && Serves(h, Release(h, synced, ino, fh, later).0, ino, None, b)
            && Release(h, synced, ino, fh, later).0.view == synced.view
  {
    hide IsDir, SetSize, Rebind;
    var f := s.files[fh];
    assert Sound(f);
    CommitRests(h, s, f, now);
  }

  // ------------------------------------------------------ truncation to nothing

  /** Truncating an open file to nothing and closing it leaves it empty if and only if nothing but
      empty content had been committed: otherwise the old manifest survives, while the size says 0. */
  lemma TruncateToZeroIff(h: Hash, s: Fs, fh: nat, now: Time, later: Time)
    requires Shape(s) && fh in s.files && s.files[fh].ino in s.view.inodes && OnDisk(s, s.files[fh].ino).Some?
    ensures var ino := s.files[fh].ino;
            var e := Release(h, TruncateOpen(h, s, ino, fh, 0, now).0, ino, fh, later).0;
            && ino in e.view.inodes && e.view.inodes[ino].size == 0
            && ReadVia(h, e, ino, None).1 == (if ino in e.view.manifests then Ok(OnDisk(s, ino).value) else Err(EIO))
            && (Resting(e, ino, []) <==> OnDisk(s, ino) == Some([]))
  {
    hide IsDir, SetSize, Resize, DecRef;
    var f := s.files[fh];
    var s1 := TruncateOpen(h, s, f.ino, fh, 0, now).0;
    TruncateOpenTurns(h, s, fh, 0, now);
    assert s1.cas == s.cas;
    assert s1.files[fh].byteCount == 0;
    assert s1.files[fh].ino == f.ino && s1.view.manifests == s.view.manifests;
    hide TruncateOpen, Turned;
    var e := Release(h, s1, f.ino, fh, later).0;
    assert e.view.inodes == s1.view.inodes && Blocks(e.view, f.ino) == Blocks(s.view, f.ino);
  }

  // ------------------------------------------------------------------- reopening

  /** The first write through a reopened handle is a pwrite on the file if and only if it is not at
      the start, or covers the whole file: a write at the start replaces the file. */
  lemma ReopenedWriteIff(h: Hash, s: Fs, ino: nat, off: nat, data: Bytes, now: Time, b: Bytes)
    requires Shape(s) && Unopened(s, ino) && Resting(s, ino, b)
    ensures var (s1, fh) := AddHandle(s, ino);
            var f := Write(h, Open(h, s, ino, true, false, now).0, fh, off, data).0.files[fh];
            && Open(h, s, ino, true, false, now) == (s1, Ok(fh))
            && InFlight(f) == (if off == 0 then data else Pwrite(b, off, data))
            && (InFlight(f) == Pwrite(b, off, data) <==> off != 0 || |b| <= |data|)
  {
    hide IsDir, Pwrite, DecRef;
    PwriteCovers(b, data);
    assert [] + data == data;
  }

  /** Truncating through a reopened handle to some length makes the file that many zeros: it is the
      resize it should be if and only if the file held only zeros there. */
  lemma ReopenedTruncateIff(h: Hash, s: Fs, ino: nat, n: nat, now: Time, later: Time, b: Bytes)
    requires Shape(s) && Unopened(s, ino) && Resting(s, ino, b) && n > 0
    ensures var (s1, fh) := AddHandle(s, ino);
            var f := TruncateOpen(h, Open(h, s, ino, true, false, now).0, ino, fh, n, later).0.files[fh];
            && Open(h, s, ino, true, false, now) == (s1, Ok(fh))
            && InFlight(f) == Resize([], n)
            && (InFlight(f) == Resize(b, n) <==> forall k :: 0 <= k < n && k < |b| ==> b[k] == 0)
  {
    hide IsDir, DecRef, SetSize;
    var zeros := Resize([], n);
    if forall k :: 0 <= k < n && k < |b| ==> b[k] == 0 {
      assert zeros == Resize(b, n);
    } else {
      var k :| 0 <= k < n && k < |b| && b[k] != 0;
      assert zeros[k] != Resize(b, n)[k];
    }
  }

  /** Opening a file with O_TRUNC and closing it empties it if and only if it was empty: what was
      committed is still read, while the size says 0. */
  lemma OpenTruncIff(h: Hash, s: Fs, ino: nat, now: Time, later: Time, b: Bytes)
    requires Shape(s) && Unopened(s, ino) && Resting(s, ino, b) && ino < s.view.nextIno
    ensures var (s1, fh) := AddHandle(s, ino);
            var e := Release(h, Open(h, s, ino, true, true, now).0, ino, fh, later).0;
            && Open(h, s, ino, true, true, now).1 == Ok(fh)
            && ino in e.view.inodes && e.view.inodes[ino].size == 0
            && (b != [] ==> ReadVia(h, e, ino, None).1 == Ok(b))
            && (Resting(e, ino, []) <==> b == [])
  {
    hide IsDir, SetSize, Resize, DecRef, Release, TruncateOpen;
    var (s1, fh) := AddHandle(s, ino);
    TruncateToZeroIff(h, s1, fh, now, later);
    assert OnDisk(s1, ino) == Some(b);
    TruncateSucceeds(h, s1, ino, fh, now);
    if b != [] { StillNamed(h, s1, ino, fh, now, later); }
  }

  lemma TruncateSucceeds(h: Hash, s: Fs, ino: nat, fh: nat, now: Time)
    requires fh in s.files && ino in s.view.inodes && s.view.inodes[ino].ino == ino && s.files[fh].lastRoot.None?
    ensures TruncateOpen(h, s, ino, fh, 0, now).1 == Ok(())
  {
    hide Resize;
  }

  lemma StillNamed(h: Hash, s: Fs, ino: nat, fh: nat, now: Time, later: Time)
    requires fh in s.files && s.files[fh].ino == ino && ino in s.view.manifests && s.files[fh].lastRoot.None?
    ensures ino in Release(h, TruncateOpen(h, s, ino, fh, 0, now).0, ino, fh, later).0.view.manifests
  {
    hide Resize, SetSize;
    SizeManifests(s.view, ino, 0, now, false);
  }

  /** Opening a file with O_TRUNC, writing it anew from the start and closing it makes it exactly the new
      bytes, whatever had been committed. */
  lemma RewrittenAfterTrunc(h: Hash, s: Fs, ino: nat, data: Bytes, now: Time, later: Time, b: Bytes)
    requires Shape(s) && Unopened(s, ino) && Resting(s, ino, b) && data != []
    ensures var (s1, fh) := AddHandle(s, ino);
            var (s2, r) := Open(h, s, ino, true, true, now);
            r == Ok(fh) && Resting(Release(h, Write(h, s2, fh, 0, data).0, ino, fh, later).0, ino, data)
  {
    hide IsDir, SetSize, Resize, Rebind;
    var (s1, fh) := AddHandle(s, ino);
    var s2 := TruncateOpen(h, s1, ino, fh, 0, now).0;
    TruncateSucceeds(h, s1, ino, fh, now);
    TruncateOpenTurns(h, s1, fh, 0, now);
    var f := Handle(ino, Streaming(data, |data|), |data|, false, None);
    assert [] + data == data;
    var s3 := Write(h, s2, fh, 0, data).0;
    assert s3.files[fh] == f && s3.view == s2.view;
    CommitRests(h, s3, f, later);
  }

  /** A reopened file that is rewritten from the start and closed holds only the new bytes, and keeps
      the count of its old root as it was: the reference is not given back. */
  lemma ReopenLeaks(h: Hash, s: Fs, ino: nat, data: Bytes, now: Time, b: Bytes)
    requires RefInv(s) && Shape(s) && Unopened(s, ino) && Resting(s, ino, b) && data != []
    requires Blocks(s.view, ino) != [] && Blocks(s.view, ino)[0] != h(data)
    ensures var (s1, fh) := AddHandle(s, ino);
            var e := Release(h, Write(h, s1, fh, 0, data).0, ino, fh, now).0;
            && Resting(e, ino, data) && Blocks(e.view, ino) == [h(data)]
            && Count(e.view, Blocks(s.view, ino)[0]) == Count(s.view, Blocks(s.view, ino)[0]) >= 1
  {
    hide IsDir, Counted, HandlesOk, SetSize;
    var (s1, fh) := AddHandle(s, ino);
    var s2 := Write(h, s1, fh, 0, data).0;
    var f := s2.files[fh];
    assert [] + data == data;
    assert f == Handle(ino, Streaming(data, |data|), |data|, false, None) && s2.view == s.view;
    var d := Blocks(s.view, ino)[0];
    CommitRests(h, s2, f, now);
    ClosedClaim(s, ino);
    ClaimedIsCounted(s, ino);
    RebindElsewhere(s.view, ino, h(data), d);
    SizeCounts(Rebind(s.view, ino, None, h(data)), ino, |data|, now, true);
  }

  lemma RebindElsewhere(v: View, i: nat, d: Digest, e: Digest)
    requires d != e
    ensures Count(Rebind(v, i, None, d), e) == Count(v, e)
  {
  }

  lemma SizeCounts(v: View, i: nat, n: nat, now: Time, mtime: bool)
    ensures SetSize(v, i, n, now, mtime).0.refcounts == v.refcounts
  {
  }
}
