/** What files contain: over whole runs, the write path refines plain byte sequences under pwrite
    and resize, and reads return exactly those bytes. */
module FsContents {
  import opened ByteCodec
  import opened Cas
  import opened StoreView
  import opened Fs
  import opened FsRuns
  import opened FsRefs

  // ------------------------------------------------------------- the abstract files

  /** Each file is its byte sequence; nothing is known of handles, digests or manifests. */
  type Contents = map<nat, Bytes>

  function Bytes0(c: Contents, i: nat): (b: Bytes) {
    if i in c then c[i] else []
  }

  /** What a call does to the byte sequences. Commits and reads do nothing. */
  function ContentStep(s: Fs, c: Contents, op: Op): (c': Contents) {
    match op
    case OpCreate(_, _, _, _, _) => c[s.view.nextIno := []]
    case OpMknod(_, _, kind, _, _, _) => if kind == S_IFREG || kind == 0 then c[s.view.nextIno := []] else c
    case OpSymlink(_, _, target, _, _) => c[s.view.nextIno := target]
    case OpOpen(ino, write, trunc, _) => if write && trunc then c[ino := []] else c
    case OpWrite(fh, off, data) =>
      if fh in s.files then c[s.files[fh].ino := Pwrite(Bytes0(c, s.files[fh].ino), off, data)] else c
    case OpTruncateOpen(fh, n, _) =>
      if fh in s.files then c[s.files[fh].ino := Resize(Bytes0(c, s.files[fh].ino), n)] else c
    case OpTruncateClosed(ino, n, _) => c[ino := Resize(Bytes0(c, ino), n)]
    case _ => c
  }

  function RunContents(h: Hash, s: Fs, c: Contents, ops: seq<Op>): (c': Contents)
    decreases |ops|
  {
    if ops == [] then c else RunContents(h, Step(h, s, ops[0]), ContentStep(s, c, ops[0]), ops[1..])
  }

  // ------------------------------------------------------------------ the invariant

  /** The committed bytes of a file, if its manifest resolves. */
  function OnDisk(s: Fs, i: nat): (b: Option<Bytes>) {
    var m := Blocks(s.view, i);
    if m == [] then Some([]) else if m[0] in s.cas then Some(s.cas[m[0]]) else None
  }

  ghost predicate LiveFile(v: View, i: nat) {
    i in v.inodes && !IsDir(v.inodes[i])
  }

  ghost predicate On(s: Fs, fh: nat, i: nat) {
    fh in s.files && s.files[fh].ino == i
  }

  ghost predicate Resting(s: Fs, i: nat, b: Bytes) {
    OnDisk(s, i) == Some(b) && i in s.view.inodes && s.view.inodes[i].size == |b|
  }

  /** The file was truncated to nothing through a handle that has written nothing since. The inode knows;
      the manifest may still name what was committed before. */
  ghost predicate Emptied(s: Fs, i: nat, b: Bytes) {
    b == [] && i in s.view.inodes && s.view.inodes[i].size == 0 && exists fh :: On(s, fh, i)
  }

  ghost predicate Quiet(s: Fs, i: nat, b: Bytes) {
    Resting(s, i, b) || Emptied(s, i, b)
  }

  /** The inode says the file is empty, but something else is committed. */
  ghost predicate Stale(s: Fs, i: nat) {
    i in s.view.inodes && s.view.inodes[i].size == 0 && OnDisk(s, i) != Some([])
  }

  /** The byte count, and the next offset of a streaming handle, are the length of the bytes in flight. */
  ghost predicate Sound(f: Handle) {
    f.byteCount == |InFlight(f)| && (f.mode.Streaming? ==> f.mode.next == |InFlight(f)|)
  }

  /** A handle with bytes in flight holds the whole content; once it has committed them, so does the
      manifest. A handle without bytes has written nothing yet. */
  ghost predicate HandleIs(h: Hash, s: Fs, f: Handle, b: Bytes) {
    && Sound(f) && (f.byteCount > 0 ==> InFlight(f) == b)
    && (f.byteCount > 0 && f.committed ==> Resting(s, f.ino, b))
    && (f.byteCount == 0 && f.mode.Buffered? ==> b == [])
  }

  /** File `i` contains `b`. */
  ghost predicate FileIs(h: Hash, s: Fs, i: nat, b: Bytes) {
    && (forall fh :: On(s, fh, i) ==> HandleIs(h, s, s.files[fh], b))
    && ((forall fh :: !IsWriter(s, i, fh)) ==> Quiet(s, i, b))
  }

  ghost predicate ContentInv(h: Hash, s: Fs, c: Contents) {
    forall i :: LiveFile(s.view, i) ==> i in c && FileIs(h, s, i, c[i])
  }

  /** At most one handle per file, each sound; numbers in use are below the counters. */
  ghost predicate Shape(s: Fs) {
    && (forall fh :: fh in s.files ==> fh <= s.nextFh && s.files[fh].ino < s.view.nextIno && Sound(s.files[fh]))
    && (forall fh, gh :: fh in s.files && gh in s.files && s.files[fh].ino == s.files[gh].ino ==> fh == gh)
    && (forall i :: i in s.view.manifests ==> i < s.view.nextIno)
    && (forall i :: i in s.view.inodes ==> i < s.view.nextIno && s.view.inodes[i].ino == i)
  }

  /** What the contents need of a call: one writer per file; an emptied file is written again, and from
      its start, before it is closed, unless nothing was committed; a handle that has written nothing
      to a file with content is truncated where the file holds only zeros, and its first bytes at the
      start cover what the file had; and pushed bytes do not clash with other bytes under their
      digest. */
  ghost predicate ContentGuard(h: Hash, s: Fs, op: Op) {
    match op
    case OpSymlink(_, _, target, _, _) => NoClash(h, s.cas, target)
    case OpOpen(ino, write, trunc, _) =>
      write ==> ino in s.view.inodes && Unopened(s, ino)
    case OpWrite(fh, off, data) => fh in s.files ==> WriteGuard(h, s, s.files[fh], off, data)
    case OpTruncateOpen(fh, n, _) => fh in s.files ==> TruncateGuard(h, s, s.files[fh], n)
    case OpFsync(fh, _) => fh in s.files ==> PushOk(h, s, s.files[fh])
    case OpRelease(fh, _) => fh in s.files ==>
        PushOk(h, s, s.files[fh]) && (s.files[fh].byteCount == 0 ==> !Stale(s, s.files[fh].ino))
    case OpRead(_, writer) => writer.Some? && writer.value in s.files ==>
        NoClash(h, s.cas, InFlight(s.files[writer.value]))
    case OpTruncateClosed(ino, n, _) =>
      && ino in s.view.inodes && Unopened(s, ino)
      && (OnDisk(s, ino).Some? ==> NoClash(h, s.cas, Resize(OnDisk(s, ino).value, n)))
    case _ => true
  }

  /** The bytes in flight, if there are any, may be pushed. */
  ghost predicate PushOk(h: Hash, s: Fs, f: Handle) {
    f.byteCount > 0 ==> NoClash(h, s.cas, InFlight(f))
  }

  ghost predicate WriteGuard(h: Hash, s: Fs, f: Handle, off: nat, data: Bytes) {
    && PushOk(h, s, f)
    && (f.byteCount == 0 && f.mode.Streaming? ==>
          if off == 0 then data != [] && HasContent(s, f.ino) ==> Covers(s, f.ino, data)
          else Stale(s, f.ino) ==> Pwrite(FallbackBase(s, f), off, data) == Pwrite([], off, data))
  }

  ghost predicate HasContent(s: Fs, i: nat) {
    i in s.view.inodes && s.view.inodes[i].size != 0
  }

  ghost predicate Covers(s: Fs, i: nat, data: Bytes) {
    OnDisk(s, i).Some? && |OnDisk(s, i).value| <= |data|
  }

  ghost predicate TruncateGuard(h: Hash, s: Fs, f: Handle, n: nat) {
    && PushOk(h, s, f)
    && (n > 0 && f.byteCount == 0 && f.mode.Streaming? && HasContent(s, f.ino) ==>
          OnDisk(s, f.ino).Some? && Resize(OnDisk(s, f.ino).value, n) == Resize([], n))
  }

  ghost predicate ContentGuarded(h: Hash, s: Fs, ops: seq<Op>)
    decreases |ops|
  {
    ops == [] || (ContentGuard(h, s, ops[0]) && ContentGuarded(h, Step(h, s, ops[0]), ops[1..]))
  }

  // ------------------------------------------------------------------------ framing

  /** Nothing about file `j` has changed, except that it may have been removed. */
  ghost predicate Apart(s: Fs, s': Fs, j: nat) {
    && (LiveFile(s'.view, j) ==> LiveFile(s.view, j) && s'.view.inodes[j].size == s.view.inodes[j].size)
    && Blocks(s'.view, j) == Blocks(s.view, j)
    && (forall fh :: On(s', fh, j) ==> On(s, fh, j) && s'.files[fh] == s.files[fh])
    && (forall fh :: On(s, fh, j) ==> On(s', fh, j))
  }

  lemma ApartKeeps(h: Hash, s: Fs, s': Fs, j: nat, b: Bytes)
    requires Grows(s.cas, s'.cas) && Apart(s, s', j) && LiveFile(s'.view, j) && FileIs(h, s, j, b)
    ensures FileIs(h, s', j, b)
  {
    hide IsDir;
    assert Resting(s, j, b) ==> Resting(s', j, b);
    if Emptied(s, j, b) {
      var fh :| On(s, fh, j);
      assert On(s', fh, j);
    }
    assert forall fh :: IsWriter(s', j, fh) <==> IsWriter(s, j, fh) by {
      forall fh ensures IsWriter(s', j, fh) <==> IsWriter(s, j, fh) {
        assert On(s', fh, j) <==> On(s, fh, j);
      }
    }
  }

  /** One file changes and contains what it should; the others are left alone. */
  lemma OneFileKeeps(h: Hash, s: Fs, s': Fs, c: Contents, c': Contents, i: nat)
    requires ContentInv(h, s, c) && Grows(s.cas, s'.cas)
    requires forall j :: j != i ==> Apart(s, s', j)
    requires forall j :: j != i && j in c ==> j in c' && c'[j] == c[j]
    requires LiveFile(s'.view, i) ==> i in c' && FileIs(h, s', i, c'[i])
    ensures ContentInv(h, s', c')
  {
    hide IsDir, FileIs, Apart;
    forall j | LiveFile(s'.view, j) ensures j in c' && FileIs(h, s', j, c'[j]) {
      if j != i {
        assert Apart(s, s', j);
        assert LiveFile(s.view, j) by { ApartLive(s, s', j); }
        ApartKeeps(h, s, s', j, c[j]);
      }
    }
  }

  lemma ApartLive(s: Fs, s': Fs, j: nat)
    requires Apart(s, s', j) && LiveFile(s'.view, j)
    ensures LiveFile(s.view, j)
  {
  }

  lemma AllApartKeeps(h: Hash, s: Fs, s': Fs, c: Contents)
    requires ContentInv(h, s, c) && Grows(s.cas, s'.cas)
    requires forall j :: Apart(s, s', j)
    ensures ContentInv(h, s', c)
  {
    hide IsDir, FileIs, Apart;
    forall j | LiveFile(s'.view, j) ensures j in c && FileIs(h, s', j, c[j]) {
      assert Apart(s, s', j);
      ApartLive(s, s', j);
      ApartKeeps(h, s, s', j, c[j]);
    }
  }

  lemma PutGrows(h: Hash, cas: Blobs, b: Bytes)
    requires NoClash(h, cas, b)
    ensures Grows(cas, Put(h, cas, b)) && Grows(cas, cas)
  {
  }

  // ------------------------------------------------------------------ byte sequences

  lemma PwriteAppends(b: Bytes, data: Bytes)
    ensures Pwrite(b, |b|, data) == b + data
  {
    var ext := if |data| > 0 then Resize(b, |b| + |data|) else b;
    assert ext[..|b|] == b;
    assert ext[|b| + |data|..] == [];
  }

  /** A write at the start replaces the file exactly when it covers it. */
  lemma PwriteCovers(b: Bytes, data: Bytes)
    ensures Pwrite(b, 0, data) == data <==> |b| <= |data|
  {
    var ext := if |data| > |b| then Resize(b, |data|) else b;
    assert Pwrite(b, 0, data) == data + ext[|data|..];
  }

  lemma PwriteNothing(b: Bytes)
    ensures Pwrite(b, 0, []) == b
  {
  }

  // --------------------------------------------------------------- calls on a handle

  /** The handle `fh` is replaced by `g`, and at most the size of its inode changes. */
  ghost predicate Turned(s: Fs, s': Fs, fh: nat, g: Handle) {
    && fh in s.files && g.ino == s.files[fh].ino && Sound(g) && s'.files == s.files[fh := g] && s'.nextFh == s.nextFh
    && s'.view.nextIno == s.view.nextIno && s'.view.inodes.Keys == s.view.inodes.Keys
    && (forall j :: j in s.view.inodes && j != g.ino ==> s'.view.inodes[j] == s.view.inodes[j])
    && (g.ino in s.view.inodes ==>
        s'.view.inodes[g.ino].ino == g.ino
        && IsDir(s'.view.inodes[g.ino]) == IsDir(s.view.inodes[g.ino]))
    && (forall j :: j != g.ino ==>
        (j in s'.view.manifests <==> j in s.view.manifests)
        && Blocks(s'.view, j) == Blocks(s.view, j))
  }

  lemma TurnedShape(s: Fs, s': Fs, fh: nat, g: Handle)
    requires Shape(s) && Turned(s, s', fh, g)
    ensures Shape(s')
  {
    hide IsDir;
    assert forall k :: k in s'.files <==> k in s.files;
    assert forall k :: k in s.files ==> s'.files[k].ino == s.files[k].ino;
  }

  lemma TurnedApart(s: Fs, s': Fs, fh: nat, g: Handle, j: nat)
    requires Shape(s) && Turned(s, s', fh, g) && j != g.ino
    ensures Apart(s, s', j)
  {
    hide IsDir;
  }

  lemma TurnedOnly(s: Fs, s': Fs, fh: nat, g: Handle, gh: nat)
    requires Shape(s) && Turned(s, s', fh, g) && On(s', gh, g.ino)
    ensures gh == fh && s'.files[gh] == g
  {
  }

  /** The turned handle decides what its file contains. */
  lemma TurnedFile(h: Hash, s: Fs, s': Fs, fh: nat, g: Handle, b: Bytes)
    requires Shape(s) && Turned(s, s', fh, g) && HandleIs(h, s', g, b)
    requires g.byteCount == 0 ==> Quiet(s', g.ino, b)
    ensures FileIs(h, s', g.ino, b)
  {
    hide IsDir, HandleIs, Quiet;
    forall gh | On(s', gh, g.ino) ensures HandleIs(h, s', s'.files[gh], b) { TurnedOnly(s, s', fh, g, gh); }
    if g.byteCount > 0 { assert IsWriter(s', g.ino, fh); }
  }

  lemma TurnedKeeps(h: Hash, s: Fs, s': Fs, c: Contents, c': Contents, fh: nat, g: Handle)
    requires Shape(s) && ContentInv(h, s, c) && Turned(s, s', fh, g) && Grows(s.cas, s'.cas)
    requires forall j :: j != g.ino && j in c ==> j in c' && c'[j] == c[j]
    requires LiveFile(s.view, g.ino) ==>
             g.ino in c' && HandleIs(h, s', g, c'[g.ino])
             && (g.byteCount == 0 ==> Quiet(s', g.ino, c'[g.ino]))
    ensures Shape(s') && ContentInv(h, s', c')
  {
    hide IsDir, HandleIs, Quiet, Apart, FileIs, Shape, Turned;
    TurnedShape(s, s', fh, g);
    forall j | j != g.ino ensures Apart(s, s', j) { TurnedApart(s, s', fh, g, j); }
    if LiveFile(s'.view, g.ino) {
      assert LiveFile(s.view, g.ino) by { TurnedLive(s, s', fh, g); }
      TurnedFile(h, s, s', fh, g, c'[g.ino]);
    }
    OneFileKeeps(h, s, s', c, c', g.ino);
  }

  lemma TurnedLive(s: Fs, s': Fs, fh: nat, g: Handle)
    requires Turned(s, s', fh, g) && LiveFile(s'.view, g.ino)
    ensures LiveFile(s.view, g.ino)
  {
    hide IsDir;
  }

  /** What a live file's open handle knows. */
  lemma HandleKnows(h: Hash, s: Fs, c: Contents, fh: nat)
    requires Shape(s) && ContentInv(h, s, c) && fh in s.files && LiveFile(s.view, s.files[fh].ino)
    ensures var f := s.files[fh];
            f.ino in c && HandleIs(h, s, f, c[f.ino]) && (f.byteCount == 0 ==> Quiet(s, f.ino, c[f.ino]))
  {
    hide IsDir, HandleIs, Quiet;
    var f := s.files[fh];
    assert On(s, fh, f.ino);
    assert FileIs(h, s, f.ino, c[f.ino]);
    if f.byteCount == 0 {
      forall gh ensures !IsWriter(s, f.ino, gh) { assert gh in s.files && s.files[gh].ino == f.ino ==> gh == fh; }
    }
  }

  /** The write itself, on the handle and the bytes of its file. */
  lemma WriteHandle(h: Hash, s: Fs, fh: nat, off: nat, data: Bytes, b: Bytes)
    requires fh in s.files && HandleIs(h, s, s.files[fh], b) && WriteGuard(h, s, s.files[fh], off, data)
    requires s.files[fh].byteCount == 0 ==> Quiet(s, s.files[fh].ino, b)
    ensures var s' := Write(h, s, fh, off, data).0;
            fh in s'.files && s'.files[fh].ino == s.files[fh].ino && !s'.files[fh].committed
            && HandleIs(h, s', s'.files[fh], Pwrite(b, off, data))
            && (s'.files[fh].byteCount == 0 ==> s.files[fh].byteCount == 0 && Pwrite(b, off, data) == b)
  {
    hide Resize, Pwrite, DecRef, IsDir;
    var f := s.files[fh];
    if f.mode.Streaming? && off == f.mode.next {
      PwriteAppends(b, data);
      PwriteCovers(b, data);
      PwriteNothing(b);
      if f.byteCount == 0 {
        assert f.mode.acc == [];
        assert [] + data == data;
      }
    } else if f.mode.Streaming? {
      assert Pwrite(FallbackBase(s, f), off, data) == Pwrite(b, off, data) by {
        if f.byteCount == 0 && Stale(s, f.ino) { assert b == []; } else { assert FallbackBase(s, f) == b; }
      }
    } else if |Pwrite(b, off, data)| == 0 {
      assert b == [] && Pwrite(b, off, data) == [];
    }
  }

  lemma WriteTurns(h: Hash, s: Fs, fh: nat, off: nat, data: Bytes)
    requires Shape(s) && fh in s.files
    ensures var s' := Write(h, s, fh, off, data).0;
            fh in s'.files && Turned(s, s', fh, s'.files[fh]) && s'.view == s.view.(refcounts := s'.view.refcounts)
  {
    hide IsDir, Pwrite, FallbackBase, DecRef;
    var f := s.files[fh];
    if f.lastRoot.Some? { CountFrame(s.view, f.lastRoot.value); }
  }

  lemma WriteContent(h: Hash, s: Fs, c: Contents, fh: nat, off: nat, data: Bytes)
    requires Shape(s) && ContentInv(h, s, c) && ContentGuard(h, s, OpWrite(fh, off, data))
    ensures Shape(Step(h, s, OpWrite(fh, off, data)))
    ensures ContentInv(h, Step(h, s, OpWrite(fh, off, data)), ContentStep(s, c, OpWrite(fh, off, data)))
  {
    hide IsDir, Pwrite, Shape, ContentInv, HandleIs, Quiet, Turned, WriteGuard;
    if fh in s.files {
      hide Write;
      var f, s' := s.files[fh], Write(h, s, fh, off, data).0;
      WriteTurns(h, s, fh, off, data);
      WriteGrows(h, s, fh, off, data);
      if LiveFile(s.view, f.ino) {
        HandleKnows(h, s, c, fh);
        WriteHandle(h, s, fh, off, data, c[f.ino]);
        StillQuiet(s, s', fh, c[f.ino]);
      }
      assert s'.files[fh].ino == f.ino by {
        assert Turned(s, s', fh, s'.files[fh]);
        TurnedIno(s, s', fh, s'.files[fh]);
      }
      TurnedKeeps(h, s, s', c, ContentStep(s, c, OpWrite(fh, off, data)), fh, s'.files[fh]);
    }
  }

  lemma TurnedIno(s: Fs, s': Fs, fh: nat, g: Handle)
    requires Turned(s, s', fh, g)
    ensures g.ino == s.files[fh].ino
  {
  }

  lemma WriteGrows(h: Hash, s: Fs, fh: nat, off: nat, data: Bytes)
    requires fh in s.files && WriteGuard(h, s, s.files[fh], off, data)
    ensures Grows(s.cas, Write(h, s, fh, off, data).0.cas)
  {
    hide Pwrite, FallbackBase, DecRef;
    if s.files[fh].byteCount > 0 { PutGrows(h, s.cas, InFlight(s.files[fh])); }
  }

  lemma StillResting(s: Fs, s': Fs, i: nat, b: Bytes)
    requires Grows(s.cas, s'.cas) && s'.view.inodes == s.view.inodes && s'.view.manifests == s.view.manifests
    ensures Resting(s, i, b) ==> Resting(s', i, b)
  {
  }

  lemma StillQuiet(s: Fs, s': Fs, fh: nat, b: Bytes)
    requires Grows(s.cas, s'.cas) && s'.view.inodes == s.view.inodes && s'.view.manifests == s.view.manifests
    requires fh in s.files && fh in s'.files && s'.files[fh].ino == s.files[fh].ino
    ensures Quiet(s, s.files[fh].ino, b) ==> Quiet(s', s.files[fh].ino, b)
  {
    assert On(s', fh, s.files[fh].ino);
  }

  /** The view after a size update. */
  lemma SizedView(v: View, v1: View, i: nat, n: nat, now: Time, mtime: bool)
    requires (forall j :: j in v.inodes ==> v.inodes[j].ino == j) && v1.inodes == v.inodes && v1.nextIno == v.nextIno
    ensures var v' := SetSize(v1, i, n, now, mtime).0;
            && v'.inodes.Keys == v.inodes.Keys && v'.nextIno == v.nextIno && v'.manifests == v1.manifests
            && (forall j :: j in v.inodes && j != i ==> v'.inodes[j] == v.inodes[j])
            && (i in v.inodes ==>
                v'.inodes[i].ino == i && v'.inodes[i].size == n
                && IsDir(v'.inodes[i]) == IsDir(v.inodes[i]))
  {
    hide IsDir;
    var v' := SetSize(v1, i, n, now, mtime).0;
    if i in v.inodes { SameKind(v.inodes[i], v'.inodes[i]); }
  }

  lemma TruncateOpenTurns(h: Hash, s: Fs, fh: nat, n: nat, now: Time)
    requires Shape(s) && fh in s.files
    ensures var s' := TruncateOpen(h, s, s.files[fh].ino, fh, n, now).0;
            && fh in s'.files && Turned(s, s', fh, s'.files[fh]) && s'.view.manifests == s.view.manifests
            && (s.files[fh].ino in s.view.inodes ==>
                  s.files[fh].ino in s'.view.inodes && s'.view.inodes[s.files[fh].ino].size == n)
  {
    hide IsDir, Resize, DecRef, SetSize;
    var f := s.files[fh];
    if f.lastRoot.Some? { CountFrame(s.view, f.lastRoot.value); }
    SizedView(s.view, DropRoot(s.view, f.lastRoot), f.ino, n, now, false);
    SizedView(s.view, s.view, f.ino, n, now, false);
  }

  lemma TruncateOpenHandle(h: Hash, s: Fs, fh: nat, n: nat, now: Time, b: Bytes)
    requires fh in s.files && HandleIs(h, s, s.files[fh], b) && TruncateGuard(h, s, s.files[fh], n)
    requires s.files[fh].byteCount == 0 ==> Quiet(s, s.files[fh].ino, b)
    ensures var s' := TruncateOpen(h, s, s.files[fh].ino, fh, n, now).0;
            && s'.files[fh].byteCount == n && HandleIs(h, s', s'.files[fh], Resize(b, n))
            && Grows(s.cas, s'.cas)
  {
    hide IsDir, DecRef, SetSize;
    if s.files[fh].byteCount > 0 { PutGrows(h, s.cas, InFlight(s.files[fh])); }
  }

  lemma TruncateOpenContent(h: Hash, s: Fs, c: Contents, fh: nat, n: nat, now: Time)
    requires Shape(s) && ContentInv(h, s, c) && fh in s.files && TruncateGuard(h, s, s.files[fh], n)
    ensures var s' := TruncateOpen(h, s, s.files[fh].ino, fh, n, now).0;
            Shape(s') && ContentInv(h, s', ContentStep(s, c, OpTruncateOpen(fh, n, now)))
  {
    hide IsDir, Resize, TruncateOpen, Shape, ContentInv, HandleIs, Turned;
    var f, s' := s.files[fh], TruncateOpen(h, s, s.files[fh].ino, fh, n, now).0;
    TruncateOpenTurns(h, s, fh, n, now);
    TruncateOpenGrows(h, s, fh, n, now);
    TurnedIno(s, s', fh, s'.files[fh]);
    if LiveFile(s.view, f.ino) {
      HandleKnows(h, s, c, fh);
      TruncateOpenHandle(h, s, fh, n, now, c[f.ino]);
      if n == 0 {
        assert Resize(c[f.ino], 0) == [];
        assert On(s', fh, f.ino);
        assert Emptied(s', f.ino, []);
      }
    }
    TurnedKeeps(h, s, s', c, ContentStep(s, c, OpTruncateOpen(fh, n, now)), fh, s'.files[fh]);
  }

  lemma TruncateOpenGrows(h: Hash, s: Fs, fh: nat, n: nat, now: Time)
    requires fh in s.files && PushOk(h, s, s.files[fh])
    ensures Grows(s.cas, TruncateOpen(h, s, s.files[fh].ino, fh, n, now).0.cas)
  {
    hide IsDir, DecRef, SetSize, Resize;
    if s.files[fh].byteCount > 0 { PutGrows(h, s.cas, InFlight(s.files[fh])); }
  }

  // ---------------------------------------------------------------------- commits

  /** After the bytes in flight are committed, the manifest resolves to them and the size agrees. */
  lemma CommitRests(h: Hash, s: Fs, f: Handle, now: Time)
    requires (forall j :: j in s.view.inodes ==> s.view.inodes[j].ino == j) && f.byteCount == |InFlight(f)|
    ensures var d := h(InFlight(f));
            var v' := SetSize(Rebind(s.view, f.ino, f.lastRoot, d), f.ino, f.byteCount, now, true).0;
            && v'.inodes.Keys == s.view.inodes.Keys && v'.nextIno == s.view.nextIno
            && v'.manifests == s.view.manifests[f.ino := [d]]
            && (forall j :: j in s.view.inodes && j != f.ino ==> v'.inodes[j] == s.view.inodes[j])
            && (f.ino in s.view.inodes ==> v'.inodes[f.ino].ino == f.ino && v'.inodes[f.ino].size == |InFlight(f)|
                                           && IsDir(v'.inodes[f.ino]) == IsDir(s.view.inodes[f.ino]))
  {
    hide IsDir, Rebind, SetSize;
    var d := h(InFlight(f));
    RebindFrame(s.view, f.ino, f.lastRoot, d);
    SizedView(s.view, Rebind(s.view, f.ino, f.lastRoot, d), f.ino, f.byteCount, now, true);
  }

  lemma FsyncTurns(h: Hash, s: Fs, fh: nat, now: Time)
    requires Shape(s) && fh in s.files && s.files[fh].byteCount == |InFlight(s.files[fh])| > 0
    ensures var f, s' := s.files[fh], Fsync(h, s, s.files[fh].ino, fh, now).0;
            && fh in s'.files && s'.files[fh] == f.(committed := true, lastRoot := Some(h(InFlight(f))))
            && Turned(s, s', fh, s'.files[fh]) && s'.cas == Put(h, s.cas, InFlight(f))
            && (f.ino in s.view.inodes ==> Resting(s', f.ino, InFlight(f)))
  {
    hide IsDir, Rebind, SetSize;
    CommitRests(h, s, s.files[fh], now);
  }

  lemma FsyncContent(h: Hash, s: Fs, c: Contents, fh: nat, now: Time)
    requires Shape(s) && ContentInv(h, s, c) && ContentGuard(h, s, OpFsync(fh, now))
    requires fh in s.files
    ensures var s' := Fsync(h, s, s.files[fh].ino, fh, now).0;
            Shape(s') && ContentInv(h, s', c)
  {
    hide IsDir, ContentInv, HandleIs, Resting, Turned;
    var f := s.files[fh];
    assert Sound(f);
    hide Shape;
    if f.byteCount > 0 {
      hide Fsync;
      var s' := Fsync(h, s, f.ino, fh, now).0;
      FsyncTurns(h, s, fh, now);
      PutGrows(h, s.cas, InFlight(f));
      if LiveFile(s.view, f.ino) {
        HandleKnows(h, s, c, fh);
        SyncedHandle(h, s, s', f, s'.files[fh], c[f.ino]);
      }
      TurnedKeeps(h, s, s', c, c, fh, s'.files[fh]);
    }
  }

  lemma SyncedHandle(h: Hash, s: Fs, s': Fs, f: Handle, g: Handle, b: Bytes)
    requires HandleIs(h, s, f, b) && f.byteCount > 0 && Resting(s', f.ino, InFlight(f))
    requires g == f.(committed := true, lastRoot := g.lastRoot)
    ensures HandleIs(h, s', g, b)
  {
  }

  /** A handle is closed, and at most its file's manifest and size change. */
  ghost predicate Dropped(s: Fs, s': Fs, fh: nat) {
    && fh in s.files && s'.files == s.files - {fh} && s'.nextFh == s.nextFh
    && s'.view.nextIno == s.view.nextIno && s'.view.inodes.Keys == s.view.inodes.Keys
    && (forall j :: j in s.view.inodes && j != s.files[fh].ino ==> s'.view.inodes[j] == s.view.inodes[j])
    && (var i := s.files[fh].ino; i in s.view.inodes ==>
        s'.view.inodes[i].ino == i
        && IsDir(s'.view.inodes[i]) == IsDir(s.view.inodes[i]))
    && (forall j :: j != s.files[fh].ino ==>
        (j in s'.view.manifests <==> j in s.view.manifests)
        && Blocks(s'.view, j) == Blocks(s.view, j))
  }

  lemma DroppedShape(s: Fs, s': Fs, fh: nat)
    requires Shape(s) && Dropped(s, s', fh)
    ensures Shape(s')
  {
    hide IsDir;
  }

  lemma DroppedApart(s: Fs, s': Fs, fh: nat, j: nat)
    requires Shape(s) && Dropped(s, s', fh) && j != s.files[fh].ino
    ensures Apart(s, s', j)
  {
    hide IsDir;
  }

  lemma DroppedFile(h: Hash, s: Fs, s': Fs, fh: nat, b: Bytes)
    requires Shape(s) && Dropped(s, s', fh) && Resting(s', s.files[fh].ino, b)
    ensures FileIs(h, s', s.files[fh].ino, b)
  {
    hide IsDir, HandleIs, Resting;
    forall gh ensures !On(s', gh, s.files[fh].ino) { }
  }

  lemma DroppedKeeps(h: Hash, s: Fs, s': Fs, c: Contents, fh: nat)
    requires Shape(s) && ContentInv(h, s, c) && Dropped(s, s', fh) && Grows(s.cas, s'.cas)
    requires var i := s.files[fh].ino; LiveFile(s.view, i) ==> i in c && Resting(s', i, c[i])
    ensures Shape(s') && ContentInv(h, s', c)
  {
    hide IsDir, Resting, Apart, FileIs, Shape;
    var i := s.files[fh].ino;
    DroppedShape(s, s', fh);
    forall j | j != i ensures Apart(s, s', j) { DroppedApart(s, s', fh, j); }
    if LiveFile(s'.view, i) {
      DroppedFile(h, s, s', fh, c[i]);
    }
    OneFileKeeps(h, s, s', c, c, i);
  }

  lemma ReleaseDrops(h: Hash, s: Fs, fh: nat, now: Time)
    requires Shape(s) && fh in s.files
    ensures Dropped(s, Release(h, s, s.files[fh].ino, fh, now).0, fh)
  {
    hide IsDir, Rebind, SetSize, InFlight, Dropped;
    var f, s' := s.files[fh], Release(h, s, s.files[fh].ino, fh, now).0;
    assert Sound(f);
    CommitRests(h, s, f, now);
    if s'.view.manifests == s.view.manifests {
      ViewKept(s, s', fh);
    } else {
      OneManifest(s, s', fh, if f.byteCount == 0 then [] else [h(InFlight(f))]);
    }
  }

  lemma ViewKept(s: Fs, s': Fs, fh: nat)
    requires Shape(s) && fh in s.files && s'.files == s.files - {fh} && s'.nextFh == s.nextFh
    requires s'.view.manifests == s.view.manifests && s'.view.nextIno == s.view.nextIno
    requires Sized(s, s', s.files[fh].ino)
    ensures Dropped(s, s', fh)
  {
    hide IsDir;
  }

  /** At most the times and the size of inode `i` have changed. */
  ghost predicate Sized(s: Fs, s': Fs, i: nat) {
    && s'.view.inodes.Keys == s.view.inodes.Keys
    && (forall j :: j in s.view.inodes && j != i ==> s'.view.inodes[j] == s.view.inodes[j])
    && (i in s.view.inodes ==>
          s'.view.inodes[i].ino == i && IsDir(s'.view.inodes[i]) == IsDir(s.view.inodes[i]))
  }

  lemma OneManifest(s: Fs, s': Fs, fh: nat, ds: seq<Digest>)
    requires Shape(s) && fh in s.files && s'.files == s.files - {fh} && s'.nextFh == s.nextFh
    requires s'.view.manifests == s.view.manifests[s.files[fh].ino := ds] && s'.view.nextIno == s.view.nextIno
    requires Sized(s, s', s.files[fh].ino)
    ensures Dropped(s, s', fh)
  {
    hide IsDir;
  }

  lemma ReleaseRests(h: Hash, s: Fs, fh: nat, now: Time, b: Bytes)
    requires Shape(s) && fh in s.files && s.files[fh].ino in s.view.inodes && PushOk(h, s, s.files[fh])
    requires HandleIs(h, s, s.files[fh], b)
    requires s.files[fh].byteCount == 0 ==> Quiet(s, s.files[fh].ino, b) && !Stale(s, s.files[fh].ino)
    ensures Resting(Release(h, s, s.files[fh].ino, fh, now).0, s.files[fh].ino, b)
  {
    hide IsDir, Rebind, SetSize;
    CommitRests(h, s, s.files[fh], now);
    if s.files[fh].byteCount > 0 { PutGrows(h, s.cas, InFlight(s.files[fh])); }
  }

  lemma ReleaseContent(h: Hash, s: Fs, c: Contents, fh: nat, now: Time)
    requires Shape(s) && ContentInv(h, s, c) && ContentGuard(h, s, OpRelease(fh, now))
    requires fh in s.files
    ensures var s' := Release(h, s, s.files[fh].ino, fh, now).0;
            Shape(s') && ContentInv(h, s', c)
  {
    hide IsDir, Shape, ContentInv, HandleIs, Resting, Quiet, Stale, Dropped;
    var f, s' := s.files[fh], Release(h, s, s.files[fh].ino, fh, now).0;
    assert Grows(s.cas, s'.cas) by {
      hide SetSize, Rebind;
      if f.byteCount > 0 { PutGrows(h, s.cas, InFlight(f)); }
    }
    hide Release;
    ReleaseDrops(h, s, fh, now);
    if LiveFile(s.view, f.ino) {
      HandleKnows(h, s, c, fh);
      ReleaseRests(h, s, fh, now, c[f.ino]);
    }
    DroppedKeeps(h, s, s', c, fh);
  }

  // ---------------------------------------------------- truncation by path, opening

  /** The manifest and size of one file without a writer change. */
  ghost predicate Reset(s: Fs, s': Fs, i: nat) {
    && i in s.view.inodes && s'.files == s.files && s'.nextFh == s.nextFh
    && s'.view.nextIno == s.view.nextIno && s'.view.inodes.Keys == s.view.inodes.Keys
    && (forall j :: j in s.view.inodes && j != i ==> s'.view.inodes[j] == s.view.inodes[j])
    && s'.view.inodes[i].ino == i && IsDir(s'.view.inodes[i]) == IsDir(s.view.inodes[i])
    && i in s'.view.manifests && s'.view.manifests == s.view.manifests[i := s'.view.manifests[i]]
  }

  lemma ResetFrames(s: Fs, s': Fs, i: nat)
    requires Shape(s) && Reset(s, s', i)
    ensures Shape(s') && forall j :: j != i ==> Apart(s, s', j)
  {
    hide IsDir;
  }

  lemma TruncateClosedResets(h: Hash, s: Fs, i: nat, n: nat, now: Time)
    requires Shape(s) && i in s.view.inodes && OnDisk(s, i).Some? && NoClash(h, s.cas, Resize(OnDisk(s, i).value, n))
    ensures var s' := TruncateClosed(h, s, i, n, now).0;
            Reset(s, s', i) && Grows(s.cas, s'.cas) && Resting(s', i, Resize(OnDisk(s, i).value, n))
  {
    hide IsDir, SetSize, Resize, IncRef, DecRef;
    var m, content := Blocks(s.view, i), Resize(OnDisk(s, i).value, n);
    var v1 := if m == [] then s.view else DecRef(s.view, m[0]);
    var v2 := if content == [] then SetManifest(v1, i, []) else IncRef(SetManifest(v1, i, [h(content)]), h(content));
    if m != [] { CountFrame(s.view, m[0]); }
    CountFrame(SetManifest(v1, i, [h(content)]), h(content));
    SizedView(s.view, v2, i, n, now, false);
    PutGrows(h, s.cas, content);
  }

  lemma ResetFile(h: Hash, s: Fs, s': Fs, i: nat, b: Bytes)
    requires Reset(s, s', i) && Unopened(s, i) && Resting(s', i, b)
    ensures FileIs(h, s', i, b)
  {
    hide IsDir, Resting, HandleIs;
    forall fh ensures !On(s', fh, i) { }
  }

  lemma ClosedRests(h: Hash, s: Fs, c: Contents, i: nat)
    requires ContentInv(h, s, c) && LiveFile(s.view, i) && Unopened(s, i)
    ensures i in c && Resting(s, i, c[i])
  {
    hide IsDir, Resting, HandleIs;
    forall fh ensures !IsWriter(s, i, fh) { }
    assert FileIs(h, s, i, c[i]);
    forall fh ensures !On(s, fh, i) { }
  }

  lemma TruncateClosedContent(h: Hash, s: Fs, c: Contents, i: nat, n: nat, now: Time)
    requires Shape(s) && ContentInv(h, s, c) && ContentGuard(h, s, OpTruncateClosed(i, n, now))
    ensures var s' := TruncateClosed(h, s, i, n, now).0;
            Shape(s') && ContentInv(h, s', ContentStep(s, c, OpTruncateClosed(i, n, now)))
  {
    hide IsDir, Shape, ContentInv, Reset, Apart, FileIs, Resize;
    var c' := ContentStep(s, c, OpTruncateClosed(i, n, now));
    if OnDisk(s, i).Some? {
      hide TruncateClosed;
      var s' := TruncateClosed(h, s, i, n, now).0;
      TruncateClosedResets(h, s, i, n, now);
      ResetFrames(s, s', i);
      if LiveFile(s'.view, i) {
        ResetLive(s, s', i);
        ClosedRests(h, s, c, i);
        ResetFile(h, s, s', i, c'[i]);
      }
      OneFileKeeps(h, s, s', c, c', i);
    } else {
      assert !LiveFile(s.view, i) by {
        if LiveFile(s.view, i) { ClosedRests(h, s, c, i); }
      }
      DeadContent(h, s, c, i, c'[i]);
    }
  }

  lemma ResetLive(s: Fs, s': Fs, i: nat)
    requires Reset(s, s', i) && LiveFile(s'.view, i)
    ensures LiveFile(s.view, i)
  {
  }

  /** What is recorded for a number that names no file does not matter. */
  lemma DeadContent(h: Hash, s: Fs, c: Contents, i: nat, b: Bytes)
    requires ContentInv(h, s, c) && !LiveFile(s.view, i)
    ensures ContentInv(h, s, c[i := b])
  {
    hide IsDir, FileIs;
  }

  lemma OpenContent(h: Hash, s: Fs, c: Contents, ino: nat, write: bool, trunc: bool, now: Time)
    requires Shape(s) && ContentInv(h, s, c) && ContentGuard(h, s, OpOpen(ino, write, trunc, now))
    ensures var s' := Open(h, s, ino, write, trunc, now).0;
            Shape(s') && ContentInv(h, s', ContentStep(s, c, OpOpen(ino, write, trunc, now)))
  {
    hide IsDir, ContentInv, TruncateOpen, Shape;
    if write {
      var (s1, fh) := AddHandle(s, ino);
      AddHandleContent(h, s, c, ino);
      if trunc {
        TruncateOpenContent(h, s1, c, fh, 0, now);
        TruncateOpenOk(h, s1, fh, 0, now);
        assert Resize(Bytes0(c, ino), 0) == [];
      }
    } else {
      NextHandleContent(h, s, c);
    }
  }

  lemma TruncateOpenOk(h: Hash, s: Fs, fh: nat, n: nat, now: Time)
    requires Shape(s) && fh in s.files && s.files[fh].ino in s.view.inodes
    ensures TruncateOpen(h, s, s.files[fh].ino, fh, n, now).1.Ok?
  {
    hide IsDir, Resize, DecRef;
    var f := s.files[fh];
    if f.lastRoot.Some? { CountFrame(s.view, f.lastRoot.value); }
  }

  lemma AddHandleContent(h: Hash, s: Fs, c: Contents, ino: nat)
    requires Shape(s) && ContentInv(h, s, c) && ino in s.view.inodes && Unopened(s, ino)
    ensures Shape(AddHandle(s, ino).0) && ContentInv(h, AddHandle(s, ino).0, c)
  {
    hide IsDir, ContentInv, Resting;
    var s' := AddHandle(s, ino).0;
    assert forall j :: j != ino ==> Apart(s, s', j);
    if LiveFile(s.view, ino) {
      ClosedRests(h, s, c, ino);
      StillResting(s, s', ino, c[ino]);
      assert forall fh :: On(s', fh, ino) ==> fh == s.nextFh + 1;
    }
    OneFileKeeps(h, s, s', c, c, ino);
  }

  lemma NextHandleContent(h: Hash, s: Fs, c: Contents)
    requires Shape(s) && ContentInv(h, s, c)
    ensures var s' := s.(nextFh := s.nextFh + 1); Shape(s') && ContentInv(h, s', c)
  {
    hide IsDir, ContentInv;
    AllApartKeeps(h, s, s.(nextFh := s.nextFh + 1), c);
  }

  // ------------------------------------------------------------- namespace calls

  /** Only names, link counts and times change; files may go, and directories may come. */
  ghost predicate Named(v: View, v': View) {
    && v'.manifests == v.manifests && v'.nextIno >= v.nextIno
    && (forall j :: j in v'.inodes ==> j < v'.nextIno && v'.inodes[j].ino == j)
    && (forall j :: LiveFile(v', j) ==> LiveFile(v, j) && v'.inodes[j].size == v.inodes[j].size)
  }

  lemma NamedKeeps(h: Hash, s: Fs, s': Fs, c: Contents)
    requires Shape(s) && ContentInv(h, s, c)
    requires s'.files == s.files && s'.nextFh == s.nextFh && s'.cas == s.cas && Named(s.view, s'.view)
    ensures Shape(s') && ContentInv(h, s', c)
  {
    hide IsDir, ContentInv, LiveFile;
    assert forall j :: Apart(s, s', j);
    AllApartKeeps(h, s, s', c);
  }

  lemma NamedTransitive(a: View, b: View, c: View)
    requires Named(a, b) && Named(b, c)
    ensures Named(a, c)
  {
    hide LiveFile;
  }

  /** The inodes are the same, but one of them has other links or another time. */
  lemma TouchNames(v: View, v': View, i: nat, m: Inode)
    requires forall j :: j in v.inodes ==> j < v.nextIno && v.inodes[j].ino == j
    requires i in v.inodes && m.ino == i && m.size == v.inodes[i].size && IsDir(m) == IsDir(v.inodes[i])
    requires v'.inodes == v.inodes[i := m] && v'.manifests == v.manifests && v'.nextIno == v.nextIno
    ensures Named(v, v')
  {
    hide IsDir;
  }

  lemma SameNames(v: View, v': View)
    requires forall j :: j in v.inodes ==> j < v.nextIno && v.inodes[j].ino == j
    requires v'.inodes == v.inodes && v'.manifests == v.manifests && v'.nextIno >= v.nextIno
    ensures Named(v, v')
  {
    hide IsDir;
  }

  lemma RemoveNames(v: View, v': View, i: nat)
    requires forall j :: j in v.inodes ==> j < v.nextIno && v.inodes[j].ino == j
    requires v'.inodes == v.inodes - {i} && v'.manifests == v.manifests && v'.nextIno == v.nextIno
    ensures Named(v, v')
  {
    hide IsDir;
  }

  lemma MkdirNames(s: Fs, parent: nat, name: Name, perm: nat, uid: nat, gid: nat)
    requires Shape(s)
    ensures Named(s.view, Mkdir(s, parent, name, perm, uid, gid).0.view)
  {
    hide IsDir, LinkEntry, UnlinkEntry;
    var v := s.view;
    var v1 := v.(nextIno := v.nextIno + 1);
    EntryFrames(v1, parent, name, v.nextIno);
    var (v', r) := CreateDirectory(v, parent, name, NewDir(uid, gid, perm));
    NewInodeKinds(uid, gid, perm, 0);
    KindIgnoresIno(NewDir(uid, gid, perm), v.nextIno);
    if r.Ok? {
      KindIgnoresLinks(v.inodes[parent], AsU32(v.inodes[parent].nlinks + 1));
    } else {
      SameNames(v, v');
    }
  }

  lemma RmdirNames(s: Fs, parent: nat, name: Name)
    requires Shape(s)
    ensures Named(s.view, Rmdir(s, parent, name).0.view)
  {
    hide IsDir, LinkEntry, UnlinkEntry, Lookup, EmptyDir, Named;
    var v := s.view;
    SameNames(v, v);
    EntryFrames(v, parent, name, 0);
    var found, removed := Lookup(v, parent, name), UnlinkEntry(v, parent, name);
    if found.Ok? && removed.Ok? && found.value in v.inodes {
      var v1 := removed.value;
      SameNames(v, v1);
      var v2 := DeleteInode(v1, found.value).value;
      RemoveNames(v, v2, found.value);
      if parent in v2.inodes && v2.inodes[parent].nlinks > 0 {
        var p := v2.inodes[parent].(nlinks := v2.inodes[parent].nlinks - 1);
        KindIgnoresLinks(v2.inodes[parent], v2.inodes[parent].nlinks - 1);
        var v3 := UpdateInode(v2, p).value;
        TouchNames(v2, v3, parent, p);
        NamedTransitive(v, v2, v3);
      }
    }
  }

  lemma HardLinkNames(s: Fs, ino: nat, parent: nat, name: Name, now: Time)
    requires Shape(s)
    ensures Named(s.view, HardLink(s, ino, parent, name, now).0.view)
  {
    hide IsDir, LinkEntry, UnlinkEntry, Named;
    var v := s.view;
    SameNames(v, v);
    EntryFrames(v, parent, name, ino);
    var linked := LinkEntry(v, parent, name, ino);
    if ino in v.inodes && linked.Ok? {
      KindIgnoresTime(v.inodes[ino], now);
      KindIgnoresLinks(Touched(v.inodes[ino], now), AsU32(v.inodes[ino].nlinks + 1));
      var m := Touched(v.inodes[ino], now).(nlinks := AsU32(v.inodes[ino].nlinks + 1));
      TouchNames(v, UpdateInode(linked.value, m).value, ino, m);
    }
  }

  lemma DropLinkNames(s: Fs, v1: View, i: nat)
    requires Shape(s) && v1 == s.view.(dirs := v1.dirs) && i in s.view.inodes
    ensures Named(s.view, DropLink(v1, i))
  {
    hide IsDir, DecRefs, Named;
    DecRefsFrame(v1, Blocks(v1, i));
    var n := SaturatingSub(s.view.inodes[i].nlinks, 1);
    if n == 0 {
      RemoveNames(s.view, DropLink(v1, i), i);
    } else {
      KindIgnoresLinks(s.view.inodes[i], n);
      TouchNames(s.view, DropLink(v1, i), i, s.view.inodes[i].(nlinks := n));
    }
  }

  lemma UnlinkNames(s: Fs, parent: nat, name: Name)
    requires Shape(s)
    ensures Named(s.view, Unlink(s, parent, name).0.view)
  {
    hide IsDir, LinkEntry, UnlinkEntry, Lookup, DropLink, Named;
    SameNames(s.view, s.view);
    EntryFrames(s.view, parent, name, 0);
    var found, removed := Lookup(s.view, parent, name), UnlinkEntry(s.view, parent, name);
    if found.Ok? && removed.Ok? && found.value in s.view.inodes { DropLinkNames(s, removed.value, found.value); }
  }

  lemma MoveNames(v: View, s: Fs, src: nat, parent: nat, name: Name, newParent: nat, newName: Name, now: Time)
    requires Named(v, s.view)
    ensures Named(v, Move(s, src, parent, name, newParent, newName, now).0.view)
  {
    hide IsDir, LinkEntry, UnlinkEntry, LiveFile;
    EntryFrames(s.view, newParent, newName, src);
    var linked := LinkEntry(s.view, newParent, newName, src);
    var v' := Move(s, src, parent, name, newParent, newName, now).0.view;
    if linked.Ok? { EntryFrames(linked.value, parent, name, src); }
    if src in s.view.inodes && v'.inodes != s.view.inodes {
      KindIgnoresTime(s.view.inodes[src], now);
      TouchNames(s.view, v', src, Touched(s.view.inodes[src], now));
    } else {
      SameNames(s.view, v');
    }
    NamedTransitive(v, s.view, v');
  }

  lemma RenameNames(s: Fs, parent: nat, name: Name, newParent: nat, newName: Name, noReplace: bool, now: Time)
    requires Shape(s)
    ensures Named(s.view, Rename(s, parent, name, newParent, newName, noReplace, now).0.view)
  {
    hide IsDir, DropLink, Move, UnlinkEntry, LinkEntry, Lookup, Named;
    var v := s.view;
    SameNames(v, v);
    EntryFrames(v, newParent, newName, 0);
    var source, target, removed := Lookup(v, parent, name), Lookup(v, newParent, newName),
        UnlinkEntry(v, newParent, newName);
    if source.Ok? {
      if target.Ok? && removed.Ok? && target.value in v.inodes {
        DropLinkNames(s, removed.value, target.value);
        SameNames(v, removed.value);
        MoveNames(v, s.(view := Displace(removed.value, target.value)), source.value, parent, name, newParent, newName,
            now);
      } else {
        MoveNames(v, s, source.value, parent, name, newParent, newName, now);
      }
    }
  }

  // ------------------------------------------------------------------ making files

  /** A new file that rests on the bytes `b`, perhaps with a fresh handle. */
  ghost predicate Made(s: Fs, s': Fs, b: Bytes) {
    var i := s.view.nextIno;
    && s'.view.nextIno == i + 1 && i in s'.view.inodes && s'.view.inodes == s.view.inodes[i := s'.view.inodes[i]]
    && s'.view.inodes[i].ino == i && Resting(s', i, b) && Grows(s.cas, s'.cas)
    && (forall j :: j != i ==>
        (j in s'.view.manifests <==> j in s.view.manifests)
        && Blocks(s'.view, j) == Blocks(s.view, j))
    && ((s'.files == s.files && s'.nextFh == s.nextFh)
        || (s'.files == s.files[s.nextFh + 1 := NewHandle(i)] && s'.nextFh == s.nextFh + 1))
  }

  lemma MadeShape(s: Fs, s': Fs, b: Bytes)
    requires Shape(s) && Made(s, s', b)
    ensures Shape(s')
  {
    hide Resting;
  }

  lemma MadeApart(s: Fs, s': Fs, b: Bytes, j: nat)
    requires Shape(s) && Made(s, s', b) && j != s.view.nextIno
    ensures Apart(s, s', j)
  {
    hide IsDir, Resting;
  }

  lemma MadeFile(h: Hash, s: Fs, s': Fs, b: Bytes)
    requires Shape(s) && Made(s, s', b)
    ensures FileIs(h, s', s.view.nextIno, b)
  {
    hide IsDir, Resting;
    var i := s.view.nextIno;
    forall fh | On(s', fh, i) ensures s'.files[fh] == NewHandle(i) { }
  }

  lemma MadeKeeps(h: Hash, s: Fs, s': Fs, c: Contents, b: Bytes)
    requires Shape(s) && ContentInv(h, s, c) && Made(s, s', b)
    ensures Shape(s') && ContentInv(h, s', c[s.view.nextIno := b])
  {
    hide IsDir, ContentInv, Apart, FileIs, Resting, Shape;
    var i := s.view.nextIno;
    MadeShape(s, s', b);
    forall j | j != i ensures Apart(s, s', j) { MadeApart(s, s', b, j); }
    MadeFile(h, s, s', b);
    OneFileKeeps(h, s, s', c, c[i := b], i);
  }

  lemma NotMadeKeeps(h: Hash, s: Fs, s': Fs, c: Contents, b: Bytes)
    requires Shape(s) && ContentInv(h, s, c)
    requires s'.files == s.files && s'.nextFh == s.nextFh && s'.cas == s.cas
    requires s'.view.inodes == s.view.inodes && s'.view.manifests == s.view.manifests
             && s'.view.nextIno == s.view.nextIno + 1
    ensures Shape(s') && ContentInv(h, s', c[s.view.nextIno := b])
  {
    hide IsDir, ContentInv, LiveFile, Named;
    SameNames(s.view, s'.view);
    NamedKeeps(h, s, s', c);
    assert !LiveFile(s'.view, s.view.nextIno) by { NotLive(s.view, s'.view, s.view.nextIno); }
    DeadContent(h, s', c, s.view.nextIno, b);
  }

  lemma NotLive(v: View, v': View, i: nat)
    requires i !in v.inodes && v'.inodes == v.inodes
    ensures !LiveFile(v', i)
  {
  }

  lemma MakeContent(h: Hash, s: Fs, c: Contents, parent: nat, name: Name, perm: nat, uid: nat, gid: nat)
    requires Shape(s) && ContentInv(h, s, c)
    ensures var s' := Create(s, parent, name, perm, uid, gid).0; Shape(s') && ContentInv(h, s', c[s.view.nextIno := []])
    ensures var s' := MakeNode(s, parent, name, perm, uid, gid).0;
            Shape(s')
            && ContentInv(h, s', c[s.view.nextIno := []])
  {
    hide IsDir, ContentInv, MakeFile;
    var made := MakeFile(s.view, parent, name, NewFile(uid, gid, perm)).1;
    MakeFileView(s.view, parent, name, NewFile(uid, gid, perm));
    var s1, s2 := Create(s, parent, name, perm, uid, gid).0, MakeNode(s, parent, name, perm, uid, gid).0;
    if made.Ok? {
      MadeKeeps(h, s, s1, c, []);
      MadeKeeps(h, s, s2, c, []);
    } else {
      NotMadeKeeps(h, s, s1, c, []);
      NotMadeKeeps(h, s, s2, c, []);
    }
  }

  lemma SymlinkContent(h: Hash, s: Fs, c: Contents, parent: nat, name: Name, target: Bytes, uid: nat, gid: nat)
    requires Shape(s) && ContentInv(h, s, c) && NoClash(h, s.cas, target)
    ensures var s' := Symlink(h, s, parent, name, target, uid, gid).0;
            Shape(s') && ContentInv(h, s', c[s.view.nextIno := target])
  {
    hide IsDir, ContentInv, MakeFile, IncRef;
    var meta := NewSymlink(uid, gid, |target|);
    var (v, made) := MakeFile(s.view, parent, name, meta);
    MakeFileView(s.view, parent, name, meta);
    var s' := Symlink(h, s, parent, name, target, uid, gid).0;
    if made.Ok? {
      CountFrame(SetManifest(v, made.value, [h(target)]), h(target));
      PutGrows(h, s.cas, target);
      MadeKeeps(h, s, s', c, target);
    } else {
      NotMadeKeeps(h, s, s', c, target);
    }
  }

  lemma ReadContentKept(h: Hash, s: Fs, c: Contents, ino: nat, writer: Option<nat>)
    requires Shape(s) && ContentInv(h, s, c) && ContentGuard(h, s, OpRead(ino, writer))
             && (writer.Some? ==> writer.value in s.files)
    ensures var s' := ReadVia(h, s, ino, writer).0; Shape(s') && ContentInv(h, s', c)
  {
    hide IsDir, ContentInv;
    var s' := ReadVia(h, s, ino, writer).0;
    if writer.Some? { PutGrows(h, s.cas, InFlight(s.files[writer.value])); }
    AllApartKeeps(h, s, s', c);
  }

  // ------------------------------------------------------------------- whole runs

  lemma ContentStepKeeps(h: Hash, s: Fs, c: Contents, op: Op)
    requires Shape(s) && ContentInv(h, s, c) && ContentGuard(h, s, op)
    ensures Shape(Step(h, s, op)) && ContentInv(h, Step(h, s, op), ContentStep(s, c, op))
  {
    hide Shape, ContentInv, Named, Create, MakeNode, Symlink, Open, Write, TruncateOpen, TruncateClosed, ReadVia,
         HardLink, Unlink, Rename, Mkdir, Rmdir, WriteGuard, TruncateGuard, NoClash, OnDisk, Resize, Pwrite;
    match op
    case OpCreate(parent, name, perm, uid, gid) => MakeContent(h, s, c, parent, name, perm, uid, gid);
    case OpMknod(parent, name, kind, perm, uid, gid) => MakeContent(h, s, c, parent, name, perm, uid, gid);
    case OpSymlink(parent, name, target, uid, gid) => SymlinkContent(h, s, c, parent, name, target, uid, gid);
    case OpOpen(ino, write, trunc, now) => OpenContent(h, s, c, ino, write, trunc, now);
    case OpWrite(fh, off, data) => WriteContent(h, s, c, fh, off, data);
    case OpFsync(fh, now) => if fh in s.files { FsyncContent(h, s, c, fh, now); }
    case OpRelease(fh, now) => if fh in s.files { ReleaseContent(h, s, c, fh, now); }
    case OpTruncateOpen(fh, size, now) => if fh in s.files { TruncateOpenContent(h, s, c, fh, size, now); }
    case OpTruncateClosed(ino, size, now) => TruncateClosedContent(h, s, c, ino, size, now);
    case OpRead(ino, writer) => if writer.Some? ==> writer.value in s.files { ReadContentKept(h, s, c, ino, writer); }
    case _ => NameContent(h, s, c, op);
  }

  lemma NameContent(h: Hash, s: Fs, c: Contents, op: Op)
    requires Shape(s) && ContentInv(h, s, c)
    requires op.OpHardLink? || op.OpUnlink? || op.OpRename? || op.OpMkdir? || op.OpRmdir?
    ensures Shape(Step(h, s, op)) && ContentInv(h, Step(h, s, op), ContentStep(s, c, op))
  {
    hide Shape, ContentInv, Named;
    var s' := Step(h, s, op);
    assert s' == s.(view := s'.view) by { NameFrame(h, s, op); }
    hide HardLink, Unlink, Rename, Mkdir, Rmdir;
    match op {
      case OpHardLink(ino, parent, name, now) => HardLinkNames(s, ino, parent, name, now);
      case OpUnlink(parent, name) => UnlinkNames(s, parent, name);
      case OpRename(parent, name, newParent, newName, noReplace, now) =>
        RenameNames(s, parent, name, newParent, newName, noReplace, now);
      case OpMkdir(parent, name, perm, uid, gid) => MkdirNames(s, parent, name, perm, uid, gid);
      case OpRmdir(parent, name) => RmdirNames(s, parent, name);
    }
    NamedKeeps(h, s, s', c);
  }

  lemma NameFrame(h: Hash, s: Fs, op: Op)
    requires op.OpHardLink? || op.OpUnlink? || op.OpRename? || op.OpMkdir? || op.OpRmdir?
    ensures Step(h, s, op) == s.(view := Step(h, s, op).view)
  {
    hide IsDir, LinkEntry, UnlinkEntry, Lookup, UpdateInode, DeleteInode, DropLink, CreateDirectory, EmptyDir, Displace;
  }

  /** The write path refines byte sequences: after every run, each live file contains exactly what
      plain pwrite and resize make of it. */
  lemma {:induction false} ContentRefinement(h: Hash, s: Fs, c: Contents, ops: seq<Op>)
    requires Shape(s) && ContentInv(h, s, c) && ContentGuarded(h, s, ops)
    ensures Shape(RunFs(h, s, ops)) && ContentInv(h, RunFs(h, s, ops), RunContents(h, s, c, ops))
    decreases |ops|
  {
    hide Shape, ContentInv, ContentGuard, Step, ContentStep;
    if ops != [] {
      ContentStepKeeps(h, s, c, ops[0]);
      ContentRefinement(h, Step(h, s, ops[0]), ContentStep(s, c, ops[0]), ops[1..]);
    }
  }

  lemma FreshContents(h: Hash, s: Fs)
    requires Fresh(s)
    ensures Shape(s) && ContentInv(h, s, map[])
  {
  }

  /** A read finds a handle with bytes on the file, or none exists. */
  ghost predicate Finds(s: Fs, ino: nat, writer: Option<nat>) {
    if writer.Some? then IsWriter(s, ino, writer.value) else forall fh :: !IsWriter(s, ino, fh)
  }

  /** What a read of a file with content `b` should give: an empty file that has no manifest yet gives
      EIO, everything else its bytes. */
  ghost function Expected(s: Fs, ino: nat, writer: Option<nat>, b: Bytes): (r: Result<Bytes, Errno>) {
    if writer.None? && ino !in s.view.manifests then Err(EIO) else Ok(b)
  }

  /** What a read finds in the manifest alone. */
  ghost function Committed(s: Fs, ino: nat): (r: Result<Bytes, Errno>) {
    if OnDisk(s, ino).Some? then Ok(OnDisk(s, ino).value) else Err(EIO)
  }

  /** A read of a live file returns its content, whichever handle or manifest it comes from, if and only
      if it finds a handle with bytes or the manifest is not stale: an emptied file not yet written
      again still reads as what was committed before. */
  lemma ReadReturnsContent(h: Hash, s: Fs, c: Contents, ino: nat, writer: Option<nat>)
    requires ContentInv(h, s, c) && LiveFile(s.view, ino) && Finds(s, ino, writer)
    ensures ino in c
    ensures ReadVia(h, s, ino, writer).1 == Expected(s, ino, writer, c[ino]) <==> writer.Some? || !Stale(s, ino)
    ensures writer.None? && ino !in s.view.manifests ==> c[ino] == []
    ensures writer.None? && Stale(s, ino) ==>
              c[ino] == [] && ReadVia(h, s, ino, writer).1 == Committed(s, ino)
  {
    hide IsDir;
    assert FileIs(h, s, ino, c[ino]);
    if writer.Some? { assert On(s, writer.value, ino); }
  }

  /** From a fresh store, after any guarded run, reads return what the abstract files hold. */
  lemma ReadsAfterRuns(h: Hash, s: Fs, ops: seq<Op>, ino: nat, writer: Option<nat>)
    requires Fresh(s) && ContentGuarded(h, s, ops)
    requires LiveFile(RunFs(h, s, ops).view, ino) && Finds(RunFs(h, s, ops), ino, writer)
    ensures var e, c := RunFs(h, s, ops), RunContents(h, s, map[], ops);
            && ino in c
            && (ReadVia(h, e, ino, writer).1 == Expected(e, ino, writer, c[ino]) <==> writer.Some? || !Stale(e, ino))
            && (writer.None? && ino !in e.view.manifests ==> c[ino] == [])
            && (writer.None? && Stale(e, ino) ==> c[ino] == [] && ReadVia(h, e, ino, writer).1 == Committed(e, ino))
  {
    hide ContentInv, Shape, RunFs, RunContents, ContentGuarded, ReadVia, LiveFile, Finds, Stale, Expected,
         Committed;
    FreshContents(h, s);
    ContentRefinement(h, s, map[], ops);
    ReadReturnsContent(h, RunFs(h, s, ops), RunContents(h, s, map[], ops), ino, writer);
  }
}
