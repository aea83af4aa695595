/** The filesystem object: open handles over the metadata store, each call step by step, proved
    against the filesystem as a value. */
module SliceFs {
  import opened ByteCodec
  import opened Cas
  import opened Tables
  import opened StoreView
  import opened StoreTies
  import Accounting
  import Directory
  import DictStore
  import opened Fs
  import Spec = Fs
  import FsContents
  import opened FsPresence
  import FsRuns
  import Inodes

  /** A byte count is 64 bits wide. */
  ghost predicate HandlesFit(files: map<nat, Handle>) {
    forall fh :: fh in files ==>
        FsContents.Sound(files[fh]) && files[fh].byteCount < U64_LIMIT
        && files[fh].ino < U64_LIMIT
  }

  /** The content pushed so far is still there, and every manifest names some of it. */
  ghost predicate Held(cas: Blobs, blobs: Blobs, v: View) {
    Grows(cas, blobs) && (forall d :: d in cas ==> |cas[d]| < U64_LIMIT) && Present(v, cas)
  }

  /** Some manifest names `d`. */
  ghost predicate NamedBy(v: View, d: Digest) {
    exists i, k :: i in v.manifests && 0 <= k < |v.manifests[i]| && v.manifests[i][k] == d
  }

  /** Whatever a manifest names is in the blob store. No byte string in memory has 2^64 bytes. */
  ghost predicate ContentThere(blobs: Blobs, v: View) {
    forall d :: NamedBy(v, d) ==> d in blobs && |blobs[d]| < U64_LIMIT
  }

  /** The content the manifests name. */
  ghost function ContentOf(blobs: Blobs, v: View): (cas: Blobs) {
    map d | d in blobs && NamedBy(v, d) :: blobs[d]
  }

  lemma ContentHeld(blobs: Blobs, v: View)
    requires ContentThere(blobs, v)
    ensures Held(ContentOf(blobs, v), blobs, v)
  {
    forall i | i in v.manifests ensures AllPushed(v.manifests[i], ContentOf(blobs, v)) {
      forall k | 0 <= k < |v.manifests[i]| ensures v.manifests[i][k] in ContentOf(blobs, v) {
        assert NamedBy(v, v.manifests[i][k]);
      }
    }
  }

  predicate TimeFits(now: Time) {
    -Inodes.I64_LIMIT <= now.sec < Inodes.I64_LIMIT && now.nsec < U32_LIMIT
  }

  // ----------------------------------------- when new entries fit their fields on disk

  /** The number and the entry of a new file. */
  ghost predicate FileFits(v: View, parent: nat, name: Name) {
    v.nextIno + 1 < U64_LIMIT && LinkFits(v, parent, name)
  }

  ghost predicate HardLinkFits(v: View, ino: nat, parent: nat, name: Name) {
    ino in v.inodes && !IsDir(v.inodes[ino]) ==> LinkFits(v, parent, name)
  }

  /** A target that is there already has an entry that fits. */
  ghost predicate RenameFits(v: View, parent: nat, name: Name, newParent: nat, newName: Name) {
    Lookup(v, parent, name).Ok? && Lookup(v, newParent, newName).Err? ==> LinkFits(v, newParent, newName)
  }

  lemma HeldPut(h: Hash, cas: Blobs, blobs: Blobs, later: Blobs, v: View, b: Bytes)
    requires Held(cas, blobs, v) && Grows(blobs, later) && Has(h, later, b) && |b| < U64_LIMIT
    ensures Held(Put(h, cas, b), later, v)
  {
  }

  lemma HeldGrows(cas: Blobs, blobs: Blobs, later: Blobs, v: View, v': View)
    requires Held(cas, blobs, v) && Grows(blobs, later) && v'.manifests == v.manifests
    ensures Held(cas, later, v')
  {
  }

  lemma HeldSet(cas: Blobs, blobs: Blobs, v: View, i: nat, ds: seq<Digest>)
    requires Held(cas, blobs, v) && AllPushed(ds, cas)
    ensures Held(cas, blobs, SetManifest(v, i, ds))
  {
  }

  // ---------------------------------------------------------------- buffers in place

  /** `buf.resize(n, 0)`. */
  method ResizeBuffer(b: Bytes, n: nat) returns (r: Bytes)
    ensures r == Resize(b, n)
  {
    var a := new byte[n](_ => 0);
    var m := if n < |b| then n else |b|;
    for j := 0 to m
      invariant fresh(a) && forall k :: 0 <= k < n ==> a[k] == if k < j then b[k] else 0
    {
      a[j] := b[j];
    }
    r := a[..];
    assert r == Resize(b, n);
  }

  /** Extends the buffer with zeros if it is too short, then copies `data` over it at `off`. */
  method OverwriteBuffer(b: Bytes, off: nat, data: Bytes) returns (r: Bytes)
    ensures r == Pwrite(b, off, data)
  {
    var end := off + |data|;
    var ext := b;
    if end > |b| { ext := ResizeBuffer(b, end); }
    var a := new byte[|ext|](k requires 0 <= k < |ext| => ext[k]);
    for j := 0 to |data|
      invariant fresh(a) && forall k :: 0 <= k < |ext| ==> a[k] == if off <= k < off + j then data[k - off] else ext[k]
    {
      a[off + j] := data[j];
    }
    r := a[..];
    assert r == ext[..off] + data + ext[end..];
  }

  class SliceFsFilesystem {
    const meta: DictStore.DictMetadataStore
    var openFiles: map<nat, Handle>
    var nextFh: nat
    /** The content strings pushed through this object. */
    ghost var cas: Blobs

    ghost function State(): (s: Fs)
      reads this, meta
    {
      Fs(meta.view, cas, openFiles, nextFh)
    }

    ghost predicate Valid()
      reads this, meta
    {
      meta.Valid() && HandlesFit(openFiles) && (meta.intact ==> Held(cas, meta.blobs, meta.view))
    }

    constructor (meta: DictStore.DictMetadataStore)
      requires meta.Valid() && (meta.intact ==> ContentThere(meta.blobs, meta.view))
      ensures Valid() && this.meta == meta && State() == Fs(meta.view, ContentOf(meta.blobs, meta.view), map[], 0)
    {
      this.meta, openFiles, nextFh := meta, map[], 0;
      cas := ContentOf(meta.blobs, meta.view);
      if meta.intact { ContentHeld(meta.blobs, meta.view); }
    }

    // --------------------------------------------------------------- single steps

    /** `file_storage_get`. No byte string in memory has 2^64 bytes. */
    method Fetch(d: Digest) returns (b: Option<Bytes>)
      ensures b == if d in meta.blobs && |meta.blobs[d]| < U64_LIMIT then Some(meta.blobs[d]) else None
    {
      b := if d in meta.blobs && |meta.blobs[d]| < U64_LIMIT then Some(meta.blobs[d]) else None;
    }

    /** Ends an accumulator: its bytes are pushed, and fetched again by their digest. */
    method Materialize(b: Bytes) returns (d: Digest)
      requires Valid() && |b| < U64_LIMIT
      modifies this`cas, meta`blobs, meta`pushed, meta`intact
      ensures Valid() && meta.Kept(true) && d == meta.h(b) && cas == Put(meta.h, old(cas), b)
      ensures meta.intact ==> d in meta.blobs && meta.blobs[d] == b
      ensures meta.pushed == old(meta.pushed) + [b]
    {
      hide HandlesFit, Held, PutAll, Clean;
      d := meta.Push(b);
      cas := Put(meta.h, cas, b);
      if meta.intact { HeldPut(meta.h, old(cas), old(meta.blobs), meta.blobs, meta.view, b); }
    }

    method DropOld(root: Option<Digest>)
      requires Valid()
      modifies meta`refcounts, meta`view
      ensures Valid() && meta.view == DropRoot(old(meta.view), root)
    {
      hide HandlesFit, Held, PutAll, Clean;
      if root.Some? {
        meta.DecrementRefcount(root.value);
        if meta.intact { HeldGrows(cas, meta.blobs, meta.blobs, old(meta.view), meta.view); }
      }
    }

    /** Decrement, set the manifest, increment: the order of every commit. */
    method Rebind(ino: u64, prior: Option<Digest>, d: Digest)
      requires Valid() && d in cas
      modifies meta
      ensures Valid() && meta.Kept(true) && meta.view == Spec.Rebind(old(meta.view), ino, prior, d)
    {
      hide HandlesFit, Held, PutAll, Clean;
      if prior.Some? && prior.value != d { DropOld(prior); }
      SetBlocks(ino, [d]);
      if prior != Some(d) { AddRef(d); }
    }

    method SetBlocks(ino: u64, ds: seq<Digest>)
      requires Valid() && AllPushed(ds, cas)
      modifies meta`blobs, meta`pushed, meta`intact, meta`manifestData, meta`view
      ensures Valid() && meta.Kept(true) && meta.view == SetManifest(old(meta.view), ino, ds)
    {
      hide HandlesFit, Held, PutAll, Clean;
      meta.SetManifest(ino, ds);
      if meta.intact {
        meta.NothingLost();
        HeldGrows(cas, old(meta.blobs), meta.blobs, old(meta.view), old(meta.view));
        HeldSet(cas, meta.blobs, old(meta.view), ino, ds);
      }
    }

    method AddRef(d: Digest)
      requires Valid()
      modifies meta`refcounts, meta`view
      ensures Valid() && meta.view == IncRef(old(meta.view), d)
    {
      hide HandlesFit, Held, PutAll, Clean;
      meta.IncrementRefcount(d);
      if meta.intact { HeldGrows(cas, meta.blobs, meta.blobs, old(meta.view), meta.view); }
    }

    /** The last step of every commit and truncation: size and times of the inode. */
    method SetSize(ino: u64, size: u64, now: Time, mtime: bool) returns (r: Result<(), Errno>)
      requires Valid() && TimeFits(now)
      modifies meta
      ensures Valid() && meta.Kept(true)
      ensures meta.intact ==> (meta.view, r) == Spec.SetSize(old(meta.view), ino, size, now, mtime)
    {
      hide HandlesFit, Held, PutAll, Clean;
      var inode := meta.GetInode(ino);
      if inode.Err? { return Err(EIO); }
      var i := (if mtime then Stamped(inode.value, now) else Touched(inode.value, now)).(size := size);
      var updated := meta.UpdateInode(i);
      r := if updated.Ok? then Ok(()) else Err(EIO);
      StillHeld();
    }

    // -------------------------------------------------------------- the write path

    /** The first committed block, if the manifest has one that resolves. */
    method CommittedBytes(ino: u64) returns (b: Option<Bytes>, any: bool)
      requires Valid()
      ensures b.Some? ==> any && |b.value| < U64_LIMIT
      ensures meta.intact ==> (any <==> Blocks(meta.view, ino) != [])
      ensures meta.intact && any ==> Blocks(meta.view, ino)[0] in cas && b == Some(cas[Blocks(meta.view, ino)[0]])
    {
      hide HandlesFit;
      var m := meta.GetManifest(ino);
      any, b := m.Ok? && m.value != [], None;
      if any { b := Fetch(m.value[0]); }
    }

    /** What a streaming handle falls back to, pushed through the blob store if it has bytes. */
    method TakeBase(f: Handle) returns (buf: Bytes)
      requires Valid() && f.mode.Streaming? && f.ino < U64_LIMIT && FsContents.Sound(f) && f.byteCount < U64_LIMIT
      modifies this`cas, meta`blobs, meta`pushed, meta`intact
      ensures Valid() && meta.Kept(true)
      ensures cas == if f.byteCount > 0 then Put(meta.h, old(cas), f.mode.acc) else old(cas)
      ensures |buf| < U64_LIMIT && (meta.intact ==> buf == FallbackBase(old(State()), f))
      ensures meta.pushed == old(meta.pushed) + (if f.byteCount > 0 then [f.mode.acc] else [])
    {
      hide HandlesFit, Held, PutAll, Clean;
      if f.byteCount > 0 {
        var d := Materialize(f.mode.acc);
        var b := Fetch(d);
        buf := if b.Some? then b.value else [];
      } else {
        var b, any := CommittedBytes(f.ino);
        buf := if b.Some? then b.value else [];
      }
    }

    /** From streaming to a plain buffer: the base is overwritten, and the committed root given up. */
    method FallBack(f: Handle, off: nat, data: Bytes) returns (g: Handle)
      requires Valid() && f.mode.Streaming? && f.ino < U64_LIMIT && FsContents.Sound(f) && f.byteCount < U64_LIMIT
      requires off + |data| < U64_LIMIT
      modifies this`cas, meta
      ensures Valid() && meta.Kept(true)
      ensures cas == (if f.byteCount > 0 then Put(meta.h, old(cas), f.mode.acc) else old(cas))
      ensures meta.view == DropRoot(old(meta.view), f.lastRoot)
      ensures FsContents.Sound(g) && g.byteCount < U64_LIMIT && g.ino == f.ino
      ensures meta.intact ==>
                var buf := Pwrite(FallbackBase(old(State()), f), off, data);
                g == f.(mode := Buffered(buf), byteCount := |buf|, committed := false, lastRoot := None)
      ensures meta.pushed == old(meta.pushed) + (if f.byteCount > 0 then [f.mode.acc] else [])
    {
      hide HandlesFit, Held, PutAll, Clean, Pwrite, FallbackBase, DropRoot;
      var base := TakeBase(f);
      var buf := OverwriteBuffer(base, off, data);
      DropOld(f.lastRoot);
      g := f.(mode := Buffered(buf), byteCount := |buf|, committed := false, lastRoot := None);
    }

    /** A handle goes back into the table. */
    method Reinsert(fh: nat, f: Handle)
      requires Valid() && FsContents.Sound(f) && f.byteCount < U64_LIMIT && f.ino < U64_LIMIT
      modifies this`openFiles
      ensures Valid() && openFiles == old(openFiles)[fh := f]
    {
      hide Held, PutAll, Clean;
      openFiles := openFiles[fh := f];
    }

    method TakeOut(fh: nat) returns (f: Handle)
      requires Valid() && fh in openFiles
      modifies this`openFiles
      ensures Valid() && openFiles == old(openFiles) - {fh} && f == old(openFiles)[fh]
      ensures FsContents.Sound(f) && f.byteCount < U64_LIMIT && f.ino < U64_LIMIT
    {
      hide Held, PutAll, Clean;
      f := openFiles[fh];
      openFiles := openFiles - {fh};
    }

    /** The file a handle is open on. */
    method InoOf(fh: nat) returns (ino: u64)
      requires Valid()
      ensures ino == FsRuns.InoOf(State(), fh)
    {
      hide Held, PutAll, Clean;
      ino := if fh in openFiles then openFiles[fh].ino else 0;
    }

    /** `test_write`: the state is taken out of the table, written to, and put back. */
    method Write(fh: nat, off: nat, data: Bytes) returns (r: Result<nat, Errno>)
      requires Valid() && off + |data| < U64_LIMIT
      modifies this, meta
      ensures Valid() && meta.Kept(true)
      ensures meta.intact ==> (State(), r) == Spec.Write(meta.h, old(State()), fh, off, data)
      ensures meta.pushed == old(meta.pushed)
              + (if FallsBack(old(openFiles), fh, off) then [InFlight(old(openFiles)[fh])] else [])
    {
      hide HandlesFit, Held, PutAll, Clean, Pwrite, Resize, DropRoot;
      if fh !in openFiles { return Err(EBADF); }
      var f := TakeOut(fh);

      match f.mode {
        case Streaming(acc, next) =>
          if off != next {
            f := FallBack(f, off, data);
          } else {
            f := f.(mode := Streaming(acc + data, next + |data|), byteCount := f.byteCount + |data|,
                committed := false);
          }
        case Buffered(b) =>
          var buf := OverwriteBuffer(b, off, data);
          f := f.(mode := Buffered(buf), byteCount := |buf|, committed := false);
      }
      PutBack(old(openFiles), fh, f);
      Reinsert(fh, f);
      r := Ok(|data|);
    }

    /** The bytes in flight, pushed. */
    method Finalize(f: Handle) returns (d: Digest)
      requires Valid() && FsContents.Sound(f) && f.byteCount < U64_LIMIT
      modifies this`cas, meta`blobs, meta`pushed, meta`intact
      ensures Valid() && meta.Kept(true) && d == meta.h(InFlight(f)) && cas == Put(meta.h, old(cas), InFlight(f))
    {
      match f.mode
      case Streaming(acc, _) => d := Materialize(acc);
      case Buffered(buf) => d := Materialize(buf);
    }

    /** The reference moves to the new root, then the inode gets its size. */
    method CommitTo(ino: u64, f: Handle, d: Digest, now: Time) returns (r: Result<(), Errno>)
      requires Valid() && TimeFits(now) && d in cas && f.byteCount < U64_LIMIT
      modifies meta
      ensures Valid() && meta.Kept(true)
      ensures meta.intact ==>
                var v := Spec.Rebind(old(meta.view), ino, f.lastRoot, d);
                (meta.view, r) == Spec.SetSize(v, ino, f.byteCount, now, true)
    {
      hide HandlesFit, Held, PutAll, Clean, Spec.SetSize, Spec.Rebind;
      Rebind(ino, f.lastRoot, d);
      r := SetSize(ino, f.byteCount, now, true);
    }

    /** `flush_buffer_for_fsync`. */
    method Fsync(ino: u64, fh: nat, now: Time) returns (r: Result<(), Errno>)
      requires Valid() && TimeFits(now)
      modifies this, meta
      ensures Valid() && meta.Kept(true)
      ensures meta.intact ==> (State(), r) == Spec.Fsync(meta.h, old(State()), ino, fh, now)
    {
      hide Held, PutAll, Clean, Spec.SetSize, Spec.Rebind;
      if fh !in openFiles || openFiles[fh].byteCount == 0 { return Ok(()); }
      var f := openFiles[fh];
      Reinsert(fh, f.(committed := true));
      var d := Finalize(f);
      Reinsert(fh, f.(committed := true, lastRoot := Some(d)));
      PutTwice(old(openFiles), fh, f.(committed := true), openFiles[fh]);
      r := CommitTo(ino, f, d, now);
    }

    /** `test_release`. */
    method Release(ino: u64, fh: nat, now: Time) returns (r: Result<(), Errno>)
      requires Valid() && TimeFits(now)
      modifies this, meta
      ensures Valid() && meta.Kept(true)
      ensures meta.intact ==> (State(), r) == Spec.Release(meta.h, old(State()), ino, fh, now)
    {
      hide Held, PutAll, Clean, HandlesFit, Spec.SetSize, Spec.Rebind;
      if fh !in openFiles { return Ok(()); }
      var f := TakeOut(fh);
      if f.byteCount == 0 {
        if !f.committed {
          var m := meta.GetManifest(ino);
          var hasExisting := m.Ok? && m.value != [];
          if !hasExisting { SetBlocks(ino, []); }
        }
        return Ok(());
      }
      var d := Finalize(f);
      if f.lastRoot == Some(d) && f.committed { return Ok(()); }
      r := CommitTo(ino, f, d, now);
    }

    /** The in-flight state of a handle is cut or extended; a committed root is given up, except by a
        plain buffer that keeps some bytes. */
    method TruncateHandle(fh: nat, n: u64)
      requires Valid() && fh in openFiles
      modifies this, meta
      ensures Valid() && meta.Kept(true) && nextFh == old(nextFh)
      ensures meta.intact ==>
                var f := old(openFiles)[fh];
                var giveUp := n == 0 || f.mode.Streaming?;
                && openFiles == old(openFiles)[fh := Truncated(f, n)]
                && meta.view == (if giveUp then DropRoot(old(meta.view), f.lastRoot) else old(meta.view))
                && cas == (if f.mode.Streaming? && n > 0 && f.byteCount > 0
                           then Put(meta.h, old(cas), f.mode.acc) else old(cas))
    {
      hide Held, PutAll, Clean, Resize, DecRef;
      var f := openFiles[fh];
      match f.mode {
        case Buffered(buf) =>
          if n == 0 {
            Reinsert(fh, f.(mode := Buffered([]), byteCount := 0, committed := false, lastRoot := None));
            DropOld(f.lastRoot);
            assert Resize(buf, 0) == [];
          } else {
            var resized := ResizeBuffer(buf, n);
            Reinsert(fh, f.(mode := Buffered(resized), byteCount := |resized|, committed := false));
          }
        case Streaming(acc, _) =>
          if n == 0 {
            Reinsert(fh, f.(mode := NewHandleMode, byteCount := 0, committed := false, lastRoot := None));
            DropOld(f.lastRoot);
            assert Resize(acc, 0) == [] && Resize([], 0) == [];
          } else {
            var content: Bytes := [];
            if f.byteCount > 0 {
              var d := Materialize(acc);
              var b := Fetch(d);
              content := if b.Some? then b.value else [];
            }
            content := ResizeBuffer(content, n);
            Reinsert(fh, f.(mode := Streaming(content, |content|), byteCount := |content|, committed := false,
                lastRoot := None));
            DropOld(f.lastRoot);
          }
      }
    }

    /** The manifest names the content, or nothing when there is none. */
    method StoreContent(ino: u64, content: Bytes)
      requires Valid() && |content| < U64_LIMIT
      modifies this`cas, meta
      ensures Valid() && meta.Kept(true)
      ensures if content == [] then cas == old(cas) && meta.view == SetManifest(old(meta.view), ino, [])
              else && cas == Put(meta.h, old(cas), content)
                   && meta.view == IncRef(SetManifest(old(meta.view), ino, [meta.h(content)]), meta.h(content))
    {
      hide HandlesFit, Held, PutAll, Clean, IncRef;
      if content == [] {
        SetBlocks(ino, []);
      } else {
        var d := Materialize(content);
        SetBlocks(ino, [d]);
        AddRef(d);
      }
    }

    /** Case B: the committed content is read, resized and pushed again. */
    method TruncateByPath(ino: u64, n: u64, now: Time) returns (r: Result<(), Errno>)
      requires Valid() && TimeFits(now)
      modifies this, meta
      ensures Valid() && meta.Kept(true)
      ensures meta.intact ==> (State(), r) == TruncateClosed(meta.h, old(State()), ino, n, now)
    {
      hide Held, PutAll, Clean, HandlesFit, Resize, Spec.SetSize, IncRef, DecRef;
      var m := meta.GetManifest(ino);
      if m.Err? && m.error != NotFound { return Err(EIO); }
      var b, any := CommittedBytes(ino);
      if any && b.None? { return Err(EIO); }
      var content := if any then b.value else [];
      if any && m.Ok? && m.value != [] { DropOld(Some(m.value[0])); }
      content := ResizeBuffer(content, n);
      StoreContent(ino, content);
      r := SetSize(ino, n, now, false);
    }

    /** `test_setattr_size`. */
    method SetattrSize(ino: u64, fh: Option<nat>, n: u64, now: Time) returns (r: Result<(), Errno>)
      requires Valid() && TimeFits(now)
      modifies this, meta
      ensures Valid() && meta.Kept(true)
      ensures meta.intact ==> (State(), r) == Truncate(meta.h, old(State()), ino, fh, n, now)
    {
      hide Held, PutAll, Clean, HandlesFit, Resize, Spec.SetSize, DropRoot, TruncateClosed;
      if fh.Some? && fh.value in openFiles {
        TruncateHandle(fh.value, n);
        r := SetSize(ino, n, now, false);
      } else {
        r := TruncateByPath(ino, n, now);
      }
    }

    /** The first open handle on `ino` that has bytes, in no particular order. */
    method FindWriter(ino: nat) returns (writer: Option<nat>)
      ensures writer.Some? ==> IsWriter(State(), ino, writer.value)
      ensures writer.None? ==> forall fh :: !IsWriter(State(), ino, fh)
    {
      var candidates := set fh | fh in openFiles && openFiles[fh].ino == ino && openFiles[fh].byteCount > 0;
      if fh :| fh in candidates {
        writer := Some(fh);
      } else {
        forall fh ensures !IsWriter(State(), ino, fh) { assert fh !in candidates; }
        writer := None;
      }
    }

    /** `test_read`: returns the bytes, and which handle they came from. */
    method Read(ino: u64, off: nat, size: nat) returns (r: Result<Bytes, Errno>, ghost writer: Option<nat>)
      requires Valid()
      modifies this, meta
      ensures Valid() && FsContents.Finds(old(State()), ino, writer)
              && (writer.Some? ==> writer.value in old(openFiles))
      ensures meta.Kept(true)
      ensures meta.intact ==>
                var (s', whole) := ReadVia(meta.h, old(State()), ino, writer);
                State() == s' && r == (match whole case Ok(b) => Ok(Clip(b, off, size)) case Err(e) => Err(e))
    {
      hide Held, PutAll, Clean, HandlesFit;
      var found := FindWriter(ino);
      writer := found;
      var whole: Bytes := [];
      if found.Some? {
        var f := Peek(found.value);
        match f.mode {
          case Buffered(buf) => whole := buf;
          case Streaming(acc, _) =>
            var d := Materialize(acc);
            var b := Fetch(d);
            if b.None? { return Err(EIO), writer; }
            whole := b.value;
        }
      } else {
        var m := meta.GetManifest(ino);
        assert State() == old(State()) && Clip([], off, size) == [];
        if m.Err? { return Err(EIO), writer; }
        if m.value == [] { return Ok([]), writer; }
        var b, any := CommittedBytes(ino);
        if b.None? { return Err(EIO), writer; }
        whole := b.value;
      }
      r := Ok(Clip(whole, off, size));
    }

    method Peek(fh: nat) returns (f: Handle)
      requires Valid() && fh in openFiles
      ensures f == openFiles[fh] && FsContents.Sound(f) && f.byteCount < U64_LIMIT && f.ino < U64_LIMIT
    {
      f := openFiles[fh];
    }

    // ------------------------------------------------------------------- opening

    method NewHandleOn(ino: u64) returns (fh: nat)
      requires Valid()
      modifies this`openFiles, this`nextFh
      ensures Valid() && (State(), fh) == AddHandle(old(State()), ino)
    {
      hide Held, PutAll, Clean;
      nextFh := nextFh + 1;
      fh := nextFh;
      openFiles := openFiles[fh := NewHandle(ino)];
    }

    /** `test_open`. */
    method Open(ino: u64, write: bool, trunc: bool, now: Time) returns (r: Result<nat, Errno>)
      requires Valid() && TimeFits(now)
      modifies this, meta
      ensures Valid() && meta.Kept(true)
      ensures meta.intact ==> (State(), r) == Spec.Open(meta.h, old(State()), ino, write, trunc, now)
    {
      hide Held, PutAll, Clean, HandlesFit, TruncateOpen;
      if !write {
        nextFh := nextFh + 1;
        return Ok(nextFh);
      }
      var fh := NewHandleOn(ino);
      if trunc {
        var done := SetattrSize(ino, Some(fh), 0, now);
        if done.Err? {
          Forget(fh);
          return Err(done.error);
        }
      }
      r := Ok(fh);
    }

    method Forget(fh: nat)
      requires Valid()
      modifies this`openFiles
      ensures Valid() && openFiles == old(openFiles) - {fh}
    {
      hide Held, PutAll, Clean;
      openFiles := openFiles - {fh};
    }

    // ----------------------------------------------------------------- namespace

    /** Metadata calls that touch no manifest keep the content where it was. */
    twostate lemma StillHeld()
      requires old(Valid()) && meta.Valid() && meta.Onward() && cas == old(cas) && openFiles == old(openFiles)
      requires meta.intact ==> meta.view.manifests == old(meta.view).manifests
      ensures Valid()
    {
      hide HandlesFit, Held, PutAll, Clean;
      if meta.intact {
        meta.NothingLost();
        HeldGrows(cas, old(meta.blobs), meta.blobs, old(meta.view), meta.view);
      }
    }

    method CreateInode(m: Inode) returns (ino: u64)
      requires Valid() && Inodes.InodeFits(m)
      modifies meta
      ensures Valid() && meta.Kept(old(meta.view).nextIno + 1 < U64_LIMIT)
      ensures meta.intact ==> (meta.view, ino) == StoreView.CreateInode(old(meta.view), m)
    {
      hide HandlesFit, Held, PutAll, Clean;
      ino := meta.CreateInode(m);
      StillHeld();
    }

    method DeleteInode(ino: u64) returns (r: Result<(), MetaError>)
      requires Valid()
      modifies meta
      ensures Valid() && meta.Kept(true)
      ensures meta.intact ==> match StoreView.DeleteInode(old(meta.view), ino)
                              case Ok(v) => r == Ok(()) && meta.view == v
                              case Err(e) => r == Err(e) && meta.view == old(meta.view)
    {
      hide HandlesFit, Held, PutAll, Clean;
      r := meta.DeleteInode(ino);
      StillHeld();
    }

    method UpdateInode(m: Inode) returns (r: Result<(), MetaError>)
      requires Valid() && Inodes.InodeFits(m)
      modifies meta
      ensures Valid() && meta.Kept(true)
      ensures meta.intact ==> match StoreView.UpdateInode(old(meta.view), m)
                              case Ok(v) => r == Ok(()) && meta.view == v
                              case Err(e) => r == Err(e) && meta.view == old(meta.view)
    {
      hide HandlesFit, Held, PutAll, Clean;
      r := meta.UpdateInode(m);
      StillHeld();
    }

    method LinkName(parent: u64, name: Name, ino: u64) returns (r: Result<(), MetaError>)
      requires Valid()
      modifies meta
      ensures Valid() && meta.Kept(LinkFits(old(meta.view), parent, name))
      ensures meta.intact ==> match LinkEntry(old(meta.view), parent, name, ino)
                              case Ok(v) => r == Ok(()) && meta.view == v
                              case Err(e) => r == Err(e) && meta.view == old(meta.view)
    {
      hide HandlesFit, Held, PutAll, Clean;
      r := meta.Link(parent, name, ino);
      StillHeld();
    }

    method UnlinkName(parent: u64, name: Name) returns (r: Result<(), MetaError>)
      requires Valid()
      modifies meta
      ensures Valid() && meta.Kept(true)
      ensures meta.intact ==> match UnlinkEntry(old(meta.view), parent, name)
                              case Ok(v) => r == Ok(()) && meta.view == v
                              case Err(e) => r == Err(e) && meta.view == old(meta.view)
    {
      hide HandlesFit, Held, PutAll, Clean;
      r := meta.Unlink(parent, name);
      StillHeld();
    }

    method LookupName(parent: u64, name: Name) returns (r: Result<u64, MetaError>)
      requires Valid()
      modifies meta`blobs, meta`pushed, meta`intact
      ensures Valid() && meta.Kept(true)
      ensures meta.intact ==> r == Lookup(old(meta.view), parent, name)
    {
      hide HandlesFit, Held, PutAll, Clean;
      r := meta.Lookup(parent, name);
      StillHeld();
    }

    /** An inode and its entry; an entry that cannot be made takes the inode with it. */
    method MakeFile(parent: u64, name: Name, m: Inode) returns (r: Result<u64, Errno>)
      requires Valid() && Inodes.InodeFits(m)
      modifies meta
      ensures Valid() && meta.Kept(FileFits(old(meta.view), parent, name))
      ensures meta.intact ==> (meta.view, r) == Spec.MakeFile(old(meta.view), parent, name, m)
    {
      hide HandlesFit, Held, PutAll, Clean, LinkEntry;
      var ino := CreateInode(m);
      var linked := LinkName(parent, name, ino);
      if linked.Err? {
        var dropped := DeleteInode(ino);
        return Err(ErrnoOf(linked.error));
      }
      r := Ok(ino);
    }

    /** `test_create`. */
    method Create(parent: u64, name: Name, perm: nat, uid: u32, gid: u32) returns (r: Result<(nat, nat), Errno>)
      requires Valid()
      modifies this, meta
      ensures Valid() && meta.Kept(FileFits(old(meta.view), parent, name))
      ensures meta.intact ==> (State(), r) == Spec.Create(old(State()), parent, name, perm, uid, gid)
    {
      hide HandlesFit, Held, PutAll, Clean, Spec.MakeFile;
      var made := MakeFile(parent, name, NewFile(uid, gid, perm));
      if made.Err? { return Err(made.error); }
      var fh := NewHandleOn(made.value);
      r := Ok((made.value, fh));
    }

    /** `test_mknod`. */
    method Mknod(parent: u64, name: Name, kind: nat, perm: nat, uid: u32, gid: u32) returns (r: Result<u64, Errno>)
      requires Valid()
      modifies meta
      ensures Valid() && meta.Kept(kind == S_IFREG || kind == 0 ==> FileFits(old(meta.view), parent, name))
      ensures meta.intact ==> (State(), r) == Spec.Mknod(old(State()), parent, name, kind, perm, uid, gid)
    {
      hide HandlesFit, Held, PutAll, Clean, Spec.MakeFile;
      if kind != S_IFREG && kind != 0 { return Err(ENOSYS); }
      r := MakeFile(parent, name, NewFile(uid, gid, perm));
    }

    /** `simulate_mkdir`. */
    method Mkdir(parent: u64, name: Name, perm: nat, uid: u32, gid: u32) returns (r: Result<u64, Errno>)
      requires Valid()
      modifies meta
      ensures Valid() && meta.Kept(DirectoryFits(old(meta.view), parent, name))
      ensures meta.intact ==> (State(), r) == Spec.Mkdir(old(State()), parent, name, perm, uid, gid)
    {
      hide HandlesFit, Held, PutAll, Clean, StoreView.CreateDirectory;
      var made := meta.CreateDirectory(parent, name, NewDir(uid, gid, perm));
      if meta.intact { DirectoryManifests(old(meta.view), parent, name, NewDir(uid, gid, perm)); }
      StillHeld();
      r := if made.Ok? then Ok(made.value) else Err(ErrnoOf(made.error));
    }

    /** Whether a directory has entries other than the dots. */
    method Occupied(ino: u64) returns (r: Result<bool, MetaError>)
      requires Valid()
      ensures meta.intact ==>
                r == if ino in meta.view.dirs then Ok(!EmptyDir(meta.view.dirs[ino])) else Err(NotADirectory)
    {
      hide HandlesFit, Held, PutAll, Clean;
      var listed := meta.ListDirectory(ino);
      if listed.Err? { return Err(listed.error); }
      var es := listed.value;
      var others := 0;
      for k := 0 to |es|
        invariant others >= 0 && (others == 0 <==> forall j :: 0 <= j < k ==> IsDot(es[j].name))
      {
        if !IsDot(es[k].name) { others := others + 1; }
      }
      r := Ok(others > 0);
    }

    /** `simulate_rmdir`. */
    method Rmdir(parent: u64, name: Name) returns (r: Result<(), Errno>)
      requires Valid()
      modifies meta
      ensures Valid() && meta.Kept(true)
      ensures meta.intact ==> (State(), r) == Spec.Rmdir(old(State()), parent, name)
    {
      hide HandlesFit, Held, PutAll, Clean, Lookup, RemoveDir, IsDir, EmptyDir;
      var found := LookupName(parent, name);
      if found.Err? { return Err(ErrnoOf(found.error)); }
      var ino := found.value;
      var inode := meta.GetInode(ino);
      if inode.Err? { return Err(ErrnoOf(inode.error)); }
      if !IsDir(inode.value) { return Err(ENOTDIR); }
      var occupied := Occupied(ino);
      if occupied.Err? { return Err(ErrnoOf(occupied.error)); }
      if occupied.value { return Err(ENOTEMPTY); }
      r := RemoveDirectory(parent, name, ino);
    }

    /** The entry goes, then the inode, then a link of the parent. */
    method RemoveDirectory(parent: u64, name: Name, ino: u64) returns (r: Result<(), Errno>)
      requires Valid()
      modifies meta
      ensures Valid() && meta.Kept(true)
      ensures meta.intact ==> (meta.view, r) == RemoveDir(old(meta.view), parent, name, ino)
    {
      hide HandlesFit, Held, PutAll, Clean, UnlinkEntry, IsDir, LeaveParent;
      var gone := UnlinkName(parent, name);
      if gone.Err? { return Err(ErrnoOf(gone.error)); }
      var deleted := DeleteInode(ino);
      if deleted.Err? { return Err(ErrnoOf(deleted.error)); }
      r := DropParentLink(parent);
    }

    method DropParentLink(parent: u64) returns (r: Result<(), Errno>)
      requires Valid()
      modifies meta
      ensures Valid() && meta.Kept(true)
      ensures meta.intact ==> (meta.view, r) == LeaveParent(old(meta.view), parent)
    {
      hide HandlesFit, Held, PutAll, Clean;
      var p := meta.GetInode(parent);
      if p.Err? { return Err(ErrnoOf(p.error)); }
      if p.value.nlinks > 0 {
        var updated := UpdateInode(p.value.(nlinks := p.value.nlinks - 1));
        if updated.Err? { return Err(ErrnoOf(updated.error)); }
      }
      r := Ok(());
    }

    /** Every block of the manifest loses a reference. */
    method DropBlocks(ino: u64)
      requires Valid()
      modifies meta`refcounts, meta`view
      ensures Valid() && (meta.intact ==> meta.view == DecRefs(old(meta.view), Blocks(old(meta.view), ino)))
    {
      hide HandlesFit, Held, PutAll, Clean, DecRef;
      var m := meta.GetManifest(ino);
      if m.Err? { return; }
      var ds := m.value;
      assert ds[..0] == [];
      for k := 0 to |ds|
        invariant Valid() && meta.intact == old(meta.intact) && meta.blobs == old(meta.blobs)
        invariant meta.view == DecRefs(old(meta.view), ds[..k])
      {
        DropOld(Some(ds[k]));
        assert ds[..k + 1][..k] == ds[..k];
      }
      assert ds[..|ds|] == ds;
    }

    /** A file whose entry is gone loses a link; the last link takes its blocks and its inode. */
    method LoseLink(ino: u64, inode: Inode) returns (r: Result<(), MetaError>)
      requires Valid() && Inodes.InodeFits(inode)
      requires meta.intact ==> ino in meta.view.inodes && inode == meta.view.inodes[ino] && inode.ino == ino
      modifies meta
      ensures Valid() && meta.Kept(true)
      ensures meta.intact ==> r == Ok(()) && meta.view == DropLink(old(meta.view), ino)
    {
      hide HandlesFit, Held, PutAll, Clean, DecRefs;
      var nlinks := SaturatingSub(inode.nlinks, 1);
      if nlinks == 0 {
        DropBlocks(ino);
        if meta.intact { DecRefsKeep(old(meta.view), Blocks(old(meta.view), ino)); }
        var deleted := DeleteInode(ino);
        r := Ok(());
      } else {
        r := UpdateInode(inode.(nlinks := nlinks));
      }
    }

    /** `simulate_unlink`. */
    method Unlink(parent: u64, name: Name) returns (r: Result<(), Errno>)
      requires Valid()
      modifies meta
      ensures Valid() && meta.Kept(true)
      ensures meta.intact ==> (State(), r) == Spec.Unlink(old(State()), parent, name)
    {
      hide HandlesFit, Held, PutAll, Clean, Lookup, UnlinkEntry, DropLink, IsDir;
      var found := LookupName(parent, name);
      if found.Err? { return Err(ErrnoOf(found.error)); }
      var inode := NumberedInode(found.value);
      if inode.Err? { return Err(ErrnoOf(inode.error)); }
      if IsDir(inode.value) { return Err(EISDIR); }
      if meta.intact { Accounting.LinkFrame(meta.view, parent, name, 0); }
      var gone := UnlinkName(parent, name);
      if gone.Err? { return Err(ErrnoOf(gone.error)); }
      var lost := LoseLink(found.value, inode.value);
      r := if lost.Ok? then Ok(()) else Err(ErrnoOf(lost.error));
    }

    /** An inode, which knows its own number. */
    method NumberedInode(ino: u64) returns (r: Result<Inode, MetaError>)
      requires Valid()
      ensures r.Ok? ==> Inodes.InodeFits(r.value)
      ensures meta.intact ==> r == GetInode(meta.view, ino) && (r.Ok? ==> r.value.ino == ino)
    {
      hide HandlesFit, Held, PutAll, Clean;
      r := meta.GetInode(ino);
      if meta.intact { DictStore.HeldInode(meta.h, meta.State(), meta.view, ino); }
    }

    /** `simulate_link`. */
    method HardLink(ino: u64, parent: u64, name: Name, now: Time) returns (r: Result<u64, Errno>)
      requires Valid() && TimeFits(now)
      modifies meta
      ensures Valid() && meta.Kept(HardLinkFits(old(meta.view), ino, parent, name))
      ensures meta.intact ==> (State(), r) == Spec.HardLink(old(State()), ino, parent, name, now)
    {
      hide HandlesFit, Held, PutAll, Clean, LinkEntry, IsDir, Inodes.InodeFits, StoreView.UpdateInode, Spec.HardLink,
           MoreLinks;
      ghost var s := State();
      HardLinkSteps(s, ino, parent, name, now);
      var inode := meta.GetInode(ino);
      if inode.Err? { return Err(ErrnoOf(inode.error)); }
      if IsDir(inode.value) { return Err(EPERM); }
      var linked := LinkName(parent, name, ino);
      if linked.Err? { return Err(ErrnoOf(linked.error)); }
      var updated := RaiseLinks(inode.value, now);
      r := if updated.Ok? then Ok(ino) else Err(ErrnoOf(updated.error));
    }

    method RaiseLinks(inode: Inode, now: Time) returns (r: Result<(), MetaError>)
      requires Valid() && TimeFits(now) && Inodes.InodeFits(inode)
      modifies meta
      ensures Valid() && meta.Kept(true)
      ensures meta.intact ==> match StoreView.UpdateInode(old(meta.view), MoreLinks(inode, now))
                              case Ok(v) => r == Ok(()) && meta.view == v
                              case Err(e) => r == Err(e) && meta.view == old(meta.view)
    {
      hide HandlesFit, Held, PutAll, Clean;
      r := UpdateInode(MoreLinks(inode, now));
    }

    /** The displaced target of a rename. */
    method DisplaceTarget(dst: u64, inode: Inode)
      requires Valid() && Inodes.InodeFits(inode)
      requires meta.intact ==> dst in meta.view.inodes && inode == meta.view.inodes[dst] && inode.ino == dst
      modifies meta
      ensures Valid() && meta.Kept(true)
      ensures meta.intact ==> meta.view == Displace(old(meta.view), dst)
    {
      hide HandlesFit, Held, PutAll, Clean, DropLink, IsDir;
      var nlinks := SaturatingSub(inode.nlinks, 1);
      if (nlinks == 0 && !IsDir(inode)) || nlinks > 0 {
        var lost := LoseLink(dst, inode);
      }
    }

    /** The target of a rename goes; its name can then be linked again. */
    method ClearTarget(parent: u64, name: Name, dst: u64) returns (r: Result<(), Errno>)
      requires Valid() && (meta.intact ==> Lookup(meta.view, parent, name) == Ok(dst))
      modifies meta
      ensures Valid() && meta.Kept(true)
      ensures meta.intact ==> (meta.view, r) == Cleared(old(meta.view), parent, name, dst)
      ensures meta.intact && r.Ok? ==> LinkFits(meta.view, parent, name)
    {
      hide HandlesFit, Held, PutAll, Clean, Lookup, UnlinkEntry, Displace, LinkFits, Ties;
      if meta.intact {
        Accounting.LinkFrame(meta.view, parent, name, 0);
        TargetFits(meta.h, meta.State(), meta.view, parent, name, dst);
      }
      var inode := NumberedInode(dst);
      if inode.Err? { return Err(ErrnoOf(inode.error)); }
      var gone := UnlinkName(parent, name);
      if gone.Err? { return Err(ErrnoOf(gone.error)); }
      DisplaceTarget(dst, inode.value);
      r := Ok(());
    }

    /** Link at the new place, unlink at the old, touch the inode. */
    method MoveEntry(src: u64, parent: u64, name: Name, newParent: u64, newName: Name, now: Time)
      returns (r: Result<(), Errno>)
      requires Valid() && TimeFits(now)
      modifies meta
      ensures Valid() && meta.Kept(LinkFits(old(meta.view), newParent, newName))
      ensures meta.intact ==> (State(), r) == Move(old(State()), src, parent, name, newParent, newName, now)
    {
      hide HandlesFit, Held, PutAll, Clean, LinkEntry, UnlinkEntry;
      var linked := LinkName(newParent, newName, src);
      if linked.Err? { return Err(ErrnoOf(linked.error)); }
      var gone := UnlinkName(parent, name);
      if gone.Err? { return Err(ErrnoOf(gone.error)); }
      var inode := meta.GetInode(src);
      if inode.Err? { return Err(ErrnoOf(inode.error)); }
      var updated := UpdateInode(Touched(inode.value, now));
      r := if updated.Ok? then Ok(()) else Err(ErrnoOf(updated.error));
    }

    /** `simulate_rename`, without the exchange flag. */
    method Rename(parent: u64, name: Name, newParent: u64, newName: Name, noReplace: bool, now: Time)
      returns (r: Result<(), Errno>)
      requires Valid() && TimeFits(now)
      modifies meta
      ensures Valid() && meta.Kept(RenameFits(old(meta.view), parent, name, newParent, newName))
      ensures meta.intact ==>
                (State(), r) == Spec.Rename(old(State()), parent, name, newParent, newName, noReplace, now)
    {
      hide HandlesFit, Held, PutAll, Clean, Lookup, Cleared, Move, Spec.Rename, LinkFits;
      RenameSteps(State(), parent, name, newParent, newName, noReplace, now);
      var source := LookupName(parent, name);
      if source.Err? { return Err(ENOENT); }
      var target := LookupName(newParent, newName);
      if noReplace && target.Ok? { return Err(EEXIST); }
      if target.Ok? {
        var cleared := ClearTarget(newParent, newName, target.value);
        if cleared.Err? { return Err(cleared.error); }
      }
      r := MoveEntry(source.value, parent, name, newParent, newName, now);
    }

    /** `simulate_symlink`. */
    method Symlink(parent: u64, name: Name, target: Bytes, uid: u32, gid: u32) returns (r: Result<u64, Errno>)
      requires Valid() && |target| < U64_LIMIT
      modifies this, meta
      ensures Valid() && meta.Kept(FileFits(old(meta.view), parent, name))
      ensures meta.intact ==> (State(), r) == Spec.Symlink(meta.h, old(State()), parent, name, target, uid, gid)
    {
      hide HandlesFit, Held, PutAll, Clean, Spec.MakeFile, IncRef;
      var made := MakeFile(parent, name, NewSymlink(uid, gid, |target|));
      if made.Err? { return Err(made.error); }
      var ino := made.value;
      var d := StoreTarget(ino, target);
      if meta.intact { SymlinkSize(old(meta.view), meta.view, parent, name, uid, gid, target, d); }
      var sized := WriteSize(ino, |target|);
      r := if sized.Ok? then Ok(ino) else Err(EIO);
    }

    method StoreTarget(ino: u64, target: Bytes) returns (d: Digest)
      requires Valid() && |target| < U64_LIMIT
      modifies this`cas, meta
      ensures Valid() && meta.Kept(true) && d == meta.h(target) && cas == Put(meta.h, old(cas), target)
      ensures meta.view == IncRef(SetManifest(old(meta.view), ino, [d]), d)
    {
      hide HandlesFit, Held, PutAll, Clean, IncRef;
      d := Materialize(target);
      SetBlocks(ino, [d]);
      AddRef(d);
    }

    /** Writes a size; nothing changes when it is the one already there. */
    method WriteSize(ino: u64, size: u64) returns (r: Result<(), MetaError>)
      requires Valid()
      modifies meta
      ensures Valid() && meta.Kept(true)
      ensures meta.intact && ino in old(meta.view).inodes && old(meta.view).inodes[ino].size == size ==>
                r == Ok(()) && meta.view == old(meta.view)
    {
      hide HandlesFit, Held, PutAll, Clean, StoreView.UpdateInode;
      var inode := NumberedInode(ino);
      if inode.Err? { return Err(inode.error); }
      if meta.intact { SameSize(meta.view, ino); }
      r := UpdateInode(inode.value.(size := size));
    }
  }

  lemma {:induction false} DecRefsKeepDirs(v: View, ds: seq<Digest>)
    ensures DecRefs(v, ds).dirs == v.dirs
  {
    if ds != [] { DecRefsKeepDirs(v, ds[..|ds| - 1]); }
  }

  lemma DisplaceKeepsDirs(v: View, dst: nat)
    requires dst in v.inodes
    ensures Displace(v, dst).dirs == v.dirs
  {
    hide DecRefs;
    DecRefsKeepDirs(v, Blocks(v, dst));
  }

  /** The target `dst` of a rename is unlinked and displaced. */
  ghost function Cleared(v: View, parent: nat, name: Name, dst: nat): (r: (View, Result<(), Errno>)) {
    if dst !in v.inodes then (v, Err(ENOENT))
    else
      match UnlinkEntry(v, parent, name)
      case Err(e) => (v, Err(ErrnoOf(e)))
      case Ok(v') => (Displace(v', dst), Ok(()))
  }

  lemma RenameSteps(s: Fs, parent: nat, name: Name, newParent: nat, newName: Name, noReplace: bool, now: Time)
    ensures var r := Spec.Rename(s, parent, name, newParent, newName, noReplace, now);
            var target := Lookup(s.view, newParent, newName);
            match Lookup(s.view, parent, name)
            case Err(_) => r == (s, Err(ENOENT))
            case Ok(src) =>
              if noReplace && target.Ok? then r == (s, Err(EEXIST))
              else if target.Err? then r == Move(s, src, parent, name, newParent, newName, now)
              else
                match Cleared(s.view, newParent, newName, target.value)
                case (v, Err(e)) => r == (s.(view := v), Err(e))
                case (v, Ok(_)) => r == Move(s.(view := v), src, parent, name, newParent, newName, now)
  {
    hide Lookup, UnlinkEntry, Displace, Move;
  }

  /** A name that was there fits again once its target is displaced. */
  lemma TargetFits(h: Hash, st: Store, v: View, parent: nat, name: Name, dst: nat)
    requires Ties(h, st, v) && Lookup(v, parent, name) == Ok(dst)
    ensures var r := UnlinkEntry(v, parent, name);
            r.Ok? && dst in r.value.inodes ==> LinkFits(Displace(r.value, dst), parent, name)
  {
    hide Ties, Displace, Directory.DirOf, Directory.NameFits;
    var r := UnlinkEntry(v, parent, name);
    if r.Ok? && dst in r.value.inodes {
      DictStore.HeldDir(h, st, v, parent);
      Directory.ReturnFits(h, st.blobs, st.dirData[parent], v.dirs[parent], name);
      DisplaceKeepsDirs(r.value, dst);
    }
  }

  function MoreLinks(i: Inode, now: Time): (r: Inode) {
    Touched(i, now).(nlinks := AsU32(i.nlinks + 1))
  }

  lemma HardLinkSteps(s: Fs, ino: nat, parent: nat, name: Name, now: Time)
    ensures var r := Spec.HardLink(s, ino, parent, name, now);
            if ino !in s.view.inodes then r == (s, Err(ENOENT))
            else if IsDir(s.view.inodes[ino]) then r == (s, Err(EPERM))
            else
              match LinkEntry(s.view, parent, name, ino)
              case Err(e) => r == (s, Err(ErrnoOf(e)))
              case Ok(v) =>
                match StoreView.UpdateInode(v, MoreLinks(s.view.inodes[ino], now))
                case Ok(v') => r == (s.(view := v'), Ok(ino))
                case Err(e) => r == (s.(view := v), Err(ErrnoOf(e)))
  {
    hide LinkEntry, IsDir;
    Accounting.LinkFrame(s.view, parent, name, ino);
  }

  /** Writing an inode that is already there changes nothing. */
  lemma SameSize(v: View, ino: nat)
    requires ino in v.inodes && v.inodes[ino].ino == ino
    ensures StoreView.UpdateInode(v, v.inodes[ino]) == Ok(v)
  {
    assert v.inodes[ino := v.inodes[ino]] == v.inodes;
  }

  /** The new symlink's inode already has the size that the last step writes. */
  lemma SymlinkSize(v: View, v': View, parent: nat, name: Name, uid: nat, gid: nat, target: Bytes, d: Digest)
    requires var (v1, made) := Spec.MakeFile(v, parent, name, NewSymlink(uid, gid, |target|));
             made.Ok? && v' == IncRef(SetManifest(v1, made.value, [d]), d)
    ensures var made := Spec.MakeFile(v, parent, name, NewSymlink(uid, gid, |target|)).1;
            made.value in v'.inodes && v'.inodes[made.value].size == |target|
  {
    hide LinkEntry;
    Accounting.LinkFrame(StoreView.CreateInode(v, NewSymlink(uid, gid, |target|)).0, parent, name, v.nextIno);
  }

  lemma DirectoryManifests(v: View, parent: nat, name: Name, m: Inode)
    ensures StoreView.CreateDirectory(v, parent, name, m).0.manifests == v.manifests
  {
    hide IsDir;
  }

  lemma {:induction false} DecRefsKeep(v: View, ds: seq<Digest>)
    ensures DecRefs(v, ds).inodes == v.inodes && DecRefs(v, ds).manifests == v.manifests
  {
    hide DecRef;
    if ds != [] {
      DecRefsKeep(v, ds[..|ds| - 1]);
      DecKeeps(DecRefs(v, ds[..|ds| - 1]), ds[|ds| - 1]);
    }
  }

  lemma DecKeeps(v: View, d: Digest)
    ensures DecRef(v, d).inodes == v.inodes && DecRef(v, d).manifests == v.manifests
  {
  }

  /** A write at `off` makes the handle push its bytes and fall back to a buffer. */
  ghost predicate FallsBack(files: map<nat, Handle>, fh: nat, off: nat) {
    fh in files && files[fh].mode.Streaming? && files[fh].byteCount > 0 && off != files[fh].mode.next
  }

  /** The handle after a truncation to `n` bytes. */
  ghost function Truncated(f: Handle, n: nat): (g: Handle) {
    var giveUp := n == 0 || f.mode.Streaming?;
    var mode :=
      if f.mode.Buffered? then Buffered(Resize(f.mode.buf, n))
      else Streaming(Resize(if f.byteCount == 0 then [] else f.mode.acc, n), n);
    f.(mode := mode, byteCount := n, committed := false, lastRoot := if giveUp then None else f.lastRoot)
  }

  lemma PutTwice(files: map<nat, Handle>, fh: nat, f: Handle, g: Handle)
    ensures files[fh := f][fh := g] == files[fh := g]
  {
  }

  /** Taking a handle out and putting one back replaces it. */
  lemma PutBack(files: map<nat, Handle>, fh: nat, f: Handle)
    ensures (files - {fh})[fh := f] == files[fh := f]
  {
  }
}
