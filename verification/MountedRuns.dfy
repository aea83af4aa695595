/** The filesystem object in the life of a store: its calls and commits are the events of that life. */
module MountedRuns {
  import opened ByteCodec
  import opened Cas
  import opened Segment
  import opened Tables
  import opened StoreView
  import opened StoreTies
  import opened FsPresence
  import opened Gc
  import opened GcRuns
  import opened Lifetimes
  import opened Replay
  import opened SliceFs
  import opened SliceRuns
  import Accounting
  import C = Crash
  import DictStore
  import F = Fs
  import FsRoots
  import FsRuns
  import Ordered
  import Persist
  import Seqs
  import Xattrs

  // ------------------------------------------------------------------- a new store

  /** The world of a store just made: tables, view, nothing logged. */
  ghost function NewWorld(strategy: C.Strategy, st: Store, v: View): (w: World) {
    World(C.State(strategy, Some(MetaOf(st)), map[], map[], C.Idle, [], 0, st.blobs, [], [], [], map[], None),
          [], Some(Live(st, F.Fs(v, map[], map[], 0))), map[])
  }

  lemma FreshSizes(h: Hash, st: Store, uid: u32, gid: u32)
    requires Ties(h, st, DictStore.FreshView(uid, gid))
    ensures SizesFit(st)
  {
    hide HoldsInode, HoldsManifest, HoldsXattrs;
    var v := DictStore.FreshView(uid, gid);
    assert st.inodeData.Keys == {1} && st.dirData.Keys == {1} && st.manifestData.Keys == {} && st.xattrData.Keys == {};
    assert |st.inodeData| == |st.inodeData.Keys| && |st.dirData| == |st.dirData.Keys|;
    assert |st.manifestData| == |st.manifestData.Keys| && |st.xattrData| == |st.xattrData.Keys|;
  }

  /** A new store begins a life. */
  lemma FreshBegins(h: Hash, st: Store, uid: u32, gid: u32, strategy: C.Strategy)
    requires Ties(h, st, DictStore.FreshView(uid, gid))
    ensures Begins(h, NewWorld(strategy, st, DictStore.FreshView(uid, gid)))
  {
    hide Ties, SizesFit;
    FreshSizes(h, st, uid, gid);
  }

  /** So the calls on it start from a fresh filesystem. */
  lemma NewIsFresh(uid: u32, gid: u32, cas: Blobs)
    ensures FsRuns.Fresh(F.Fs(DictStore.FreshView(uid, gid), cas, map[], 0))
  {
    assert IsDir(DictStore.RootInode(uid, gid));
  }

  // ------------------------------------------------------------------ calls as events

  /** The object is the mounted store of the world; blobs may have been added since its last call. */
  ghost predicate Mirrors(w: World, fs: SliceFsFilesystem)
    reads fs, fs.meta
  {
    && fs.Valid() && fs.meta.intact && w.live.Some? && w.c.blobs == fs.meta.blobs
    && w.live.value == Live(fs.meta.State().(blobs := w.live.value.st.blobs), fs.State())
  }

  /** A call on the object that leaves it intact is an event of the life, and the object mirrors what
      the event leads to. */
  method Call(fs: SliceFsFilesystem, op: FsRuns.Op, ghost w: World) returns (ghost e: Event)
    requires Mirrors(w, fs) && Inv(fs.meta.h, w) && w.c.pc.Idle? && C.Ready(w.c) && Typed(op)
    modifies fs, fs.meta
    ensures fs.Valid() && e.Do? && e.call.FsCall? && e.st == fs.meta.State()
    ensures SameCall(old(fs.State()), op, e.call.op)
    ensures fs.meta.Kept(StepFits(old(fs.meta.view), e.call.op))
    ensures fs.meta.intact && SizesFit(fs.meta.State()) && FsRoots.RootGuard(old(fs.meta.view), e.call.op) ==>
              && Enabled(fs.meta.h, w, e) && Inv(fs.meta.h, Apply(fs.meta.h, w, e))
              && Mirrors(Apply(fs.meta.h, w, e), fs)
  {
    hide StepFits, SameCall, HandlesFit, PutAll, Clean, Ties, SizesFit, Inv, FsRuns.Step, C.Ready, Grows,
         FsRoots.RootGuard;
    ghost var done := Perform(fs, op);
    e := Do(FsCall(done), fs.meta.State());
    if fs.meta.intact && SizesFit(fs.meta.State()) && FsRoots.RootGuard(old(fs.meta.view), done) {
      fs.meta.NothingLost();
      InvStep(fs.meta.h, w, e);
    }
  }

  /** Setting an attribute is an event as well. */
  method SetAttribute(fs: SliceFsFilesystem, ino: u64, name: Name, value: Bytes, ghost w: World)
    returns (ghost e: Event)
    requires Mirrors(w, fs) && Inv(fs.meta.h, w) && w.c.pc.Idle? && C.Ready(w.c)
    modifies fs.meta
    ensures fs.Valid() && e == Do(SetAttr(ino, name, value), fs.meta.State())
    ensures fs.meta.Kept(Xattrs.AttrsFit(Xattrs.SetAttr(AttrsOf(old(fs.meta.view), ino), name, value)))
    ensures fs.meta.intact && SizesFit(fs.meta.State()) ==>
              && Enabled(fs.meta.h, w, e) && Inv(fs.meta.h, Apply(fs.meta.h, w, e))
              && Mirrors(Apply(fs.meta.h, w, e), fs)
  {
    hide HandlesFit, Held, PutAll, Clean, Ties, SizesFit, Inv, C.Ready, Grows, Xattrs.AttrsFit;
    ghost var was := fs.State();
    var r := fs.meta.SetXattr(ino, name, value);
    e := Do(SetAttr(ino, name, value), fs.meta.State());
    fs.StillHeld();
    if fs.meta.intact && SizesFit(fs.meta.State()) {
      fs.meta.NothingLost();
      assert Grows(fs.cas, fs.meta.blobs) by { ContentStays(fs.cas, fs.meta.blobs, fs.meta.view); }
      InvStep(fs.meta.h, w, e);
    }
  }

  lemma ContentStays(cas: Blobs, blobs: Blobs, v: View)
    requires Held(cas, blobs, v)
    ensures Grows(cas, blobs)
  {
  }

  method RemoveAttribute(fs: SliceFsFilesystem, ino: u64, name: Name, ghost w: World) returns (ghost e: Event)
    requires Mirrors(w, fs) && Inv(fs.meta.h, w) && w.c.pc.Idle? && C.Ready(w.c)
    modifies fs.meta
    ensures fs.Valid() && e == Do(RemoveAttr(ino, name), fs.meta.State()) && fs.meta.Kept(true)
    ensures fs.meta.intact && SizesFit(fs.meta.State()) ==>
              && Enabled(fs.meta.h, w, e) && Inv(fs.meta.h, Apply(fs.meta.h, w, e))
              && Mirrors(Apply(fs.meta.h, w, e), fs)
  {
    hide HandlesFit, Held, PutAll, Clean, Ties, SizesFit, Inv, C.Ready, Grows;
    var r := fs.meta.RemoveXattr(ino, name);
    e := Do(RemoveAttr(ino, name), fs.meta.State());
    fs.StillHeld();
    if fs.meta.intact && SizesFit(fs.meta.State()) {
      fs.meta.NothingLost();
      assert Grows(fs.cas, fs.meta.blobs) by { ContentStays(fs.cas, fs.meta.blobs, fs.meta.view); }
      InvStep(fs.meta.h, w, e);
    }
  }

  // ---------------------------------------------------------------- commits as events

  function Repeated(e: Event, n: nat): (es: seq<Event>) {
    if n == 0 then [] else [e] + Repeated(e, n - 1)
  }

  /** A commit: its start, seven pushes, and the root's record to the log. */
  function CommitEvents(snapshot: Option<C.SnapshotRequest>): (es: seq<Event>) {
    [Act(C.Begin(snapshot))] + (Repeated(Act(C.Push), 7) + [Act(C.LogRoot)])
  }

  /** The world of `w` while a commit of `m` has pushed its first `k` strings. */
  ghost function Pushing(h: Hash, w: World, m: Persist.Meta, snapshot: Option<C.SnapshotRequest>, k: nat): (r: World)
    requires Persist.MetaFits(m) && k <= 7
  {
    w.(c := w.c.(pc := C.Pushing(m, k, snapshot), blobs := PutAll(h, w.c.blobs, Persist.Pushes(h, m)[..k])))
  }

  /** The world once the root is logged. */
  ghost function Committed(h: Hash, w: World, m: Persist.Meta, snapshot: Option<C.SnapshotRequest>): (r: World)
    requires Persist.MetaFits(m) && w.live.Some?
  {
    var root := Persist.RootOf(h, m);
    var blobs := PutAll(h, w.c.blobs, Persist.Pushes(h, m));
    w.(c := w.c.(pc := C.Rooted(root, snapshot), blobs := blobs, queue := w.c.queue + [RootUpdate(root)],
                 commits := w.c.commits[root := C.Commit(m, blobs)]),
       shown := w.shown[root := Shown(w.live.value.st, w.live.value.fs.view)])
  }

  lemma PushStep(h: Hash, w: World, m: Persist.Meta, snapshot: Option<C.SnapshotRequest>, k: nat)
    requires Persist.MetaFits(m) && k < 7 && Clean(h, w.c.blobs, Persist.Pushes(h, m))
    ensures var s := Pushing(h, w, m, snapshot, k);
            Enabled(h, s, Act(C.Push)) && Apply(h, s, Act(C.Push)) == Pushing(h, w, m, snapshot, k + 1)
  {
    hide Persist.Pushes, Persist.MetaFits, PutAll, Clean;
    var ss := Persist.Pushes(h, m);
    assert ss == ss[..k + 1] + ss[k + 1..] && ss[..k + 1] == ss[..k] + [ss[k]];
    SomeMore(h, w.c.blobs, ss[..k + 1], ss[k + 1..]);
    OneMore(h, w.c.blobs, ss[..k], ss[k]);
  }

  lemma LogStep(h: Hash, w: World, m: Persist.Meta, snapshot: Option<C.SnapshotRequest>)
    requires Persist.MetaFits(m) && w.live.Some?
    ensures var s := Pushing(h, w, m, snapshot, 7);
            Enabled(h, s, Act(C.LogRoot)) && Apply(h, s, Act(C.LogRoot)) == Committed(h, w, m, snapshot)
  {
    hide Persist.Pushes, Persist.MetaFits, PutAll, Persist.RootOf;
    Seqs.Units(Persist.Pushes(h, m));
  }

  lemma {:induction false} PushesRun(h: Hash, w: World, m: Persist.Meta, snapshot: Option<C.SnapshotRequest>, k: nat)
    requires Persist.MetaFits(m) && k <= 7 && w.live.Some? && Clean(h, w.c.blobs, Persist.Pushes(h, m))
    ensures var es := Repeated(Act(C.Push), 7 - k) + [Act(C.LogRoot)];
            Runs(h, Pushing(h, w, m, snapshot, k), es)
            && After(h, Pushing(h, w, m, snapshot, k), es) == Committed(h, w, m, snapshot)
    decreases 7 - k
  {
    hide Enabled, Apply, Pushing, Committed, Persist.MetaFits, Clean, Persist.Pushes;
    var s := Pushing(h, w, m, snapshot, k);
    var es := Repeated(Act(C.Push), 7 - k) + [Act(C.LogRoot)];
    if k == 7 {
      LogStep(h, w, m, snapshot);
      assert es == [Act(C.LogRoot)] && es[1..] == [];
      assert Runs(h, Apply(h, s, es[0]), es[1..]);
    } else {
      PushStep(h, w, m, snapshot, k);
      PushesRun(h, w, m, snapshot, k + 1);
      assert es[0] == Act(C.Push) && es[1..] == Repeated(Act(C.Push), 7 - (k + 1)) + [Act(C.LogRoot)];
    }
  }

  /** A commit whose strings do not clash runs to the record of its root. */
  lemma CommitRuns(h: Hash, w: World, snapshot: Option<C.SnapshotRequest>)
    requires Inv(h, w) && w.live.Some? && w.c.pc.Idle? && C.Ready(w.c)
    ensures Persist.MetaFits(MetaOf(w.live.value.st))
    ensures var m := MetaOf(w.live.value.st);
            Clean(h, w.c.blobs, Persist.Pushes(h, m)) ==>
              Runs(h, w, CommitEvents(snapshot)) && After(h, w, CommitEvents(snapshot)) == Committed(h, w, m, snapshot)
  {
    hide C.Inv, DiskInv, ShownInv, Ties, SizesFit, Persist.MetaFits, Clean, Persist.Pushes, Runs, After, Committed,
         C.Ready;
    var m := MetaOf(w.live.value.st);
    SizesMakeMetaFit(w.live.value.st);
    if Clean(h, w.c.blobs, Persist.Pushes(h, m)) {
      PushesRun(h, w, m, snapshot, 0);
      CommitBegins(h, w, m, snapshot);
      var rest := Repeated(Act(C.Push), 7) + [Act(C.LogRoot)];
      RunsCons(h, w, Act(C.Begin(snapshot)), rest);
    }
  }

  lemma CommitBegins(h: Hash, w: World, m: Persist.Meta, snapshot: Option<C.SnapshotRequest>)
    requires Persist.MetaFits(m) && w.c.mem == Some(m) && w.c.pc.Idle? && C.Ready(w.c)
    ensures Enabled(h, w, Act(C.Begin(snapshot)))
    ensures Apply(h, w, Act(C.Begin(snapshot))) == Pushing(h, w, m, snapshot, 0)
  {
    hide Persist.MetaFits, C.Ready, Persist.Pushes, C.Mounted, C.NextVersion, Persist.RootOf, Mounted, Leaves, Allowed,
         RunDir;
    assert Persist.Pushes(h, m)[..0] == [];
  }

  lemma RunsCons(h: Hash, w: World, e: Event, rest: seq<Event>)
    requires Enabled(h, w, e) && Runs(h, Apply(h, w, e), rest)
    ensures Runs(h, w, [e] + rest) && After(h, w, [e] + rest) == After(h, Apply(h, w, e), rest)
  {
    hide Enabled, Apply;
    assert ([e] + rest)[0] == e && ([e] + rest)[1..] == rest;
  }

  /** The object's commit is the commit of the life: the same pushes, the same root, and the object
      mirrors the world afterwards. */
  method Commit(fs: SliceFsFilesystem, snapshot: Option<C.SnapshotRequest>, ghost w: World) returns (root: Digest)
    requires Mirrors(w, fs) && Inv(fs.meta.h, w) && w.c.pc.Idle? && C.Ready(w.c) && SizesFit(fs.meta.State())
    modifies fs.meta`blobs, fs.meta`pushed, fs.meta`intact
    ensures fs.Valid() && fs.meta.Kept(true)
    ensures fs.meta.intact ==>
              && Runs(fs.meta.h, w, CommitEvents(snapshot)) && Mirrors(After(fs.meta.h, w, CommitEvents(snapshot)), fs)
              && After(fs.meta.h, w, CommitEvents(snapshot)).c.pc == C.Rooted(root, snapshot)
  {
    hide HandlesFit, PutAll, Clean, Ties, SizesFit, Inv, C.Ready, Runs, After, Persist.Pushes, Persist.MetaFits,
         Persist.RootOf, Persist.Stored, CommitEvents;
    CommitRuns(fs.meta.h, w, snapshot);
    root := fs.meta.Commit();
    fs.StillHeld();
    SomeMore(fs.meta.h, fs.meta.start, old(fs.meta.pushed), Persist.Pushes(fs.meta.h, MetaOf(fs.meta.State())));
  }

  // -------------------------------------------------------------------- mounting

  /** What is loaded has the tables the machine says it has. */
  lemma LoadedTables(h: Hash, blobs: Blobs, sh: Shown, st: Store)
    requires Ties(h, sh.st, sh.view) && MetaOf(st) == MetaOf(sh.st) && st.blobs == blobs
    requires Ties(h, st, Accounting.Reloaded(sh.view))
    ensures st == LoadedStore(blobs, sh)
  {
    hide InodesTie, DirsTie, ManifestsTie, XattrsTie, Numbered, Accounting.Total;
    DictStore.SameSize(sh.st, sh.view);
  }

  lemma LoadedContent(blobs: Blobs, v: View)
    requires Present(v, blobs) && forall d :: d in blobs ==> |blobs[d]| < U64_LIMIT
    ensures ContentThere(blobs, v)
  {
    forall d | NamedBy(v, d) ensures d in blobs {
      var i, k :| i in v.manifests && 0 <= k < |v.manifests[i]| && v.manifests[i][k] == d;
      assert AllPushed(v.manifests[i], blobs);
    }
  }

  lemma ReadsInOrder(h: Hash, w: World, listing: seq<int>)
    requires Inv(h, w) && Listing(listing, RunDir(w.ops)) && SortedByName(listing)
    ensures listing == Ordered.Ascending(RunDir(w.ops).Keys)
  {
    hide C.Inv, ShownInv, LiveInv, RunDir, SortedByName, Listing, Ordered.Ascending;
    NameOrderIsIdOrder(w.ops, listing);
  }

  /** `load_store` and the filesystem on top of it: the directory is replayed in name order, the last
      root loaded. The object mirrors the world the life says a mount leads to. */
  method MountStore(h: Hash, blobs: Blobs, dir: Dir, listing: seq<int>, ghost w: World)
    returns (r: Option<SliceFsFilesystem>)
    requires Inv(h, w) && Unmounted(w) && blobs == w.c.blobs && dir == RunDir(w.ops)
    requires Listing(listing, dir) && SortedByName(listing) && forall d :: d in blobs ==> |blobs[d]| < U64_LIMIT
    ensures r.Some? <==> Found(w).root.Some?
    ensures r.Some? ==> fresh(r.value) && fresh(r.value.meta) && r.value.meta.h == h && Mirrors(Mounted(w), r.value)
  {
    hide Inv, RunDir, Ties, Recorded, Persist.Load, Present, HandlesFit, Held, PutAll, Clean, LastRoot, Snapshots,
         ByVersion, ByName, LoadedStore, ContentThere, Ordered.Ascending, SortedByName, ContentOf,
         C.ClosedEntries, C.OnDisk;
    assert listing == Ordered.Ascending(dir.Keys) by { ReadsInOrder(h, w, listing); }
    AscendingIn(dir, dir.Keys);
    SeenIsLogical(h, w);
    MountFromDirectory(h, w);
    assert Found(w) == SeenIn(C.ClosedEntries(w.c.closed)) by { FoundIsClosed(h, w); }
    var replayed := LoadStoreFromSegments(dir, listing);
    if replayed.Err? || replayed.value.0.None? { return None; }
    var root := replayed.value.0.value;
    ghost var sh := w.shown[root];
    assert Recorded(h, blobs, root, sh.st, sh.view) && Present(sh.view, blobs);
    var loaded := DictStore.LoadFromRoot(h, blobs, root, sh.st, sh.view);
    LoadedContent(blobs, sh.view);
    SameContent(blobs, sh.view);
    LoadedIsLive(h, blobs, root, sh);
    var fs := new SliceFsFilesystem(loaded.value);
    TiesOfRecorded(h, blobs, root, sh.st, sh.view);
    LoadedTables(h, blobs, sh, fs.meta.State());
    r := Some(fs);
  }

  /** Loading the root of any snapshot, or the last root, shows what it was committed from. */
  method LoadKept(h: Hash, blobs: Blobs, root: Digest, ghost w: World)
    returns (r: Result<DictStore.DictMetadataStore, MetaError>)
    requires Kept(h, w, root) && blobs == w.c.blobs
    ensures r.Ok? && fresh(r.value) && r.value.Valid() && r.value.intact && r.value.h == h
    ensures r.value.view == Accounting.Reloaded(w.shown[root].view)
  {
    hide Ties, Recorded, Persist.Load, Present, PutAll, Clean, Accounting.Reloaded;
    ghost var sh := w.shown[root];
    assert Recorded(h, blobs, root, sh.st, sh.view);
    r := DictStore.LoadFromRoot(h, blobs, root, sh.st, sh.view);
  }

  lemma TiesOfRecorded(h: Hash, blobs: Blobs, root: Digest, st: Store, v: View)
    requires Recorded(h, blobs, root, st, v)
    ensures Ties(h, st, v)
  {
    hide Ties, Grows, Persist.Stored, Persist.RootOf;
  }

  lemma SameContent(blobs: Blobs, v: View)
    ensures ContentOf(blobs, Accounting.Reloaded(v)) == ContentOf(blobs, v)
    ensures ContentThere(blobs, v) ==> ContentThere(blobs, Accounting.Reloaded(v))
  {
    hide Accounting.Total;
    forall d ensures NamedBy(Accounting.Reloaded(v), d) <==> NamedBy(v, d) {}
  }

  lemma FoundIsClosed(h: Hash, w: World)
    requires Inv(h, w) && Unmounted(w)
    ensures Found(w) == SeenIn(C.ClosedEntries(w.c.closed))
  {
    hide C.Inv, ShownInv, LiveInv, RunDir, ReplayDir, SeenIn, C.ClosedEntries;
    DirectoryMeans(w);
  }
}
