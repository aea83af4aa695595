/** Snapshots of the mounted store: the filesystem object and its snapshot index in the life of a
    store, from `create_snapshot` to the mounts that find the snapshot again. */
module SnapshotRuns {
  import opened ByteCodec
  import opened Cas
  import opened Segment
  import opened StoreTies
  import opened Gc
  import opened GcRuns
  import opened Replay
  import opened SliceFs
  import opened Lifetimes
  import opened MountedRuns
  import opened SnapshotIndex
  import Accounting
  import C = Crash
  import Ordered
  import Persist
  import Seqs

  /** The index is that of the mounted store of the world. */
  ghost predicate Indexed(w: World, catalog: Catalog)
    reads catalog
  {
    catalog.Valid() && catalog.byVersion == w.c.byVersion && catalog.byName == w.c.byName
  }

  /** The index of a new store. */
  method NewIndex(h: Hash, ghost w: World) returns (catalog: Catalog)
    requires Begins(h, w)
    ensures fresh(catalog) && Indexed(w, catalog)
  {
    catalog := new Catalog(None, [], []);
  }

  /** The index that a mount of the directory sets up. */
  method MountIndex(h: Hash, dir: Dir, listing: seq<int>, ghost w: World) returns (r: Option<Catalog>)
    requires Inv(h, w) && Unmounted(w) && dir == RunDir(w.ops) && Listing(listing, dir) && SortedByName(listing)
    ensures r.Some? <==> Found(w).root.Some?
    ensures r.Some? ==> fresh(r.value) && Indexed(Mounted(w), r.value) && r.value.lastRoot == Mounted(w).c.completed
  {
    hide Inv, RunDir, LastRoot, Snapshots, ByVersion, ByName, Ordered.Ascending, SortedByName, Mounted;
    assert listing == Ordered.Ascending(dir.Keys) by { ReadsInOrder(h, w, listing); }
    AscendingIn(dir, dir.Keys);
    SeenIsLogical(h, w);
    var replayed := LoadStoreFromSegments(dir, listing);
    if replayed.Err? || replayed.value.0.None? { return None; }
    var catalog := new Catalog(replayed.value.0, replayed.value.1, ReplayLog(dir, listing).value);
    MountedIndex(h, w);
    r := Some(catalog);
  }

  /** A mount takes its index from what it finds in the directory. */
  lemma MountedIndex(h: Hash, w: World)
    requires Inv(h, w) && Unmounted(w) && Found(w).root.Some?
    ensures var c := Mounted(w).c;
            c.byVersion == Found(w).byVersion && c.byName == Found(w).byName && c.completed == Found(w).root
  {
    hide C.Inv, DiskInv, ShownInv, LiveInv, RunDir, ReplayDir, Persist.Load, LoadedLive, SeenIn;
    MountFromDirectory(h, w);
    FoundIsClosed(h, w);
  }

  // ------------------------------------------------------------------ writing records

  /** Under PerOp every record is written before the call that logged it returns. */
  function Flush(strategy: C.Strategy, e: Entry): (es: seq<Event>) {
    if strategy.PerOp? then [Act(C.Write(|Frame(e)|))] else []
  }

  /** Everything but the log file is as it was, and nothing logged is lost. */
  ghost predicate Wrote(w: World, w': World) {
    && w' == w.(c := w.c.(queue := w'.c.queue, written := w'.c.written, body := w'.c.body, done := w'.c.done))
    && C.Logged(w'.c) == C.Logged(w.c) && C.Ready(w'.c)
  }

  lemma FlushRuns(h: Hash, w: World, e: Entry)
    requires w.c.strategy.PerOp? ==> w.c.queue == [e] && w.c.written == 0
    ensures Runs(h, w, Flush(w.c.strategy, e)) && Wrote(w, After(h, w, Flush(w.c.strategy, e)))
  {
    hide Frame;
    if w.c.strategy.PerOp? {
      assert |Frame(e)| >= 5 by { FrameLength(e); }
      assert Frame(e)[0..] == Frame(e);
      var w1 := Apply(h, w, Act(C.Write(|Frame(e)|)));
      assert Runs(h, w1, []);
      RunsCons(h, w, Act(C.Write(|Frame(e)|)), []);
      Seqs.Associative(C.ClosedEntries(w.c.closed), w.c.done, [e]);
      Seqs.Units(C.ClosedEntries(w.c.closed) + (w.c.done + [e]));
      assert [Act(C.Write(|Frame(e)|))] + [] == Flush(w.c.strategy, e);
    }
  }

  lemma FrameLength(e: Entry)
    ensures |Frame(e)| >= 5
  {
    assert |ItemFrame(Record(e))| >= 5;
  }

  lemma {:induction false} RunsAppend(h: Hash, w: World, a: seq<Event>, b: seq<Event>)
    requires Runs(h, w, a) && Runs(h, After(h, w, a), b)
    ensures Runs(h, w, a + b) && After(h, w, a + b) == After(h, After(h, w, a), b)
    decreases |a|
  {
    hide Enabled, Apply;
    if a == [] {
      Seqs.Units(b);
    } else {
      RunsAppend(h, Apply(h, w, a[0]), a[1..], b);
      assert (a + b)[0] == a[0] && (a + b)[1..] == a[1..] + b;
    }
  }

  // ---------------------------------------------------------------- creating a snapshot

  /** The events of `create_snapshot`: a commit, and the record of the snapshot. */
  function SnapshotEvents(strategy: C.Strategy, req: C.SnapshotRequest, root: Digest, e: Entry): (es: seq<Event>) {
    CommitEvents(Some(req)) + Flush(strategy, RootUpdate(root)) + [Act(C.LogSnapshot)] + Flush(strategy, e)
  }

  /** The snapshot is recorded: in the index, and for a PerOp store in the file. */
  ghost predicate Snapped(w: World, w': World, e: Entry) {
    && e.SnapshotRecord? && w'.c.pc.Idle? && C.Ready(w'.c) && w'.c.completed == Some(e.root)
    && w'.live == w.live && w'.c.blobs == w.c.blobs && w'.shown == w.shown && w'.c.strategy == w.c.strategy
    && w'.c.byVersion == w.c.byVersion[e.version := e]
    && w'.c.byName == (if e.name.Some? then w.c.byName[e.name.value := e.version] else w.c.byName)
    && C.Logged(w'.c) == C.Logged(w.c) + [e]
  }

  /** Logging the snapshot of a commit that has logged its root. */
  lemma RecordRuns(h: Hash, w: World, e: Entry)
    requires w.c.pc.Rooted? && w.c.pc.snapshot.Some? && C.Ready(w.c) && (w.c.queue == [] ==> w.c.written == 0)
    requires C.NextVersion(w.c.byVersion) < U64_LIMIT && e == C.SnapshotEntry(w.c) && Storable(e)
    ensures var es := [Act(C.LogSnapshot)] + Flush(w.c.strategy, e);
            Runs(h, w, es) && Snapped(w, After(h, w, es), e)
  {
    hide Frame, C.NextVersion, C.Mounted, Mounted, Leaves, Allowed, RunDir, Flush, Storable, C.ClosedEntries;
    var logged := Act(C.LogSnapshot);
    assert Enabled(h, w, logged);
    var w1 := Apply(h, w, logged);
    assert C.Logged(w1.c) == C.Logged(w.c) + [e] by { Seqs.Associative(C.Durable(w.c), w.c.queue, [e]); }
    FlushRuns(h, w1, e);
    RunsCons(h, w, logged, Flush(w.c.strategy, e));
  }

  ghost predicate Leads(h: Hash, w: World, es: seq<Event>, w': World) {
    Runs(h, w, es) && After(h, w, es) == w'
  }

  /** What the next snapshot of the mounted store records. */
  ghost predicate NextSnapshot(h: Hash, w: World, req: C.SnapshotRequest, e: Entry) {
    && w.live.Some? && Persist.MetaFits(MetaOf(w.live.value.st)) && C.NextVersion(w.c.byVersion) < U64_LIMIT
    && C.NextVersion(w.c.byVersion) >= 0
    && e == SnapshotRecord(C.NextVersion(w.c.byVersion), Persist.RootOf(h, MetaOf(w.live.value.st)), req.createdAt,
        req.name)
  }

  /** A snapshot whose strings do not clash and whose name can be stored runs to the end of its record. */
  lemma SnapshotRun(h: Hash, w: World, req: C.SnapshotRequest, e: Entry) returns (mid: World, last: World)
    requires Inv(h, w) && w.c.pc.Idle? && C.Ready(w.c) && NextSnapshot(h, w, req, e) && Storable(e)
    requires Clean(h, w.c.blobs, Persist.Pushes(h, MetaOf(w.live.value.st)))
    ensures mid == Committed(h, w, MetaOf(w.live.value.st), Some(req)) && Snapped(mid, last, e)
    ensures Leads(h, w, SnapshotEvents(w.c.strategy, req, e.root, e), last)
  {
    hide Inv, Runs, After, CommitEvents, Clean, Persist.Pushes, Persist.MetaFits, Persist.RootOf, Storable, Frame,
         C.NextVersion, Flush, Enabled, Apply, PutAll;
    var st, root := w.c.strategy, e.root;
    CommitRuns(h, w, Some(req));
    assert w.c.queue == [] ==> w.c.written == 0 by { QueueStarts(h, w); }
    mid := After(h, w, CommitEvents(Some(req)));
    FlushRuns(h, mid, RootUpdate(root));
    var w2 := After(h, mid, Flush(st, RootUpdate(root)));
    RunsAppend(h, w, CommitEvents(Some(req)), Flush(st, RootUpdate(root)));
    var first := CommitEvents(Some(req)) + Flush(st, RootUpdate(root));
    InvAfter(h, w, first);
    assert w2.c.queue == [] ==> w2.c.written == 0 by { QueueStarts(h, w2); }
    RecordRuns(h, w2, e);
    last := After(h, w2, [Act(C.LogSnapshot)] + Flush(st, e));
    RunsAppend(h, w, first, [Act(C.LogSnapshot)] + Flush(st, e));
    assert SnapshotEvents(st, req, root, e) == first + ([Act(C.LogSnapshot)] + Flush(st, e));
  }

  lemma QueueStarts(h: Hash, w: World)
    requires Inv(h, w)
    ensures w.c.queue == [] ==> w.c.written == 0
  {
    hide DiskInv, ShownInv, LiveInv, C.CommitsInv, C.ProgramInv, C.IndexInv, C.RecencyInv, VersionsAscend;
  }

  /** `create_snapshot` on the mounted objects is the snapshot of the life: the same pushes, the same
      records, and object and index mirror the world afterwards. The snapshot's root shows the
      filesystem of that moment. */
  method CreateSnapshot(fs: SliceFsFilesystem, catalog: Catalog, req: C.SnapshotRequest, ghost w: World)
    returns (e: Entry, ghost last: World)
    requires Mirrors(w, fs) && Indexed(w, catalog) && Inv(fs.meta.h, w) && w.c.pc.Idle? && C.Ready(w.c)
    requires SizesFit(fs.meta.State()) && C.NextVersion(catalog.byVersion) < U64_LIMIT
    modifies fs.meta`blobs, fs.meta`pushed, fs.meta`intact, catalog
    ensures fs.Valid() && catalog.Valid() && fs.meta.Kept(true)
    ensures e.SnapshotRecord? && e.name == req.name && e.createdAt == req.createdAt
    ensures e.version == C.NextVersion(old(catalog.byVersion)) && e.version !in old(catalog.byVersion)
    ensures fs.meta.intact && Storable(e) ==>
              && Leads(fs.meta.h, w, SnapshotEvents(w.c.strategy, req, e.root, e), last) && Inv(fs.meta.h, last)
              && Mirrors(last, fs) && Indexed(last, catalog) && last.c.pc.Idle? && C.Ready(last.c)
              && last.c.completed == Some(e.root) && e.version in last.c.byVersion && last.c.byVersion[e.version] == e
              && e.root in last.shown && last.shown[e.root].view == fs.meta.view
  {
    hide HandlesFit, PutAll, Clean, Ties, SizesFit, Inv, C.Ready, Runs, After, Persist.Pushes, Persist.MetaFits,
         Persist.RootOf, Persist.Stored, CommitEvents, C.NextVersion, Storable, ByVersion, ByName, SnapshotEvents, Held;
    last := w;
    C.NextVersionBounds(catalog.byVersion);
    ghost var log := catalog.log;
    CommitRuns(fs.meta.h, w, Some(req));
    var root := fs.meta.Commit();
    fs.StillHeld();
    e := catalog.CreateSnapshot(root, req.createdAt, req.name);
    TwoSteps(log, root, e);
    if fs.meta.intact && Storable(e) {
      SomeMore(fs.meta.h, fs.meta.start, old(fs.meta.pushed), Persist.Pushes(fs.meta.h, MetaOf(fs.meta.State())));
      ghost var mid;
      mid, last := SnapshotRun(fs.meta.h, w, req, e);
      assert Inv(fs.meta.h, last) by { InvAfter(fs.meta.h, w, SnapshotEvents(w.c.strategy, req, e.root, e)); }
    }
  }

  lemma TwoSteps(log: seq<Entry>, root: Digest, e: Entry)
    requires e.SnapshotRecord?
    ensures ByVersion(log + [RootUpdate(root), e]) == ByVersion(log)[e.version := e]
    ensures ByName(log + [RootUpdate(root), e])
         == if e.name.Some? then ByName(log)[e.name.value := e.version] else ByName(log)
  {
    hide ByVersion, ByName;
    StepOf(log, RootUpdate(root));
    StepOf(log + [RootUpdate(root)], e);
    assert log + [RootUpdate(root)] + [e] == log + [RootUpdate(root), e];
  }

  // ---------------------------------------------------------------- finding it again

  /** A snapshot in the index of a mounted store whose records are written is found by every later mount,
      whatever happens in between, and loads to the filesystem it was taken of. */
  lemma SnapshotLasts(h: Hash, w: World, version: u64, later: seq<Event>)
    requires Inv(h, w) && w.live.Some? && w.c.queue == [] && version in w.c.byVersion && Runs(h, w, later)
    ensures var w', e := After(h, w, later), w.c.byVersion[version];
            && (Unmounted(w') ==> version in Found(w').byVersion && Found(w').byVersion[version] == e)
            && (w'.live.Some? ==> version in w'.c.byVersion && w'.c.byVersion[version] == e)
            && Kept(h, w, e.root) && Kept(h, w', e.root)
            && Accounting.Reloaded(w'.shown[e.root].view) == Accounting.Reloaded(w.shown[e.root].view)
  {
    hide Inv, Runs, After, Found, Kept, C.OnDisk, Grows, Unmounted, ByVersion;
    var w' := After(h, w, later);
    InvAfter(h, w, later);
    LifeGrowsDisk(h, w, later);
    assert ByVersion(C.OnDisk(w.c)) == w.c.byVersion by { AllWritten(h, w); }
    SnapshotStays(h, w, w', version);
  }

  lemma AllWritten(h: Hash, w: World)
    requires Inv(h, w) && w.live.Some? && w.c.queue == []
    ensures ByVersion(C.OnDisk(w.c)) == w.c.byVersion
  {
    hide DiskInv, ShownInv, LiveInv, C.CommitsInv, C.ProgramInv, C.RecencyInv, VersionsAscend, ByVersion, ByName,
         C.FileInv, C.OnDisk;
    C.OnDiskIsDurable(w.c);
    Seqs.Units(C.Durable(w.c));
  }
}
