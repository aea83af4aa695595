/** The life of a store: filesystem calls on the mounted store, commits, snapshots and root switches,
    kills at any point, mounts from the segment directory, and offline garbage collection, in any
    order. Each event is shown to be an allowed step of the crash machine, or none at all. */
module Lifetimes {
  import opened ByteCodec
  import opened Segment
  import opened Replay
  import opened Cas
  import opened Tables
  import opened StoreView
  import opened StoreTies
  import opened Gc
  import opened GcRuns
  import opened FsPresence
  import Accounting
  import C = Crash
  import DictStore
  import Directory
  import F = Fs
  import FsRoots
  import FsRuns
  import Meaning
  import Persist
  import Seqs
  import SliceFs
  import Xattrs

  // ------------------------------------------------------------------- the machine

  /** The mounted store: the digest tables, and the filesystem they stand for. */
  datatype Live = Live(st: Store, fs: F.Fs)

  /** What a root was committed from. */
  datatype Shown = Shown(st: Store, view: View)

  /** `c` is the process, its log and the blobs; `ops` is what happened to the segment directory. */
  datatype World = World(c: C.State, ops: seq<Op>, live: Option<Live>, shown: map<Digest, Shown>)

  datatype Call =
    | FsCall(op: FsRuns.Op)
    | SetAttr(ino: nat, name: Name, value: Bytes)
    | RemoveAttr(ino: nat, name: Name)

  function Called(h: Hash, fs: F.Fs, call: Call): (r: F.Fs) {
    match call
    case FsCall(op) => FsRuns.Step(h, fs, op)
    case SetAttr(ino, name, value) => fs.(view := SetXattr(fs.view, ino, name, value))
    case RemoveAttr(ino, name) =>
      match RemoveXattr(fs.view, ino, name)
      case Ok(v) => fs.(view := v)
      case Err(_) => fs
  }

  /** A call leaves the tables `st`. A process, mounting or mounted, may be cut off before the header
      of its segment is complete in the file; `Act(Kill)` is every other kill. A collection runs over
      the listed directory. Everything else the process does is an action of the crash machine. */
  datatype Event =
    | Do(call: Call, st: Store)
    | Act(a: C.Action)
    | Mount
    | Cut(file: Bytes)
    | Collect(listing: seq<int>)

  /** What the store object leaves behind: tables that stand for the new view, and every blob there
      was, with the content just pushed. */
  ghost predicate Leaves(h: Hash, blobs: Blobs, fs: F.Fs, st: Store) {
    Ties(h, st, fs.view) && Grows(blobs, st.blobs) && Grows(fs.cas, st.blobs) && SizesFit(st)
  }

  /** No call makes the root an ordinary entry: a rename may not reach it through `.` or `..`. */
  ghost predicate Proper(v: View, call: Call) {
    call.FsCall? ==> FsRoots.RootGuard(v, call.op)
  }

  ghost predicate Unmounted(w: World) {
    w.c.mem.None? && w.c.pc.Idle?
  }

  ghost predicate Allowed(w: World, op: Op) {
    ValidOp(RunDir(w.ops), op) && WithinLimits(w.ops + [op])
  }

  ghost predicate Enabled(h: Hash, w: World, e: Event) {
    match e
    case Do(call, st) =>
      && w.live.Some? && w.c.pc.Idle? && C.Ready(w.c) && Proper(w.live.value.fs.view, call)
      && Leaves(h, w.c.blobs, Called(h, w.live.value.fs, call), st)
    case Act(a) => !a.Mutate? && !a.Mount? && C.Enabled(h, w.c, a) && (a.Kill? ==> Allowed(w, Session(w.c.body)))
    case Mount => Unmounted(w)
    case Cut(file) => C.Enabled(h, w.c, C.Kill) && w.c.body == [] && Allowed(w, Stub(file))
    case Collect(listing) => Unmounted(w) && Allowed(w, Pass(listing))
  }

  /** The tables as they are loaded, with the totals counted anew. */
  ghost function LoadedStore(blobs: Blobs, sh: Shown): (st: Store) {
    sh.st.(blobs := blobs, logicalBytes := Accounting.Total(sh.view.inodes) % U64_LIMIT,
           inodeCount := |sh.st.inodeData| % U64_LIMIT)
  }

  ghost function LoadedLive(blobs: Blobs, sh: Shown): (l: Live) {
    Live(LoadedStore(blobs, sh), F.Fs(Accounting.Reloaded(sh.view), SliceFs.ContentOf(blobs, sh.view), map[], 0))
  }

  /** A mount replays the directory, loads the last root it finds, and rebuilds the indexes. */
  ghost function Mounted(w: World): (w': World) {
    var log := ReplayDir(RunDir(w.ops));
    if log.Err? then w
    else
      var seen := SeenIn(log.value);
      if seen.root.None? || seen.root.value !in w.shown then w
      else
        match Persist.Load(w.c.blobs, seen.root.value)
        case Err(_) => w
        case Ok(m) =>
          w.(c := w.c.(mem := Some(m), byVersion := seen.byVersion, byName := seen.byName, completed := seen.root),
             live := Some(LoadedLive(w.c.blobs, w.shown[seen.root.value])))
  }

  ghost function Apply(h: Hash, w: World, e: Event): (w': World)
    requires Enabled(h, w, e)
  {
    match e
    case Do(call, st) =>
      w.(c := w.c.(mem := Some(MetaOf(st)), blobs := st.blobs),
          live := Some(Live(st, Called(h, w.live.value.fs, call))))
    case Act(a) => Acted(w, C.Apply(h, w.c, a), a)
    case Mount => Mounted(w)
    case Cut(file) => World(C.Apply(h, w.c, C.Kill), w.ops + [Stub(file)], None, w.shown)
    case Collect(listing) => w.(ops := w.ops + [Pass(listing)])
  }

  ghost function Acted(w: World, c: C.State, a: C.Action): (w': World) {
    if a.Kill? then World(c, w.ops + [Session(w.c.body)], None, w.shown)
    else if a.LogRoot? && w.live.Some? && c.pc.Rooted? then
      World(c, w.ops, w.live, w.shown[c.pc.root := Shown(w.live.value.st, w.live.value.fs.view)])
    else World(c, w.ops, w.live, w.shown)
  }

  // ----------------------------------------------------------------- the invariant

  /** The directory holds the logical log of all closed segments. */
  ghost predicate DiskInv(w: World) {
    ValidRun(w.ops) && WithinLimits(w.ops) && Flatten(Logs(w.ops)) == C.ClosedEntries(w.c.closed)
  }

  ghost predicate LiveInv(h: Hash, c: C.State, l: Live) {
    && c.mem == Some(MetaOf(l.st)) && (c.pc.Pushing? ==> c.pc.meta == MetaOf(l.st))
    && Ties(h, l.st, l.fs.view) && Grows(l.st.blobs, c.blobs) && SizesFit(l.st) && FsRoots.RootSafe(l.fs.view)
    && Grows(l.fs.cas, c.blobs) && Present(l.fs.view, l.fs.cas)
  }

  /** A root shows what it was committed from, and the content its manifests name is there. */
  ghost predicate Shows(h: Hash, blobs: Blobs, root: Digest, sh: Shown) {
    Recorded(h, blobs, root, sh.st, sh.view) && Present(sh.view, blobs) && FsRoots.RootSafe(sh.view)
  }

  ghost predicate ShownInv(h: Hash, w: World) {
    forall r :: r in w.c.commits ==> r in w.shown && Shows(h, w.c.blobs, r, w.shown[r])
  }

  ghost predicate Inv(h: Hash, w: World) {
    && C.Inv(h, w.c) && DiskInv(w) && ShownInv(h, w)
    && (w.live.Some? <==> w.c.mem.Some?) && (w.live.Some? ==> LiveInv(h, w.c, w.live.value))
  }

  // ------------------------------------------------------------ calls are mutations

  lemma ManifestIsThere(blobs: Blobs, d: Digest, ds: seq<Digest>)
    requires HoldsManifest(blobs, d, ds) && AllPushed(ds, blobs)
    ensures C.ContentPresent(blobs, d)
  {
    hide DigestList, DecodeManifest;
    ManifestCodec(ds, blobs[d]);
  }

  /** Tables that stand for a view whose content has been pushed are complete: every blob they name is
      there, and so is all the file content. */
  lemma TiedIsSound(h: Hash, st: Store, v: View)
    requires Ties(h, st, v) && Present(v, st.blobs) && SizesFit(st) && ROOT in v.inodes
    ensures C.Sound(st.blobs, MetaOf(st))
  {
    hide HoldsInode, Directory.Represents, Directory.DecodeList, HoldsManifest, HoldsXattrs, Persist.MetaFits,
         C.ContentPresent;
    SizesMakeMetaFit(st);
    forall i | i in st.inodeData ensures st.inodeData[i] in st.blobs {
      InodeThere(st.blobs, st.inodeData[i], v.inodes[i]);
    }
    forall i | i in st.xattrData ensures st.xattrData[i] in st.blobs {
      XattrsThere(st.blobs, st.xattrData[i], v.xattrs[i]);
    }
    forall i | i in st.manifestData ensures C.ContentPresent(st.blobs, st.manifestData[i]) {
      ManifestIsThere(st.blobs, st.manifestData[i], v.manifests[i]);
    }
  }

  lemma InodeThere(blobs: Blobs, d: Digest, i: Inode)
    requires HoldsInode(blobs, d, i)
    ensures d in blobs
  {
  }

  lemma XattrsThere(blobs: Blobs, d: Digest, xs: Xattrs.Attrs)
    requires HoldsXattrs(blobs, d, xs)
    ensures d in blobs
  {
  }

  lemma PresentGrows(v: View, cas: Blobs, blobs: Blobs)
    requires Present(v, cas) && Grows(cas, blobs)
    ensures Present(v, blobs)
  {
    forall i | i in v.manifests ensures AllPushed(v.manifests[i], blobs) { assert AllPushed(v.manifests[i], cas); }
  }

  /** Content is present after every call. */
  lemma CalledPresent(h: Hash, fs: F.Fs, call: Call)
    requires Present(fs.view, fs.cas)
    ensures Present(Called(h, fs, call).view, Called(h, fs, call).cas)
  {
    hide Present, FsRuns.Step;
    match call
    case FsCall(op) => PresenceStep(h, fs, op);
    case SetAttr(ino, name, value) => PresentMore(fs.view, fs.cas, Called(h, fs, call).view, fs.cas);
    case RemoveAttr(ino, name) => PresentMore(fs.view, fs.cas, Called(h, fs, call).view, fs.cas);
  }

  /** The root stays a directory that no entry names. */
  lemma CalledSafe(h: Hash, fs: F.Fs, call: Call)
    requires FsRoots.RootSafe(fs.view) && Proper(fs.view, call)
    ensures FsRoots.RootSafe(Called(h, fs, call).view)
  {
    hide IsDir, FsRuns.Step, FsRoots.RootGuard;
    match call
    case FsCall(op) => FsRoots.RootStepIff(h, fs, op);
    case SetAttr(ino, name, value) => SameTreeSafe(fs.view, Called(h, fs, call).view);
    case RemoveAttr(ino, name) => SameTreeSafe(fs.view, Called(h, fs, call).view);
  }

  lemma SameTreeSafe(v: View, v': View)
    requires FsRoots.RootSafe(v) && v'.inodes == v.inodes && v'.dirs == v.dirs && v'.nextIno == v.nextIno
    ensures FsRoots.RootSafe(v')
  {
    hide IsDir;
    FsRoots.SameLinksSafe(v, v');
  }

  /** Every call on a mounted store meets what the crash machine demands of a mutation: that all blobs
      are present is a conclusion, not an assumption. */
  lemma CallsAreMutations(h: Hash, w: World, call: Call, st: Store)
    requires Inv(h, w) && Enabled(h, w, Do(call, st))
    ensures C.Enabled(h, w.c, C.Mutate(MetaOf(st), st.blobs))
    ensures Apply(h, w, Do(call, st)).c == C.Apply(h, w.c, C.Mutate(MetaOf(st), st.blobs))
  {
    hide C.Inv, DiskInv, ShownInv, Ties, Present, SizesFit, Called, C.Sound, Grows, Proper;
    var fs := Called(h, w.live.value.fs, call);
    CalledPresent(h, w.live.value.fs, call);
    CalledSafe(h, w.live.value.fs, call);
    PresentGrows(fs.view, fs.cas, st.blobs);
    TiedIsSound(h, st, fs.view);
  }

  // --------------------------------------------------------------------- each event

  lemma ShowsGrows(h: Hash, a: Blobs, b: Blobs, root: Digest, sh: Shown)
    requires Shows(h, a, root, sh) && Grows(a, b)
    ensures Shows(h, b, root, sh)
  {
    hide Recorded, Present, Grows;
    RecordedForGood(h, a, b, root, sh.st, sh.view);
    PresentGrows(sh.view, a, b);
  }

  lemma ShownGrows(h: Hash, w: World, w': World)
    requires ShownInv(h, w) && w'.shown == w.shown && w'.c.commits == w.c.commits && Grows(w.c.blobs, w'.c.blobs)
    ensures ShownInv(h, w')
  {
    hide Shows, Grows;
    forall r | r in w'.c.commits ensures r in w'.shown && Shows(h, w'.c.blobs, r, w'.shown[r]) {
      ShowsGrows(h, w.c.blobs, w'.c.blobs, r, w.shown[r]);
    }
  }

  lemma LiveGrows(h: Hash, c: C.State, c': C.State, l: Live)
    requires LiveInv(h, c, l) && c'.mem == c.mem && Grows(c.blobs, c'.blobs)
    requires c'.pc.Pushing? ==> c'.pc.meta == MetaOf(l.st)
    ensures LiveInv(h, c', l)
  {
    hide Ties, SizesFit, Present;
  }

  lemma DoStep(h: Hash, w: World, call: Call, st: Store)
    requires Inv(h, w) && Enabled(h, w, Do(call, st))
    ensures Inv(h, Apply(h, w, Do(call, st)))
  {
    hide C.Inv, DiskInv, ShownInv, Ties, Present, SizesFit, Called, Grows, C.Enabled;
    var w' := Apply(h, w, Do(call, st));
    CallsAreMutations(h, w, call, st);
    C.InvStep(h, w.c, C.Mutate(MetaOf(st), st.blobs));
    SameDisk(w, w');
    ShownGrows(h, w, w');
    CalledPresent(h, w.live.value.fs, call);
    CalledSafe(h, w.live.value.fs, call);
    assert Grows(st.blobs, st.blobs) by { SelfGrows(st.blobs); }
  }

  lemma SelfGrows(blobs: Blobs)
    ensures Grows(blobs, blobs)
  {
  }

  lemma SameDisk(w: World, w': World)
    requires DiskInv(w) && w'.ops == w.ops && w'.c.closed == w.c.closed
    ensures DiskInv(w')
  {
  }

  // ----------------------------------------------------------- the process's own steps

  /** Steps other than kills and the logging of a new root leave commits and closed segments alone. */
  lemma OtherSteps(h: Hash, c: C.State, a: C.Action)
    requires C.Enabled(h, c, a) && !a.Mutate? && !a.Mount? && !a.Kill? && !a.LogRoot?
    ensures var c' := C.Apply(h, c, a);
            && c'.mem == c.mem && c'.closed == c.closed && c'.commits == c.commits
            && (c'.pc.Pushing? && a.Begin? ==> Some(c'.pc.meta) == c.mem)
            && (c'.pc.Pushing? && !a.Begin? ==> c.pc.Pushing? && c'.pc.meta == c.pc.meta)
  {
    hide C.NextVersion, Persist.Load, C.Mounted, C.ClosedEntries, Persist.MetaFits, C.Sound, Persist.RootOf, NoClash,
         Persist.Pushes;
  }

  lemma OtherStep(h: Hash, w: World, a: C.Action)
    requires Inv(h, w) && Enabled(h, w, Act(a)) && !a.Kill? && !a.LogRoot?
    ensures Inv(h, Apply(h, w, Act(a)))
  {
    hide C.Inv, C.Enabled, C.Apply, DiskInv, ShownInv, LiveInv, Grows;
    var w' := Apply(h, w, Act(a));
    C.InvStep(h, w.c, a);
    C.BlobsOnlyGrow(h, w.c, a);
    OtherSteps(h, w.c, a);
    SameDisk(w, w');
    ShownGrows(h, w, w');
    if w.live.Some? {
      assert w.c.mem == Some(MetaOf(w.live.value.st))
          && (w.c.pc.Pushing? ==> w.c.pc.meta == MetaOf(w.live.value.st)) by {
        LiveMem(h, w.c, w.live.value);
      }
      LiveGrows(h, w.c, w'.c, w.live.value);
    }
  }

  lemma LiveMem(h: Hash, c: C.State, l: Live)
    requires LiveInv(h, c, l)
    ensures c.mem == Some(MetaOf(l.st)) && (c.pc.Pushing? ==> c.pc.meta == MetaOf(l.st))
  {
    hide Ties, SizesFit, Present, Grows;
  }

  /** The root of a commit shows the mounted filesystem. */
  lemma CommitShows(h: Hash, c: C.State, l: Live, root: Digest)
    requires LiveInv(h, c, l) && C.CommitOk(h, c.blobs, root, C.Commit(MetaOf(l.st), c.blobs))
    ensures Shows(h, c.blobs, root, Shown(l.st, l.fs.view))
  {
    hide Ties, SizesFit, Present, Grows, Persist.Stored, C.Sound, Persist.RootOf;
    PresentGrows(l.fs.view, l.fs.cas, c.blobs);
  }

  /** What logging a root does. */
  lemma LogRootDoes(h: Hash, c: C.State)
    requires C.Inv(h, c) && C.Enabled(h, c, C.LogRoot)
    ensures c.pc.Pushing? && c.mem.Some? && C.Apply(h, c, C.LogRoot).pc.Rooted?
    ensures var c' := C.Apply(h, c, C.LogRoot);
            && c'.mem == c.mem && c'.closed == c.closed && c'.blobs == c.blobs
            && c'.commits == c.commits[c'.pc.root := C.Commit(c.pc.meta, c.blobs)]
            && C.CommitOk(h, c.blobs, c'.pc.root, C.Commit(c.pc.meta, c.blobs))
  {
    hide Persist.MetaFits, Persist.RootOf, C.CommitOk, C.FileInv, C.CommitsInv, C.IndexInv, C.RecencyInv,
         VersionsAscend, C.Sound;
    C.CommitIsStored(h, c);
  }

  lemma LogRootStep(h: Hash, w: World)
    requires Inv(h, w) && Enabled(h, w, Act(C.LogRoot))
    ensures Inv(h, Apply(h, w, Act(C.LogRoot)))
  {
    hide C.Inv, C.Enabled, C.Apply, DiskInv, LiveInv, Grows, C.CommitOk, Shows, Persist.RootOf;
    var w' := Apply(h, w, Act(C.LogRoot));
    C.InvStep(h, w.c, C.LogRoot);
    LogRootDoes(h, w.c);
    LiveMem(h, w.c, w.live.value);
    CommitShows(h, w.c, w.live.value, w'.c.pc.root);
    SameDisk(w, w');
    assert Grows(w.c.blobs, w'.c.blobs) by { SelfGrows(w.c.blobs); }
    LiveGrows(h, w.c, w'.c, w.live.value);
  }

  // ----------------------------------------------------------------- the directory

  lemma FlattenSnoc(logs: seq<seq<Entry>>, log: seq<Entry>)
    ensures Flatten(logs + [log]) == Flatten(logs) + log
  {
    Seqs.Parts(logs, [log]);
  }

  lemma ClosedSnoc(closed: seq<Bytes>, body: Bytes)
    ensures C.ClosedEntries(closed + [body]) == C.ClosedEntries(closed) + Entries(body)
  {
    Seqs.Parts(closed, [body]);
  }

  lemma SessionClosed(w: World, w': World)
    requires DiskInv(w) && Allowed(w, Session(w.c.body))
    requires w'.ops == w.ops + [Session(w.c.body)] && w'.c.closed == w.c.closed + [w.c.body]
    ensures DiskInv(w')
  {
    hide C.ClosedEntries, Flatten, Entries, RunDir;
    Seqs.Parts(w.ops, [Session(w.c.body)]);
    FlattenSnoc(Logs(w.ops), Entries(w.c.body));
    ClosedSnoc(w.c.closed, w.c.body);
  }

  lemma StubClosed(w: World, w': World, file: Bytes)
    requires DiskInv(w) && Allowed(w, Stub(file))
    requires w'.ops == w.ops + [Stub(file)] && w'.c.closed == w.c.closed + [[]]
    ensures DiskInv(w')
  {
    hide C.ClosedEntries, Flatten, RunDir;
    Seqs.Parts(w.ops, [Stub(file)]);
    assert Entries([]) == [];
    FlattenSnoc(Logs(w.ops), []);
    ClosedSnoc(w.c.closed, []);
  }

  lemma PassClosed(w: World, w': World, listing: seq<int>)
    requires DiskInv(w) && Allowed(w, Pass(listing)) && w'.ops == w.ops + [Pass(listing)] && w'.c.closed == w.c.closed
    ensures DiskInv(w')
  {
    hide C.ClosedEntries, Flatten, RunDir;
    Seqs.Parts(w.ops, [Pass(listing)]);
  }

  lemma KillStep(h: Hash, w: World)
    requires Inv(h, w) && Enabled(h, w, Act(C.Kill))
    ensures Inv(h, Apply(h, w, Act(C.Kill)))
  {
    hide C.Inv, DiskInv, ShownInv, LiveInv, Grows, Allowed;
    var w' := Apply(h, w, Act(C.Kill));
    C.InvStep(h, w.c, C.Kill);
    SessionClosed(w, w');
    assert Grows(w.c.blobs, w'.c.blobs) by { SelfGrows(w.c.blobs); }
    ShownGrows(h, w, w');
  }

  lemma CutStep(h: Hash, w: World, file: Bytes)
    requires Inv(h, w) && Enabled(h, w, Cut(file))
    ensures Inv(h, Apply(h, w, Cut(file)))
  {
    hide C.Inv, DiskInv, ShownInv, LiveInv, Grows, Allowed;
    var w' := Apply(h, w, Cut(file));
    C.InvStep(h, w.c, C.Kill);
    StubClosed(w, w', file);
    assert Grows(w.c.blobs, w'.c.blobs) by { SelfGrows(w.c.blobs); }
    ShownGrows(h, w, w');
  }

  lemma CollectStep(h: Hash, w: World, listing: seq<int>)
    requires Inv(h, w) && Enabled(h, w, Collect(listing))
    ensures Inv(h, Apply(h, w, Collect(listing)))
  {
    hide C.Inv, DiskInv, ShownInv, LiveInv, Grows, Allowed;
    var w' := Apply(h, w, Collect(listing));
    PassClosed(w, w', listing);
    assert Grows(w.c.blobs, w'.c.blobs) by { SelfGrows(w.c.blobs); }
    ShownGrows(h, w, w');
  }

  /** Replaying the directory, however often it was collected, means the logical log. */
  lemma DirectoryMeans(w: World)
    requires DiskInv(w)
    ensures ReplayDir(RunDir(w.ops)).Ok?
    ensures SeenIn(ReplayDir(RunDir(w.ops)).value) == SeenIn(C.ClosedEntries(w.c.closed))
  {
    hide RunDir, ReplayDir, SeenIn, Flatten, Laid;
    RunKeepsLayout(w.ops);
    ReplayMeansLog(RunDir(w.ops), Logs(w.ops), Levels(w.ops));
  }

  // --------------------------------------------------------------------- mounting

  /** A loaded store is live again, with its totals counted anew and no handle open. */
  lemma LoadedIsLive(h: Hash, blobs: Blobs, root: Digest, sh: Shown)
    requires Shows(h, blobs, root, sh)
    ensures var l := LoadedLive(blobs, sh);
            && Persist.Load(blobs, root) == Ok(MetaOf(l.st)) && MetaOf(l.st) == MetaOf(sh.st)
            && Ties(h, l.st, l.fs.view) && Grows(l.st.blobs, blobs) && Grows(l.fs.cas, blobs)
                && Present(l.fs.view, l.fs.cas)
            && FsRoots.RootSafe(l.fs.view) && SizesFit(l.st)
  {
    hide FsRoots.RootSafe, Ties, Persist.Load, Persist.Stored, Persist.RootOf, DictStore.Names, Accounting.Total;
    var l := LoadedLive(blobs, sh);
    DictStore.RecordedLoads(h, blobs, root, sh.st, sh.view);
    DictStore.RecordedTies(h, blobs, root, sh.st, sh.view, l.st);
    ContentIsPresentIn(blobs, sh.view);
    StoredSizes(h, blobs, sh.st);
    SameTreeSafe(sh.view, l.fs.view);
  }

  lemma StoredSizes(h: Hash, blobs: Blobs, st: Store)
    requires Persist.Stored(h, blobs, MetaOf(st))
    ensures SizesFit(st)
  {
    hide Has, Persist.Pushes;
  }

  lemma ContentIsPresentIn(blobs: Blobs, v: View)
    requires Present(v, blobs)
    ensures Present(v, SliceFs.ContentOf(blobs, v))
  {
    forall i | i in v.manifests ensures AllPushed(v.manifests[i], SliceFs.ContentOf(blobs, v)) {
      assert AllPushed(v.manifests[i], blobs);
      forall k | 0 <= k < |v.manifests[i]| ensures v.manifests[i][k] in SliceFs.ContentOf(blobs, v) {
        assert SliceFs.NamedBy(v, v.manifests[i][k]);
      }
    }
  }

  lemma RootInLogKnown(h: Hash, c: C.State)
    requires C.Inv(h, c) && c.mem.None? && LastRoot(C.ClosedEntries(c.closed)).Some?
    ensures LastRoot(C.ClosedEntries(c.closed)).value in c.commits
  {
    hide C.FileInv, C.IndexInv, C.RecencyInv, VersionsAscend, C.Sound, Persist.Load, C.CommitOk;
    C.MountLoads(h, c);
  }

  /** A mount from the directory is the mount of the crash machine from the logical log, and what it
      brings up is what the last root was committed from. */
  lemma MountFromDirectory(h: Hash, w: World)
    requires Inv(h, w) && Unmounted(w)
    ensures Mounted(w).c == C.Mounted(w.c)
    ensures var seen := SeenIn(C.ClosedEntries(w.c.closed));
            if seen.root.None? then Mounted(w) == w
            else && seen.root.value in w.shown && Shows(h, w.c.blobs, seen.root.value, w.shown[seen.root.value])
                 && Mounted(w).live == Some(LoadedLive(w.c.blobs, w.shown[seen.root.value]))
                 && Mounted(w).c.mem == Some(MetaOf(w.shown[seen.root.value].st))
  {
    hide C.Inv, DiskInv, LiveInv, Shows, RunDir, ReplayDir, Persist.Load, LoadedLive, LastRoot, ByVersion, ByName, Ties,
         Present, SizesFit, Grows, C.ClosedEntries, MetaOf;
    DirectoryMeans(w);
    var root := LastRoot(C.ClosedEntries(w.c.closed));
    if root.Some? {
      RootInLogKnown(h, w.c);
      LoadedIsLive(h, w.c.blobs, root.value, w.shown[root.value]);
    }
  }

  lemma MountStep(h: Hash, w: World)
    requires Inv(h, w) && Enabled(h, w, Mount)
    ensures Inv(h, Apply(h, w, Mount))
  {
    hide C.Inv, DiskInv, ShownInv, Shows, Grows, Mounted, C.Mounted, LoadedLive, SeenIn, C.ClosedEntries, Ties, Present,
         SizesFit;
    var w' := Mounted(w);
    MountFromDirectory(h, w);
    C.InvStep(h, w.c, C.Mount);
    MountKeeps(w);
    SameDisk(w, w');
    assert Grows(w.c.blobs, w'.c.blobs) by { SelfGrows(w.c.blobs); }
    ShownGrows(h, w, w');
    var root := SeenIn(C.ClosedEntries(w.c.closed)).root;
    if root.Some? {
      LoadedIsLive(h, w.c.blobs, root.value, w.shown[root.value]);
    }
  }

  lemma MountKeeps(w: World)
    ensures var w' := Mounted(w);
            && w'.ops == w.ops && w'.c.closed == w.c.closed && w'.c.blobs == w.c.blobs && w'.c.commits == w.c.commits
            && w'.shown == w.shown && w'.c.pc == w.c.pc
  {
    hide RunDir, ReplayDir, Persist.Load, LoadedLive, SeenIn;
  }

  // ------------------------------------------------------------------- whole lives

  /** The step of the crash machine that an event is; a collection is none. */
  ghost function ActionOf(e: Event): (a: Option<C.Action>) {
    match e
    case Do(_, st) => Some(C.Mutate(MetaOf(st), st.blobs))
    case Act(a) => Some(a)
    case Mount => Some(C.Mount)
    case Cut(_) => Some(C.Kill)
    case Collect(_) => None
  }

  lemma EventIsAction(h: Hash, w: World, e: Event)
    requires Inv(h, w) && Enabled(h, w, e)
    ensures ActionOf(e).None? ==> Apply(h, w, e).c == w.c
    ensures ActionOf(e).Some? ==> C.Enabled(h, w.c, ActionOf(e).value)
                                  && Apply(h, w, e).c == C.Apply(h, w.c, ActionOf(e).value)
  {
    hide Inv, Enabled, Apply, C.Enabled, C.Apply;
    match e
    case Do(call, st) => CallsAreMutations(h, w, call, st);
    case Act(a) => ActIs(h, w, a);
    case Mount => MountIsAction(h, w);
    case Cut(file) => CutIsAction(h, w, file);
    case Collect(listing) => CollectIs(h, w, listing);
  }

  lemma ActIs(h: Hash, w: World, a: C.Action)
    requires Enabled(h, w, Act(a))
    ensures C.Enabled(h, w.c, a) && Apply(h, w, Act(a)).c == C.Apply(h, w.c, a)
  {
    hide Allowed, C.Enabled, C.Apply, RunDir;
  }

  lemma CollectIs(h: Hash, w: World, listing: seq<int>)
    requires Enabled(h, w, Collect(listing))
    ensures Apply(h, w, Collect(listing)).c == w.c
  {
    hide Allowed, RunDir;
  }

  lemma CutIsAction(h: Hash, w: World, file: Bytes)
    requires Enabled(h, w, Cut(file))
    ensures C.Enabled(h, w.c, C.Kill) && Apply(h, w, Cut(file)).c == C.Apply(h, w.c, C.Kill)
  {
    hide Allowed, RunDir, C.Enabled, C.Apply;
  }

  lemma MountIsAction(h: Hash, w: World)
    requires Inv(h, w) && Enabled(h, w, Mount)
    ensures C.Enabled(h, w.c, C.Mount) && Apply(h, w, Mount).c == C.Apply(h, w.c, C.Mount)
  {
    hide DiskInv, ShownInv, LiveInv, C.Inv, Mounted, C.Mounted, C.Enabled, C.Apply;
    MountFromDirectory(h, w);
    MountIs(h, w.c);
  }

  lemma MountIs(h: Hash, c: C.State)
    requires c.mem.None? && c.pc.Idle?
    ensures C.Enabled(h, c, C.Mount) && C.Apply(h, c, C.Mount) == C.Mounted(c)
  {
    hide C.Mounted;
  }

  lemma InvStep(h: Hash, w: World, e: Event)
    requires Inv(h, w) && Enabled(h, w, e)
    ensures Inv(h, Apply(h, w, e))
  {
    hide Inv, Enabled, Apply;
    match e
    case Do(call, st) => DoStep(h, w, call, st);
    case Act(a) => ActStep(h, w, a);
    case Mount => MountStep(h, w);
    case Cut(file) => CutStep(h, w, file);
    case Collect(listing) => CollectStep(h, w, listing);
  }

  lemma ActStep(h: Hash, w: World, a: C.Action)
    requires Inv(h, w) && Enabled(h, w, Act(a))
    ensures Inv(h, Apply(h, w, Act(a)))
  {
    hide Inv, Enabled, Apply;
    if a == C.Kill { KillStep(h, w); }
    else if a == C.LogRoot { LogRootStep(h, w); }
    else { OtherStep(h, w, a); }
  }

  ghost predicate Runs(h: Hash, w: World, es: seq<Event>)
    decreases |es|
  {
    es == [] || (Enabled(h, w, es[0]) && Runs(h, Apply(h, w, es[0]), es[1..]))
  }

  ghost function After(h: Hash, w: World, es: seq<Event>): (w': World)
    requires Runs(h, w, es)
    decreases |es|
  {
    if es == [] then w else After(h, Apply(h, w, es[0]), es[1..])
  }

  lemma {:induction false} InvAfter(h: Hash, w: World, es: seq<Event>)
    requires Inv(h, w) && Runs(h, w, es)
    ensures Inv(h, After(h, w, es))
    decreases |es|
  {
    hide Inv, Enabled, Apply;
    if es != [] {
      InvStep(h, w, es[0]);
      InvAfter(h, Apply(h, w, es[0]), es[1..]);
    }
  }

  /** A store just made and mounted. */
  ghost predicate Begins(h: Hash, w: World) {
    w.live.Some? && LiveInv(h, w.c, w.live.value) && C.Blank(w.c) && w.ops == [] && w.shown == map[]
  }

  lemma BeginsInv(h: Hash, w: World)
    requires Begins(h, w)
    ensures Inv(h, w) && C.Initial(w.c)
  {
    hide Ties, Present, SizesFit, C.Sound, C.Inv, Grows;
    var l := w.live.value;
    TiesGrow(h, l.st, w.c.blobs, l.fs.view);
    PresentGrows(l.fs.view, l.fs.cas, w.c.blobs);
    assert SizesFit(l.st.(blobs := w.c.blobs)) by { SameSizes(l.st, w.c.blobs); }
    TiedIsSound(h, l.st.(blobs := w.c.blobs), l.fs.view);
    C.InitialInv(h, w.c);
    assert Flatten(Logs([])) == [] && C.ClosedEntries([]) == [];
  }

  lemma SameSizes(st: Store, blobs: Blobs)
    requires SizesFit(st)
    ensures SizesFit(st.(blobs := blobs))
  {
  }

  /** Every life of a store is a run of the crash machine. */
  lemma {:induction false} LivesAreRuns(h: Hash, w: World, es: seq<Event>) returns (acts: seq<C.Action>)
    requires Inv(h, w) && Runs(h, w, es)
    ensures C.Runs(h, w.c, acts) && C.After(h, w.c, acts) == After(h, w, es).c
    decreases |es|
  {
    hide Inv, Enabled, Apply, C.Enabled, C.Apply;
    if es == [] {
      acts := [];
    } else {
      var w1 := Apply(h, w, es[0]);
      EventIsAction(h, w, es[0]);
      InvStep(h, w, es[0]);
      var rest := LivesAreRuns(h, w1, es[1..]);
      if ActionOf(es[0]).None? {
        acts := rest;
      } else {
        acts := [ActionOf(es[0]).value] + rest;
        assert acts[1..] == rest;
      }
    }
  }

  // ------------------------------------------------------------------- the theorems

  /** What a mount of the directory would find. */
  ghost function Found(w: World): (s: Seen) {
    var log := ReplayDir(RunDir(w.ops));
    if log.Ok? then SeenIn(log.value) else SeenIn([])
  }

  lemma SeenIsLogical(h: Hash, w: World)
    requires Inv(h, w) && Unmounted(w)
    ensures ReplayDir(RunDir(w.ops)).Ok? && Found(w) == SeenIn(C.OnDisk(w.c))
  {
    hide ShownInv, C.IndexInv, C.RecencyInv, VersionsAscend, C.CommitsInv, RunDir, ReplayDir, SeenIn, C.FileInv,
         C.Sound;
    DirectoryMeans(w);
    assert Entries([]) == [];
    Seqs.Units(C.ClosedEntries(w.c.closed));
  }

  /** Crash safety. However a store lived, and wherever it was killed: the directory replays, and the
      root it ends in and every snapshot in it load to exactly the state they were committed from,
      with every blob and all file content in place. */
  lemma CrashSafety(h: Hash, w0: World, es: seq<Event>)
    requires Begins(h, w0) && Runs(h, w0, es) && Unmounted(After(h, w0, es))
    ensures var w := After(h, w0, es);
            && ReplayDir(RunDir(w.ops)).Ok?
            && (Found(w).root.Some? ==> Kept(h, w, Found(w).root.value))
            && (forall v :: v in Found(w).byVersion ==> Kept(h, w, Found(w).byVersion[v].root))
  {
    hide Inv, Runs, After, Found, RunDir, ReplayDir, Begins, Kept, ByVersion, LastRoot, C.OnDisk, Unmounted;
    var w := After(h, w0, es);
    BeginsInv(h, w0);
    InvAfter(h, w0, es);
    SeenIsLogical(h, w);
    var log := C.OnDisk(w.c);
    IndexKeys(log);
    RootIsRecorded(log);
    if Found(w).root.Some? { VisibleRootKept(h, w, RootUpdate(Found(w).root.value)); }
    forall v | v in Found(w).byVersion ensures Kept(h, w, Found(w).byVersion[v].root) {
      VisibleRootKept(h, w, Found(w).byVersion[v]);
    }
  }

  /** The root loads to the tables it was committed from, which stand for the view of that moment. */
  ghost predicate Kept(h: Hash, w: World, root: Digest) {
    && root in w.shown && Shows(h, w.c.blobs, root, w.shown[root])
    && Persist.Load(w.c.blobs, root) == Ok(MetaOf(w.shown[root].st))
  }

  lemma VisibleRootKept(h: Hash, w: World, e: Entry)
    requires Inv(h, w) && e in C.OnDisk(w.c)
    ensures Kept(h, w, e.root)
  {
    hide C.Inv, DiskInv, LiveInv, Shows, C.OnDisk, Persist.Load, LoadedLive;
    C.VisibleRootLoads(h, w.c, e);
    LoadedIsLive(h, w.c.blobs, e.root, w.shown[e.root]);
  }

  /** Every way a process can end without its own doing. */
  ghost predicate Kills(e: Event) {
    e == Act(C.Kill) || e.Cut?
  }

  /** Under PerOp no completed commit is lost: kill the mounted store between operations, whatever of
      its segment is in the file by then, mount it again, and what comes up is what the last completed
      commit was made from. */
  lemma RecoversLastCommit(h: Hash, w0: World, es: seq<Event>, kill: Event)
    requires Begins(h, w0) && w0.c.strategy.PerOp? && Runs(h, w0, es)
    requires var w := After(h, w0, es);
             w.live.Some? && w.c.pc.Idle? && w.c.completed.Some? && Kills(kill) && Enabled(h, w, kill)
    ensures var w := After(h, w0, es);
            var root := w.c.completed.value;
            && Kept(h, w, root) && Unmounted(Apply(h, w, kill))
            && Mounted(Apply(h, w, kill)).live == Some(LoadedLive(w.c.blobs, w.shown[root]))
  {
    hide Inv, Runs, After, Begins, C.Runs, C.After, C.Initial, Enabled, Apply, Kept, LoadedLive, Mounted;
    var w := After(h, w0, es);
    BeginsInv(h, w0);
    InvAfter(h, w0, es);
    var acts := LivesAreRuns(h, w0, es);
    C.StrategyFixed(h, w0.c, acts);
    KillThenMount(h, w, kill);
  }

  lemma KillThenMount(h: Hash, w: World, kill: Event)
    requires Inv(h, w) && w.live.Some? && w.c.strategy.PerOp? && w.c.pc.Idle? && w.c.completed.Some?
    requires Kills(kill) && Enabled(h, w, kill)
    ensures var root := w.c.completed.value;
            && Kept(h, w, root) && Unmounted(Apply(h, w, kill))
            && Mounted(Apply(h, w, kill)).live == Some(LoadedLive(w.c.blobs, w.shown[root]))
  {
    hide C.Inv, DiskInv, ShownInv, LiveInv, Kept, LoadedLive, Mounted, LastRoot, ByVersion, ByName, Allowed,
         C.ClosedEntries, Shows;
    var w1 := Apply(h, w, kill);
    InvStep(h, w, kill);
    C.RecentOnDisk(h, w.c);
    ClosedSnoc(w.c.closed, w.c.body);
    RootIsRecorded(C.OnDisk(w.c));
    VisibleRootKept(h, w, RootUpdate(w.c.completed.value));
    MountFromDirectory(h, w1);
  }

  // ------------------------------------------------------ snapshots are points in time

  lemma EventGrowsDisk(h: Hash, w: World, e: Event)
    requires Inv(h, w) && Enabled(h, w, e)
    ensures C.OnDisk(w.c) <= C.OnDisk(Apply(h, w, e).c) && Grows(w.c.blobs, Apply(h, w, e).c.blobs)
  {
    hide DiskInv, ShownInv, LiveInv, C.Inv, Apply, C.Apply, Enabled, C.Enabled, C.OnDisk;
    EventIsAction(h, w, e);
    if ActionOf(e).Some? {
      C.FileOfInv(h, w.c);
      C.DiskOnlyGrows(h, w.c, ActionOf(e).value);
      C.BlobsOnlyGrow(h, w.c, ActionOf(e).value);
    } else {
      SelfGrows(w.c.blobs);
    }
  }

  lemma {:induction false} LifeGrowsDisk(h: Hash, w: World, es: seq<Event>)
    requires Inv(h, w) && Runs(h, w, es)
    ensures C.OnDisk(w.c) <= C.OnDisk(After(h, w, es).c) && Grows(w.c.blobs, After(h, w, es).c.blobs)
    decreases |es|
  {
    hide Inv, Enabled, Apply, C.OnDisk, Grows;
    if es == [] {
      SelfGrows(w.c.blobs);
    } else {
      var w1 := Apply(h, w, es[0]);
      EventGrowsDisk(h, w, es[0]);
      InvStep(h, w, es[0]);
      LifeGrowsDisk(h, w1, es[1..]);
      GrowsTransitive(w.c.blobs, w1.c.blobs, After(h, w, es).c.blobs);
    }
  }

  lemma VersionsStay(a: seq<Entry>, b: seq<Entry>, v: u64)
    requires a <= b && VersionsAscend(b) && v in ByVersion(a)
    ensures v in ByVersion(b) && ByVersion(b)[v] == ByVersion(a)[v]
  {
    hide ByVersion, VersionsAscend;
    IndexKeys(a);
    var e := ByVersion(a)[v];
    var k :| 0 <= k < |a| && a[k] == e;
    OneRecordPerVersion(b, k);
  }

  /** A snapshot that a mount could find at some point is found, with the same record, after anything
      that happens later: calls, commits, further snapshots, root switches, kills, mounts and
      collections. Its root loads then to what it loaded to before: the same inodes, directories,
      manifests, attributes and reference counts, over the same bytes. */
  lemma SnapshotsAreImmutable(h: Hash, w0: World, before: seq<Event>, later: seq<Event>, v: u64)
    requires Begins(h, w0) && Runs(h, w0, before) && Runs(h, After(h, w0, before), later)
    requires Unmounted(After(h, w0, before)) && v in Found(After(h, w0, before)).byVersion
    ensures var w := After(h, w0, before);
            var w', e := After(h, w, later), Found(w).byVersion[v];
            && (Unmounted(w') ==> v in Found(w').byVersion && Found(w').byVersion[v] == e)
            && (w'.live.Some? ==> v in w'.c.byVersion && w'.c.byVersion[v] == e)
            && Kept(h, w, e.root) && Kept(h, w', e.root) && Grows(w.c.blobs, w'.c.blobs)
            && Accounting.Reloaded(w'.shown[e.root].view) == Accounting.Reloaded(w.shown[e.root].view)
  {
    hide Inv, Runs, After, Begins, Found, Kept, C.OnDisk, Grows, Unmounted, ByVersion;
    var w := After(h, w0, before);
    var w' := After(h, w, later);
    BeginsInv(h, w0);
    InvAfter(h, w0, before);
    InvAfter(h, w, later);
    LifeGrowsDisk(h, w, later);
    SeenIsLogical(h, w);
    SnapshotStays(h, w, w', v);
  }

  lemma SnapshotStays(h: Hash, w: World, w': World, v: u64)
    requires Inv(h, w) && Inv(h, w') && v in ByVersion(C.OnDisk(w.c))
    requires C.OnDisk(w.c) <= C.OnDisk(w'.c) && Grows(w.c.blobs, w'.c.blobs)
    ensures var e := ByVersion(C.OnDisk(w.c))[v];
            && (Unmounted(w') ==> v in Found(w').byVersion && Found(w').byVersion[v] == e)
            && (w'.live.Some? ==> v in w'.c.byVersion && w'.c.byVersion[v] == e)
            && Kept(h, w, e.root) && Kept(h, w', e.root)
            && Accounting.Reloaded(w'.shown[e.root].view) == Accounting.Reloaded(w.shown[e.root].view)
  {
    hide Inv, Found, C.OnDisk, Grows, Unmounted, ByVersion, VersionsAscend;
    var log, log' := C.OnDisk(w.c), C.OnDisk(w'.c);
    IndexKeys(log);
    var e := ByVersion(log)[v];
    assert VersionsAscend(log') by { AscendOnDisk(h, w'); }
    VersionsStay(log, log', v);
    VisibleRootKept(h, w, e);
    C.PrefixMember(log, log', e);
    VisibleRootKept(h, w', e);
    SameMeaning(h, w, w', e.root);
    if Unmounted(w') { SeenIsLogical(h, w'); }
    if w'.live.Some? { IndexedLive(h, w', v); }
  }

  lemma AscendOnDisk(h: Hash, w: World)
    requires Inv(h, w)
    ensures VersionsAscend(C.OnDisk(w.c))
  {
    hide C.Inv, DiskInv, ShownInv, LiveInv, VersionsAscend, C.OnDisk;
    C.IndexOnDisk(h, w.c);
  }

  /** What is on disk is in the index of the mounted store. */
  lemma IndexedLive(h: Hash, w: World, v: u64)
    requires Inv(h, w) && w.live.Some? && v in ByVersion(C.OnDisk(w.c))
    ensures v in w.c.byVersion && w.c.byVersion[v] == ByVersion(C.OnDisk(w.c))[v]
  {
    hide DiskInv, ShownInv, LiveInv, C.CommitsInv, C.ProgramInv, C.RecencyInv, VersionsAscend, ByVersion, ByName,
         C.FileInv, C.OnDisk, C.Durable;
    C.OnDiskIsDurable(w.c);
    VersionsStay(C.Durable(w.c), C.Logged(w.c), v);
  }

  lemma SameMeaning(h: Hash, w: World, w': World, root: Digest)
    requires Kept(h, w, root) && Kept(h, w', root) && Grows(w.c.blobs, w'.c.blobs)
    ensures Accounting.Reloaded(w'.shown[root].view) == Accounting.Reloaded(w.shown[root].view)
  {
    hide Recorded, Present, Grows, Persist.Load;
    RecordedForGood(h, w.c.blobs, w'.c.blobs, root, w.shown[root].st, w.shown[root].view);
    Meaning.RootMeansOneView(h, w'.c.blobs, root, w'.shown[root].st, w'.shown[root].view, w.shown[root].st,
        w.shown[root].view);
  }
}
