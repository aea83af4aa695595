/** Whole runs of a store under process kills. The program mutates its metadata, commits it blob by
    blob, logs roots and snapshots; the log writer moves bytes to the segment file at its own pace;
    a kill may come between any two steps and leaves the blobs and the bytes already written. */
module Crash {
  import opened ByteCodec
  import opened Segment
  import opened SegmentWriting
  import opened Replay
  import opened Cas
  import opened Tables
  import opened Persist
  import Gc
  import Ordered
  import Seqs

  /** PerOp returns from logging only when the record is in the file; the buffered strategies
      (FlushOnFsync, Periodic) return at once and write when flushed. */
  datatype Strategy = PerOp | Buffered

  datatype SnapshotRequest = SnapshotRequest(name: Option<Bytes>, createdAt: u64)

  /** Where the program is: between operations, pushing the blobs of a commit, or past the logging
      of a root with a snapshot perhaps still to record. */
  datatype Pc =
    | Idle
    | Pushing(meta: Meta, pushed: nat, snapshot: Option<SnapshotRequest>)
    | Rooted(root: Digest, snapshot: Option<SnapshotRequest>)

  /** The state a root was committed from, and the blobs there were. */
  datatype Commit = Commit(meta: Meta, blobs: Blobs)

  datatype State = State(
    strategy: Strategy,
    mem: Option<Meta>,
    byVersion: map<u64, Entry>, byName: map<Bytes, u64>,
    pc: Pc,
    queue: seq<Entry>, written: nat,
    blobs: Blobs,
    closed: seq<Bytes>,
    done: seq<Entry>, body: Bytes,
    commits: map<Digest, Commit>,
    completed: Option<Digest>)

  datatype Action =
    | Mutate(meta: Meta, blobs: Blobs)
    | Begin(snapshot: Option<SnapshotRequest>)
    | Push
    | LogRoot
    | LogSnapshot
    | Finish
    | CommitRoot(version: u64)
    | Write(n: nat)
    | Kill
    | Mount

  // ---------------------------------------------------------- what a state refers to

  /** Every blob the tables of `m` name is there, and so is all the file content its manifests
      list. */
  ghost predicate Present(blobs: Blobs, m: Meta) {
    && (forall i :: i in m.inodeData ==> m.inodeData[i] in blobs)
    && (forall i :: i in m.dirData ==> m.dirData[i] in blobs)
    && (forall i :: i in m.xattrData ==> m.xattrData[i] in blobs)
    && (forall i :: i in m.manifestData ==> ContentPresent(blobs, m.manifestData[i]))
  }

  ghost predicate ContentPresent(blobs: Blobs, manifest: int) {
    && manifest in blobs
    && DecodeManifest(blobs[manifest]).Ok?
    && forall k :: 0 <= k < |DecodeManifest(blobs[manifest]).value| ==>
        DecodeManifest(blobs[manifest]).value[k] in blobs
  }

  ghost predicate Sound(blobs: Blobs, m: Meta) {
    MetaFits(m) && ROOT_INO in m.inodeData && Present(blobs, m)
  }

  // -------------------------------------------------------------------- the steps

  /** Under PerOp the program waits for its record to be written. */
  predicate Ready(s: State) {
    s.strategy.PerOp? ==> s.queue == []
  }

  /** One above the largest version in the index, or 1. */
  ghost function NextVersion(byVersion: map<u64, Entry>): (v: int) {
    Gc.MaxId(Ordered.Ascending(byVersion.Keys)) + 1
  }

  lemma NextVersionBounds(byVersion: map<u64, Entry>)
    ensures NextVersion(byVersion) >= 1
    ensures forall v :: v in byVersion ==> v < NextVersion(byVersion)
  {
    var vs := Ordered.Ascending(byVersion.Keys);
    Gc.MaxIdBounds(vs);
    forall v | v in byVersion ensures v < NextVersion(byVersion) {
      assert v in vs;
      var k :| 0 <= k < |vs| && vs[k] == v;
    }
  }

  /** The record a pending snapshot request logs. */
  ghost function SnapshotEntry(s: State): (e: Entry)
    requires s.pc.Rooted? && s.pc.snapshot.Some? && NextVersion(s.byVersion) < U64_LIMIT
  {
    NextVersionBounds(s.byVersion);
    SnapshotRecord(NextVersion(s.byVersion), s.pc.root, s.pc.snapshot.value.createdAt, s.pc.snapshot.value.name)
  }

  /** The bytes of the first queued record not yet in the file. */
  function Unwritten(s: State): (b: Bytes)
    requires s.queue != [] && s.written <= |Frame(s.queue[0])|
  {
    Frame(s.queue[0])[s.written..]
  }

  ghost predicate Enabled(h: Hash, s: State, a: Action) {
    match a
    case Mutate(m, blobs) => s.mem.Some? && s.pc.Idle? && Ready(s) && Grows(s.blobs, blobs) && Sound(blobs, m)
    case Begin(snap) => s.mem.Some? && s.pc.Idle? && Ready(s)
    case Push =>
      s.pc.Pushing? && MetaFits(s.pc.meta) && s.pc.pushed < 7 && NoClash(h, s.blobs, Pushes(h, s.pc.meta)[s.pc.pushed])
    case LogRoot => s.pc.Pushing? && MetaFits(s.pc.meta) && s.pc.pushed == 7
    case LogSnapshot =>
      s.pc.Rooted? && s.pc.snapshot.Some? && Ready(s) && NextVersion(s.byVersion) < U64_LIMIT
          && Storable(SnapshotEntry(s))
    case Finish => s.pc.Rooted? && s.pc.snapshot.None? && Ready(s)
    case CommitRoot(v) => s.mem.Some? && s.pc.Idle? && Ready(s) && v in s.byVersion
    case Write(n) => s.queue != [] && s.written <= |Frame(s.queue[0])| && 1 <= n <= |Unwritten(s)|
    case Kill => true
    case Mount => s.mem.None? && s.pc.Idle?
  }

  ghost function Apply(h: Hash, s: State, a: Action): (s': State)
    requires Enabled(h, s, a)
  {
    match a
    case Mutate(m, blobs) => s.(mem := Some(m), blobs := blobs)
    case Begin(snap) => s.(pc := Pushing(s.mem.value, 0, snap))
    case Push =>
      s.(blobs := Put(h, s.blobs, Pushes(h, s.pc.meta)[s.pc.pushed]), pc := s.pc.(pushed := s.pc.pushed + 1))
    case LogRoot =>
      var root := RootOf(h, s.pc.meta);
      s.(queue := s.queue + [RootUpdate(root)], commits := s.commits[root := Commit(s.pc.meta, s.blobs)],
         pc := Rooted(root, s.pc.snapshot))
    case LogSnapshot =>
      var e := SnapshotEntry(s);
      s.(queue := s.queue + [e], byVersion := s.byVersion[e.version := e],
         byName := if e.name.Some? then s.byName[e.name.value := e.version] else s.byName,
         completed := Some(s.pc.root), pc := Idle)
    case Finish => s.(completed := Some(s.pc.root), pc := Idle)
    case CommitRoot(v) =>
      s.(queue := s.queue + [RootUpdate(s.byVersion[v].root)], pc := Rooted(s.byVersion[v].root, None))
    case Write(n) =>
      var s1 := s.(body := s.body + Unwritten(s)[..n], written := s.written + n);
      if n < |Unwritten(s)| then s1 else s1.(done := s.done + [s.queue[0]], queue := s.queue[1..], written := 0)
    case Kill =>
      s.(mem := None, pc := Idle, queue := [], written := 0, closed := s.closed + [s.body], body := [], done := [])
    case Mount => Mounted(s)
  }

  /** `load_store`: replay the closed segments, load the last root, rebuild the indexes. Without a
      root, or when it does not load, the mount fails. */
  ghost function Mounted(s: State): (s': State) {
    var log := ClosedEntries(s.closed);
    var root := LastRoot(log);
    if root.None? then s
    else
      match Load(s.blobs, root.value)
      case Err(_) => s
      case Ok(m) => s.(mem := Some(m), byVersion := ByVersion(log), byName := ByName(log), completed := root)
  }

  function ClosedEntries(closed: seq<Bytes>): (es: seq<Entry>) {
    if closed == [] then [] else ClosedEntries(closed[..|closed| - 1]) + Entries(closed[|closed| - 1])
  }

  /** What a replay would read if the process were killed now. */
  function OnDisk(s: State): (es: seq<Entry>) {
    ClosedEntries(s.closed) + Entries(s.body)
  }

  /** The records written in full. */
  function Durable(s: State): (es: seq<Entry>) {
    ClosedEntries(s.closed) + s.done
  }

  /** Everything logged by this process and the segments before it. */
  function Logged(s: State): (es: seq<Entry>) {
    Durable(s) + s.queue
  }

  /** Nothing has been logged yet. */
  ghost predicate Blank(s: State) {
    && s.pc.Idle? && s.byVersion == map[] && s.byName == map[] && s.queue == [] && s.written == 0
    && s.closed == [] && s.done == [] && s.body == [] && s.commits == map[] && s.completed.None?
  }

  ghost predicate Initial(s: State) {
    s.mem.Some? && Sound(s.blobs, s.mem.value) && Blank(s)
  }

  // --------------------------------------------------------------- the invariant

  /** The file is the records done, followed by the start of the one being written. */
  ghost predicate FileInv(s: State) {
    && (forall k :: 0 <= k < |s.done| ==> Storable(s.done[k]))
    && (forall k :: 0 <= k < |s.queue| ==> Storable(s.queue[k]))
    && (s.queue == [] ==> s.written == 0)
    && (s.queue != [] ==> s.written < |Frame(s.queue[0])|)
    && s.body == Body(AsItems(s.done)) + (if s.queue == [] then [] else Frame(s.queue[0])[..s.written])
  }

  ghost predicate RootsKnown(es: seq<Entry>, commits: map<Digest, Commit>) {
    forall k :: 0 <= k < |es| ==> es[k].root in commits
  }

  /** A recorded commit can be loaded now, and what it refers to is as it was then. */
  ghost predicate CommitOk(h: Hash, blobs: Blobs, root: Digest, c: Commit) {
    Stored(h, blobs, c.meta) && RootOf(h, c.meta) == root && Sound(c.blobs, c.meta) && Grows(c.blobs, blobs)
  }

  ghost predicate CommitsInv(h: Hash, s: State) {
    && (forall r :: r in s.commits ==> CommitOk(h, s.blobs, r, s.commits[r]))
    && RootsKnown(Logged(s), s.commits)
    && (s.pc.Rooted? ==> s.pc.root in s.commits)
  }

  ghost predicate ProgramInv(h: Hash, s: State) {
    && (s.mem.Some? ==> Sound(s.blobs, s.mem.value))
    && (s.mem.None? ==> s.pc.Idle? && s.queue == [] && s.done == [] && s.body == [])
    && (s.pc.Pushing? ==> Sound(s.blobs, s.pc.meta) && s.pc.pushed <= 7)
    && (s.pc.Pushing? ==> forall i :: 0 <= i < s.pc.pushed ==> Has(h, s.blobs, Pushes(h, s.pc.meta)[i]))
  }

  ghost predicate IndexInv(s: State) {
    s.mem.Some? ==> s.byVersion == ByVersion(Logged(s)) && s.byName == ByName(Logged(s))
  }

  /** Under PerOp the log ends in the root of the last completed commit, or of the current one once
      its record is written. */
  ghost predicate RecencyInv(s: State) {
    s.strategy.PerOp? && s.mem.Some? ==> Recent(s, LastRoot(Durable(s)))
  }

  ghost predicate Recent(s: State, root: Option<Digest>) {
    match s.pc
    case Rooted(r, _) => if s.queue == [] then root == Some(r) else s.queue == [RootUpdate(r)] && root == s.completed
    case Pushing(_, _, _) => s.queue == [] && root == s.completed
    case Idle => (s.queue == [] || (|s.queue| == 1 && s.queue[0].SnapshotRecord?)) && root == s.completed
  }

  ghost predicate Inv(h: Hash, s: State) {
    FileInv(s) && CommitsInv(h, s) && ProgramInv(h, s) && IndexInv(s) && VersionsAscend(Logged(s)) && RecencyInv(s)
  }

  // ------------------------------------------------------------ the file and the log

  /** The file never shows more than the records written in full: a torn one is not seen. */
  lemma OnDiskIsDurable(s: State)
    requires FileInv(s)
    ensures OnDisk(s) == Durable(s)
  {
    var rest := if s.queue == [] then [] else Frame(s.queue[0])[..s.written];
    RunReadsBack(s.done, rest);
    if s.queue != [] {
      CutFrameStops(Record(s.queue[0]), s.written);
    }
    Seqs.Units(s.done);
  }

  lemma FileAfterWrite(s: State, n: nat)
    requires FileInv(s) && s.queue != [] && 1 <= n <= |Unwritten(s)|
    ensures var body := s.body + Unwritten(s)[..n];
            if n < |Unwritten(s)| then body == Body(AsItems(s.done)) + Frame(s.queue[0])[..s.written + n]
            else body == Body(AsItems(s.done + [s.queue[0]]))
  {
    hide Frame, Body, AsItems;
    var done, f, w := Body(AsItems(s.done)), Frame(s.queue[0]), s.written;
    Seqs.Associative(done, f[..w], f[w..][..n]);
    Seqs.Extend(f, w, n);
    if n == |Unwritten(s)| {
      Seqs.Units(f);
      BodySnoc(s.done, s.queue[0]);
    }
  }

  lemma FileAfterLogging(s: State, s': State, e: Entry)
    requires FileInv(s) && Storable(e)
    requires s'.queue == s.queue + [e] && s'.done == s.done && s'.body == s.body && s'.written == s.written
    ensures FileInv(s')
  {
    hide Frame, Body, AsItems, Storable;
    assert |Frame(e)| >= 5 by { assert |ItemFrame(Record(e))| >= 5; }
  }

  lemma FileStepWrite(h: Hash, s: State, n: nat)
    requires FileInv(s) && Enabled(h, s, Write(n))
    ensures FileInv(Apply(h, s, Write(n)))
  {
    hide Frame, Body, AsItems, Storable;
    FileAfterWrite(s, n);
    Seqs.Units(Body(AsItems(s.done + [s.queue[0]])));
    if n == |Unwritten(s)| && |s.queue| > 1 {
      assert |Frame(s.queue[1])| >= 5 by { assert |ItemFrame(Record(s.queue[1]))| >= 5; }
    }
  }

  lemma FileStep(h: Hash, s: State, a: Action)
    requires FileInv(s) && Enabled(h, s, a)
    ensures FileInv(Apply(h, s, a))
  {
    hide NextVersion, Load, Mounted, ClosedEntries, MetaFits, NoClash, Sound, RootOf, FileInv;
    var s' := Apply(h, s, a);
    match a
    case Write(n) => FileStepWrite(h, s, n);
    case Kill => FreshFile(s');
    case LogRoot => FileAfterLogging(s, s', RootUpdate(s'.pc.root));
    case CommitRoot(v) => FileAfterLogging(s, s', RootUpdate(s'.pc.root));
    case LogSnapshot => FileAfterLogging(s, s', SnapshotEntry(s));
    case Mount => MountKeepsDisk(s); SameFile(s, s');
    case _ => SameFile(s, s');
  }

  lemma SameFile(s: State, s': State)
    requires FileInv(s)
    requires s'.queue == s.queue && s'.done == s.done && s'.body == s.body && s'.written == s.written
    ensures FileInv(s')
  {
  }

  lemma FreshFile(s: State)
    requires s.queue == [] && s.done == [] && s.body == [] && s.written == 0
    ensures FileInv(s)
  {
  }

  lemma MountKeepsDisk(s: State)
    ensures var s' := Mounted(s);
            s'.done == s.done && s'.queue == s.queue && s'.body == s.body && s'.written == s.written
            && s'.closed == s.closed && s'.blobs == s.blobs && s'.commits == s.commits && s'.pc == s.pc
            && s'.strategy == s.strategy
  {
    hide Load;
  }

  /** What each step adds to the log. */
  lemma LogStep(h: Hash, s: State, a: Action)
    requires FileInv(s) && Enabled(h, s, a)
    ensures var s' := Apply(h, s, a);
            match a
            case LogRoot => Logged(s') == Logged(s) + [RootUpdate(s'.pc.root)] && Durable(s') == Durable(s)
            case LogSnapshot => Logged(s') == Logged(s) + [SnapshotEntry(s)] && Durable(s') == Durable(s)
            case CommitRoot(v) => Logged(s') == Logged(s) + [RootUpdate(s'.pc.root)] && Durable(s') == Durable(s)
            case Write(n) =>
              Logged(s') == Logged(s)
              && Durable(s') == Durable(s) + (if n < |Unwritten(s)| then [] else [s.queue[0]])
            case Kill => Logged(s') == Durable(s') == Durable(s)
            case _ => Logged(s') == Logged(s) && Durable(s') == Durable(s)
  {
    hide Frame, Body, NextVersion, Load, Mounted, MetaFits, NoClash, Sound, RootOf;
    match a
    case LogRoot => Seqs.Associative(Durable(s), s.queue, [RootUpdate(Apply(h, s, a).pc.root)]);
    case CommitRoot(v) => Seqs.Associative(Durable(s), s.queue, [RootUpdate(Apply(h, s, a).pc.root)]);
    case LogSnapshot => Seqs.Associative(Durable(s), s.queue, [SnapshotEntry(s)]);
    case Write(n) =>
      Seqs.Units(Durable(s));
      Seqs.Associative(ClosedEntries(s.closed), s.done, [s.queue[0]]);
      Seqs.Associative(Durable(s), [s.queue[0]], s.queue[1..]);
      assert [s.queue[0]] + s.queue[1..] == s.queue;
    case Kill =>
      OnDiskIsDurable(s);
      Seqs.Parts(s.closed, [s.body]);
      Seqs.Units(ClosedEntries(s.closed + [s.body]));
    case Mount => MountKeepsDisk(s);
    case _ =>
  }

  // -------------------------------------------------------------- commits and memory

  lemma SoundGrows(a: Blobs, b: Blobs, m: Meta)
    requires Sound(a, m) && Grows(a, b)
    ensures Sound(b, m)
  {
    hide MetaFits;
    forall i | i in m.manifestData ensures ContentPresent(b, m.manifestData[i]) {
      assert ContentPresent(a, m.manifestData[i]);
    }
  }

  lemma CommitOkGrows(h: Hash, a: Blobs, b: Blobs, root: Digest, c: Commit)
    requires CommitOk(h, a, root, c) && Grows(a, b)
    ensures CommitOk(h, b, root, c)
  {
    hide Sound, Stored, RootOf;
    CommittedForGood(h, a, b, c.meta);
  }

  lemma CommitsGrow(h: Hash, s: State, s': State)
    requires CommitsInv(h, s) && Grows(s.blobs, s'.blobs) && s'.commits == s.commits
    ensures forall r :: r in s'.commits ==> CommitOk(h, s'.blobs, r, s'.commits[r])
  {
    hide CommitOk, Grows;
    forall r | r in s'.commits ensures CommitOk(h, s'.blobs, r, s'.commits[r]) {
      CommitOkGrows(h, s.blobs, s'.blobs, r, s.commits[r]);
    }
  }

  lemma BlobsOnlyGrow(h: Hash, s: State, a: Action)
    requires Enabled(h, s, a)
    ensures Grows(s.blobs, Apply(h, s, a).blobs)
  {
    hide NextVersion, Load, Mounted, ClosedEntries, MetaFits, Sound, RootOf, Pushes;
    match a
    case Push => PutGrowsIff(h, s.blobs, Pushes(h, s.pc.meta)[s.pc.pushed]);
    case Mount => MountKeepsDisk(s);
    case _ =>
  }

  /** The new commit of a `LogRoot` step. */
  lemma CommitIsStored(h: Hash, s: State)
    requires ProgramInv(h, s) && Enabled(h, s, LogRoot)
    ensures CommitOk(h, s.blobs, RootOf(h, s.pc.meta), Commit(s.pc.meta, s.blobs))
  {
    hide MetaFits, Present, RootRecord;
  }

  lemma IndexedRootKnown(es: seq<Entry>, commits: map<Digest, Commit>, v: u64)
    requires RootsKnown(es, commits) && v in ByVersion(es)
    ensures ByVersion(es)[v].root in commits
  {
    IndexKeys(es);
    var e := ByVersion(es)[v];
    var k :| 0 <= k < |es| && es[k] == e;
  }

  lemma RootsKnownSnoc(es: seq<Entry>, e: Entry, commits: map<Digest, Commit>)
    requires RootsKnown(es, commits) && e.root in commits
    ensures RootsKnown(es + [e], commits)
  {
  }

  lemma RootsKnownPrefix(a: seq<Entry>, b: seq<Entry>, commits: map<Digest, Commit>)
    requires RootsKnown(a + b, commits)
    ensures RootsKnown(a, commits)
  {
    forall k | 0 <= k < |a| ensures a[k].root in commits { assert (a + b)[k] == a[k]; }
  }

  lemma CommitsStepLogRoot(h: Hash, s: State)
    requires Inv(h, s) && Enabled(h, s, LogRoot)
    ensures CommitsInv(h, Apply(h, s, LogRoot))
  {
    hide CommitOk, MetaFits, FileInv, RootOf, Logged, IndexInv, VersionsAscend, RecencyInv;
    var s' := Apply(h, s, LogRoot);
    LogStep(h, s, LogRoot);
    CommitIsStored(h, s);
    RootsKnownSnoc(Logged(s), RootUpdate(s'.pc.root), s'.commits);
  }

  lemma CommitsStepOther(h: Hash, s: State, a: Action)
    requires Inv(h, s) && Enabled(h, s, a) && !a.LogRoot?
    ensures CommitsInv(h, Apply(h, s, a))
  {
    hide CommitOk, MetaFits, FileInv, RootOf, VersionsAscend, RecencyInv, NextVersion, Mounted, Sound, Pushes, NoClash,
         RootsKnown, Logged, Durable;
    var s' := Apply(h, s, a);
    LogStep(h, s, a);
    BlobsOnlyGrow(h, s, a);
    match a
    case LogSnapshot => RootsKnownSnoc(Logged(s), SnapshotEntry(s), s.commits);
    case CommitRoot(v) =>
      IndexedRootKnown(Logged(s), s.commits, v);
      RootsKnownSnoc(Logged(s), RootUpdate(s'.pc.root), s.commits);
    case Kill => DurableKnown(h, s);
    case Mount => MountKeepsDisk(s);
    case _ =>
    CommitsGrow(h, s, s');
  }

  lemma DurableKnown(h: Hash, s: State)
    requires CommitsInv(h, s)
    ensures RootsKnown(Durable(s), s.commits)
  {
    RootsKnownPrefix(Durable(s), s.queue, s.commits);
  }

  /** Mounting finds the state the last root was committed from. */
  lemma MountLoads(h: Hash, s: State)
    requires CommitsInv(h, s) && s.mem.None? && ProgramInv(h, s)
    ensures var root := LastRoot(ClosedEntries(s.closed));
            root.Some? ==> (root.value in s.commits
                            && Load(s.blobs, root.value) == Ok(s.commits[root.value].meta)
                            && Sound(s.blobs, s.commits[root.value].meta))
  {
    hide MetaFits, Load, Stored, Present;
    var log := ClosedEntries(s.closed);
    RootIsRecorded(log);
    Seqs.Units(log);
    var root := LastRoot(log);
    if root.Some? {
      var k :| 0 <= k < |log| && log[k] == RootUpdate(root.value);
      assert Logged(s)[k].root in s.commits;
      var c := s.commits[root.value];
      assert CommitOk(h, s.blobs, root.value, c);
      LoadOfCommit(h, s.blobs, c.meta);
      SoundGrows(c.blobs, s.blobs, c.meta);
    }
  }

  lemma ProgramStep(h: Hash, s: State, a: Action)
    requires CommitsInv(h, s) && ProgramInv(h, s) && Enabled(h, s, a)
    ensures ProgramInv(h, Apply(h, s, a))
  {
    hide MetaFits, RootOf, NextVersion, Load, ClosedEntries, Present, Pushes, CommitsInv, Grows, Has;
    var s' := Apply(h, s, a);
    match a
    case Mount => MountLoads(h, s);
    case Push =>
      BlobsOnlyGrow(h, s, a);
      SoundGrows(s.blobs, s'.blobs, s.pc.meta);
      if s.mem.Some? { SoundGrows(s.blobs, s'.blobs, s.mem.value); }
      PushKeepsPushed(h, s);
    case _ =>
  }

  lemma PushKeepsPushed(h: Hash, s: State)
    requires ProgramInv(h, s) && Enabled(h, s, Push)
    ensures var s' := Apply(h, s, Push);
            forall i :: 0 <= i < s'.pc.pushed ==> Has(h, s'.blobs, Pushes(h, s'.pc.meta)[i])
  {
    hide MetaFits, Present, Pushes;
    var s' := Apply(h, s, Push);
    PutGrowsIff(h, s.blobs, Pushes(h, s.pc.meta)[s.pc.pushed]);
    forall i | 0 <= i < s'.pc.pushed ensures Has(h, s'.blobs, Pushes(h, s'.pc.meta)[i]) {
      if i < s.pc.pushed { HasGrows(h, s.blobs, s'.blobs, Pushes(h, s.pc.meta)[i]); }
    }
  }

  // ------------------------------------------------------- indexes, versions, recency

  lemma IndexStep(h: Hash, s: State, a: Action)
    requires FileInv(s) && IndexInv(s) && ProgramInv(h, s) && Enabled(h, s, a)
    ensures IndexInv(Apply(h, s, a))
  {
    hide FileInv, MetaFits, RootOf, NextVersion, Load, Sound, NoClash, Logged, Durable, ByVersion, ByName, Frame,
         Unwritten;
    var s' := Apply(h, s, a);
    LogStep(h, s, a);
    match a
    case LogRoot => StepOf(Logged(s), RootUpdate(s'.pc.root));
    case CommitRoot(v) => StepOf(Logged(s), RootUpdate(s'.pc.root));
    case LogSnapshot => StepOf(Logged(s), SnapshotEntry(s));
    case Mount => MountIndexes(s);
    case _ =>
  }

  lemma MountIndexes(s: State)
    requires s.mem.None? && s.queue == [] && s.done == []
    ensures IndexInv(Mounted(s))
  {
    hide Load;
    Seqs.Units(ClosedEntries(s.closed));
  }

  lemma VersionsStep(h: Hash, s: State, a: Action)
    requires FileInv(s) && IndexInv(s) && ProgramInv(h, s) && VersionsAscend(Logged(s)) && Enabled(h, s, a)
    ensures VersionsAscend(Logged(Apply(h, s, a)))
  {
    hide FileInv, MetaFits, RootOf, NextVersion, Load, Mounted, Sound, NoClash, Durable, ByVersion, ByName,
         VersionsAscend, Frame, Unwritten;
    var s' := Apply(h, s, a);
    LogStep(h, s, a);
    match a
    case LogRoot => VersionsSnoc(Logged(s), RootUpdate(s'.pc.root));
    case CommitRoot(v) => VersionsSnoc(Logged(s), RootUpdate(s'.pc.root));
    case LogSnapshot =>
      NextVersionBounds(s.byVersion);
      VersionsSnoc(Logged(s), SnapshotEntry(s));
    case Kill => VersionsPrefix(Durable(s), s.queue);
    case _ =>
  }

  lemma RecencyStep(h: Hash, s: State, a: Action)
    requires FileInv(s) && ProgramInv(h, s) && RecencyInv(s) && Enabled(h, s, a)
    ensures RecencyInv(Apply(h, s, a))
  {
    hide FileInv, MetaFits, RootOf, NextVersion, Load, Sound, NoClash, Durable, Logged, LastRoot, Frame, Unwritten;
    LogStep(h, s, a);
    match a
    case Write(n) =>
      StepOf(Durable(s), s.queue[0]);
      Seqs.Units(Durable(s));
    case Mount => MountIsRecent(s);
    case _ =>
  }

  lemma MountIsRecent(s: State)
    requires s.mem.None? && s.queue == [] && s.done == [] && s.pc.Idle?
    ensures RecencyInv(Mounted(s))
  {
    hide Load;
    Seqs.Units(ClosedEntries(s.closed));
  }

  lemma InvStep(h: Hash, s: State, a: Action)
    requires Inv(h, s) && Enabled(h, s, a)
    ensures Inv(h, Apply(h, s, a))
  {
    hide FileInv, CommitsInv, ProgramInv, IndexInv, VersionsAscend, RecencyInv, Enabled, Apply;
    FileStep(h, s, a);
    if a.LogRoot? { CommitsStepLogRoot(h, s); } else { CommitsStepOther(h, s, a); }
    ProgramStep(h, s, a);
    IndexStep(h, s, a);
    VersionsStep(h, s, a);
    RecencyStep(h, s, a);
  }

  lemma InitialInv(h: Hash, s: State)
    requires Initial(s)
    ensures Inv(h, s)
  {
    hide Sound;
    FreshFile(s);
    assert ClosedEntries([]) == [];
  }

  // ------------------------------------------------------------------- whole runs

  ghost predicate Runs(h: Hash, s: State, acts: seq<Action>)
    decreases |acts|
  {
    acts == [] || (Enabled(h, s, acts[0]) && Runs(h, Apply(h, s, acts[0]), acts[1..]))
  }

  ghost function After(h: Hash, s: State, acts: seq<Action>): (s': State)
    requires Runs(h, s, acts)
    decreases |acts|
  {
    if acts == [] then s else After(h, Apply(h, s, acts[0]), acts[1..])
  }

  lemma {:induction false} InvAfter(h: Hash, s: State, acts: seq<Action>)
    requires Inv(h, s) && Runs(h, s, acts)
    ensures Inv(h, After(h, s, acts))
    decreases |acts|
  {
    hide Inv, Enabled, Apply;
    if acts != [] {
      InvStep(h, s, acts[0]);
      InvAfter(h, Apply(h, s, acts[0]), acts[1..]);
    }
  }

  lemma VisibleRootLoads(h: Hash, s: State, e: Entry)
    requires Inv(h, s) && e in OnDisk(s)
    ensures e.root in s.commits
    ensures var c := s.commits[e.root];
            Load(s.blobs, e.root) == Ok(c.meta) && Sound(c.blobs, c.meta) && Grows(c.blobs, s.blobs)
  {
    hide FileInv, Stored, Load, Present, MetaFits, RecencyInv, IndexInv, VersionsAscend, OnDisk, Durable;
    OnDiskIsDurable(s);
    DurableKnown(h, s);
    var log := Durable(s);
    var k :| 0 <= k < |log| && log[k] == e;
    var c := s.commits[e.root];
    assert CommitOk(h, s.blobs, e.root, c);
    LoadOfCommit(h, s.blobs, c.meta);
  }

  /** Under PerOp a kill loses no completed commit: replay finds the root of the last commit (or root
      switch) that returned, or of the one being logged. */
  lemma PerOpRecovery(h: Hash, s0: State, acts: seq<Action>)
    requires Initial(s0) && s0.strategy.PerOp? && Runs(h, s0, acts)
    ensures var s := After(h, s0, acts);
            s.mem.Some? ==> (LastRoot(OnDisk(s)) == s.completed
                             || (s.pc.Rooted? && LastRoot(OnDisk(s)) == Some(s.pc.root)))
  {
    hide Inv, Runs, After;
    InitialInv(h, s0);
    InvAfter(h, s0, acts);
    StrategyFixed(h, s0, acts);
    var s := After(h, s0, acts);
    if s.mem.Some? { RecentOnDisk(h, s); }
  }

  lemma RecentOnDisk(h: Hash, s: State)
    requires Inv(h, s) && s.strategy.PerOp? && s.mem.Some?
    ensures LastRoot(OnDisk(s)) == s.completed || (s.pc.Rooted? && LastRoot(OnDisk(s)) == Some(s.pc.root))
  {
    hide FileInv, CommitsInv, ProgramInv, IndexInv, VersionsAscend, OnDisk, Durable, LastRoot;
    OnDiskIsDurable(s);
  }

  lemma {:induction false} StrategyFixed(h: Hash, s: State, acts: seq<Action>)
    requires Runs(h, s, acts)
    ensures After(h, s, acts).strategy == s.strategy
    decreases |acts|
  {
    if acts != [] {
      StrategyStep(h, s, acts[0]);
      StrategyFixed(h, Apply(h, s, acts[0]), acts[1..]);
    }
  }

  lemma StrategyStep(h: Hash, s: State, a: Action)
    requires Enabled(h, s, a)
    ensures Apply(h, s, a).strategy == s.strategy
  {
    hide NextVersion, Load, ClosedEntries, MetaFits, Sound, RootOf, Pushes, NoClash;
  }

  /** The snapshot index agrees with the log: versions are unique and increasing, the indexes in
      memory are those of everything logged, and under PerOp, between operations, they are exactly
      what a fresh replay would rebuild. */
  lemma SnapshotIndexAgrees(h: Hash, s0: State, acts: seq<Action>)
    requires Initial(s0) && Runs(h, s0, acts)
    ensures var s := After(h, s0, acts);
            && VersionsAscend(OnDisk(s))
            && (s.mem.Some? ==> s.byVersion == ByVersion(Logged(s)) && s.byName == ByName(Logged(s)))
            && (s.mem.Some? && s.queue == [] ==> s.byVersion == ByVersion(OnDisk(s)) && s.byName == ByName(OnDisk(s)))
  {
    hide Inv, Runs, After;
    InitialInv(h, s0);
    InvAfter(h, s0, acts);
    IndexOnDisk(h, After(h, s0, acts));
  }

  lemma IndexOnDisk(h: Hash, s: State)
    requires Inv(h, s)
    ensures VersionsAscend(OnDisk(s))
    ensures s.mem.Some? ==> s.byVersion == ByVersion(Logged(s)) && s.byName == ByName(Logged(s))
    ensures s.mem.Some? && s.queue == [] ==> s.byVersion == ByVersion(OnDisk(s)) && s.byName == ByName(OnDisk(s))
  {
    hide FileInv, CommitsInv, ProgramInv, RecencyInv, OnDisk, Durable, ByVersion, ByName, VersionsAscend;
    OnDiskIsDurable(s);
    VersionsPrefix(Durable(s), s.queue);
    Seqs.Units(Durable(s));
  }

  // ------------------------------------------------------ what is on disk only grows

  lemma DiskOnlyGrows(h: Hash, s: State, a: Action)
    requires FileInv(s) && Enabled(h, s, a)
    ensures OnDisk(s) <= OnDisk(Apply(h, s, a))
  {
    hide FileInv, OnDisk, Durable, Apply, Enabled, Frame, Unwritten, Logged;
    FileStep(h, s, a);
    OnDiskIsDurable(s);
    OnDiskIsDurable(Apply(h, s, a));
    LogStep(h, s, a);
    Seqs.Units(Durable(s));
  }

  lemma FileOfInv(h: Hash, s: State)
    requires Inv(h, s)
    ensures FileInv(s)
  {
    hide FileInv, CommitsInv, ProgramInv, IndexInv, VersionsAscend, RecencyInv;
  }

  lemma PrefixMember(a: seq<Entry>, b: seq<Entry>, e: Entry)
    requires a <= b && e in a
    ensures e in b
  {
    var k :| 0 <= k < |a| && a[k] == e;
    assert b[k] == e;
  }
}
