/** Root switches in the life of a store. */
module SwitchLives {
  import opened ByteCodec
  import opened Segment
  import opened SegmentWriting
  import opened Replay
  import opened Cas
  import opened Gc
  import opened GcRuns
  import opened Lifetimes
  import opened SnapshotSwitch
  import opened Utf8
  import C = Crash
  import Persist
  import Seqs

  /** The session a switch leaves behind. */
  function SwitchSession(es: seq<Entry>): (op: Op) {
    Session(Body(AsItems(es)))
  }

  lemma SwitchIsStorable(current: Digest, version: u64, createdAt: u64, target: Digest)
    ensures Entries(Body(AsItems(SwitchRecords(current, version, createdAt, target))))
         == SwitchRecords(current, version, createdAt, target)
  {
    hide Entries, Body, AsItems, ValidUtf8;
    var es := SwitchRecords(current, version, createdAt, target);
    AutoNameIsText();
    RunReadsBack(es, []);
    Seqs.Units(Body(AsItems(es)));
    assert Entries([]) == [] by { NothingRead(); }
    Seqs.Units(es);
  }

  lemma NothingRead()
    ensures Entries([]) == []
  {
  }

  lemma {:induction false} AsciiIsText(b: Bytes)
    requires forall k :: 0 <= k < |b| ==> b[k] < 128
    ensures ValidUtf8(b)
  {
    if b != [] {
      AsciiIsText(b[1..]);
    }
  }

  lemma AutoNameIsText()
    ensures ValidUtf8(AUTO_NAME)
  {
    hide ValidUtf8;
    AsciiIsText(AUTO_NAME);
  }

  /** What a switch needs of the log holds in every life of a store. */
  lemma SwitchMayRun(h: Hash, w: World)
    requires Inv(h, w) && Unmounted(w)
    ensures var log := C.ClosedEntries(w.c.closed);
            && CommittedLog(h, log, w.c.blobs, w.c.commits) && VersionsAscend(log)
            && ReplayDir(RunDir(w.ops)).Ok? && SeenIn(ReplayDir(RunDir(w.ops)).value) == SeenIn(log)
  {
    hide DiskInv, ShownInv, LiveInv, C.FileInv, C.IndexInv, C.RecencyInv, VersionsAscend, C.CommitOk, C.Sound, SeenIn,
         ReplayDir, RunDir;
    DirectoryMeans(w);
    Seqs.Units(C.ClosedEntries(w.c.closed));
  }

  /** The directory after a switch: the logical log with the records of the switch behind it. */
  lemma SwitchedDirectory(w: World, es: seq<Entry>)
    requires DiskInv(w) && Entries(Body(AsItems(es))) == es && WithinLimits(w.ops + [SwitchSession(es)])
    ensures var dir := RunDir(w.ops + [SwitchSession(es)]);
            ReplayDir(dir).Ok? && SeenIn(ReplayDir(dir).value) == SeenIn(C.ClosedEntries(w.c.closed) + es)
  {
    hide RunDir, ReplayDir, SeenIn, Laid, Flatten, Entries, Body, AsItems, C.ClosedEntries;
    var ops := w.ops + [SwitchSession(es)];
    Seqs.Parts(w.ops, [SwitchSession(es)]);
    assert ValidRun(ops) && Logs(ops) == Logs(w.ops) + [es];
    RunKeepsLayout(ops);
    ReplayMeansLog(RunDir(ops), Logs(ops), Levels(ops));
    FlattenSnoc(Logs(w.ops), es);
  }

  /** Switching an unmounted store, however it lived before, to the snapshot `reference` names: a
      mount then comes up in the state that snapshot was taken of. The state before the switch is
      kept, under the next version and the automatic name; every earlier version and every other
      name resolve as before. */
  lemma SwitchAfterAnyLife(h: Hash, w0: World, events: seq<Event>, reference: Bytes, createdAt: u64)
    requires Begins(h, w0) && Runs(h, w0, events) && Unmounted(After(h, w0, events))
    requires ReplayDir(RunDir(After(h, w0, events).ops)).Ok?
    requires var w := After(h, w0, events);
             var r := SwitchEntries(h, ReplayDir(RunDir(w.ops)).value, w.c.blobs, reference, createdAt);
             r.Ok? && WithinLimits(w.ops + [SwitchSession(r.value)])
    ensures var w := After(h, w0, events);
            var es := SwitchEntries(h, ReplayDir(RunDir(w.ops)).value, w.c.blobs, reference, createdAt).value;
            var dir := RunDir(w.ops + [SwitchSession(es)]);
            ReplayDir(dir).Ok? && SwitchedTo(h, w, SeenIn(ReplayDir(dir).value), reference)
  {
    hide Inv, Runs, After, Begins, Found, RunDir, ReplayDir, SwitchEntries, SwitchedTo, C.ClosedEntries, Unmounted,
         CommittedLog, VersionsAscend, SwitchSession, LastRoot, ByVersion, ByName;
    var w := After(h, w0, events);
    BeginsInv(h, w0);
    InvAfter(h, w0, events);
    SwitchMayRun(h, w);
    var log := C.ClosedEntries(w.c.closed);
    SwitchReadsMeaning(h, ReplayDir(RunDir(w.ops)).value, log, w.c.blobs, reference, createdAt);
    SwitchDoes(h, w, reference, createdAt);
  }

  /** What a mount finds after a switch, against what it would have found before. */
  ghost predicate Switched(h: Hash, w: World, before: Seen, after: Seen, target: Option<Entry>, version: int) {
    && target.Some? && after.root == Some(target.value.root) && Kept(h, w, target.value.root)
    && before.root.Some? && Kept(h, w, before.root.value)
    && Saved(before, after, version, before.root.value) && NamesKept(before, after, version)
  }

  /** The former root has the new version, and the earlier versions are as they were. */
  ghost predicate Saved(before: Seen, after: Seen, version: int, root: Digest) {
    && version in after.byVersion && after.byVersion[version].root == root
    && forall v :: v in before.byVersion ==> v in after.byVersion && after.byVersion[v] == before.byVersion[v]
  }

  ghost predicate NamesKept(before: Seen, after: Seen, version: int) {
    0 <= version < U64_LIMIT && after.byName == before.byName[AUTO_NAME := version]
  }

  ghost predicate SwitchedTo(h: Hash, w: World, after: Seen, reference: Bytes) {
    var before := Found(w);
    Switched(h, w, before, after, FindSnapshot(before.byVersion, before.byName, reference),
        C.NextVersion(before.byVersion))
  }

  lemma SwitchDoes(h: Hash, w: World, reference: Bytes, createdAt: u64)
    requires Inv(h, w) && Unmounted(w)
    requires var r := SwitchEntries(h, C.ClosedEntries(w.c.closed), w.c.blobs, reference, createdAt);
             r.Ok? && WithinLimits(w.ops + [SwitchSession(r.value)])
    ensures var es := SwitchEntries(h, C.ClosedEntries(w.c.closed), w.c.blobs, reference, createdAt).value;
            var dir := RunDir(w.ops + [SwitchSession(es)]);
            ReplayDir(dir).Ok? && SwitchedTo(h, w, SeenIn(ReplayDir(dir).value), reference)
  {
    hide DiskInv, ShownInv, LiveInv, C.Inv, RunDir, ReplayDir, C.ClosedEntries, CommittedLog, VersionsAscend, LastRoot,
         ByVersion, ByName, Kept, Persist.Load, C.NextVersion, SwitchSession, SwitchEntries, FindSnapshot;
    var log := C.ClosedEntries(w.c.closed);
    var es := SwitchEntries(h, log, w.c.blobs, reference, createdAt).value;
    SwitchMayRun(h, w);
    SwitchWorks(h, log, w.c.blobs, w.c.commits, reference, createdAt);
    SwitchReadsBack(h, log, w.c.blobs, reference, createdAt);
    SwitchedDirectory(w, es);
    KnownIsKept(h, w, LastRoot(log).value);
    KnownIsKept(h, w, FindSnapshot(ByVersion(log), ByName(log), reference).value.root);
  }

  lemma SwitchReadsBack(h: Hash, log: seq<Entry>, blobs: Blobs, reference: Bytes, createdAt: u64)
    requires SwitchEntries(h, log, blobs, reference, createdAt).Ok?
    ensures var es := SwitchEntries(h, log, blobs, reference, createdAt).value; Entries(Body(AsItems(es))) == es
    ensures LastRoot(log).Some? && FindSnapshot(ByVersion(log), ByName(log), reference).Some?
  {
    hide LastRoot, ByVersion, ByName, Persist.Load, Persist.RootOf, Persist.MetaFits, C.NextVersion, Entries, Body,
         AsItems, FindSnapshot;
    var es := SwitchEntries(h, log, blobs, reference, createdAt).value;
    SwitchIsStorable(es[0].root, es[1].version, createdAt, es[2].root);
  }

  lemma KnownIsKept(h: Hash, w: World, root: Digest)
    requires Inv(h, w) && root in w.c.commits
    ensures Kept(h, w, root)
  {
    hide C.Inv, DiskInv, LiveInv, Shows, Persist.Load, LoadedLive;
    LoadedIsLive(h, w.c.blobs, root, w.shown[root]);
  }
}
