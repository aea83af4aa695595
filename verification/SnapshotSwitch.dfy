/** Finding snapshots by version or name, and switching the live root to one of them. */
module SnapshotSwitch {
  import opened ByteCodec
  import opened Segment
  import opened Replay
  import opened Cas
  import opened Persist
  import opened Crash

  // ------------------------------------------------------------------ finding

  /** The value of a run of decimal digits. */
  function DigitsValue(b: Bytes): (r: Option<nat>) {
    if b == [] then None
    else if !(48 <= b[|b| - 1] <= 57) then None
    else if |b| == 1 then Some(b[0] - 48)
    else
      var front := DigitsValue(b[..|b| - 1]);
      if front.None? then None else Some(front.value * 10 + (b[|b| - 1] - 48))
  }

  /** `str::parse::<u64>`: digits, perhaps after a plus sign, that fit 64 bits. */
  function ParseU64(b: Bytes): (r: Option<u64>) {
    var v := DigitsValue(if b != [] && b[0] == 43 then b[1..] else b);
    if v.Some? && v.value < U64_LIMIT then Some(v.value) else None
  }

  /** `find_snapshot`: a number is a version, anything else a name. */
  function FindSnapshot(byVersion: map<u64, Entry>, byName: map<Bytes, u64>, reference: Bytes): (r: Option<Entry>) {
    match ParseU64(reference)
    case Some(v) => if v in byVersion then Some(byVersion[v]) else None
    case None =>
      if reference in byName && byName[reference] in byVersion then Some(byVersion[byName[reference]]) else None
  }

  ghost predicate Named(e: Entry, n: Bytes) {
    e.SnapshotRecord? && e.name == Some(n)
  }

  /** The name index holds the version of the last record with that name. */
  lemma {:induction false} LatestNamed(es: seq<Entry>, n: Bytes) returns (i: nat)
    requires n in ByName(es)
    ensures i < |es| && Named(es[i], n) && ByName(es)[n] == es[i].version
    ensures forall j :: i < j < |es| ==> !Named(es[j], n)
  {
    var front, last := es[..|es| - 1], es[|es| - 1];
    if Named(last, n) {
      i := |es| - 1;
    } else {
      i := LatestNamed(front, n);
    }
  }

  /** What `find_snapshot` answers after a replay of `es`: the record with that version, or the last
      record with that name. */
  lemma FindMeans(es: seq<Entry>, reference: Bytes, e: Entry)
    requires VersionsAscend(es)
    ensures FindSnapshot(ByVersion(es), ByName(es), reference) == Some(e) <==> FoundIn(es, reference, e)
  {
    var found := FindSnapshot(ByVersion(es), ByName(es), reference);
    IndexKeys(es);
    if ParseU64(reference).Some? {
      var v := ParseU64(reference).value;
      if found == Some(e) {
        var i :| 0 <= i < |es| && es[i] == e;
      }
      if FoundIn(es, reference, e) {
        var i :| 0 <= i < |es| && es[i] == e && e.SnapshotRecord? && e.version == v;
        OneRecordPerVersion(es, i);
      }
    } else {
      if reference in ByName(es) {
        var i := LatestNamed(es, reference);
        OneRecordPerVersion(es, i);
        assert LastNamedAt(es, reference, i);
        if FoundIn(es, reference, e) {
          var j :| LastNamedAt(es, reference, j) && es[j] == e;
          assert i == j;
        }
      }
      if FoundIn(es, reference, e) {
        var j :| LastNamedAt(es, reference, j) && es[j] == e;
        assert es[j] in es;
      }
    }
  }

  ghost predicate LastNamedAt(es: seq<Entry>, n: Bytes, i: int) {
    0 <= i < |es| && Named(es[i], n) && forall j :: i < j < |es| ==> !Named(es[j], n)
  }

  ghost predicate FoundIn(es: seq<Entry>, reference: Bytes, e: Entry) {
    match ParseU64(reference)
    case Some(v) => exists i :: 0 <= i < |es| && es[i] == e && e.SnapshotRecord? && e.version == v
    case None => exists i :: LastNamedAt(es, reference, i) && es[i] == e
  }

  // ---------------------------------------------------------------- switching

  datatype SwitchError = NoCommittedState | CannotLoad | SnapshotNotFound | VersionOverflow

  /** The bytes of "auto-before-switch". */
  const AUTO_NAME: Bytes := [97, 117, 116, 111, 45, 98, 101, 102, 111, 114, 101, 45, 115, 119, 105, 116, 99, 104]

  /** The current state is committed and kept as a snapshot; then the target becomes the root. */
  function SwitchRecords(current: Digest, version: u64, createdAt: u64, target: Digest): (es: seq<Entry>) {
    [RootUpdate(current), SnapshotRecord(version, current, createdAt, Some(AUTO_NAME)), RootUpdate(target)]
  }

  /** What a switch logs once the current state `m` is loaded. */
  ghost function SwitchFrom(h: Hash, log: seq<Entry>, m: Meta, reference: Bytes, createdAt: u64)
    : (r: Result<seq<Entry>, SwitchError>)
  {
    var target := FindSnapshot(ByVersion(log), ByName(log), reference);
    var version := NextVersion(ByVersion(log));
    if target.None? then Err(SnapshotNotFound)
    else if !(0 <= version < U64_LIMIT) || !MetaFits(m) then Err(VersionOverflow)
    else Ok(SwitchRecords(RootOf(h, m), version, createdAt, target.value.root))
  }

  /** `run_snapshot_switch`: what it appends to the log of an unmounted store. */
  ghost function SwitchEntries(h: Hash, log: seq<Entry>, blobs: Blobs, reference: Bytes, createdAt: u64)
    : (r: Result<seq<Entry>, SwitchError>)
  {
    var root := LastRoot(log);
    if root.None? then Err(NoCommittedState)
    else
      match Load(blobs, root.value)
      case Err(_) => Err(CannotLoad)
      case Ok(m) => SwitchFrom(h, log, m, reference, createdAt)
  }

  /** Every root of the log is that of a stored commit. */
  ghost predicate CommittedLog(h: Hash, log: seq<Entry>, blobs: Blobs, commits: map<Digest, Commit>) {
    RootsKnown(log, commits) && forall r :: r in commits ==> CommitOk(h, blobs, r, commits[r])
  }

  /** Switching: after a fresh replay the live state is the target's, the state before the switch is
      found under the new version and the automatic name with the very root it had, and every earlier
      version and every other name resolve as before. */
  lemma SwitchWorks(h: Hash, log: seq<Entry>, blobs: Blobs, commits: map<Digest, Commit>, reference: Bytes,
      createdAt: u64)
    requires CommittedLog(h, log, blobs, commits) && VersionsAscend(log)
    requires SwitchEntries(h, log, blobs, reference, createdAt).Ok?
    ensures var log' := log + SwitchEntries(h, log, blobs, reference, createdAt).value;
            var target := FindSnapshot(ByVersion(log), ByName(log), reference).value;
            var live, version := LastRoot(log).value, NextVersion(ByVersion(log));
            && LastRoot(log') == Some(target.root)
            && target.root in commits && Load(blobs, target.root) == Ok(commits[target.root].meta)
            && version in ByVersion(log') && ByVersion(log')[version].root == live
            && live in commits && Load(blobs, live) == Ok(commits[live].meta)
            && (forall v :: v in ByVersion(log) ==> v in ByVersion(log') && ByVersion(log')[v] == ByVersion(log)[v])
            && ByName(log') == ByName(log)[AUTO_NAME := version]
            && VersionsAscend(log')
  {
    hide CommitOk, Load, RootOf, MetaFits, ByVersion, ByName, LastRoot, NextVersion, VersionsAscend, RootsKnown;
    var live := LastRoot(log).value;
    var target := FindSnapshot(ByVersion(log), ByName(log), reference).value;
    LiveRootKnown(h, log, blobs, commits);
    var m := commits[live].meta;
    NextVersionBounds(ByVersion(log));
    assert target.root in commits by { FoundRootKnown(log, commits, reference); }
    RootLoads(h, blobs, target.root, commits[target.root]);
    RootLoads(h, blobs, live, commits[live]);
    var es := SwitchEntries(h, log, blobs, reference, createdAt).value;
    assert es == [RootUpdate(live), es[1], RootUpdate(target.root)];
    ThreeMore(log, es[0], es[1], es[2]);
  }

  lemma RootLoads(h: Hash, blobs: Blobs, root: Digest, c: Commit)
    requires CommitOk(h, blobs, root, c)
    ensures MetaFits(c.meta) && RootOf(h, c.meta) == root && Load(blobs, root) == Ok(c.meta)
  {
    hide Load, RootOf, Present;
    LoadOfCommit(h, blobs, c.meta);
  }

  lemma LiveRootKnown(h: Hash, log: seq<Entry>, blobs: Blobs, commits: map<Digest, Commit>)
    requires CommittedLog(h, log, blobs, commits) && LastRoot(log).Some?
    ensures LastRoot(log).value in commits
  {
    RootIsRecorded(log);
    var k :| 0 <= k < |log| && log[k] == RootUpdate(LastRoot(log).value);
    assert log[k].root in commits;
  }

  lemma FoundRootKnown(log: seq<Entry>, commits: map<Digest, Commit>, reference: Bytes)
    requires RootsKnown(log, commits) && FindSnapshot(ByVersion(log), ByName(log), reference).Some?
    ensures FindSnapshot(ByVersion(log), ByName(log), reference).value.root in commits
  {
    hide ByVersion, ByName, RootsKnown;
    var v := if ParseU64(reference).Some? then ParseU64(reference).value else ByName(log)[reference];
    IndexedRootKnown(log, commits, v);
  }

  /** The effect of the three entries of a switch on what a log means. */
  lemma ThreeMore(log: seq<Entry>, a: Entry, b: Entry, c: Entry)
    requires a.RootUpdate? && c.RootUpdate? && b.SnapshotRecord? && VersionsAscend(log)
    requires forall v :: v in ByVersion(log) ==> v < b.version
    ensures var log' := log + [a, b, c];
            && LastRoot(log') == Some(c.root) && ByVersion(log') == ByVersion(log)[b.version := b]
                && VersionsAscend(log')
            && ByName(log') == if b.name.Some? then ByName(log)[b.name.value := b.version] else ByName(log)
  {
    hide ByVersion, ByName, LastRoot, VersionsAscend;
    StepOf(log, a);
    StepOf(log + [a], b);
    StepOf(log + [a] + [b], c);
    VersionsSnoc(log, a);
    VersionsSnoc(log + [a], b);
    VersionsSnoc(log + [a] + [b], c);
    assert log + [a] + [b] + [c] == log + [a, b, c];
  }

  /** A switch reads of the log only what a replay of it means. */
  lemma SwitchReadsMeaning(h: Hash, log: seq<Entry>, log': seq<Entry>, blobs: Blobs, reference: Bytes, createdAt: u64)
    requires LastRoot(log) == LastRoot(log') && ByVersion(log) == ByVersion(log') && ByName(log) == ByName(log')
    ensures SwitchEntries(h, log, blobs, reference, createdAt) == SwitchEntries(h, log', blobs, reference, createdAt)
  {
    hide LastRoot, ByVersion, ByName, Load, RootOf, MetaFits, NextVersion;
  }
}
