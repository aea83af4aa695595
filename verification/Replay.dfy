/** What a log means: the last root it records and the two snapshot indexes built from it. */
module Replay {
  import opened ByteCodec
  import opened Segment
  import Seqs

  /** The digest of the last root update. */
  function LastRoot(es: seq<Entry>): (r: Option<Digest>) {
    if es == [] then None
    else
      var e := es[|es| - 1];
      if e.RootUpdate? then Some(e.root) else LastRoot(es[..|es| - 1])
  }

  /** The snapshot records, in log order. */
  function Snapshots(es: seq<Entry>): (ss: seq<Entry>)
    ensures forall k :: 0 <= k < |ss| ==> ss[k].SnapshotRecord?
  {
    if es == [] then []
    else
      var e := es[|es| - 1];
      Snapshots(es[..|es| - 1]) + (if e.SnapshotRecord? then [e] else [])
  }

  /** Snapshot index by version: a later record replaces an earlier one. */
  function ByVersion(es: seq<Entry>): (m: map<u64, Entry>) {
    if es == [] then map[]
    else
      var e := es[|es| - 1];
      var m := ByVersion(es[..|es| - 1]);
      if e.SnapshotRecord? then m[e.version := e] else m
  }

  /** Index from name to version: a later record replaces an earlier one. */
  function ByName(es: seq<Entry>): (m: map<Bytes, u64>) {
    if es == [] then map[]
    else
      var e := es[|es| - 1];
      var m := ByName(es[..|es| - 1]);
      if e.SnapshotRecord? && e.name.Some? then m[e.name.value := e.version] else m
  }

  // ------------------------------------------------- the running form of each fold

  lemma StepOf(es: seq<Entry>, e: Entry)
    ensures LastRoot(es + [e]) == if e.RootUpdate? then Some(e.root) else LastRoot(es)
    ensures Snapshots(es + [e]) == Snapshots(es) + (if e.SnapshotRecord? then [e] else [])
    ensures ByVersion(es + [e]) == if e.SnapshotRecord? then ByVersion(es)[e.version := e] else ByVersion(es)
    ensures ByName(es + [e])
         == if e.SnapshotRecord? && e.name.Some? then ByName(es)[e.name.value := e.version] else ByName(es)
  {
    Seqs.Parts(es, [e]);
  }

  lemma AppendLast<T>(a: seq<T>, b: seq<T>)
    requires b != []
    ensures (a + b)[..|a + b| - 1] == a + b[..|b| - 1]
    ensures (a + b)[|a + b| - 1] == b[|b| - 1]
  {
  }

  lemma {:induction false} LastRootAppend(a: seq<Entry>, b: seq<Entry>)
    ensures LastRoot(a + b) == if LastRoot(b).Some? then LastRoot(b) else LastRoot(a)
  {
    if b == [] {
      Seqs.Units(a);
    } else {
      AppendLast(a, b);
      LastRootAppend(a, b[..|b| - 1]);
    }
  }

  lemma {:induction false} IndexAppend(a: seq<Entry>, b: seq<Entry>)
    ensures ByVersion(a + b) == ByVersion(a) + ByVersion(b)
    ensures ByName(a + b) == ByName(a) + ByName(b)
  {
    if b == [] {
      Seqs.Units(a);
    } else {
      AppendLast(a, b);
      IndexAppend(a, b[..|b| - 1]);
    }
  }

  lemma {:induction false} SnapshotsAppend(a: seq<Entry>, b: seq<Entry>)
    ensures Snapshots(a + b) == Snapshots(a) + Snapshots(b)
  {
    if b == [] {
      Seqs.Units(a);
      Seqs.Units(Snapshots(a));
    } else {
      AppendLast(a, b);
      SnapshotsAppend(a, b[..|b| - 1]);
      var tail := if b[|b| - 1].SnapshotRecord? then [b[|b| - 1]] else [];
      Seqs.Associative(Snapshots(a), Snapshots(b[..|b| - 1]), tail);
    }
  }

  // ----------------------------------------------- what the indexes hold, by membership

  ghost predicate Within(a: seq<Entry>, b: seq<Entry>) {
    forall k :: 0 <= k < |a| ==> a[k] in b
  }

  lemma {:induction false} IndexKeys(es: seq<Entry>)
    ensures forall e :: e in es && e.SnapshotRecord? ==> e.version in ByVersion(es)
    ensures forall e :: e in es && e.SnapshotRecord? && e.name.Some? ==> e.name.value in ByName(es)
    ensures forall v :: v in ByVersion(es) ==>
              ByVersion(es)[v] in es && ByVersion(es)[v].SnapshotRecord? && ByVersion(es)[v].version == v
    ensures forall n :: n in ByName(es) ==>
              exists e :: e in es && e.SnapshotRecord? && e.name == Some(n) && e.version == ByName(es)[n]
  {
    if es != [] {
      var front, last := es[..|es| - 1], es[|es| - 1];
      IndexKeys(front);
      Seqs.SplitLast(es);
      assert forall e :: e in es <==> e in front || e == last;
    }
  }

  lemma {:induction false} RootIsRecorded(es: seq<Entry>)
    ensures forall e :: e in es && e.RootUpdate? ==> LastRoot(es).Some?
    ensures LastRoot(es).Some? ==> RootUpdate(LastRoot(es).value) in es
  {
    if es != [] {
      RootIsRecorded(es[..|es| - 1]);
      Seqs.SplitLast(es);
    }
  }

  /** Replaying a log after entries it repeats changes neither the root nor the indexes. */
  lemma RepeatedPrefix(pre: seq<Entry>, log: seq<Entry>)
    requires Within(pre, log)
    ensures LastRoot(pre + log) == LastRoot(log)
    ensures ByVersion(pre + log) == ByVersion(log)
    ensures ByName(pre + log) == ByName(log)
  {
    LastRootAppend(pre, log);
    IndexAppend(pre, log);
    RootIsRecorded(pre);
    RootIsRecorded(log);
    RepeatedKeys(pre, log);
  }

  lemma RepeatedKeys(pre: seq<Entry>, log: seq<Entry>)
    requires Within(pre, log)
    ensures ByVersion(pre).Keys <= ByVersion(log).Keys
    ensures ByName(pre).Keys <= ByName(log).Keys
  {
    IndexKeys(pre);
    IndexKeys(log);
    forall v | v in ByVersion(pre) ensures v in ByVersion(log) {
      var e := ByVersion(pre)[v];
      var k :| 0 <= k < |pre| && pre[k] == e;
      assert e in log;
    }
    forall n | n in ByName(pre) ensures n in ByName(log) {
      var e :| e in pre && e.SnapshotRecord? && e.name == Some(n) && e.version == ByName(pre)[n];
      var k :| 0 <= k < |pre| && pre[k] == e;
      assert e in log;
    }
  }

  /** The two snapshot indexes of a store, rebuilt from a replayed list (`set_snapshots`). */
  method SetSnapshots(snapshots: seq<Entry>) returns (byVersion: map<u64, Entry>, byName: map<Bytes, u64>)
    requires forall k :: 0 <= k < |snapshots| ==> snapshots[k].SnapshotRecord?
    ensures byVersion == ByVersion(snapshots)
    ensures byName == ByName(snapshots)
  {
    byVersion, byName := map[], map[];
    for i := 0 to |snapshots|
      invariant byVersion == ByVersion(snapshots[..i])
      invariant byName == ByName(snapshots[..i])
    {
      var s := snapshots[i];
      assert snapshots[..i + 1] == snapshots[..i] + [s];
      StepOf(snapshots[..i], s);
      byVersion := byVersion[s.version := s];
      if s.name.Some? {
        byName := byName[s.name.value := s.version];
      }
    }
    Seqs.Units(snapshots);
  }

  /** Indexing the collected snapshot records is indexing the log. */
  lemma {:induction false} IndexOfSnapshots(es: seq<Entry>)
    ensures ByVersion(Snapshots(es)) == ByVersion(es)
    ensures ByName(Snapshots(es)) == ByName(es)
  {
    if es != [] {
      var front, last := es[..|es| - 1], es[|es| - 1];
      IndexOfSnapshots(front);
      if last.SnapshotRecord? {
        StepOf(Snapshots(front), last);
      } else {
        Seqs.Units(Snapshots(front));
      }
    }
  }

  // -------------------------------------------------------- ascending versions

  /** Snapshot versions in a log are strictly increasing. */
  ghost predicate VersionsAscend(es: seq<Entry>) {
    forall i, j :: 0 <= i < j < |es| && es[i].SnapshotRecord? && es[j].SnapshotRecord? ==> es[i].version < es[j].version
  }

  lemma VersionsPrefix(a: seq<Entry>, b: seq<Entry>)
    requires VersionsAscend(a + b)
    ensures VersionsAscend(a)
  {
    forall i, j | 0 <= i < j < |a| && a[i].SnapshotRecord? && a[j].SnapshotRecord? ensures a[i].version < a[j].version {
      assert (a + b)[i] == a[i] && (a + b)[j] == a[j];
    }
  }

  lemma VersionsSnoc(es: seq<Entry>, e: Entry)
    requires VersionsAscend(es)
    requires e.SnapshotRecord? ==> forall v :: v in ByVersion(es) ==> v < e.version
    ensures VersionsAscend(es + [e])
  {
    hide ByVersion;
    IndexKeys(es);
    var q := es + [e];
    forall i, j | 0 <= i < j < |q| && q[i].SnapshotRecord? && q[j].SnapshotRecord? ensures q[i].version < q[j].version {
      if j == |es| { assert q[i] in es; }
    }
  }

  /** With ascending versions the version index holds, for each version, its one record. */
  lemma {:induction false} OneRecordPerVersion(es: seq<Entry>, i: nat)
    requires VersionsAscend(es) && i < |es| && es[i].SnapshotRecord?
    ensures es[i].version in ByVersion(es) && ByVersion(es)[es[i].version] == es[i]
  {
    var front, last := es[..|es| - 1], es[|es| - 1];
    if i < |es| - 1 {
      Seqs.SplitLast(es);
      VersionsPrefix(front, [last]);
      OneRecordPerVersion(front, i);
      assert last.SnapshotRecord? ==> es[i].version < last.version;
    }
  }

  /** Records seen before do not change the version index of a log with ascending versions. */
  lemma SameVersions(log: seq<Entry>, more: seq<Entry>)
    requires VersionsAscend(log) && Within(more, log)
    ensures ByVersion(log) + ByVersion(more) == ByVersion(log)
  {
    hide ByVersion, VersionsAscend;
    IndexKeys(more);
    forall v | v in ByVersion(more) ensures v in ByVersion(log) && ByVersion(log)[v] == ByVersion(more)[v] {
      var e := ByVersion(more)[v];
      var k :| 0 <= k < |more| && more[k] == e;
      var i :| 0 <= i < |log| && log[i] == e;
      OneRecordPerVersion(log, i);
    }
  }
}
