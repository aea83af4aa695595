/** The snapshot indexes of a mounted store, kept in step with the log it writes. */
module SnapshotIndex {
  import opened ByteCodec
  import opened Segment
  import opened Replay
  import opened SnapshotSwitch
  import Crash
  import Gc
  import Ordered
  import Seqs

  class Catalog {
    var byVersion: map<u64, Entry>
    var byName: map<Bytes, u64>
    var lastRoot: Option<Digest>
    /** Everything in the log: what was replayed, and what was logged since. */
    ghost var log: seq<Entry>

    ghost predicate Valid()
      reads this
    {
      byVersion == ByVersion(log) && byName == ByName(log)
    }

    /** `set_snapshots`, after a replay of `replayed`. */
    constructor (root: Option<Digest>, snapshots: seq<Entry>, ghost replayed: seq<Entry>)
      requires root == LastRoot(replayed) && snapshots == Snapshots(replayed)
      ensures Valid() && log == replayed && lastRoot == root
    {
      var versions, names := SetSnapshots(snapshots);
      IndexOfSnapshots(replayed);
      byVersion, byName, lastRoot, log := versions, names, root, replayed;
    }

    /** `by_ver.keys().max() + 1`, from 1 for the first snapshot. */
    method NextVersion() returns (v: nat)
      ensures v == Crash.NextVersion(byVersion)
    {
      var rest := byVersion.Keys;
      v := 0;
      ghost var seen: set<int> := {};
      while rest != {}
        invariant seen + rest == byVersion.Keys && (v == 0 || v in byVersion) && forall x :: x in seen ==> x <= v
        decreases rest
      {
        var x :| x in rest;
        if x > v { v := x; }
        seen, rest := seen + {x}, rest - {x};
      }
      LargestIs(byVersion, v);
      v := v + 1;
    }

    method LogRoot(root: Digest)
      requires Valid()
      modifies this`log, this`lastRoot
      ensures Valid() && log == old(log) + [RootUpdate(root)] && lastRoot == Some(root)
    {
      lastRoot := Some(root);
      StepOf(log, RootUpdate(root));
      log := log + [RootUpdate(root)];
    }

    /** `create_snapshot`, where `root` is what its commit returned. */
    method CreateSnapshot(root: Digest, createdAt: u64, name: Option<Bytes>) returns (e: Entry)
      requires Valid() && Crash.NextVersion(byVersion) < U64_LIMIT
      modifies this
      ensures Valid() && e == SnapshotRecord(Crash.NextVersion(old(byVersion)), root, createdAt, name)
      ensures log == old(log) + [RootUpdate(root), e] && lastRoot == Some(root)
    {
      LogRoot(root);
      var version := NextVersion();
      e := SnapshotRecord(version, root, createdAt, name);
      StepOf(log, e);
      Seqs.Associative(old(log), [RootUpdate(root)], [e]);
      log := log + [e];
      byVersion := byVersion[version := e];
      if name.Some? { byName := byName[name.value := version]; }
    }

    /** `find_snapshot`. */
    method Find(reference: Bytes) returns (r: Option<Entry>)
      requires Valid()
      ensures r == FindSnapshot(ByVersion(log), ByName(log), reference)
    {
      var number := ParseU64(reference);
      if number.Some? {
        return if number.value in byVersion then Some(byVersion[number.value]) else None;
      }
      if reference !in byName { return None; }
      var version := byName[reference];
      r := if version in byVersion then Some(byVersion[version]) else None;
    }

    /** The logging part of `run_snapshot_switch`: `current` is the root of the commit it makes. */
    method Switch(reference: Bytes, current: Digest, createdAt: u64) returns (ok: bool)
      requires Valid() && Crash.NextVersion(byVersion) < U64_LIMIT
      modifies this
      ensures Valid() && (ok <==> FindSnapshot(ByVersion(old(log)), ByName(old(log)), reference).Some?)
      ensures !ok ==> log == old(log)
      ensures ok ==>
                var target := FindSnapshot(ByVersion(old(log)), ByName(old(log)), reference).value;
                && log == old(log) + SwitchRecords(current, Crash.NextVersion(ByVersion(old(log))), createdAt,
                    target.root)
                && lastRoot == Some(target.root)
    {
      var target := Find(reference);
      if target.None? { return false; }
      var saved := CreateSnapshot(current, createdAt, Some(AUTO_NAME));
      LogRoot(target.value.root);
      Seqs.Associative(old(log), [RootUpdate(current), saved], [RootUpdate(target.value.root)]);
      ok := true;
    }
  }

  lemma LargestIs(m: map<u64, Entry>, v: nat)
    requires (v == 0 || v in m) && forall x :: x in m ==> x <= v
    ensures Crash.NextVersion(m) == v + 1
  {
    var vs := Ordered.Ascending(m.Keys);
    Gc.MaxIdBounds(vs);
    var top := Gc.MaxId(vs);
    if v != 0 {
      assert v in vs;
      var k :| 0 <= k < |vs| && vs[k] == v;
    }
    if top != 0 {
      assert top in vs;
    }
  }
}
