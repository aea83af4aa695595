/** The segment directory: replay in id order, segment allocation, compaction and the offline
    garbage collection pass, which leaves every input file in place and writes a compacted copy
    under its id plus 100,000. */
module Gc {
  import opened ByteCodec
  import opened Segment
  import opened SegmentWriting
  import opened Replay
  import Ordered
  import Seqs

  /** The `.seg` files of a store, by the id in their names. */
  type Dir = map<int, Bytes>

  predicate AllIn(ids: seq<int>, dir: Dir) {
    forall k :: 0 <= k < |ids| ==> ids[k] in dir
  }

  lemma AscendingIn(dir: Dir, s: set<int>)
    requires s <= dir.Keys
    ensures AllIn(Ordered.Ascending(s), dir)
  {
    var q := Ordered.Ascending(s);
    forall k | 0 <= k < |q| ensures q[k] in dir { assert q[k] in q; }
  }

  // ------------------------------------------------------------------ replay

  /** What a file adds to a replay. One too short for a header, such as a mount killed at its very
      start leaves, is passed over. */
  function Replayed(file: Bytes): (r: Result<seq<Entry>, OpenError>) {
    if |file| < 16 then Ok([]) else ReadFile(file)
  }

  /** All entries in the files of `ids`, in that order. A bad header fails the replay. */
  function ReplayLog(dir: Dir, ids: seq<int>): (r: Result<seq<Entry>, OpenError>)
    requires AllIn(ids, dir)
  {
    if ids == [] then Ok([])
    else
      var front := ReplayLog(dir, ids[..|ids| - 1]);
      if front.Err? then front
      else
        match Replayed(dir[ids[|ids| - 1]])
        case Err(e) => Err(e)
        case Ok(es) => Ok(front.value + es)
  }

  /** Replay of a whole directory: names sort as ids do (`NamesSortAsIds`). */
  ghost function ReplayDir(dir: Dir): (r: Result<seq<Entry>, OpenError>) {
    AscendingIn(dir, dir.Keys);
    ReplayLog(dir, Ordered.Ascending(dir.Keys))
  }

  /** The loop over one file's entries: keeps the last root, collects the snapshots. */
  method ApplyEntries(entries: seq<Entry>, ghost log: seq<Entry>, root: Option<Digest>, found: seq<Entry>)
    returns (lastRoot: Option<Digest>, snapshots: seq<Entry>)
    requires root == LastRoot(log) && found == Snapshots(log)
    ensures lastRoot == LastRoot(log + entries) && snapshots == Snapshots(log + entries)
  {
    lastRoot, snapshots := root, found;
    Seqs.Units(log);
    for j := 0 to |entries|
      invariant lastRoot == LastRoot(log + entries[..j]) && snapshots == Snapshots(log + entries[..j])
    {
      var e := entries[j];
      Seqs.PrefixSnoc(entries, j);
      Seqs.Associative(log, entries[..j], [e]);
      StepOf(log + entries[..j], e);
      match e
      case RootUpdate(root) => lastRoot := Some(root);
      case SnapshotRecord(_, _, _, _) => snapshots := snapshots + [e];
    }
    Seqs.Units(entries);
  }

  /** `load_store_from_segments`, given the sorted directory listing. */
  method LoadStoreFromSegments(dir: Dir, listing: seq<int>)
    returns (r: Result<(Option<Digest>, seq<Entry>), OpenError>)
    requires AllIn(listing, dir)
    ensures r.Ok? <==> ReplayLog(dir, listing).Ok?
    ensures r.Ok? ==> r.value == (LastRoot(ReplayLog(dir, listing).value), Snapshots(ReplayLog(dir, listing).value))
    ensures r.Err? ==> ReplayLog(dir, listing) == Err(r.error)
  {
    var lastRoot: Option<Digest> := None;
    var snapshots: seq<Entry> := [];
    ghost var log: seq<Entry> := [];
    for i := 0 to |listing|
      invariant ReplayLog(dir, listing[..i]) == Ok(log)
      invariant lastRoot == LastRoot(log) && snapshots == Snapshots(log)
    {
      assert listing[..i + 1][..i] == listing[..i];
      var file := dir[listing[i]];
      Seqs.Units(log);
      if |file| < 16 { continue; }
      var contents := ReadSegment(file);
      if contents.Err? {
        ReplayStopsAt(dir, listing, i + 1);
        return Err(contents.error);
      }
      lastRoot, snapshots := ApplyEntries(contents.value, log, lastRoot, snapshots);
      log := log + contents.value;
    }
    Seqs.Units(listing);
    return Ok((lastRoot, snapshots));
  }

  lemma {:induction false} ReplayStopsAt(dir: Dir, ids: seq<int>, n: nat)
    requires AllIn(ids, dir)
    requires n <= |ids| && ReplayLog(dir, ids[..n]).Err?
    ensures ReplayLog(dir, ids) == ReplayLog(dir, ids[..n])
  {
    if n == |ids| {
      Seqs.Units(ids);
    } else {
      var front := ids[..|ids| - 1];
      assert front[..n] == ids[..n];
      ReplayStopsAt(dir, front, n);
    }
  }

  // -------------------------------------------------------- names and allocation

  /** `next_segment_id`: one more than the largest id, or 1 in an empty directory. */
  function MaxId(ids: seq<int>): (m: int)
  {
    if ids == [] then 0
    else
      var m := MaxId(ids[..|ids| - 1]);
      if ids[|ids| - 1] > m then ids[|ids| - 1] else m
  }

  ghost function NextId(dir: Dir): (id: int) {
    MaxId(Ordered.Ascending(dir.Keys)) + 1
  }

  lemma {:induction false} MaxIdBounds(ids: seq<int>)
    ensures MaxId(ids) >= 0
    ensures forall k :: 0 <= k < |ids| ==> ids[k] <= MaxId(ids)
    ensures MaxId(ids) == 0 || MaxId(ids) in ids
  {
    if ids != [] {
      MaxIdBounds(ids[..|ids| - 1]);
    }
  }

  lemma NextIdBounds(dir: Dir)
    ensures forall id :: id in dir ==> id < NextId(dir)
    ensures NextId(dir) == 1 || NextId(dir) - 1 in dir
  {
    var ids := Ordered.Ascending(dir.Keys);
    MaxIdBounds(ids);
    forall id | id in dir ensures id < NextId(dir) {
      assert id in ids;
      var k :| 0 <= k < |ids| && ids[k] == id;
    }
  }

  // --------------------------------------------------------------- compaction

  function CompactId(id: int): (r: u64) {
    (id + 100_000) % U64_LIMIT
  }

  /** A compacted segment: the surviving records, closed with an EOF marker. */
  function Compacted(es: seq<Entry>, id: u64): (file: Bytes) {
    HeaderBytes(id) + Body(AsItems(es)) + EofFrame
  }

  method WriteEntries(writer: SegmentWriter, entries: seq<Entry>)
    modifies writer
    ensures writer.Written() == old(writer.Written()) + Body(AsItems(entries))
  {
    ghost var start := writer.Written();
    Seqs.Units(start);
    for i := 0 to |entries|
      invariant writer.Written() == start + Body(AsItems(entries[..i]))
    {
      writer.WriteEntry(entries[i]);
      Seqs.PrefixSnoc(entries, i);
      BodySnoc(entries[..i], entries[i]);
      Seqs.Associative(start, Body(AsItems(entries[..i])), Frame(entries[i]));
    }
    Seqs.Units(entries);
  }

  /** `compact_segment`: reads a segment and writes the file that replaces nothing but its
      output id. Yields the output file and the number of records kept. */
  method CompactSegment(file: Bytes, outputId: u64) returns (r: Result<(Bytes, nat), OpenError>)
    ensures r.Ok? <==> ReadFile(file).Ok?
    ensures r.Err? ==> ReadFile(file) == Err(r.error)
    ensures r.Ok? ==> r.value == (Compacted(ReadFile(file).value, outputId), |ReadFile(file).value|)
  {
    var input := ReadSegment(file);
    if input.Err? { return Err(input.error); }
    var entries := input.value;
    var writer := new SegmentWriter(outputId);
    WriteEntries(writer, entries);
    writer.Close();
    return Ok((writer.durable, |entries|));
  }

  /** What a pass over the listed files has done when it ended, by itself or by an error. */
  datatype GcOutcome = GcOutcome(dir: Dir, error: Option<OpenError>, scanned: nat, compacted: nat)

  /** One turn of the loop: compact the file `id` as it is by now. */
  function GcNext(before: GcOutcome, id: int): (r: GcOutcome)
    requires id in before.dir
    ensures before.dir.Keys <= r.dir.Keys
  {
    if before.error.Some? then before
    else
      match ReadFile(before.dir[id])
      case Err(e) => before.(error := Some(e))
      case Ok(es) =>
        GcOutcome(before.dir[CompactId(id) := Compacted(es, CompactId(id))], None,
                  before.scanned + |es|, before.compacted + 1)
  }

  function GcPass(dir: Dir, listing: seq<int>): (r: GcOutcome)
    requires AllIn(listing, dir)
    ensures dir.Keys <= r.dir.Keys
  {
    if listing == [] then GcOutcome(dir, None, 0, 0)
    else GcNext(GcPass(dir, listing[..|listing| - 1]), listing[|listing| - 1])
  }

  lemma PassStarts(dir: Dir)
    ensures GcPass(dir, []) == GcOutcome(dir, None, 0, 0)
  {
  }

  lemma PassSnoc(dir: Dir, listing: seq<int>, i: nat)
    requires AllIn(listing, dir)
    requires i < |listing|
    ensures GcPass(dir, listing[..i + 1]) == GcNext(GcPass(dir, listing[..i]), listing[i])
  {
    Seqs.PrefixSnoc(listing, i);
  }

  /** The directory a pass works on. */
  class SegmentDir {
    var files: Dir

    constructor (files: Dir)
      ensures this.files == files
    {
      this.files := files;
    }

    /** `run_gc_inner`, over the listing `read_dir` produced, in its order. */
    method RunGc(listing: seq<int>) returns (error: Option<OpenError>, scanned: nat, compacted: nat)
      requires AllIn(listing, files)
      modifies this
      ensures GcPass(old(files), listing) == GcOutcome(files, error, scanned, compacted)
    {
      hide ReadFile, Compacted, GcPass, CompactId;
      error, scanned, compacted := None, 0, 0;
      ghost var start := files;
      PassStarts(files);
      for i := 0 to |listing|
        invariant error.None? && start.Keys <= files.Keys
        invariant GcPass(start, listing[..i]) == GcOutcome(files, error, scanned, compacted)
      {
        var id := listing[i];
        PassSnoc(start, listing, i);
        var r := CompactSegment(files[id], CompactId(id));
        if r.Err? {
          PassStopsAt(start, listing, i + 1);
          error := Some(r.error);
          return;
        }
        files := files[CompactId(id) := r.value.0];
        scanned, compacted := scanned + r.value.1, compacted + 1;
      }
      Seqs.Units(listing);
    }
  }

  lemma {:induction false} PassStopsAt(dir: Dir, listing: seq<int>, n: nat)
    requires AllIn(listing, dir)
    requires n <= |listing| && GcPass(dir, listing[..n]).error.Some?
    ensures GcPass(dir, listing) == GcPass(dir, listing[..n])
  {
    if n == |listing| {
      Seqs.Units(listing);
    } else {
      var front := listing[..|listing| - 1];
      assert front[..n] == listing[..n];
      PassStopsAt(dir, front, n);
    }
  }

  lemma CompactedReadsBack(es: seq<Entry>, id: u64)
    requires forall k :: 0 <= k < |es| ==> Storable(es[k])
    ensures ReadFile(Compacted(es, id)) == Ok(es)
  {
    Seqs.Associative(HeaderBytes(id), Body(AsItems(es)), EofFrame);
    HeadedFile(id, Body(AsItems(es)) + EofFrame);
    RunReadsBack(es, EofFrame);
    EofStops([]);
    Seqs.Units(EofFrame);
    Seqs.Units(es);
  }

  // ------------------------------------------- the invariant of every directory in a run

  ghost predicate Headed(file: Bytes) {
    ReadFile(file).Ok?
  }

  /** The id of logical segment `r` at level `level`. */
  function Slot(level: nat, r: nat): (id: nat) {
    level * 100_000 + r
  }

  lemma SlotParts(level: nat, r: nat)
    requires r < 100_000
    ensures Slot(level, r) % 100_000 == r
    ensures Slot(level, 0) <= Slot(level, r) < Slot(level + 1, 0)
    ensures Slot(level, r) + 100_000 == Slot(level + 1, r)
  {
  }

  /** A file holds the log of the logical segment its id names modulo 100,000. */
  ghost predicate Holds(file: Bytes, id: int, logs: seq<seq<Entry>>) {
    1 <= id % 100_000 <= |logs| && Replayed(file) == Ok(logs[id % 100_000 - 1])
  }

  /** Every file is a copy of a logical segment, at a level up to `top`. */
  ghost predicate Copies(dir: Dir, logs: seq<seq<Entry>>, top: nat) {
    forall id :: id in dir ==> 0 <= id < Slot(top + 1, 0) && Holds(dir[id], id, logs)
  }

  /** Level `level` has a file for every logical segment. */
  ghost predicate LevelFull(dir: Dir, logs: seq<seq<Entry>>, level: nat) {
    forall r :: 1 <= r <= |logs| ==> Slot(level, r) in dir
  }

  ghost predicate Laid(dir: Dir, logs: seq<seq<Entry>>, top: nat) {
    |logs| < 100_000 && Copies(dir, logs, top) && LevelFull(dir, logs, top)
  }

  function Flatten(logs: seq<seq<Entry>>): (es: seq<Entry>) {
    if logs == [] then [] else Flatten(logs[..|logs| - 1]) + logs[|logs| - 1]
  }

  lemma {:induction false} FlattenContains(logs: seq<seq<Entry>>, i: nat)
    requires i < |logs|
    ensures Within(logs[i], Flatten(logs))
  {
    if i < |logs| - 1 {
      FlattenContains(logs[..|logs| - 1], i);
    }
  }

  /** Replay of files that all hold copies succeeds and yields only logged entries. */
  lemma {:induction false} ReplayOfCopies(dir: Dir, ids: seq<int>, logs: seq<seq<Entry>>, top: nat)
    requires Copies(dir, logs, top)
    requires AllIn(ids, dir)
    ensures ReplayLog(dir, ids).Ok?
    ensures Within(ReplayLog(dir, ids).value, Flatten(logs))
  {
    hide Replayed, Flatten;
    if ids != [] {
      var id := ids[|ids| - 1];
      ReplayOfCopies(dir, ids[..|ids| - 1], logs, top);
      assert Holds(dir[id], id, logs);
      FlattenContains(logs, id % 100_000 - 1);
    }
  }

  lemma {:induction false} ReplayAppend(dir: Dir, a: seq<int>, b: seq<int>)
    requires AllIn(a, dir)
    requires AllIn(b, dir)
    requires ReplayLog(dir, a).Ok? && ReplayLog(dir, b).Ok?
    ensures AllIn(a + b, dir)
    ensures ReplayLog(dir, a + b) == Ok(ReplayLog(dir, a).value + ReplayLog(dir, b).value)
  {
    if b == [] {
      Seqs.Units(a);
      Seqs.Units(ReplayLog(dir, a).value);
    } else {
      var b', last := b[..|b| - 1], dir[b[|b| - 1]];
      AppendLast(a, b);
      ReplayAppend(dir, a, b');
      Seqs.Associative(ReplayLog(dir, a).value, ReplayLog(dir, b').value, Replayed(last).value);
    }
  }

  lemma LevelFile(dir: Dir, logs: seq<seq<Entry>>, top: nat, r: nat)
    requires Laid(dir, logs, top) && 1 <= r <= |logs|
    ensures Slot(top, r) in dir
    ensures Replayed(dir[Slot(top, r)]) == Ok(logs[r - 1])
  {
    SlotParts(top, r);
    assert Holds(dir[Slot(top, r)], Slot(top, r), logs);
  }

  function LevelIds(top: nat, n: nat): (ids: seq<int>) {
    Ordered.Range(Slot(top, 1), n)
  }

  lemma LevelListed(dir: Dir, logs: seq<seq<Entry>>, top: nat, n: nat)
    requires Laid(dir, logs, top) && n <= |logs|
    ensures AllIn(LevelIds(top, n), dir)
  {
    forall k | 0 <= k < n ensures LevelIds(top, n)[k] in dir {
      LevelFile(dir, logs, top, k + 1);
      assert LevelIds(top, n)[k] == Slot(top, k + 1);
    }
  }

  /** Replaying the first `n` files of the top level yields the first `n` logs in order. */
  lemma {:induction false} ReplayOfLevel(dir: Dir, logs: seq<seq<Entry>>, top: nat, n: nat)
    requires Laid(dir, logs, top) && n <= |logs|
    requires AllIn(LevelIds(top, n), dir)
    ensures ReplayLog(dir, LevelIds(top, n)) == Ok(Flatten(logs[..n]))
  {
    if n > 0 {
      var ids := LevelIds(top, n);
      assert ids[..n - 1] == LevelIds(top, n - 1) && ids[n - 1] == Slot(top, n);
      ReplayOfLevel(dir, logs, top, n - 1);
      LevelFile(dir, logs, top, n);
      Seqs.PrefixSnoc(logs, n - 1);
    }
  }

  lemma LevelMember(dir: Dir, logs: seq<seq<Entry>>, top: nat, x: int)
    requires Laid(dir, logs, top)
    ensures x in dir && x >= Slot(top, 0) <==> Slot(top, 1) <= x < Slot(top, 1) + |logs|
  {
    if x in dir && x >= Slot(top, 0) {
      assert Holds(dir[x], x, logs);
      SlotParts(top, x - Slot(top, 0));
    }
    if Slot(top, 1) <= x < Slot(top, 1) + |logs| {
      LevelFile(dir, logs, top, x - Slot(top, 0));
    }
  }

  /** The sorted directory ends with the complete top level. */
  lemma SortedListing(dir: Dir, logs: seq<seq<Entry>>, top: nat) returns (low: seq<int>)
    requires Laid(dir, logs, top)
    ensures AllIn(low, dir)
    ensures Ordered.Ascending(dir.Keys) == low + LevelIds(top, |logs|)
  {
    var below := set id | id in dir && id < Slot(top, 0);
    var level := set id | id in dir && id >= Slot(top, 0);
    assert below + level == dir.Keys;
    Ordered.AscendingSplit(below, level);
    low := Ordered.Ascending(below);
    AscendingIn(dir, below);
    forall x ensures x in level <==> Slot(top, 1) <= x < Slot(top, 1) + |logs| {
      LevelMember(dir, logs, top, x);
    }
    Ordered.AscendingRange(Slot(top, 1), |logs|, level);
  }

  /** What a mount sees: the root and the indexes a list of log entries means. */
  datatype Seen = Seen(root: Option<Digest>, byVersion: map<u64, Entry>, byName: map<Bytes, u64>)

  function SeenIn(es: seq<Entry>): (s: Seen) {
    Seen(LastRoot(es), ByVersion(es), ByName(es))
  }

  /** However many copies the directory holds, replay means the logical log itself. */
  lemma ReplayMeansLog(dir: Dir, logs: seq<seq<Entry>>, top: nat)
    requires Laid(dir, logs, top)
    ensures ReplayDir(dir).Ok?
    ensures SeenIn(ReplayDir(dir).value) == SeenIn(Flatten(logs))
  {
    var low := SortedListing(dir, logs, top);
    ReplayOfCopies(dir, low, logs, top);
    LevelListed(dir, logs, top, |logs|);
    ReplayOfLevel(dir, logs, top, |logs|);
    Seqs.Units(logs);
    ReplayAppend(dir, low, LevelIds(top, |logs|));
    RepeatedPrefix(ReplayLog(dir, low).value, Flatten(logs));
  }
}
