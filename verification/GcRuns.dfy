/** Whole runs over a store's segment directory: mount sessions that open the next segment, sessions
    killed before its header was in the file, and offline garbage collection passes, in any order. */
module GcRuns {
  import opened ByteCodec
  import opened Segment
  import opened SegmentWriting
  import opened Replay
  import opened Gc
  import Ordered
  import SegmentNames
  import Seqs

  /** A session opens the next segment and leaves arbitrary bytes after its header: whole frames,
      legacy frames, a torn tail. A stub is what a session killed before its header was written
      leaves. A pass visits the directory in the order `read_dir` gave. */
  datatype Op = Session(body: Bytes) | Stub(file: Bytes) | Pass(listing: seq<int>)

  ghost predicate Listing(q: seq<int>, dir: Dir) {
    AllIn(q, dir) && forall id :: id in dir ==> id in q
  }

  ghost function RunDir(ops: seq<Op>): (dir: Dir) {
    if ops == [] then map[]
    else
      var d := RunDir(ops[..|ops| - 1]);
      match ops[|ops| - 1]
      case Session(body) => d[NextId(d) := HeaderBytes(NextId(d) % U64_LIMIT) + body]
      case Stub(file) => d[NextId(d) := file]
      case Pass(listing) => if AllIn(listing, d) then GcPass(d, listing).dir else d
  }

  /** Stubs are too short for a header, and every pass ran over the whole directory to its end. */
  ghost predicate ValidRun(ops: seq<Op>) {
    ops == [] || (ValidRun(ops[..|ops| - 1]) && ValidOp(RunDir(ops[..|ops| - 1]), ops[|ops| - 1]))
  }

  ghost predicate ValidOp(dir: Dir, op: Op) {
    match op
    case Session(_) => true
    case Stub(file) => |file| < 16
    case Pass(listing) => Listing(listing, dir) && Passable(dir, listing)
  }

  /** The logical log: what each session's segment reads as, in the order they were opened. */
  function Logs(ops: seq<Op>): (logs: seq<seq<Entry>>) {
    if ops == [] then []
    else
      var front := Logs(ops[..|ops| - 1]);
      match ops[|ops| - 1]
      case Session(body) => front + [Entries(body)]
      case Stub(_) => front + [[]]
      case Pass(_) => front
  }

  /** Passes made once there was a segment: each adds a level of copies. */
  function Levels(ops: seq<Op>): (n: nat) {
    if ops == [] then 0
    else
      var front := ops[..|ops| - 1];
      if ops[|ops| - 1].Pass? && Logs(front) != [] then Levels(front) + 1 else Levels(front)
  }

  // -------------------------------------------------------------- one session

  lemma NextSlot(dir: Dir, logs: seq<seq<Entry>>, top: nat)
    requires Laid(dir, logs, top) && (logs == [] ==> top == 0)
    ensures NextId(dir) == Slot(top, |logs| + 1)
  {
    hide Replayed, NextId;
    NextIdBounds(dir);
    if logs == [] {
      EmptyDirectory(dir, top);
    } else {
      LevelFile(dir, logs, top, |logs|);
      var last := NextId(dir) - 1;
      assert Holds(dir[last], last, logs);
      LevelMember(dir, logs, top, last);
    }
  }

  lemma HoldsMore(file: Bytes, id: int, logs: seq<seq<Entry>>, log: seq<Entry>)
    requires Holds(file, id, logs)
    ensures Holds(file, id, logs + [log])
  {
  }

  /** Adding the next logical segment's file at the top level. */
  lemma AddSlot(dir: Dir, logs: seq<seq<Entry>>, top: nat, file: Bytes, log: seq<Entry>)
    requires Laid(dir, logs, top) && |logs| + 1 < 100_000
    requires Replayed(file) == Ok(log)
    ensures Laid(dir[Slot(top, |logs| + 1) := file], logs + [log], top)
  {
    var n := |logs| + 1;
    SlotParts(top, n);
    CopiesMore(dir, logs, top, log);
    assert Holds(file, Slot(top, n), logs + [log]);
  }

  lemma StubKeepsLayout(dir: Dir, logs: seq<seq<Entry>>, top: nat, file: Bytes)
    requires Laid(dir, logs, top) && (logs == [] ==> top == 0)
    requires |logs| + 1 < 100_000 && |file| < 16
    ensures Laid(dir[NextId(dir) := file], logs + [[]], top)
  {
    NextSlot(dir, logs, top);
    AddSlot(dir, logs, top, file, []);
  }

  lemma SessionKeepsLayout(dir: Dir, logs: seq<seq<Entry>>, top: nat, body: Bytes)
    requires Laid(dir, logs, top) && (logs == [] ==> top == 0)
    requires |logs| + 1 < 100_000
    ensures Laid(dir[NextId(dir) := HeaderBytes(NextId(dir) % U64_LIMIT) + body], logs + [Entries(body)], top)
  {
    NextSlot(dir, logs, top);
    HeadedFile(NextId(dir) % U64_LIMIT, body);
    AddSlot(dir, logs, top, HeaderBytes(NextId(dir) % U64_LIMIT) + body, Entries(body));
  }

  lemma CopiesMore(dir: Dir, logs: seq<seq<Entry>>, top: nat, log: seq<Entry>)
    requires Copies(dir, logs, top)
    ensures Copies(dir, logs + [log], top)
  {
    forall x | x in dir ensures 0 <= x < Slot(top + 1, 0) && Holds(dir[x], x, logs + [log]) {
      HoldsMore(dir[x], x, logs, log);
    }
  }

  // ------------------------------------------------------------ when a pass succeeds

  /** The file listed at `k` was written anew by the compaction of one listed before it. */
  ghost predicate Overwritten(listing: seq<int>, k: int)
    requires 0 <= k < |listing|
  {
    exists j :: 0 <= j < k && CompactId(listing[j]) == listing[k]
  }

  /** Every listed file has a header, by the time the pass comes to it. */
  ghost predicate Passable(dir: Dir, listing: seq<int>) {
    AllIn(listing, dir) && forall k :: 0 <= k < |listing| ==> Headed(dir[listing[k]]) || Overwritten(listing, k)
  }

  ghost predicate Output(listing: seq<int>, id: int) {
    exists j :: 0 <= j < |listing| && CompactId(listing[j]) == id
  }

  /** After a pass without error its outputs have headers, and all other files are as they were. */
  lemma {:induction false} PassFiles(dir: Dir, listing: seq<int>)
    requires AllIn(listing, dir) && GcPass(dir, listing).error.None?
    ensures var after := GcPass(dir, listing).dir;
            forall id :: id in after ==>
              if Output(listing, id) then Headed(after[id]) else id in dir && after[id] == dir[id]
  {
    hide ReadFile, Compacted;
    if listing != [] {
      var front, last := listing[..|listing| - 1], listing[|listing| - 1];
      PassFiles(dir, front);
      var before, after := GcPass(dir, front).dir, GcPass(dir, listing).dir;
      CompactedHeaded(ReadFile(before[last]).value, CompactId(last));
      forall id | id in after
        ensures if Output(listing, id) then Headed(after[id]) else id in dir && after[id] == dir[id]
      {
        OutputSnoc(listing, id);
      }
    }
  }

  lemma OutputSnoc(listing: seq<int>, id: int)
    requires listing != []
    ensures Output(listing, id) <==> Output(listing[..|listing| - 1], id) || CompactId(listing[|listing| - 1]) == id
  {
    var front := listing[..|listing| - 1];
    if Output(front, id) {
      var j :| 0 <= j < |front| && CompactId(front[j]) == id;
      assert CompactId(listing[j]) == id;
    }
    if Output(listing, id) && CompactId(listing[|listing| - 1]) != id {
      var j :| 0 <= j < |listing| && CompactId(listing[j]) == id;
      assert CompactId(front[j]) == id;
    }
  }

  lemma CompactedHeaded(es: seq<Entry>, id: u64)
    ensures Headed(Compacted(es, id))
  {
    Seqs.Associative(HeaderBytes(id), Body(AsItems(es)), EofFrame);
    HeadedFile(id, Body(AsItems(es)) + EofFrame);
  }

  lemma OverwrittenSnoc(listing: seq<int>, k: int)
    requires 0 <= k < |listing|
    ensures Overwritten(listing, k) <==> Output(listing[..k], listing[k])
    ensures k < |listing| - 1 ==> (Overwritten(listing, k) <==> Overwritten(listing[..|listing| - 1], k))
  {
    if Overwritten(listing, k) {
      var j :| 0 <= j < k && CompactId(listing[j]) == listing[k];
      assert CompactId(listing[..k][j]) == listing[k];
      if k < |listing| - 1 {
        assert CompactId(listing[..|listing| - 1][j]) == listing[..|listing| - 1][k];
      }
    }
    if Output(listing[..k], listing[k]) {
      var j :| 0 <= j < k && CompactId(listing[..k][j]) == listing[k];
      assert CompactId(listing[j]) == listing[k];
    }
    if k < |listing| - 1 && Overwritten(listing[..|listing| - 1], k) {
      var front := listing[..|listing| - 1];
      var j :| 0 <= j < k && CompactId(front[j]) == front[k];
      assert CompactId(listing[j]) == listing[k];
    }
  }

  lemma PassableSnoc(dir: Dir, listing: seq<int>)
    requires AllIn(listing, dir) && listing != []
    ensures var n := |listing| - 1;
            Passable(dir, listing) <==>
              Passable(dir, listing[..n]) && (Headed(dir[listing[n]]) || Overwritten(listing, n))
  {
    hide Overwritten, ReadFile;
    var front := listing[..|listing| - 1];
    forall k | 0 <= k < |front| ensures Overwritten(listing, k) <==> Overwritten(front, k) {
      OverwrittenSnoc(listing, k);
    }
  }

  /** A pass succeeds if and only if every listed file has a header or was written anew by the
      compaction of a file listed before it. */
  lemma {:induction false} PassSucceedsIff(dir: Dir, listing: seq<int>)
    requires AllIn(listing, dir)
    ensures GcPass(dir, listing).error.None? <==> Passable(dir, listing)
  {
    hide ReadFile, Overwritten, Output, Compacted;
    if listing != [] {
      var n := |listing| - 1;
      PassSucceedsIff(dir, listing[..n]);
      PassableSnoc(dir, listing);
      OverwrittenSnoc(listing, n);
      if GcPass(dir, listing[..n]).error.None? { PassFiles(dir, listing[..n]); }
    }
  }

  /** How many files a pass gets through. */
  ghost function Progress(dir: Dir, listing: seq<int>): (k: nat)
    ensures k <= |listing|
  {
    if listing == [] then 0
    else
      var front := listing[..|listing| - 1];
      if Passable(dir, listing) then |listing| else Progress(dir, front)
  }

  /** A pass that fails has done exactly what a pass over the files before the failing one does. */
  lemma {:induction false} PassGetsTo(dir: Dir, listing: seq<int>)
    requires AllIn(listing, dir)
    ensures var k := Progress(dir, listing);
            && Passable(dir, listing[..k])
            && GcPass(dir, listing).dir == GcPass(dir, listing[..k]).dir
            && (k < |listing| ==> ReadFile(dir[listing[k]]).Err?
                                  && GcPass(dir, listing).error == Some(ReadFile(dir[listing[k]]).error))
  {
    hide ReadFile, Overwritten, Compacted, Passable;
    Seqs.Units(listing);
    if listing != [] && !Passable(dir, listing) {
      var front := listing[..|listing| - 1];
      PassGetsTo(dir, front);
      PassSucceedsIff(dir, listing);
      PassSucceedsIff(dir, front);
      var k := Progress(dir, front);
      assert front[..k] == listing[..k];
      if k == |front| { FailsAtLast(dir, listing); }
    } else {
      NothingListed(dir, listing);
    }
  }

  lemma NothingListed(dir: Dir, listing: seq<int>)
    ensures listing == [] ==> Passable(dir, listing)
  {
  }

  lemma FailsAtLast(dir: Dir, listing: seq<int>)
    requires AllIn(listing, dir) && listing != [] && !Passable(dir, listing) && Passable(dir, listing[..|listing| - 1])
    ensures ReadFile(dir[listing[|listing| - 1]]).Err?
    ensures GcPass(dir, listing).error == Some(ReadFile(dir[listing[|listing| - 1]]).error)
    ensures GcPass(dir, listing).dir == GcPass(dir, listing[..|listing| - 1]).dir
  {
    hide ReadFile, Overwritten, Output, Compacted;
    var n := |listing| - 1;
    PassSucceedsIff(dir, listing[..n]);
    PassableSnoc(dir, listing);
    OverwrittenSnoc(listing, n);
    PassFiles(dir, listing[..n]);
  }

  // ----------------------------------------------------------------- one pass

  lemma OneLevelUp(id: int)
    requires 0 <= id && id + 100_000 < U64_LIMIT
    ensures (id + 100_000) % 100_000 == id % 100_000
    ensures CompactId(id) == id + 100_000
  {
  }

  lemma CompactedHolds(file: Bytes, logs: seq<seq<Entry>>, id: int)
    requires 0 <= id && id + 100_000 < U64_LIMIT && Holds(file, id, logs) && Headed(file)
    ensures Holds(Compacted(ReadFile(file).value, CompactId(id)), CompactId(id), logs)
  {
    hide Compacted, ReadFile, Replayed;
    StorableFile(file);
    CompactedReadsBack(ReadFile(file).value, CompactId(id));
    HeadedReplays(file);
    HeadedReplays(Compacted(ReadFile(file).value, CompactId(id)));
    OneLevelUp(id);
  }

  lemma HeadedReplays(file: Bytes)
    requires Headed(file)
    ensures Replayed(file) == ReadFile(file)
  {
  }

  lemma StorableFile(file: Bytes)
    requires Headed(file)
    ensures forall k :: 0 <= k < |ReadFile(file).value| ==> Storable(ReadFile(file).value[k])
  {
    var es := ReadFile(file).value;
    EntriesAreStorable(file[16..]);
    forall k | 0 <= k < |es| ensures Storable(es[k]) { assert es[k] in es; }
  }

  lemma AddCopy(dir: Dir, logs: seq<seq<Entry>>, top: nat, id: int, file: Bytes)
    requires Copies(dir, logs, top) && 0 <= id < Slot(top + 1, 0) && Holds(file, id, logs)
    ensures Copies(dir[id := file], logs, top)
  {
  }

  /** The ids a pass over `listing` writes. */
  function Outputs(listing: seq<int>): (ids: set<int>) {
    if listing == [] then {} else Outputs(listing[..|listing| - 1]) + {listing[|listing| - 1] + 100_000}
  }

  lemma {:induction false} OutputsMember(listing: seq<int>, id: int)
    ensures id + 100_000 in Outputs(listing) <==> id in listing
  {
    if listing != [] {
      OutputsMember(listing[..|listing| - 1], id);
      Seqs.SplitLast(listing);
    }
  }

  lemma SameCopies(dir: Dir, logs: seq<seq<Entry>>, top: nat)
    requires Copies(dir, logs, top)
    ensures Copies(dir, logs, top + 1)
  {
    assert Slot(top + 1, 0) <= Slot(top + 2, 0);
  }

  /** What a pass has reached after visiting `done`: no failure, copies only, one output for
      each visited file and none besides. */
  ghost predicate Reached(r: GcOutcome, dir: Dir, done: seq<int>, logs: seq<seq<Entry>>, top: nat) {
    r.error.None? && Copies(r.dir, logs, top + 1) && r.dir.Keys == dir.Keys + Outputs(done)
  }

  lemma NextReached(r: GcOutcome, dir: Dir, done: seq<int>, logs: seq<seq<Entry>>, top: nat, id: int)
    requires Reached(r, dir, done, logs, top) && id in r.dir && id < Slot(top + 1, 0) && Headed(r.dir[id])
    requires Slot(top + 2, 0) <= U64_LIMIT
    ensures Reached(GcNext(r, id), dir, done + [id], logs, top)
  {
    hide Compacted, ReadFile;
    assert Holds(r.dir[id], id, logs);
    CompactedHolds(r.dir[id], logs, id);
    OneLevelUp(id);
    AddCopy(r.dir, logs, top + 1, CompactId(id), Compacted(ReadFile(r.dir[id]).value, CompactId(id)));
    Seqs.Parts(done, [id]);
  }

  /** A pass that succeeds over files that are all copies keeps them copies one level higher, and
      leaves an output for exactly the files it visited. */
  lemma {:induction false} PassReaches(dir: Dir, logs: seq<seq<Entry>>, top: nat, listing: seq<int>)
    requires Copies(dir, logs, top) && Slot(top + 2, 0) <= U64_LIMIT
    requires Passable(dir, listing)
    ensures Reached(GcPass(dir, listing), dir, listing, logs, top)
  {
    if listing == [] {
      SameCopies(dir, logs, top);
    } else {
      var front, id := listing[..|listing| - 1], listing[|listing| - 1];
      PassableSnoc(dir, listing);
      PassReaches(dir, logs, top, front);
      PassSucceedsIff(dir, listing);
      assert id in dir && id < Slot(top + 1, 0);
      NextReached(GcPass(dir, front), dir, front, logs, top, id);
      Seqs.SplitLast(listing);
    }
  }

  /** Copies of every file one level up make that level complete. */
  lemma NextLevelFull(dir: Dir, dir': Dir, logs: seq<seq<Entry>>, top: nat, listing: seq<int>)
    requires LevelFull(dir, logs, top) && Listing(listing, dir)
    requires |logs| < 100_000 && dir'.Keys == dir.Keys + Outputs(listing)
    ensures LevelFull(dir', logs, top + 1)
  {
    var up := top + 1;
    forall r | 1 <= r <= |logs| ensures Slot(up, r) in dir' {
      SlotParts(top, r);
      assert Slot(top, r) in listing;
      OutputsMember(listing, Slot(top, r));
    }
  }

  lemma PassKeepsLayout(dir: Dir, logs: seq<seq<Entry>>, top: nat, listing: seq<int>)
    requires Laid(dir, logs, top) && Slot(top + 2, 0) <= U64_LIMIT
    requires Listing(listing, dir) && Passable(dir, listing)
    ensures GcPass(dir, listing).error.None?
    ensures Laid(GcPass(dir, listing).dir, logs, top + 1)
  {
    PassReaches(dir, logs, top, listing);
    NextLevelFull(dir, GcPass(dir, listing).dir, logs, top, listing);
  }

  // --------------------------------------------------------------- whole runs

  /** The limits inside which ids keep six digits: fewer than 100,000 segments, at most nine
      passes. */
  ghost predicate WithinLimits(ops: seq<Op>) {
    |Logs(ops)| < 100_000 && Levels(ops) <= 9
  }

  lemma {:induction false} RunKeepsLayout(ops: seq<Op>)
    requires ValidRun(ops) && WithinLimits(ops)
    ensures Laid(RunDir(ops), Logs(ops), Levels(ops))
    ensures Logs(ops) == [] ==> Levels(ops) == 0
  {
    if ops == [] {
      NoLayout();
    } else {
      hide Laid, GcPass, NextId, Passable, HeaderBytes;
      var front, op := ops[..|ops| - 1], ops[|ops| - 1];
      RunKeepsLayout(front);
      var d := RunDir(front);
      if op.Session? {
        SessionKeepsLayout(d, Logs(front), Levels(front), op.body);
      } else if op.Stub? {
        StubKeepsLayout(d, Logs(front), Levels(front), op.file);
      } else if Logs(front) != [] {
        PassKeepsLayout(d, Logs(front), Levels(front), op.listing);
      } else {
        CopiesOfLaid(d, Logs(front), Levels(front));
        EmptyDirectory(d, Levels(front));
        NotEmptied(op.listing, d);
        PassStarts(d);
      }
    }
  }

  /** The file of segment `a` sorts before that of segment `b`. */
  ghost predicate NamedBefore(a: int, b: int) {
    a >= 0 && b >= 0 && SegmentNames.LexLess(SegmentNames.Name(a, 6), SegmentNames.Name(b, 6))
  }

  ghost predicate SortedByName(q: seq<int>) {
    forall i, j :: 0 <= i < j < |q| ==> NamedBefore(q[i], q[j])
  }

  lemma NamedBeforeIff(a: nat, b: nat)
    requires a < 1_000_000 && b < 1_000_000
    ensures NamedBefore(a, b) <==> a < b
  {
    hide SegmentNames.LexLess, SegmentNames.Name;
    if a < b {
      SegmentNames.NamesSortAsIds(a, b);
    } else if NamedBefore(a, b) {
      SegmentNames.LessIsStrict(SegmentNames.Name(a, 6), SegmentNames.Name(b, 6));
      if b < a { SegmentNames.NamesSortAsIds(b, a); }
    }
  }

  /** Within the limits, a listing of the directory is sorted by name if and only if it is in the order
      of ids: replay, which sorts names, reads the log in order. */
  lemma NameOrderIsIdOrder(ops: seq<Op>, q: seq<int>)
    requires ValidRun(ops) && WithinLimits(ops) && Listing(q, RunDir(ops))
    ensures SortedByName(q) <==> q == Ordered.Ascending(RunDir(ops).Keys)
  {
    hide NamedBefore, RunDir, ValidRun, Logs, Levels, LevelFull, Holds, Ordered.Ascending;
    var dir := RunDir(ops);
    RunKeepsLayout(ops);
    forall i, j | 0 <= i < |q| && 0 <= j < |q| ensures NamedBefore(q[i], q[j]) <==> q[i] < q[j] {
      assert q[i] in dir && q[j] in dir;
      NamedBeforeIff(q[i], q[j]);
    }
    if SortedByName(q) {
      assert Ordered.Lists(q, dir.Keys);
      Ordered.AscendingUnique(q, dir.Keys);
    }
  }

  lemma NoLayout()
    ensures Laid(map[], [], 0)
  {
  }

  lemma NotEmptied(listing: seq<int>, dir: Dir)
    requires AllIn(listing, dir)
    ensures listing == [] || dir != map[]
  {
    if listing != [] { assert listing[0] in dir; }
  }

  lemma EmptyDirectory(dir: Dir, top: nat)
    requires Copies(dir, [], top)
    ensures dir == map[]
  {
    forall id ensures id !in dir { if id in dir { assert false; } }
  }

  /** The files of a laid-out directory either have a header or are too short for one. */
  lemma HeadedOrShort(dir: Dir, logs: seq<seq<Entry>>, top: nat, id: int)
    requires Copies(dir, logs, top) && id in dir
    ensures Headed(dir[id]) <==> |dir[id]| >= 16
    ensures !Headed(dir[id]) ==> ReadFile(dir[id]) == Err(UnexpectedEof)
  {
    assert Holds(dir[id], id, logs);
  }

  ghost predicate NoStubs(dir: Dir) {
    forall id :: id in dir ==> |dir[id]| >= 16
  }

  /** No file is there whose compaction would be written over a stub. */
  ghost predicate StubsStay(dir: Dir) {
    forall id :: id in dir && |dir[id]| < 16 ==> id - 100_000 !in dir
  }

  /** A pass over the whole directory then succeeds exactly when there is no stub. */
  lemma PassableWhole(dir: Dir, logs: seq<seq<Entry>>, top: nat, listing: seq<int>)
    requires Copies(dir, logs, top) && Slot(top + 2, 0) <= U64_LIMIT && StubsStay(dir) && Listing(listing, dir)
    ensures Passable(dir, listing) <==> NoStubs(dir)
  {
    hide ReadFile, Holds;
    forall id | id in dir ensures Headed(dir[id]) <==> |dir[id]| >= 16 { HeadedOrShort(dir, logs, top, id); }
    if Passable(dir, listing) {
      forall id | id in dir ensures |dir[id]| >= 16 {
        var k :| 0 <= k < |listing| && listing[k] == id;
        if Overwritten(listing, k) {
          var j :| 0 <= j < k && CompactId(listing[j]) == listing[k];
          OneLevelUp(listing[j]);
        }
      }
    }
    if NoStubs(dir) {
      forall k | 0 <= k < |listing| ensures Headed(dir[listing[k]]) {
        assert |dir[listing[k]]| >= 16;
      }
    }
  }

  lemma OpKeepsStubs(dir: Dir, logs: seq<seq<Entry>>, top: nat, file: Bytes)
    requires Laid(dir, logs, top) && (logs == [] ==> top == 0) && StubsStay(dir) && |logs| + 1 < 100_000
    ensures StubsStay(dir[NextId(dir) := file])
  {
    hide NextId, Holds, LevelFull;
    NextSlot(dir, logs, top);
    SlotParts(top, |logs| + 1);
    NoLowerCopy(dir, logs, top);
  }

  lemma NoLowerCopy(dir: Dir, logs: seq<seq<Entry>>, top: nat)
    requires Copies(dir, logs, top) && |logs| + 1 < 100_000
    ensures var next: int := Slot(top, |logs| + 1); next - 100_000 !in dir
  {
    hide Replayed;
    var x: int := Slot(top, |logs| + 1) - 100_000;
    SlotParts(top, |logs| + 1);
    assert x % 100_000 == |logs| + 1;
  }

  lemma PassLeavesNoStubs(dir: Dir, listing: seq<int>)
    requires Passable(dir, listing) && NoStubs(dir)
    ensures NoStubs(GcPass(dir, listing).dir)
  {
    hide GcPass;
    PassSucceedsIff(dir, listing);
    PassFiles(dir, listing);
  }

  lemma {:induction false} RunKeepsStubs(ops: seq<Op>)
    requires ValidRun(ops) && WithinLimits(ops)
    ensures StubsStay(RunDir(ops))
  {
    hide StubsStay, Passable, GcPass, Laid, NextId;
    if ops == [] {
      NoFiles();
    } else {
      var front, op := ops[..|ops| - 1], ops[|ops| - 1];
      RunKeepsStubs(front);
      RunKeepsLayout(front);
      var d := RunDir(front);
      match op
      case Session(body) =>
        OpKeepsStubs(d, Logs(front), Levels(front), HeaderBytes(NextId(d) % U64_LIMIT) + body);
      case Stub(file) => OpKeepsStubs(d, Logs(front), Levels(front), file);
      case Pass(listing) =>
        assert Copies(d, Logs(front), Levels(front)) by { CopiesOfLaid(d, Logs(front), Levels(front)); }
        PassableWhole(d, Logs(front), Levels(front), listing);
        PassLeavesNoStubs(d, listing);
        NoStubsStay(GcPass(d, listing).dir);
    }
  }

  lemma NoFiles()
    ensures StubsStay(map[])
  {
  }

  lemma NoStubsStay(dir: Dir)
    requires NoStubs(dir)
    ensures StubsStay(dir)
  {
  }

  lemma CopiesOfLaid(dir: Dir, logs: seq<seq<Entry>>, top: nat)
    requires Laid(dir, logs, top)
    ensures Copies(dir, logs, top)
  {
  }

  /** Offline GC is invisible to replay. At any point of any run, a pass in any listing order
      succeeds if and only if every file has a header, and a mount after a pass that succeeded sees
      the same root and the same two snapshot indexes as a mount before it: those of the logical
      log. */
  lemma GcIsInvisible(ops: seq<Op>, listing: seq<int>)
    requires ValidRun(ops) && Listing(listing, RunDir(ops)) && WithinLimits(ops + [Pass(listing)])
    ensures var before, pass := RunDir(ops), GcPass(RunDir(ops), listing);
            && (pass.error.None? <==> NoStubs(before))
            && ReplayDir(before).Ok? && SeenIn(ReplayDir(before).value) == SeenIn(Flatten(Logs(ops)))
            && (pass.error.None? ==>
                  ReplayDir(pass.dir).Ok? && SeenIn(ReplayDir(pass.dir).value) == SeenIn(ReplayDir(before).value))
  {
    hide RunDir, GcPass, ReplayDir, Passable, SeenIn, Laid;
    var all := ops + [Pass(listing)];
    Seqs.Parts(ops, [Pass(listing)]);
    assert WithinLimits(ops);
    RunKeepsLayout(ops);
    ReplayMeansLog(RunDir(ops), Logs(ops), Levels(ops));
    PassSucceedsIff(RunDir(ops), listing);
    assert Copies(RunDir(ops), Logs(ops), Levels(ops)) by { CopiesOfLaid(RunDir(ops), Logs(ops), Levels(ops)); }
    RunKeepsStubs(ops);
    PassableWhole(RunDir(ops), Logs(ops), Levels(ops), listing);
    if Passable(RunDir(ops), listing) {
      LastPass(ops, listing);
      RunKeepsLayout(all);
      ReplayMeansLog(RunDir(all), Logs(all), Levels(all));
    }
  }

  lemma LastPass(ops: seq<Op>, listing: seq<int>)
    requires ValidRun(ops) && Listing(listing, RunDir(ops)) && Passable(RunDir(ops), listing)
    ensures var all := ops + [Pass(listing)];
            ValidRun(all) && RunDir(all) == GcPass(RunDir(ops), listing).dir && Logs(all) == Logs(ops)
  {
    Seqs.Parts(ops, [Pass(listing)]);
  }

  // ------------------------------------------------- a pass that does not finish

  /** The logs of the segments `rs`, concatenated. */
  function Picked(logs: seq<seq<Entry>>, rs: seq<int>): (es: seq<Entry>)
    requires forall k :: 0 <= k < |rs| ==> 1 <= rs[k] <= |logs|
  {
    if rs == [] then [] else Picked(logs, rs[..|rs| - 1]) + logs[rs[|rs| - 1] - 1]
  }

  /** The newest-level segments among the files visited so far. */
  ghost function Visited(done: seq<int>, top: nat, n: nat): (rs: set<int>)
    ensures forall r :: r in rs <==> 1 <= r <= n && Slot(top, r) in done
  {
    set r | 1 <= r <= n && Slot(top, r) in done
  }

  lemma VisitedRange(done: seq<int>, top: nat, n: nat)
    ensures forall k :: 0 <= k < |Ordered.Ascending(Visited(done, top, n))| ==>
              1 <= Ordered.Ascending(Visited(done, top, n))[k] <= n
  {
    var q := Ordered.Ascending(Visited(done, top, n));
    forall k | 0 <= k < |q| ensures 1 <= q[k] <= n { assert q[k] in q; }
  }

  /** What an unfinished pass has compacted of the newest level, in id order. */
  ghost function NewestCopied(logs: seq<seq<Entry>>, done: seq<int>, top: nat): (es: seq<Entry>) {
    VisitedRange(done, top, |logs|);
    Picked(logs, Ordered.Ascending(Visited(done, top, |logs|)))
  }

  /** The ids of the copies of the segments `rs` at level `level`. */
  function CopyIds(level: nat, rs: seq<int>): (ids: seq<int>) {
    Ordered.Shift(rs, Slot(level, 0))
  }

  lemma {:induction false} ReplayOfPicked(dir: Dir, logs: seq<seq<Entry>>, level: nat, rs: seq<int>)
    requires Copies(dir, logs, level) && |logs| < 100_000
    requires forall k :: 0 <= k < |rs| ==> 1 <= rs[k] <= |logs|
    requires AllIn(CopyIds(level, rs), dir)
    ensures ReplayLog(dir, CopyIds(level, rs)) == Ok(Picked(logs, rs))
  {
    hide Copies;
    if rs != [] {
      var n := |rs| - 1;
      var id := Slot(level, rs[n]);
      assert CopyIds(level, rs)[..n] == CopyIds(level, rs[..n]) && CopyIds(level, rs)[n] == id;
      ReplayOfPicked(dir, logs, level, rs[..n]);
      HoldsAtSlot(dir, logs, level, rs[n]);
    }
  }

  lemma HoldsAtSlot(dir: Dir, logs: seq<seq<Entry>>, level: nat, r: nat)
    requires Copies(dir, logs, level) && |logs| < 100_000 && 1 <= r <= |logs| && Slot(level, r) in dir
    ensures Replayed(dir[Slot(level, r)]) == Ok(logs[r - 1])
  {
    SlotParts(level, r);
    assert Holds(dir[Slot(level, r)], Slot(level, r), logs);
  }

  /** The files of `dir` below level `level`. */
  ghost function Below(dir: Dir, level: nat): (d: Dir)
    ensures forall id :: id in d <==> id in dir && id < Slot(level, 0)
    ensures forall id :: id in d ==> d[id] == dir[id]
  {
    map id | id in dir && id < Slot(level, 0) :: dir[id]
  }

  lemma BelowIsLaid(dir: Dir, dir': Dir, logs: seq<seq<Entry>>, top: nat)
    requires Laid(dir, logs, top) && Copies(dir', logs, top + 1) && dir.Keys <= dir'.Keys
    ensures Laid(Below(dir', top + 1), logs, top)
  {
    hide Holds;
    var d := Below(dir', top + 1);
    forall r | 1 <= r <= |logs| ensures Slot(top, r) in d {
      SlotParts(top, r);
    }
  }

  lemma {:induction false} SameReplay(a: Dir, b: Dir, ids: seq<int>)
    requires AllIn(ids, a) && AllIn(ids, b)
    requires forall k :: 0 <= k < |ids| ==> a[ids[k]] == b[ids[k]]
    ensures ReplayLog(a, ids) == ReplayLog(b, ids)
  {
    if ids != [] {
      SameReplay(a, b, ids[..|ids| - 1]);
    }
  }

  /** The new level holds exactly the copies of the newest files visited. */
  lemma NewCopies(dir: Dir, dir': Dir, logs: seq<seq<Entry>>, top: nat, done: seq<int>, x: int)
    requires Laid(dir, logs, top) && Copies(dir', logs, top + 1) && dir'.Keys == dir.Keys + Outputs(done)
    ensures x in dir' && x >= Slot(top + 1, 0) <==> x - Slot(top + 1, 0) in Visited(done, top, |logs|)
  {
    hide Copies, LevelFull;
    var r := x - Slot(top + 1, 0);
    if 1 <= r <= |logs| {
      SlotParts(top, r);
      NotYetThere(dir, logs, top, x);
      OutputsMember(done, Slot(top, r));
    } else if x in dir' && r >= 0 {
      CopyResidue(dir', logs, top + 1, x);
    }
  }

  lemma CopyResidue(dir: Dir, logs: seq<seq<Entry>>, top: nat, x: int)
    requires Copies(dir, logs, top) && |logs| < 100_000 && x in dir && x >= Slot(top, 0)
    ensures 1 <= x - Slot(top, 0) <= |logs|
  {
    SlotParts(top, x - Slot(top, 0));
  }

  lemma NotYetThere(dir: Dir, logs: seq<seq<Entry>>, top: nat, x: int)
    requires Copies(dir, logs, top) && x >= Slot(top + 1, 0)
    ensures x !in dir
  {
  }

  /** The directory of an unfinished pass, in id order: first everything below the new level,
      then the copies of the newest files it got to. */
  lemma UnfinishedListing(dir: Dir, dir': Dir, logs: seq<seq<Entry>>, top: nat, done: seq<int>)
    requires Laid(dir, logs, top) && Copies(dir', logs, top + 1) && dir'.Keys == dir.Keys + Outputs(done)
    ensures var ids := CopyIds(top + 1, Ordered.Ascending(Visited(done, top, |logs|)));
            AllIn(ids, dir')
            && Ordered.Ascending(dir'.Keys) == Ordered.Ascending(Below(dir', top + 1).Keys) + ids
  {
    hide Copies, LevelFull, Ordered.Ascending, Ordered.Shifted, Visited;
    SplitAtLevel(dir', top + 1);
    NewLevelShifted(dir, dir', logs, top, done);
    Ordered.AscendingShift(Visited(done, top, |logs|), Slot(top + 1, 0), NewLevel(dir', top + 1));
    AscendingIn(dir', NewLevel(dir', top + 1));
  }

  lemma SplitAtLevel(dir: Dir, level: nat)
    ensures Ordered.Ascending(dir.Keys)
         == Ordered.Ascending(Below(dir, level).Keys) + Ordered.Ascending(NewLevel(dir, level))
  {
    hide Ordered.Ascending;
    var low, high := Below(dir, level).Keys, NewLevel(dir, level);
    assert dir.Keys == low + high;
    Ordered.AscendingSplit(low, high);
  }

  ghost function NewLevel(dir: Dir, level: nat): (ids: set<int>)
    ensures forall id :: id in ids <==> id in dir && id >= Slot(level, 0)
  {
    set id | id in dir && id >= Slot(level, 0)
  }

  lemma NewLevelShifted(dir: Dir, dir': Dir, logs: seq<seq<Entry>>, top: nat, done: seq<int>)
    requires Laid(dir, logs, top) && Copies(dir', logs, top + 1) && dir'.Keys == dir.Keys + Outputs(done)
    ensures Ordered.Shifted(Visited(done, top, |logs|), Slot(top + 1, 0), NewLevel(dir', top + 1))
  {
    hide Copies, LevelFull, Visited;
    var level, base: int, rs := NewLevel(dir', top + 1), Slot(top + 1, 0), Visited(done, top, |logs|);
    forall x: int ensures x in level <==> x - base in rs {
      NewCopies(dir, dir', logs, top, done, x);
    }
  }

  /** The root a mount finds. */
  ghost function RootSeen(dir: Dir): (r: Option<Digest>) {
    var log := ReplayDir(dir);
    if log.Ok? then LastRoot(log.value) else None
  }

  /** What a mount sees when a pass ended early, by a kill or by a file too short for a header: the
      logical log, followed once more by the newest segments copied so far. */
  lemma UnfinishedPass(dir: Dir, logs: seq<seq<Entry>>, top: nat, listing: seq<int>)
    requires Laid(dir, logs, top) && Slot(top + 2, 0) <= U64_LIMIT && AllIn(listing, dir)
    ensures var after := GcPass(dir, listing).dir;
            var copied := NewestCopied(logs, listing[..Progress(dir, listing)], top);
            ReplayDir(after).Ok? && SeenIn(ReplayDir(after).value) == SeenIn(Flatten(logs) + copied)
  {
    hide Holds, GcPass, Laid, Copies, Passable, ReadFile;
    var done := listing[..Progress(dir, listing)];
    PassGetsTo(dir, listing);
    assert Copies(dir, logs, top) by { CopiesOfLaid(dir, logs, top); }
    PassReaches(dir, logs, top, done);
    UnfinishedReplay(dir, GcPass(dir, done).dir, logs, top, done);
  }

  /** So the root is the one seen before the pass if and only if the copies record no root or end in
      it; a name recorded in the copies means the version it has there; every version is still
      found, and means the same record if no two snapshots share a version. */
  lemma UnfinishedPassShows(dir: Dir, logs: seq<seq<Entry>>, top: nat, listing: seq<int>)
    requires Laid(dir, logs, top) && Slot(top + 2, 0) <= U64_LIMIT && AllIn(listing, dir)
    ensures ReplayDir(dir).Ok? && ReplayDir(GcPass(dir, listing).dir).Ok?
    ensures var before, after := SeenIn(ReplayDir(dir).value), SeenIn(ReplayDir(GcPass(dir, listing).dir).value);
            var copied := SeenIn(NewestCopied(logs, listing[..Progress(dir, listing)], top));
            && after.root == (if copied.root.Some? then copied.root else before.root)
            && (after.root == before.root <==> copied.root.None? || copied.root == before.root)
            && after.byVersion.Keys == before.byVersion.Keys && after.byName.Keys == before.byName.Keys
            && (forall n :: n in before.byName ==>
                  after.byName[n] == if n in copied.byName then copied.byName[n] else before.byName[n])
            && (VersionsAscend(Flatten(logs)) ==> after.byVersion == before.byVersion)
  {
    hide Holds, GcPass, Laid, ByVersion, ByName, LastRoot, VersionsAscend, ReplayDir, Progress;
    UnfinishedPass(dir, logs, top, listing);
    ReplayMeansLog(dir, logs, top);
    var copied := NewestCopied(logs, listing[..Progress(dir, listing)], top);
    LastRootAppend(Flatten(logs), copied);
    IndexAppend(Flatten(logs), copied);
    CopiedWithin(logs, listing[..Progress(dir, listing)], top);
    RepeatedKeys(copied, Flatten(logs));
    if VersionsAscend(Flatten(logs)) { SameVersions(Flatten(logs), copied); }
  }

  lemma CopiedWithin(logs: seq<seq<Entry>>, done: seq<int>, top: nat)
    ensures Within(NewestCopied(logs, done, top), Flatten(logs))
  {
    VisitedRange(done, top, |logs|);
    PickedWithin(logs, Ordered.Ascending(Visited(done, top, |logs|)));
  }

  lemma {:induction false} PickedWithin(logs: seq<seq<Entry>>, rs: seq<int>)
    requires forall k :: 0 <= k < |rs| ==> 1 <= rs[k] <= |logs|
    ensures Within(Picked(logs, rs), Flatten(logs))
  {
    hide Flatten;
    if rs != [] {
      PickedWithin(logs, rs[..|rs| - 1]);
      FlattenContains(logs, rs[|rs| - 1] - 1);
    }
  }

  lemma UnfinishedReplay(dir: Dir, dir': Dir, logs: seq<seq<Entry>>, top: nat, done: seq<int>)
    requires Laid(dir, logs, top) && Copies(dir', logs, top + 1) && dir'.Keys == dir.Keys + Outputs(done)
    ensures ReplayDir(dir').Ok?
    ensures SeenIn(ReplayDir(dir').value) == SeenIn(Flatten(logs) + NewestCopied(logs, done, top))
  {
    hide Copies, LevelFull, Ordered.Ascending, SeenIn;
    var rs := Ordered.Ascending(Visited(done, top, |logs|));
    VisitedRange(done, top, |logs|);
    var low := Below(dir', top + 1);
    var lowIds := Ordered.Ascending(low.Keys);
    UnfinishedListing(dir, dir', logs, top, done);
    BelowIsLaid(dir, dir', logs, top);
    ReplayMeansLog(low, logs, top);
    AscendingIn(low, low.Keys);
    AscendingIn(dir', low.Keys);
    SameReplay(low, dir', lowIds);
    ReplayOfPicked(dir', logs, top + 1, rs);
    ReplayAppend(dir', lowIds, CopyIds(top + 1, rs));
    SeenAppend(ReplayLog(low, lowIds).value, Flatten(logs), Picked(logs, rs));
  }

  lemma SeenAppend(a: seq<Entry>, b: seq<Entry>, more: seq<Entry>)
    requires SeenIn(a) == SeenIn(b)
    ensures SeenIn(a + more) == SeenIn(b + more)
  {
    hide LastRoot, ByVersion, ByName;
    LastRootAppend(a, more);
    LastRootAppend(b, more);
    IndexAppend(a, more);
    IndexAppend(b, more);
  }

  // -------------------------------------------------------------- concrete directories

  ghost function TwoRoots(a: Digest, b: Digest): (ops: seq<Op>) {
    [Session(Frame(RootUpdate(a))), Session(Frame(RootUpdate(b)))]
  }

  /** Two sessions commit the roots `a` and then `b`; a pass killed after the first file puts the
      older root `a` back in front of the next mount. */
  lemma UnfinishedPassRevertsRoot(a: Digest, b: Digest)
    requires a != b
    ensures var dir := RunDir(TwoRoots(a, b));
            AllIn([1], dir) && RootSeen(dir) == Some(b) && RootSeen(GcPass(dir, [1]).dir) == Some(a)
  {
    hide RunDir, GcPass, Frame, RootSeen, Laid, Flatten, HeaderBytes;
    TwoSessions(a, b);
    TwoFiles(a, b);
    RunKeepsLayout(TwoRoots(a, b));
    var dir := RunDir(TwoRoots(a, b));
    var logs := [[RootUpdate(a)], [RootUpdate(b)]];
    LastOfTwo(a, b);
    assert Passable(dir, [1]);
    assert [1][..1] == [1];
    RootReverts(dir, logs, [1], a);
  }

  /** The same with a stub, from a mount killed at its start: the pass comes to it second and fails,
      and the older root is what the next mount finds. */
  lemma FailedPassRevertsRoot(a: Digest, b: Digest)
    requires a != b
    ensures var dir := RunDir(TwoRoots(a, b) + [Stub([])]);
            && Listing([1, 3, 2], dir) && GcPass(dir, [1, 3, 2]).error == Some(UnexpectedEof)
            && RootSeen(dir) == Some(b) && RootSeen(GcPass(dir, [1, 3, 2]).dir) == Some(a)
  {
    hide RunDir, GcPass, Frame, RootSeen, Laid, Flatten, HeaderBytes, Passable;
    var ops := TwoRoots(a, b) + [Stub([])];
    ThreeFiles(a, b);
    RunKeepsLayout(ops);
    var dir := RunDir(ops);
    var logs := [[RootUpdate(a)], [RootUpdate(b)], []];
    LastOfTwo(a, b);
    StuckAtSecond(dir);
    PassGetsTo(dir, [1, 3, 2]);
    assert [1, 3, 2][..1] == [1] && ReadFile([]) == Err(UnexpectedEof);
    RootReverts(dir, logs, [1, 3, 2], a);
  }

  lemma StuckAtSecond(dir: Dir)
    requires dir.Keys == {1, 2, 3} && Headed(dir[1]) && dir[3] == []
    ensures Listing([1, 3, 2], dir) && Progress(dir, [1, 3, 2]) == 1
  {
    hide Progress;
    var q, two := [1, 3, 2], [1, 3];
    assert q[..2] == two && two[..1] == [1];
    assert !Headed(dir[q[1]]) && !Overwritten(q, 1);
    ProgressIs(dir, q);
    assert !Headed(dir[two[1]]) && !Overwritten(two, 1);
    ProgressIs(dir, two);
    assert Headed(dir[[1][0]]);
    ProgressIs(dir, [1]);
  }

  lemma ProgressIs(dir: Dir, listing: seq<int>)
    requires listing != []
    ensures Progress(dir, listing)
         == if Passable(dir, listing) then |listing| else Progress(dir, listing[..|listing| - 1])
  {
    hide Passable;
  }

  /** The copy of the first segment alone brings its root back. */
  lemma RootReverts(dir: Dir, logs: seq<seq<Entry>>, listing: seq<int>, a: Digest)
    requires Laid(dir, logs, 0) && logs != [] && logs[0] == [RootUpdate(a)] && AllIn(listing, dir)
    requires listing[..Progress(dir, listing)] == [1]
    ensures RootSeen(dir) == LastRoot(Flatten(logs)) && RootSeen(GcPass(dir, listing).dir) == Some(a)
  {
    hide GcPass, Laid, Flatten, Progress, NewestCopied, LastRoot, ByVersion, ByName, ReplayDir;
    UnfinishedPassShows(dir, logs, 0, listing);
    ReplayMeansLog(dir, logs, 0);
    FirstCopied(logs, a);
    var after := GcPass(dir, listing).dir;
    var copied := NewestCopied(logs, listing[..Progress(dir, listing)], 0);
    assert LastRoot(copied) == Some(a);
    assert SeenIn(ReplayDir(after).value).root == SeenIn(copied).root;
  }

  lemma FirstCopied(logs: seq<seq<Entry>>, a: Digest)
    requires logs != [] && logs[0] == [RootUpdate(a)]
    ensures LastRoot(NewestCopied(logs, [1], 0)) == Some(a)
  {
    hide Ordered.Ascending;
    OnlyFirstVisited(|logs|);
    assert [1][..0] == [] && Picked(logs, []) == [];
    assert Picked(logs, [1]) == [] + logs[0] == logs[0];
  }

  lemma OnlyFirstVisited(n: nat)
    requires n >= 1
    ensures Ordered.Ascending(Visited([1], 0, n)) == [1]
  {
    assert forall x :: x in [1] <==> x in Visited([1], 0, n);
    Ordered.AscendingUnique([1], Visited([1], 0, n));
  }

  lemma LastOfTwo(a: Digest, b: Digest)
    ensures LastRoot(Flatten([[RootUpdate(a)], [RootUpdate(b)]])) == Some(b)
    ensures LastRoot(Flatten([[RootUpdate(a)], [RootUpdate(b)], []])) == Some(b)
  {
    var two := [[RootUpdate(a)], [RootUpdate(b)]];
    assert two[..1] == [[RootUpdate(a)]] && two[..1][..0] == [];
    assert Flatten(two[..1]) == [RootUpdate(a)];
    assert Flatten(two) == [RootUpdate(a), RootUpdate(b)];
    assert (two + [[]])[..2] == two && two + [[]] == [[RootUpdate(a)], [RootUpdate(b)], []];
  }

  /** The files of the two sessions. */
  lemma TwoFiles(a: Digest, b: Digest)
    ensures var dir := RunDir(TwoRoots(a, b)); dir.Keys == {1, 2} && Headed(dir[1]) && Headed(dir[2])
  {
    hide Frame, HeaderBytes, Laid, NextId, ReadFile;
    var one := Session(Frame(RootUpdate(a)));
    var two := Session(Frame(RootUpdate(b)));
    assert [one, two][..1] == [one] && [one][..0] == [] && RunDir([]) == map[];
    TwoSessions(a, b);
    RunKeepsLayout([]);
    NextSlot(map[], [], 0);
    HeadedFile(1, one.body);
    assert RunDir([one]) == map[1 := HeaderBytes(1) + one.body];
    RunKeepsLayout([one]);
    NextSlot(RunDir([one]), Logs([one]), 0);
    HeadedFile(2, two.body);
    assert RunDir([one, two]) == RunDir([one])[2 := HeaderBytes(2) + two.body];
  }

  lemma ThreeFiles(a: Digest, b: Digest)
    ensures var ops := TwoRoots(a, b) + [Stub([])];
            && ValidRun(ops) && Levels(ops) == 0 && Logs(ops) == [[RootUpdate(a)], [RootUpdate(b)], []]
            && RunDir(ops).Keys == {1, 2, 3} && Headed(RunDir(ops)[1]) && RunDir(ops)[3] == []
  {
    hide Frame, HeaderBytes, Laid, NextId, ReadFile, TwoRoots;
    TwoSessions(a, b);
    TwoFiles(a, b);
    RunKeepsLayout(TwoRoots(a, b));
    NextSlot(RunDir(TwoRoots(a, b)), Logs(TwoRoots(a, b)), 0);
    Seqs.Parts(TwoRoots(a, b), [Stub([])]);
  }

  lemma TwoSessions(a: Digest, b: Digest)
    ensures ValidRun(TwoRoots(a, b)) && Levels(TwoRoots(a, b)) == 0
    ensures Logs(TwoRoots(a, b)) == [[RootUpdate(a)], [RootUpdate(b)]]
    ensures ValidRun(TwoRoots(a, b)[..1]) && Logs(TwoRoots(a, b)[..1]) == [[RootUpdate(a)]]
            && Levels(TwoRoots(a, b)[..1]) == 0
  {
    hide Frame, RunDir;
    var one := Session(Frame(RootUpdate(a)));
    var two := Session(Frame(RootUpdate(b)));
    FrameReadsBackIff(RootUpdate(a));
    FrameReadsBackIff(RootUpdate(b));
    assert [one, two][..1] == [one] && [one][..0] == [];
    assert ValidRun([]) && ValidRun([one]);
    assert Logs([]) == [] && Logs([one]) == [[RootUpdate(a)]];
    assert Levels([]) == 0 && Levels([one]) == 0;
  }
}
