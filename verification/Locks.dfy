/** The locks of the metadata store: threads that take them in rank order never deadlock, and every
    store method does. */
module Locks {
  import Seqs

  /** The mutexes, in the order in which they may be nested. */
  datatype Lock = InodeMap | Io | InodeData | DirData | ManifestData | XattrData | Refcounts
                | LastRoot | WalSlot | WalBuffer | WalWriter | ByVersion | ByName

  function Rank(l: Lock): (n: nat) {
    match l
    case InodeMap => 1
    case Io => 2
    case InodeData => 3
    case DirData => 4
    case ManifestData => 5
    case XattrData => 6
    case Refcounts => 7
    case LastRoot => 8
    case WalSlot => 9
    case WalBuffer => 10
    case WalWriter => 11
    case ByVersion => 12
    case ByName => 13
  }

  datatype Act = Take(lock: Lock) | Drop(lock: Lock)

  /** What a thread still has to do, and what it holds. */
  datatype Thread = Thread(rest: seq<Act>, held: set<Lock>)

  type System = seq<Thread>

  // ---------------------------------------------------------------- ordered threads

  /** Higher than everything held. */
  ghost predicate Above(l: Lock, held: set<Lock>) {
    forall x :: x in held ==> Rank(x) < Rank(l)
  }

  /** Every lock is taken above those held, only held locks are dropped, and all are at the end. */
  ghost predicate Orderly(t: Thread)
    decreases |t.rest|
  {
    if t.rest == [] then t.held == {}
    else
      match t.rest[0]
      case Take(l) => Above(l, t.held) && Orderly(Thread(t.rest[1..], t.held + {l}))
      case Drop(l) => l in t.held && Orderly(Thread(t.rest[1..], t.held - {l}))
  }

  ghost predicate Exclusive(s: System) {
    forall i, j, l :: 0 <= i < |s| && 0 <= j < |s| && l in s[i].held && l in s[j].held ==> i == j
  }

  ghost predicate Safe(s: System) {
    (forall i :: 0 <= i < |s| ==> Orderly(s[i])) && Exclusive(s)
  }

  ghost predicate Free(s: System, l: Lock) {
    forall i :: 0 <= i < |s| ==> l !in s[i].held
  }

  ghost predicate Done(s: System) {
    forall i :: 0 <= i < |s| ==> s[i].rest == []
  }

  /** A thread that has something to do and does not wait for a lock. */
  ghost predicate Runnable(s: System, i: nat) {
    i < |s| && s[i].rest != [] && (s[i].rest[0].Take? ==> Free(s, s[i].rest[0].lock))
  }

  function After(t: Thread): (t': Thread)
    requires t.rest != []
  {
    match t.rest[0]
    case Take(l) => Thread(t.rest[1..], t.held + {l})
    case Drop(l) => Thread(t.rest[1..], t.held - {l})
  }

  function Step(s: System, i: nat): (s': System)
    requires i < |s| && s[i].rest != []
  {
    s[i := After(s[i])]
  }

  lemma StepIsSafe(s: System, i: nat)
    requires Safe(s) && Runnable(s, i)
    ensures Safe(Step(s, i))
  {
    var s' := Step(s, i);
    assert Orderly(s[i]);
    forall j, k, l | 0 <= j < |s'| && 0 <= k < |s'| && l in s'[j].held && l in s'[k].held ensures j == k {
      if s[i].rest[0].Take? && l == s[i].rest[0].lock {
        assert l !in s[j].held && l !in s[k].held;
      } else {
        assert l in s[j].held && l in s[k].held;
      }
    }
  }

  // ------------------------------------------------------------------- no deadlock

  /** A thread waits for `l`. */
  ghost predicate Waits(s: System, i: nat, l: Lock) {
    i < |s| && s[i].rest != [] && s[i].rest[0] == Take(l)
  }

  /** A waiting thread leads to a runnable one: whoever holds the lock has something to do, and waits,
      if at all, for a higher lock. */
  lemma {:induction false} WaitersLeadOn(s: System, i: nat, l: Lock) returns (r: nat)
    requires Safe(s) && Waits(s, i, l)
    ensures Runnable(s, r)
    decreases 13 - Rank(l)
  {
    if Free(s, l) {
      r := i;
    } else {
      var h :| 0 <= h < |s| && l in s[h].held;
      assert Orderly(s[h]);
      assert s[h].rest != [];
      var act := s[h].rest[0];
      if act.Take? {
        assert Above(act.lock, s[h].held);
        r := WaitersLeadOn(s, h, act.lock);
      } else {
        r := h;
      }
    }
  }

  /** Until all threads are done, one of them can run. */
  lemma SomeoneRuns(s: System)
    requires Safe(s) && !Done(s)
    ensures exists i :: Runnable(s, i)
  {
    var i :| 0 <= i < |s| && s[i].rest != [];
    if s[i].rest[0].Take? {
      var r := WaitersLeadOn(s, i, s[i].rest[0].lock);
    } else {
      assert Runnable(s, i);
    }
  }

  /** A schedule runs one runnable thread after the other. */
  ghost predicate Runs(s: System, schedule: seq<nat>)
    decreases |schedule|
  {
    schedule == [] || (Runnable(s, schedule[0]) && Runs(Step(s, schedule[0]), schedule[1..]))
  }

  ghost function Reached(s: System, schedule: seq<nat>): (s': System)
    requires Runs(s, schedule)
    decreases |schedule|
  {
    if schedule == [] then s else Reached(Step(s, schedule[0]), schedule[1..])
  }

  lemma {:induction false} RunsAreSafe(s: System, schedule: seq<nat>)
    requires Safe(s) && Runs(s, schedule)
    ensures Safe(Reached(s, schedule))
    decreases |schedule|
  {
    hide Safe, Step;
    if schedule != [] {
      StepIsSafe(s, schedule[0]);
      RunsAreSafe(Step(s, schedule[0]), schedule[1..]);
    }
  }

  /** No schedule of ordered threads ends in a deadlock. */
  lemma NoDeadlock(s: System, schedule: seq<nat>)
    requires Safe(s) && Runs(s, schedule) && !Done(Reached(s, schedule))
    ensures exists i :: Runnable(Reached(s, schedule), i)
  {
    hide Safe, Runs, Reached;
    RunsAreSafe(s, schedule);
    SomeoneRuns(Reached(s, schedule));
  }

  function Work(s: System): (n: nat) {
    if s == [] then 0 else Work(s[..|s| - 1]) + |s[|s| - 1].rest|
  }

  lemma {:induction false} StepWorks(s: System, i: nat)
    requires i < |s| && s[i].rest != []
    ensures Work(Step(s, i)) == Work(s) - 1
  {
    var n := |s| - 1;
    var s' := Step(s, i);
    if i == n {
      assert s'[..n] == s[..n];
    } else {
      StepWorks(s[..n], i);
      assert s'[..n] == Step(s[..n], i);
    }
  }

  /** From every safe state all threads can be run to the end, however they were scheduled before. */
  lemma {:induction false} EveryoneFinishes(s: System) returns (schedule: seq<nat>)
    requires Safe(s)
    ensures Runs(s, schedule) && Done(Reached(s, schedule))
    decreases Work(s)
  {
    if Done(s) {
      schedule := [];
    } else {
      SomeoneRuns(s);
      var i :| Runnable(s, i);
      StepIsSafe(s, i);
      StepWorks(s, i);
      var rest := EveryoneFinishes(Step(s, i));
      schedule := [i] + rest;
      Seqs.TailOfCons(i, rest);
    }
  }

  // ------------------------------------------------------------------ whole programs

  /** One method's locking, from no lock held to no lock held. */
  ghost predicate Method(script: seq<Act>) {
    Orderly(Thread(script, {}))
  }

  lemma {:induction false} Continues(t: Thread, next: seq<Act>)
    requires Orderly(t) && Method(next)
    ensures Orderly(Thread(t.rest + next, t.held))
    decreases |t.rest|
  {
    if t.rest == [] {
      assert t.rest + next == next;
    } else {
      Continues(After(t), next);
      Seqs.TailOfAppend(t.rest, next);
    }
  }

  ghost predicate AllMethods(scripts: seq<seq<Act>>) {
    forall k :: 0 <= k < |scripts| ==> Method(scripts[k])
  }

  function Program(scripts: seq<seq<Act>>): (acts: seq<Act>) {
    if scripts == [] then [] else scripts[0] + Program(scripts[1..])
  }

  lemma {:induction false} ProgramsAreOrderly(scripts: seq<seq<Act>>)
    requires AllMethods(scripts)
    ensures Method(Program(scripts))
  {
    if scripts != [] {
      ProgramsAreOrderly(scripts[1..]);
      Continues(Thread(scripts[0], {}), Program(scripts[1..]));
    }
  }

  // --------------------------------------------------------- locking code and its paths

  /** What a method's body does with locks. A guard is dropped where its block ends, also when the
      method returns from inside the block. `Pass` takes a second lock before it gives up the first.
      `Sub` is a call whose own returns end only the call. */
  datatype Code =
    | Skip
    | Return
    | Then(first: Code, next: Code)
    | Either(left: Code, right: Code)
    | Hold(lock: Lock, body: Code)
    | Pass(lock: Lock, onto: Lock, body: Code)
    | Sub(body: Code)

  /** The acts of one path, whether it ended in a return, and the choices it did not use. */
  datatype Trace = Trace(acts: seq<Act>, returned: bool, choices: seq<bool>)

  /** The path that takes the given choices, the left one when they run out. */
  function Path(c: Code, choices: seq<bool>): (t: Trace)
    decreases c
  {
    match c
    case Skip => Trace([], false, choices)
    case Return => Trace([], true, choices)
    case Then(first, next) =>
      var x := Path(first, choices);
      if x.returned then x
      else
        var y := Path(next, x.choices);
        Trace(x.acts + y.acts, y.returned, y.choices)
    case Either(left, right) =>
      if choices == [] then Path(left, []) else Path(if choices[0] then right else left, choices[1..])
    case Hold(l, body) =>
      var x := Path(body, choices);
      Trace([Take(l)] + (x.acts + [Drop(l)]), x.returned, x.choices)
    case Pass(l, m, body) =>
      var x := Path(body, choices);
      Trace([Take(l), Take(m), Drop(l)] + (x.acts + [Drop(m)]), x.returned, x.choices)
    case Sub(body) => Path(body, choices).(returned := false)
  }

  /** Every lock is above the ones around it, the highest of which has rank `floor`. */
  predicate Ranked(c: Code, floor: nat)
    decreases c
  {
    match c
    case Skip => true
    case Return => true
    case Then(first, next) => Ranked(first, floor) && Ranked(next, floor)
    case Either(left, right) => Ranked(left, floor) && Ranked(right, floor)
    case Hold(l, body) => floor < Rank(l) && Ranked(body, Rank(l))
    case Pass(l, m, body) => floor < Rank(l) < Rank(m) && Ranked(body, Rank(m))
    case Sub(body) => Ranked(body, floor)
  }

  ghost predicate Under(held: set<Lock>, floor: nat) {
    forall x :: x in held ==> Rank(x) <= floor
  }

  lemma TakeFirst(l: Lock, rest: seq<Act>, held: set<Lock>)
    requires Above(l, held) && Orderly(Thread(rest, held + {l}))
    ensures Orderly(Thread([Take(l)] + rest, held))
  {
    Seqs.TailOfCons(Take(l), rest);
  }

  lemma DropFirst(l: Lock, rest: seq<Act>, held: set<Lock>)
    requires l in held && Orderly(Thread(rest, held - {l}))
    ensures Orderly(Thread([Drop(l)] + rest, held))
  {
    Seqs.TailOfCons(Drop(l), rest);
  }

  /** In front of an orderly thread, every path of ranked code is orderly: it ends holding what it
      started with. */
  lemma {:induction false} PathIsOrderly(c: Code, choices: seq<bool>, floor: nat, held: set<Lock>, rest: seq<Act>)
    requires Ranked(c, floor) && Under(held, floor) && Orderly(Thread(rest, held))
    ensures Orderly(Thread(Path(c, choices).acts + rest, held))
    decreases c, 0
  {
    hide Orderly;
    match c {
      case Skip => assert [] + rest == rest;
      case Return => assert [] + rest == rest;
      case Then(first, next) =>
        var x := Path(first, choices);
        if x.returned {
          PathIsOrderly(first, choices, floor, held, rest);
        } else {
          var y := Path(next, x.choices);
          PathIsOrderly(next, x.choices, floor, held, rest);
          PathIsOrderly(first, choices, floor, held, y.acts + rest);
          Seqs.Associative(x.acts, y.acts, rest);
        }
      case Either(left, right) =>
        if choices == [] {
          PathIsOrderly(left, [], floor, held, rest);
        } else {
          PathIsOrderly(if choices[0] then right else left, choices[1..], floor, held, rest);
        }
      case Hold(l, body) => HoldIsOrderly(l, body, choices, floor, held, rest);
      case Pass(l, m, body) => PassIsOrderly(l, m, body, choices, floor, held, rest);
      case Sub(body) => PathIsOrderly(body, choices, floor, held, rest);
    }
  }

  lemma {:induction false} HoldIsOrderly(l: Lock, body: Code, choices: seq<bool>, floor: nat, held: set<Lock>,
      rest: seq<Act>)
    requires floor < Rank(l) && Ranked(body, Rank(l)) && Under(held, floor) && Orderly(Thread(rest, held))
    ensures Orderly(Thread(Path(Hold(l, body), choices).acts + rest, held))
    decreases body, 1
  {
    hide Orderly;
    var x := Path(body, choices);
    assert held + {l} - {l} == held;
    DropFirst(l, rest, held + {l});
    PathIsOrderly(body, choices, Rank(l), held + {l}, [Drop(l)] + rest);
    TakeFirst(l, x.acts + ([Drop(l)] + rest), held);
    assert [Take(l)] + (x.acts + [Drop(l)]) + rest == [Take(l)] + (x.acts + ([Drop(l)] + rest));
  }

  lemma {:induction false} PassIsOrderly(l: Lock, m: Lock, body: Code, choices: seq<bool>, floor: nat, held: set<Lock>,
                                         rest: seq<Act>)
    requires floor < Rank(l) < Rank(m) && Ranked(body, Rank(m)) && Under(held, floor) && Orderly(Thread(rest, held))
    ensures Orderly(Thread(Path(Pass(l, m, body), choices).acts + rest, held))
    decreases body, 1
  {
    hide Orderly, Path, Ranked;
    var x := Path(body, choices);
    PathOfPass(l, m, body, choices);
    PassedLocks(l, m, held);
    DropFirst(m, rest, held + {m});
    PathIsOrderly(body, choices, Rank(m), held + {m}, [Drop(m)] + rest);
    var inner := x.acts + ([Drop(m)] + rest);
    DropFirst(l, inner, held + {l} + {m});
    TakeFirst(m, [Drop(l)] + inner, held + {l});
    TakeFirst(l, [Take(m)] + ([Drop(l)] + inner), held);
    PassedActs(l, m, x.acts, rest);
  }

  lemma PathOfPass(l: Lock, m: Lock, body: Code, choices: seq<bool>)
    ensures Path(Pass(l, m, body), choices).acts
         == [Take(l), Take(m), Drop(l)] + (Path(body, choices).acts + [Drop(m)])
  {
  }

  lemma PassedActs(l: Lock, m: Lock, acts: seq<Act>, rest: seq<Act>)
    ensures [Take(l), Take(m), Drop(l)] + (acts + [Drop(m)]) + rest
         == [Take(l)] + ([Take(m)] + ([Drop(l)] + (acts + ([Drop(m)] + rest))))
  {
  }

  lemma PassedLocks(l: Lock, m: Lock, held: set<Lock>)
    requires l !in held && m !in held && l != m
    ensures held + {m} - {m} == held && held + {l} + {m} - {l} == held + {m}
  {
  }

  // --------------------------------------------------------------- the store's methods

  datatype Call =
    | LoadFromRoot
    | CreateInode | GetInode | UpdateInode | DeleteInode | CreateDirectory
    | ListDirectory | LookupName | LinkName | UnlinkName
    | SetManifest | GetManifest | SetXattr | GetXattr | ListXattrs | RemoveXattr
    | IncrementRefcount | DecrementRefcount | GetRefcount | SaturatedRefcountCount
    | Commit | CommitRoot | CurrentRoot | SetWal | FlushWal | ShutdownWal
    | CreateSnapshot | ListSnapshots | FindSnapshot | SetSnapshots | SnapshotRoots

  /** A lock taken for one statement. */
  function Brief(l: Lock): (c: Code) {
    Hold(l, Skip)
  }

  /** An error or a missing entry ends the method here, or does not. */
  function MayReturn(): (c: Code) {
    Either(Skip, Return)
  }

  /** One piece of code after the other. */
  function Block(cs: seq<Code>): (c: Code) {
    if cs == [] then Skip else Then(cs[0], Block(cs[1..]))
  }

  /** A call whose error is handed on. */
  function Try(c: Code): (r: Code) {
    Then(Sub(c), MayReturn())
  }

  /** `log_wal_entry`: without a strategy only its slot is looked at; otherwise the entry goes to the
      writer or, for the buffering strategies, to the buffer, and errors are ignored. */
  function LogCode(perOp: bool): (c: Code) {
    Hold(WalSlot, Either(Skip, Sub(if perOp then Hold(WalWriter, MayReturn()) else Brief(WalBuffer))))
  }

  function FlushCode(perOp: bool): (c: Code) {
    var flush := if perOp then Hold(WalWriter, MayReturn()) else Hold(WalBuffer, Hold(WalWriter, MayReturn()));
    Hold(WalSlot, Either(Skip, Try(flush)))
  }

  /** Look up an entry in a table, then work on the blobs it names. */
  function LookThenLoad(table: Lock): (c: Code) {
    Then(Hold(table, MayReturn()), Hold(Io, MayReturn()))
  }

  function UpdateCode(): (c: Code) {
    Block([Hold(InodeData, MayReturn()), Brief(Io), Brief(Io), Brief(InodeData), Brief(InodeMap)])
  }

  /** `commit` passes from the inode map to the blob store and keeps that for all tables. */
  function CommitCode(perOp: bool): (c: Code) {
    var tables := Block([Brief(InodeData), Brief(DirData), Brief(ManifestData), Brief(XattrData), Brief(Refcounts)]);
    Block([Pass(InodeMap, Io, tables), Brief(LastRoot), LogCode(perOp)])
  }

  function CreateDirectoryCode(): (c: Code) {
    Block([Try(LookThenLoad(InodeData)), MayReturn(), Brief(DirData), MayReturn(),
           Hold(InodeMap, Then(Hold(DirData, MayReturn()), Hold(Io, MayReturn()))),
           Brief(InodeData), Brief(DirData), Brief(DirData), Try(LookThenLoad(InodeData)), Try(UpdateCode())])
  }

  /** The locking of each method, with all its branches and early returns. */
  function CodeOf(call: Call, perOp: bool): (c: Code) {
    match call
    case LoadFromRoot => Hold(Io, MayReturn())
    case CreateInode => Hold(InodeMap, Then(Brief(Io), Brief(InodeData)))
    case GetInode => LookThenLoad(InodeData)
    case UpdateInode => UpdateCode()
    case DeleteInode => Block([Hold(InodeData, MayReturn()), Brief(Io), Brief(InodeData), Brief(InodeMap)])
    case CreateDirectory => CreateDirectoryCode()
    case ListDirectory => LookThenLoad(DirData)
    case LookupName => LookThenLoad(DirData)
    case LinkName => Then(LookThenLoad(DirData), Brief(DirData))
    case UnlinkName => Then(LookThenLoad(DirData), Brief(DirData))
    case SetManifest => Then(Brief(Io), Brief(ManifestData))
    case GetManifest => LookThenLoad(ManifestData)
    case SetXattr => Block([Brief(XattrData), Either(Skip, Hold(Io, MayReturn())), Brief(Io), Brief(XattrData)])
    case GetXattr => LookThenLoad(XattrData)
    case ListXattrs => LookThenLoad(XattrData)
    case RemoveXattr => Block([LookThenLoad(XattrData), MayReturn(), Brief(Io), Brief(XattrData)])
    case IncrementRefcount => Hold(Refcounts, MayReturn())
    case DecrementRefcount => Hold(Refcounts, MayReturn())
    case GetRefcount => Brief(Refcounts)
    case SaturatedRefcountCount => Brief(Refcounts)
    case Commit => CommitCode(perOp)
    case CommitRoot => Then(Brief(LastRoot), LogCode(perOp))
    case CurrentRoot => Brief(LastRoot)
    case SetWal => Brief(WalSlot)
    case FlushWal => FlushCode(perOp)
    case ShutdownWal => FlushCode(perOp)
    case CreateSnapshot =>
      Block([Try(CommitCode(perOp)), Brief(ByVersion), LogCode(perOp), Brief(ByVersion), Either(Skip, Brief(ByName))])
    case ListSnapshots => Brief(ByVersion)
    case FindSnapshot => Either(Brief(ByVersion), Then(Hold(ByName, MayReturn()), Brief(ByVersion)))
    case SetSnapshots => Hold(ByVersion, Brief(ByName))
    case SnapshotRoots => Then(Brief(ByVersion), Brief(LastRoot))
  }

  lemma {:induction false} BlockIsRanked(cs: seq<Code>, floor: nat)
    requires forall k :: 0 <= k < |cs| ==> Ranked(cs[k], floor)
    ensures Ranked(Block(cs), floor)
  {
    if cs != [] { BlockIsRanked(cs[1..], floor); }
  }

  /** The smallest pieces. */
  lemma PieceIsRanked(l: Lock, floor: nat)
    ensures Ranked(MayReturn(), floor)
    ensures floor < Rank(l) ==> Ranked(Brief(l), floor) && Ranked(Hold(l, MayReturn()), floor)
  {
  }

  lemma PiecesAreRanked()
    ensures forall l, floor: nat {:trigger Ranked(Brief(l), floor)} :: floor < Rank(l) ==> Ranked(Brief(l), floor)
    ensures forall l, floor: nat {:trigger Ranked(Hold(l, MayReturn()), floor)} ::
              floor < Rank(l) ==> Ranked(Hold(l, MayReturn()), floor)
    ensures forall floor: nat :: Ranked(MayReturn(), floor)
    ensures forall l :: Ranked(LookThenLoad(l), 0)
  {
    forall l, floor: nat | floor < Rank(l) ensures Ranked(Brief(l), floor) { PieceIsRanked(l, floor); }
    forall l, floor: nat | floor < Rank(l) ensures Ranked(Hold(l, MayReturn()), floor) { PieceIsRanked(l, floor); }
    forall floor: nat ensures Ranked(MayReturn(), floor) { PieceIsRanked(Io, floor); }
    forall l ensures Ranked(LookThenLoad(l), 0) { PieceIsRanked(l, 0); PieceIsRanked(Io, 0); }
  }

  lemma LogIsRanked(perOp: bool)
    ensures Ranked(LogCode(perOp), 0) && Ranked(FlushCode(perOp), 0)
  {
  }

  lemma CommitIsRanked(perOp: bool)
    ensures Ranked(CommitCode(perOp), 0)
  {
    hide Block, Brief, LogCode;
    PiecesAreRanked();
    LogIsRanked(perOp);
    var tables := [Brief(InodeData), Brief(DirData), Brief(ManifestData), Brief(XattrData), Brief(Refcounts)];
    BlockIsRanked(tables, Rank(Io));
    BlockIsRanked([Pass(InodeMap, Io, Block(tables)), Brief(LastRoot), LogCode(perOp)], 0);
  }

  lemma UpdateIsRanked()
    ensures Ranked(UpdateCode(), 0)
  {
    hide Block, Brief, MayReturn;
    PiecesAreRanked();
    BlockIsRanked([Hold(InodeData, MayReturn()), Brief(Io), Brief(Io), Brief(InodeData), Brief(InodeMap)], 0);
  }

  lemma DirectoryIsRanked()
    ensures Ranked(CreateDirectoryCode(), 0)
  {
    hide Block, Brief, MayReturn, LookThenLoad, UpdateCode;
    PiecesAreRanked();
    UpdateIsRanked();
    BlockIsRanked([Try(LookThenLoad(InodeData)), MayReturn(), Brief(DirData), MayReturn(),
                   Hold(InodeMap, Then(Hold(DirData, MayReturn()), Hold(Io, MayReturn()))),
                   Brief(InodeData), Brief(DirData), Brief(DirData), Try(LookThenLoad(InodeData)),
                   Try(UpdateCode())], 0);
  }

  lemma SnapshotIsRanked(perOp: bool)
    ensures Ranked(CodeOf(CreateSnapshot, perOp), 0)
  {
    hide Block, Brief, MayReturn, CommitCode, LogCode;
    PiecesAreRanked();
    CommitIsRanked(perOp);
    LogIsRanked(perOp);
    BlockIsRanked([Try(CommitCode(perOp)), Brief(ByVersion), LogCode(perOp), Brief(ByVersion),
                   Either(Skip, Brief(ByName))], 0);
  }

  lemma AttributesAreRanked(perOp: bool)
    ensures Ranked(CodeOf(SetXattr, perOp), 0) && Ranked(CodeOf(RemoveXattr, perOp), 0)
            && Ranked(CodeOf(DeleteInode, perOp), 0)
  {
    hide Block, Brief, MayReturn, LookThenLoad;
    PiecesAreRanked();
    BlockIsRanked([Hold(InodeData, MayReturn()), Brief(Io), Brief(InodeData), Brief(InodeMap)], 0);
    BlockIsRanked([Brief(XattrData), Either(Skip, Hold(Io, MayReturn())), Brief(Io), Brief(XattrData)], 0);
    BlockIsRanked([LookThenLoad(XattrData), MayReturn(), Brief(Io), Brief(XattrData)], 0);
  }

  /** The methods on reference counts, the log and the snapshot indexes. */
  ghost predicate Aside(call: Call) {
    || call.IncrementRefcount? || call.DecrementRefcount? || call.GetRefcount? || call.SaturatedRefcountCount?
    || call.CommitRoot? || call.CurrentRoot? || call.SetWal? || call.FlushWal? || call.ShutdownWal?
    || call.ListSnapshots? || call.FindSnapshot? || call.SetSnapshots? || call.SnapshotRoots?
  }

  lemma AsideIsRanked(call: Call, perOp: bool)
    requires Aside(call)
    ensures Ranked(CodeOf(call, perOp), 0)
  {
    hide Block, Brief, MayReturn, LookThenLoad, CommitCode, CreateDirectoryCode, UpdateCode, LogCode, FlushCode;
    PiecesAreRanked();
    LogIsRanked(perOp);
  }

  lemma MethodsAreRanked(call: Call, perOp: bool)
    ensures Ranked(CodeOf(call, perOp), 0)
  {
    hide Block, Brief, MayReturn, LookThenLoad, CommitCode, CreateDirectoryCode, UpdateCode, LogCode, FlushCode;
    PiecesAreRanked();
    if Aside(call) {
      AsideIsRanked(call, perOp);
      return;
    }
    match call
    case UpdateInode => UpdateIsRanked();
    case CreateDirectory => DirectoryIsRanked();
    case Commit => CommitIsRanked(perOp);
    case CreateSnapshot => SnapshotIsRanked(perOp);
    case SetXattr => AttributesAreRanked(perOp);
    case RemoveXattr => AttributesAreRanked(perOp);
    case DeleteInode => AttributesAreRanked(perOp);
    case _ =>
  }

  /** Every path through every store method, early returns included, takes its locks in rank order and
      drops all of them. */
  lemma StoreMethodsAreOrderly(call: Call, perOp: bool, choices: seq<bool>)
    ensures Method(Path(CodeOf(call, perOp), choices).acts)
  {
    hide CodeOf, Path;
    MethodsAreRanked(call, perOp);
    assert Orderly(Thread([], {}));
    var acts := Path(CodeOf(call, perOp), choices).acts;
    PathIsOrderly(CodeOf(call, perOp), choices, 0, {}, []);
    Seqs.Units(acts);
  }

  // ------------------------------------------------------------------- the theorem

  /** A call, and which way each of its branches goes. */
  datatype Visit = Visit(call: Call, choices: seq<bool>)

  function Scripts(visits: seq<Visit>, perOp: bool): (scripts: seq<seq<Act>>)
    ensures |scripts| == |visits|
    ensures forall k :: 0 <= k < |visits| ==> scripts[k] == Path(CodeOf(visits[k].call, perOp), visits[k].choices).acts
  {
    seq(|visits|, k requires 0 <= k < |visits| => Path(CodeOf(visits[k].call, perOp), visits[k].choices).acts)
  }

  /** Threads that each run some store methods, before any has started. */
  function Start(programs: seq<seq<Visit>>, perOp: bool): (s: System)
    ensures |s| == |programs|
    ensures forall i :: 0 <= i < |s| ==> s[i] == Thread(Program(Scripts(programs[i], perOp)), {})
  {
    seq(|programs|, i requires 0 <= i < |programs| => Thread(Program(Scripts(programs[i], perOp)), {}))
  }

  lemma StartIsSafe(programs: seq<seq<Visit>>, perOp: bool)
    ensures Safe(Start(programs, perOp))
  {
    hide CodeOf, Path, Orderly;
    var s := Start(programs, perOp);
    forall i | 0 <= i < |s| ensures Orderly(s[i]) {
      var scripts := Scripts(programs[i], perOp);
      forall k | 0 <= k < |scripts| ensures Method(scripts[k]) {
        StoreMethodsAreOrderly(programs[i][k].call, perOp, programs[i][k].choices);
      }
      ProgramsAreOrderly(scripts);
    }
  }

  /** Any number of threads, each running any sequence of store methods along any of their paths, under
      any schedule: until all are done one of them can run, and the run can be completed. */
  lemma StoreNeverDeadlocks(programs: seq<seq<Visit>>, perOp: bool, schedule: seq<nat>) returns (more: seq<nat>)
    requires Runs(Start(programs, perOp), schedule)
    ensures var s := Reached(Start(programs, perOp), schedule);
            (!Done(s) ==> exists i :: Runnable(s, i)) && Runs(s, more) && Done(Reached(s, more))
  {
    hide Safe, Runs, Reached, Done, Runnable;
    var s := Start(programs, perOp);
    StartIsSafe(programs, perOp);
    RunsAreSafe(s, schedule);
    if !Done(Reached(s, schedule)) { SomeoneRuns(Reached(s, schedule)); }
    more := EveryoneFinishes(Reached(s, schedule));
  }
}
