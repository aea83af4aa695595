/** The write-ahead log strategies: one that syncs every entry, and the two that keep entries in
    memory until they are flushed. */
module Wal {
  import opened ByteCodec
  import opened Segment
  import opened SegmentWriting
  import Seqs

  // ----------------------------------------------------------------- as a machine

  /** `FlushOnFsync` and `Periodic` differ only in who calls for a flush. */
  datatype Strategy = PerOp | FlushOnFsync | Periodic

  datatype Call = Log(entry: Entry) | Flush | Shutdown

  /** The bytes in the file, the bytes the writer still holds, and the entries kept in memory. */
  datatype WalState = WalState(file: Bytes, held: Bytes, buffer: seq<Entry>)

  function Opened(id: u64): (w: WalState) {
    WalState([], HeaderBytes(id), [])
  }

  function StepWal(s: Strategy, w: WalState, call: Call): (w': WalState) {
    match call
    case Log(e) =>
      if s.PerOp? then WalState(w.file + w.held + Frame(e), [], w.buffer)
      else w.(buffer := w.buffer + [e])
    case _ => WalState(w.file + w.held + Body(AsItems(w.buffer)), [], [])
  }

  function RunWal(s: Strategy, id: u64, calls: seq<Call>): (w: WalState) {
    if calls == [] then Opened(id) else StepWal(s, RunWal(s, id, calls[..|calls| - 1]), calls[|calls| - 1])
  }

  // -------------------------------------------------------------------- as objects

  /** `PerOpWal`. */
  class PerOpWal {
    const writer: SegmentWriter

    ghost function State(): (w: WalState)
      reads this, writer
    {
      WalState(writer.durable, writer.buffered, [])
    }

    constructor (id: u64)
      ensures State() == Opened(id) && fresh(writer)
    {
      writer := new SegmentWriter(id);
    }

    method LogMutation(e: Entry)
      modifies writer
      ensures State() == StepWal(PerOp, old(State()), Log(e))
    {
      writer.WriteEntry(e);
      writer.Sync();
    }

    method FlushAndSync()
      modifies writer
      ensures State() == StepWal(PerOp, old(State()), Flush)
    {
      writer.Sync();
      Seqs.Units(old(writer.durable) + old(writer.buffered));
    }

    method Shutdown()
      modifies writer
      ensures State() == StepWal(PerOp, old(State()), Call.Shutdown)
    {
      writer.Sync();
      Seqs.Units(old(writer.durable) + old(writer.buffered));
    }
  }

  /** `FlushOnFsyncWal`, and `PeriodicWal`, whose code is the same. */
  class BufferedWal {
    const writer: SegmentWriter
    var buffer: seq<Entry>

    ghost function State(): (w: WalState)
      reads this, writer
    {
      WalState(writer.durable, writer.buffered, buffer)
    }

    constructor (id: u64)
      ensures State() == Opened(id) && fresh(writer)
    {
      writer := new SegmentWriter(id);
      buffer := [];
    }

    method LogMutation(e: Entry)
      modifies this
      ensures State() == StepWal(FlushOnFsync, old(State()), Log(e))
              && State() == StepWal(Periodic, old(State()), Log(e))
    {
      buffer := buffer + [e];
    }

    /** The buffer is drained into the writer, then the file is synced. */
    method FlushAndSync()
      modifies this, writer
      ensures State() == StepWal(FlushOnFsync, old(State()), Flush) && State() == StepWal(Periodic, old(State()), Flush)
    {
      var drained := buffer;
      buffer := [];
      ghost var start := writer.Written();
      Seqs.Units(start);
      for i := 0 to |drained|
        invariant buffer == [] && writer.Written() == start + Body(AsItems(drained[..i]))
        modifies writer
      {
        Seqs.PrefixSnoc(drained, i);
        BodySnoc(drained[..i], drained[i]);
        Seqs.Associative(start, Body(AsItems(drained[..i])), Frame(drained[i]));
        writer.WriteEntry(drained[i]);
      }
      Seqs.Units(drained);
      writer.Sync();
    }

    method Shutdown()
      modifies this, writer
      ensures State() == StepWal(FlushOnFsync, old(State()), Call.Shutdown)
              && State() == StepWal(Periodic, old(State()), Call.Shutdown)
    {
      FlushAndSync();
    }
  }

  // ------------------------------------------------------------------- what is kept

  /** Everything logged, in order. */
  function Logged(calls: seq<Call>): (es: seq<Entry>) {
    if calls == [] then []
    else
      var front := Logged(calls[..|calls| - 1]);
      if calls[|calls| - 1].Log? then front + [calls[|calls| - 1].entry] else front
  }

  /** What was logged before the last point at which the strategy writes. */
  function Settled(s: Strategy, calls: seq<Call>): (es: seq<Entry>) {
    if calls == [] then []
    else if !calls[|calls| - 1].Log? then Logged(calls)
    else if s.PerOp? then Logged(calls)
    else Settled(s, calls[..|calls| - 1])
  }

  /** The file, with what the writer holds, is the header and the settled records; the settled records
      followed by the kept entries are everything logged. Only the header is ever held back. */
  ghost predicate Conserves(s: Strategy, id: u64, calls: seq<Call>, w: WalState) {
    && w.file + w.held == HeaderBytes(id) + Body(AsItems(Settled(s, calls)))
    && Settled(s, calls) + w.buffer == Logged(calls)
    && (w.held == [] || (w.file == [] && Settled(s, calls) == []))
    && (s.PerOp? ==> w.buffer == [])
  }

  /** Nothing logged is lost, doubled or reordered, in any interleaving of calls. */
  lemma {:induction false} WalConservation(s: Strategy, id: u64, calls: seq<Call>)
    ensures Conserves(s, id, calls, RunWal(s, id, calls))
  {
    if calls == [] {
      Seqs.Units(HeaderBytes(id));
    } else {
      var front, call := calls[..|calls| - 1], calls[|calls| - 1];
      var w := RunWal(s, id, front);
      WalConservation(s, id, front);
      hide HeaderBytes, Body, AsItems, Frame;
      if call.Log? {
        LogConserves(s, id, front, call.entry, w);
      } else {
        FlushConserves(s, id, front, call, w);
      }
      Seqs.SplitLast(calls);
    }
  }

  lemma LogConserves(s: Strategy, id: u64, front: seq<Call>, e: Entry, w: WalState)
    requires Conserves(s, id, front, w)
    ensures Conserves(s, id, front + [Log(e)], StepWal(s, w, Log(e)))
  {
    hide HeaderBytes, Body, AsItems, Frame;
    Seqs.Parts(front, [Log(e)]);
    var settled := Settled(s, front);
    if s.PerOp? {
      Seqs.Units(settled);
      BodySnoc(settled, e);
      Seqs.Associative(HeaderBytes(id), Body(AsItems(settled)), Frame(e));
      Seqs.Units(w.file + w.held + Frame(e));
      Seqs.Units(Logged(front) + [e]);
    } else {
      Seqs.Associative(settled, w.buffer, [e]);
    }
  }

  lemma FlushConserves(s: Strategy, id: u64, front: seq<Call>, call: Call, w: WalState)
    requires Conserves(s, id, front, w) && !call.Log?
    ensures Conserves(s, id, front + [call], StepWal(s, w, call))
  {
    hide HeaderBytes, Body, AsItems, Frame;
    Seqs.Parts(front, [call]);
    var settled := Settled(s, front);
    BodiesJoin(settled, w.buffer);
    Seqs.Associative(HeaderBytes(id), Body(AsItems(settled)), Body(AsItems(w.buffer)));
    Seqs.Units(w.file + w.held + Body(AsItems(w.buffer)));
    Seqs.Units(Logged(front));
  }

  lemma {:induction false} BodiesJoin(a: seq<Entry>, b: seq<Entry>)
    ensures Body(AsItems(a + b)) == Body(AsItems(a)) + Body(AsItems(b))
  {
    if b == [] {
      Seqs.Units(a);
      Seqs.Units(Body(AsItems(a)));
    } else {
      hide Body, AsItems, Frame;
      var front, last := b[..|b| - 1], b[|b| - 1];
      BodiesJoin(a, front);
      Seqs.SplitLast(b);
      Seqs.Associative(a, front, [last]);
      BodySnoc(a + front, last);
      BodySnoc(front, last);
      Seqs.Associative(Body(AsItems(a)), Body(AsItems(front)), Frame(last));
    }
  }

  // ----------------------------------------------------------------------- recovery

  /** What replay takes from one file: files shorter than a header are skipped. */
  function Recovered(file: Bytes): (es: seq<Entry>) {
    if |file| < 16 then [] else match ReadFile(file) case Ok(es) => es case Err(_) => []
  }

  ghost predicate AllStorable(calls: seq<Call>) {
    forall k :: 0 <= k < |Logged(calls)| ==> Storable(Logged(calls)[k])
  }

  lemma HeadedRun(id: u64, es: seq<Entry>)
    requires forall k :: 0 <= k < |es| ==> Storable(es[k])
    ensures Recovered(HeaderBytes(id) + Body(AsItems(es))) == es
  {
    RunReadsBack(es, []);
    Seqs.Units(Body(AsItems(es)));
    HeadedFile(id, Body(AsItems(es)));
    Seqs.Units(es);
  }

  /** A kill between calls recovers exactly what had settled: under per-operation logging everything,
      otherwise the prefix up to the last flush. */
  lemma CrashRecoversSettled(s: Strategy, id: u64, calls: seq<Call>)
    requires AllStorable(calls)
    ensures Recovered(RunWal(s, id, calls).file) == Settled(s, calls)
    ensures s.PerOp? ==> Settled(s, calls) == Logged(calls)
  {
    hide HeaderBytes, Body, AsItems, Frame, RunWal, Recovered;
    WalConservation(s, id, calls);
    var w := RunWal(s, id, calls);
    var settled := Settled(s, calls);
    forall k | 0 <= k < |settled| ensures Storable(settled[k]) { assert Logged(calls)[k] == settled[k]; }
    HeadedRun(id, settled);
    Seqs.Units(w.file);
    Seqs.Units(settled);
    if w.held != [] { assert Recovered([]) == [] by { NothingRecovered(); } }
  }

  lemma NothingRecovered()
    ensures Recovered([]) == []
  {
  }

  /** After a shutdown every strategy replays everything that was logged. */
  lemma ShutdownReplaysAll(s: Strategy, id: u64, calls: seq<Call>)
    requires AllStorable(calls)
    ensures Recovered(RunWal(s, id, calls + [Shutdown]).file) == Logged(calls)
  {
    hide HeaderBytes, Body, AsItems, Frame, RunWal, Recovered;
    Seqs.Parts(calls, [Shutdown]);
    assert Logged(calls + [Shutdown]) == Logged(calls);
    CrashRecoversSettled(s, id, calls + [Shutdown]);
  }

  /** So the three strategies replay identically after shutdown. */
  lemma StrategiesAgree(s: Strategy, t: Strategy, id: u64, calls: seq<Call>)
    requires AllStorable(calls)
    ensures Recovered(RunWal(s, id, calls + [Shutdown]).file) == Recovered(RunWal(t, id, calls + [Shutdown]).file)
  {
    ShutdownReplaysAll(s, id, calls);
    ShutdownReplaysAll(t, id, calls);
  }
}
