/** The append-only segment writer over a buffered file. `durable` is what has reached the file,
    `buffered` what still sits in the process and is lost when it is killed. */
module SegmentWriting {
  import opened ByteCodec
  import opened Segment
  import Seqs

  const CAPACITY: nat := 8192

  class SegmentWriter {
    var durable: Bytes
    var buffered: Bytes

    ghost function Written(): Bytes
      reads this
    {
      durable + buffered
    }

    constructor (id: u64)
      ensures durable == [] && Written() == HeaderBytes(id)
    {
      durable, buffered := [], HeaderBytes(id);
    }

    /** `BufWriter::write_all`: keeps small writes back, spills when the buffer is full. */
    method WriteAll(data: Bytes)
      modifies this
      ensures Written() == old(Written()) + data
      ensures old(durable) <= durable
    {
      if |buffered| + |data| > CAPACITY {
        durable, buffered := durable + buffered, [];
      }
      if |data| >= CAPACITY {
        durable := durable + buffered + data;
        buffered := [];
      } else {
        Seqs.Associative(durable, buffered, data);
        buffered := buffered + data;
      }
    }

    method WriteEntry(e: Entry)
      modifies this
      ensures Written() == old(Written()) + Frame(e)
      ensures old(durable) <= durable
    {
      var payload := Payload(e);
      ghost var start := Written();
      WriteAll([TypeByte(e)]);
      WriteAll(U32Bytes(AsU32(|payload|)));
      WriteAll(payload);
      Seqs.Associative(start, [TypeByte(e)], U32Bytes(AsU32(|payload|)));
      Seqs.Associative(start, [TypeByte(e)] + U32Bytes(AsU32(|payload|)), payload);
    }

    method Sync()
      modifies this
      ensures durable == old(Written()) && buffered == []
    {
      durable, buffered := durable + buffered, [];
    }

    method Close()
      modifies this
      ensures durable == old(Written()) + EofFrame && buffered == []
    {
      ghost var start := Written();
      WriteAll([EOF_MARKER]);
      WriteAll(U32Bytes(0));
      Seqs.Associative(start, [EOF_MARKER], U32Bytes(0));
      Sync();
    }
  }

  /** The items of a run of records. */
  function AsItems(es: seq<Entry>): (items: seq<Item>)
    ensures |items| == |es|
  {
    if es == [] then [] else AsItems(es[..|es| - 1]) + [Record(es[|es| - 1])]
  }

  lemma {:induction false} AsItemsSound(es: seq<Entry>)
    requires forall k :: 0 <= k < |es| ==> Storable(es[k])
    ensures AllWellFormed(AsItems(es))
    ensures Records(AsItems(es)) == es
  {
    if es != [] {
      var front, last := es[..|es| - 1], Record(es[|es| - 1]);
      AsItemsSound(front);
      RecordsAppend(AsItems(front), [last]);
      Seqs.Units(RecordsOf(last));
      assert [last][1..] == [];
      Seqs.SplitLast(es);
    }
  }

  lemma BodySnoc(es: seq<Entry>, e: Entry)
    ensures Body(AsItems(es + [e])) == Body(AsItems(es)) + Frame(e)
  {
    Seqs.Parts(es, [e]);
    BodyAppend(AsItems(es), [Record(e)]);
    assert [Record(e)][1..] == [];
    Seqs.Units(Frame(e));
  }

  /** Bytes of a run of records read back as the run, followed by what comes after. */
  lemma RunReadsBack(es: seq<Entry>, rest: Bytes)
    requires forall k :: 0 <= k < |es| ==> Storable(es[k])
    ensures Entries(Body(AsItems(es)) + rest) == es + Entries(rest)
  {
    AsItemsSound(es);
    BodyThen(AsItems(es), rest);
  }
}
