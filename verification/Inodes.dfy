/** The 56-byte inode record. */
module Inodes {
  import opened ByteCodec
  import opened Tables
  import opened StoreView
  import Seqs

  const I64_LIMIT: int := 0x8000_0000_0000_0000

  /** The field widths of `InodeMeta`. */
  ghost predicate InodeFits(i: Inode) {
    && i.ino < U64_LIMIT && i.mode < U32_LIMIT && i.uid < U32_LIMIT && i.gid < U32_LIMIT && i.nlinks < U32_LIMIT
    && i.size < U64_LIMIT && -I64_LIMIT <= i.mtimeSec < I64_LIMIT && i.mtimeNsec < U32_LIMIT
    && -I64_LIMIT <= i.ctimeSec < I64_LIMIT && i.ctimeNsec < U32_LIMIT
  }

  /** Two's complement. */
  function I64Bytes(x: int): (b: Bytes)
    requires -I64_LIMIT <= x < I64_LIMIT
    ensures |b| == 8
  {
    U64Bytes(if x < 0 then x + U64_LIMIT else x)
  }

  function ReadI64(b: Bytes): (x: int)
    requires |b| == 8
    ensures -I64_LIMIT <= x < I64_LIMIT
  {
    var u: int := ReadU64(b);
    if u < I64_LIMIT then u else u - U64_LIMIT
  }

  lemma I64RoundTrip(x: int)
    requires -I64_LIMIT <= x < I64_LIMIT
    ensures ReadI64(I64Bytes(x)) == x
  {
    U64RoundTrip(if x < 0 then x + U64_LIMIT else x);
  }

  lemma U64Onto(b: Bytes)
    requires |b| == 8
    ensures U64Bytes(ReadU64(b)) == b
  {
    LeOfFromLe(b);
  }

  lemma I64Onto(b: Bytes)
    requires |b| == 8
    ensures I64Bytes(ReadI64(b)) == b
  {
    U64Onto(b);
  }

  /** The ten fields in record order. */
  function Fields(i: Inode): (fs: seq<Bytes>)
    requires InodeFits(i)
    ensures |fs| == 10 && forall k :: 0 <= k < 10 ==> |fs[k]| == WIDTHS[k]
  {
    [U64Bytes(i.ino), U32Bytes(i.mode), U32Bytes(i.uid), U32Bytes(i.gid), U32Bytes(i.nlinks), U64Bytes(i.size),
     I64Bytes(i.mtimeSec), U32Bytes(i.mtimeNsec), I64Bytes(i.ctimeSec), U32Bytes(i.ctimeNsec)]
  }

  const WIDTHS: seq<nat> := [8, 4, 4, 4, 4, 8, 8, 4, 8, 4]

  /** Where each field starts. */
  const STARTS: seq<nat> := [0, 8, 12, 16, 20, 24, 32, 40, 44, 52, 56]

  function Joined(fs: seq<Bytes>): (b: Bytes) {
    if fs == [] then [] else Joined(fs[..|fs| - 1]) + fs[|fs| - 1]
  }

  function EncodeInode(i: Inode): (b: Bytes)
    requires InodeFits(i)
  {
    Joined(Fields(i))
  }

  function Field(b: Bytes, k: nat): (f: Bytes)
    requires |b| == 56 && k < 10
    ensures |f| == WIDTHS[k]
  {
    b[STARTS[k]..STARTS[k + 1]]
  }

  function DecodeInode(b: Bytes): (r: Result<Inode, MetaError>) {
    if |b| != 56 then Err(Corrupted)
    else Ok(Inode(ReadU64(Field(b, 0)), ReadU32(Field(b, 1)), ReadU32(Field(b, 2)), ReadU32(Field(b, 3)),
                  ReadU32(Field(b, 4)), ReadU64(Field(b, 5)), ReadI64(Field(b, 6)), ReadU32(Field(b, 7)),
                  ReadI64(Field(b, 8)), ReadU32(Field(b, 9))))
  }

  ghost predicate Sized(fs: seq<Bytes>) {
    |fs| == 10 && forall j :: 0 <= j < 10 ==> |fs[j]| == WIDTHS[j]
  }

  lemma {:induction false} JoinedLength(fs: seq<Bytes>, n: nat)
    requires Sized(fs) && n <= 10
    ensures |Joined(fs[..n])| == STARTS[n]
  {
    if n > 0 {
      Seqs.PrefixSnoc(fs, n - 1);
      JoinedLength(fs, n - 1);
    }
  }

  lemma {:induction false} JoinedField(fs: seq<Bytes>, n: nat, k: nat)
    requires Sized(fs) && k < n <= 10
    ensures |Joined(fs[..n])| == STARTS[n] && Joined(fs[..n])[STARTS[k]..STARTS[k + 1]] == fs[k]
  {
    Seqs.PrefixSnoc(fs, n - 1);
    JoinedLength(fs, n);
    JoinedLength(fs, n - 1);
    var front := Joined(fs[..n - 1]);
    if k < n - 1 {
      JoinedField(fs, n - 1, k);
      Seqs.SliceInFront(front, fs[n - 1], STARTS[k], STARTS[k + 1]);
    } else {
      Seqs.Parts(front, fs[n - 1]);
    }
  }

  lemma FieldOf(i: Inode, k: nat)
    requires InodeFits(i) && k < 10
    ensures |EncodeInode(i)| == 56 && Field(EncodeInode(i), k) == Fields(i)[k]
  {
    hide Fields, Joined;
    var fs := Fields(i);
    Seqs.Units(fs);
    JoinedField(fs, 10, k);
  }

  lemma InodeRoundTrip(i: Inode)
    requires InodeFits(i)
    ensures DecodeInode(EncodeInode(i)) == Ok(i)
  {
    hide EncodeInode, Field, U64Bytes, U32Bytes, I64Bytes, ReadU64, ReadU32, ReadI64;
    FieldOf(i, 0);
    FieldOf(i, 1);
    FieldOf(i, 2);
    FieldOf(i, 3);
    FieldOf(i, 4);
    FieldOf(i, 5);
    FieldOf(i, 6);
    FieldOf(i, 7);
    FieldOf(i, 8);
    FieldOf(i, 9);
    U64RoundTrip(i.ino);
    U32RoundTrip(i.mode);
    U32RoundTrip(i.uid);
    U32RoundTrip(i.gid);
    U32RoundTrip(i.nlinks);
    U64RoundTrip(i.size);
    I64RoundTrip(i.mtimeSec);
    U32RoundTrip(i.mtimeNsec);
    I64RoundTrip(i.ctimeSec);
    U32RoundTrip(i.ctimeNsec);
  }

  /** Copies `src` into the buffer at `at`, as `copy_from_slice` on a sub-slice does. */
  method CopyInto(buf: array<byte>, at: nat, src: Bytes)
    requires at + |src| <= buf.Length
    modifies buf
    ensures buf[..] == old(buf[..at]) + src + old(buf[at + |src|..])
  {
    for j := 0 to |src|
      invariant forall k :: 0 <= k < buf.Length ==> buf[k] == if at <= k < at + j then src[k - at] else old(buf[k])
    {
      buf[at + j] := src[j];
    }
  }

  /** The prefix of the record that is already filled in. */
  lemma Filled(fs: seq<Bytes>, n: nat, before: Bytes, after: Bytes)
    requires |fs| == 10 && (forall j :: 0 <= j < 10 ==> |fs[j]| == WIDTHS[j]) && n < 10 && |before| == 56
    requires |Joined(fs[..n])| == STARTS[n] && before[..STARTS[n]] == Joined(fs[..n])
    requires after == before[..STARTS[n]] + fs[n] + before[STARTS[n + 1]..]
    ensures |after| == 56 && |Joined(fs[..n + 1])| == STARTS[n + 1] && after[..STARTS[n + 1]] == Joined(fs[..n + 1])
  {
    Seqs.PrefixSnoc(fs, n);
    Seqs.Parts(before[..STARTS[n]] + fs[n], before[STARTS[n + 1]..]);
  }

  /** `serialize_inode`: a zeroed buffer, each field copied to its place. */
  method SerializeInode(i: Inode) returns (b: Bytes)
    requires InodeFits(i)
    ensures b == EncodeInode(i)
  {
    var buf := new byte[56](_ => 0);
    var fs := Fields(i);
    assert fs[..0] == [];
    for k := 0 to 10
      invariant fresh(buf) && |Joined(fs[..k])| == STARTS[k] && buf[..STARTS[k]] == Joined(fs[..k])
    {
      ghost var before := buf[..];
      assert before[..STARTS[k]] == Joined(fs[..k]);
      CopyInto(buf, STARTS[k], fs[k]);
      Filled(fs, k, before, buf[..]);
      assert buf[..STARTS[k + 1]] == buf[..][..STARTS[k + 1]];
    }
    Seqs.Units(fs);
    b := buf[..];
    assert buf[..56] == b;
  }

  /** Inodes and 56-byte strings correspond one to one. */
  lemma InodeCodec(i: Inode, b: Bytes)
    ensures DecodeInode(b) == Ok(i) <==> InodeFits(i) && b == EncodeInode(i)
  {
    if InodeFits(i) && b == EncodeInode(i) { InodeRoundTrip(i); }
    if DecodeInode(b) == Ok(i) { InodeOnto(b); }
  }

  lemma FieldsOnto(b: Bytes)
    requires |b| == 56
    ensures var i := DecodeInode(b).value;
            InodeFits(i) && forall k :: 0 <= k < 10 ==> Fields(i)[k] == Field(b, k)
  {
    hide Field, U64Bytes, U32Bytes, I64Bytes, ReadU64, ReadU32, ReadI64;
    U64Onto(Field(b, 0));
    U32Onto(Field(b, 1));
    U32Onto(Field(b, 2));
    U32Onto(Field(b, 3));
    U32Onto(Field(b, 4));
    U64Onto(Field(b, 5));
    I64Onto(Field(b, 6));
    U32Onto(Field(b, 7));
    I64Onto(Field(b, 8));
    U32Onto(Field(b, 9));
  }

  lemma {:induction false} JoinedFields(b: Bytes, fs: seq<Bytes>, n: nat)
    requires |b| == 56 && |fs| == 10 && (forall k :: 0 <= k < 10 ==> fs[k] == Field(b, k)) && n <= 10
    ensures Joined(fs[..n]) == b[..STARTS[n]]
  {
    if n > 0 {
      JoinedFields(b, fs, n - 1);
      Seqs.PrefixSnoc(fs, n - 1);
      Seqs.Glue(b, STARTS[n - 1], STARTS[n]);
    } else {
      assert fs[..0] == [];
    }
  }

  lemma InodeOnto(b: Bytes)
    requires |b| == 56
    ensures var i := DecodeInode(b).value; InodeFits(i) && EncodeInode(i) == b
  {
    hide Field, Fields, Joined, ReadU64, ReadU32, ReadI64;
    FieldsOnto(b);
    var fs := Fields(DecodeInode(b).value);
    Seqs.Units(fs);
    Seqs.Units(b);
    JoinedFields(b, fs, 10);
  }
}
