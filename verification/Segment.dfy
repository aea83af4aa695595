/** Segment files: the append-only log of root updates and snapshot records. Each record is
    framed as type byte, 32-bit payload length, payload; a 16-byte header comes first. */
module Segment {
  import opened ByteCodec
  import opened Utf8
  import Seqs

  /** A logical log entry. `name` holds the UTF-8 bytes of a Rust `String`. */
  datatype Entry =
    | RootUpdate(root: Digest)
    | SnapshotRecord(version: u64, root: Digest, createdAt: u64, name: Option<Bytes>)

  /** What the type `String` guarantees of every entry the program can hold. */
  predicate WellTyped(e: Entry) {
    e.SnapshotRecord? && e.name.Some? ==> ValidUtf8(e.name.value)
  }

  /** The entries whose frame reads back as themselves: named snapshots carry a non-empty
      name, and the payload length fits its 32-bit field. */
  predicate Storable(e: Entry) {
    WellTyped(e) && (e.SnapshotRecord? && e.name.Some? ==> 0 < |e.name.value| < U32_LIMIT - 48)
  }

  // ---------------------------------------------------------------- header

  const MAGIC: Bytes := [0x53, 0x4C, 0x53, 0x47]
  const VERSION: u32 := 1

  function HeaderBytes(id: u64): (b: Bytes)
    ensures |b| == 16
  {
    MAGIC + U32Bytes(VERSION) + U64Bytes(id)
  }

  /** `SegmentHeader::from_bytes`: the segment id, unless magic or version is wrong. */
  function ParseHeader(b: Bytes): (r: Option<u64>)
    requires |b| == 16
  {
    if b[0..4] != MAGIC then None
    else if ReadU32(b[4..8]) != VERSION then None
    else Some(ReadU64(b[8..16]))
  }

  lemma HeaderRoundTrip(id: u64)
    ensures ParseHeader(HeaderBytes(id)) == Some(id)
  {
    var b := HeaderBytes(id);
    assert b[0..4] == MAGIC && b[4..8] == U32Bytes(VERSION) && b[8..16] == U64Bytes(id);
    U32RoundTrip(VERSION);
    U64RoundTrip(id);
  }

  // --------------------------------------------------------------- records

  const ROOT_UPDATE: byte := 0x02
  const SNAPSHOT_RECORD: byte := 0x03
  const EOF_MARKER: byte := 0xFF

  function NameBytes(name: Option<Bytes>): (b: Bytes) {
    if name.Some? then name.value else []
  }

  /** The fixed 48 bytes of a snapshot payload. */
  function SnapshotPrefix(version: u64, root: Digest, createdAt: u64, nameLen: u32): (b: Bytes)
    ensures |b| == 48
  {
    U64Bytes(version) + DigestBytes(root) + U64Bytes(createdAt) + U32Bytes(nameLen)
  }

  function Payload(e: Entry): (b: Bytes) {
    match e
    case RootUpdate(root) => DigestBytes(root)
    case SnapshotRecord(version, root, createdAt, name) =>
      SnapshotPrefix(version, root, createdAt, AsU32(|NameBytes(name)|)) + NameBytes(name)
  }

  function TypeByte(e: Entry): (t: byte) {
    if e.RootUpdate? then ROOT_UPDATE else SNAPSHOT_RECORD
  }

  /** A record as the writer lays it out. */
  function RawFrame(t: byte, payload: Bytes): (b: Bytes)
    ensures |b| == 5 + |payload|
  {
    [t] + U32Bytes(AsU32(|payload|)) + payload
  }

  function Frame(e: Entry): (b: Bytes) {
    RawFrame(TypeByte(e), Payload(e))
  }

  const EofFrame: Bytes := [EOF_MARKER] + U32Bytes(0)

  function ParseRootUpdate(p: Bytes): (r: Option<Entry>) {
    if |p| < 28 then None else Some(RootUpdate(ReadDigest(p[..28])))
  }

  function ParseSnapshotRecord(p: Bytes): (r: Option<Entry>)
    ensures r.Some? ==> Storable(r.value) || |p| >= U32_LIMIT
  {
    if |p| < 48 then None
    else
      var version := ReadU64(p[0..8]);
      var root := ReadDigest(p[8..36]);
      var createdAt := ReadU64(p[36..44]);
      var nameLen := ReadU32(p[44..48]);
      if |p| < 48 + nameLen then None
      else if nameLen == 0 then Some(SnapshotRecord(version, root, createdAt, None))
      else if ValidUtf8(p[48..48 + nameLen]) then
        Some(SnapshotRecord(version, root, createdAt, Some(p[48..48 + nameLen])))
      else None
  }

  lemma PrefixFields(version: u64, root: Digest, createdAt: u64, nameLen: u32, tail: Bytes)
    ensures var p := SnapshotPrefix(version, root, createdAt, nameLen) + tail;
            ReadU64(p[0..8]) == version && ReadDigest(p[8..36]) == root
            && ReadU64(p[36..44]) == createdAt && ReadU32(p[44..48]) == nameLen
            && |p| == 48 + |tail| && p[48..48 + |tail|] == tail
  {
    var p := SnapshotPrefix(version, root, createdAt, nameLen) + tail;
    assert p[0..8] == U64Bytes(version);
    assert p[8..36] == DigestBytes(root);
    assert p[36..44] == U64Bytes(createdAt);
    assert p[44..48] == U32Bytes(nameLen);
    U64RoundTrip(version);
    U64RoundTrip(createdAt);
    U32RoundTrip(nameLen);
    DigestRoundTrip(root);
  }

  // --------------------------------------------------------------- reading

  datatype Step = Stop | Skip(rest: Bytes) | Yield(entry: Entry, rest: Bytes)

  /** One turn of the reader's loop on the unread bytes `b`. */
  function ReadStep(b: Bytes): (s: Step)
    ensures !s.Stop? ==> |s.rest| < |b|
  {
    if |b| < 5 then Stop
    else
      var t, len, tail := b[0], ReadU32(b[1..5]), b[5..];
      if t == EOF_MARKER then Stop
      else if |tail| < len then Stop
      else
        var payload, rest := tail[..len], tail[len..];
        if t == ROOT_UPDATE then Yielded(ParseRootUpdate(payload), rest)
        else if t == SNAPSHOT_RECORD then Yielded(ParseSnapshotRecord(payload), rest)
        else Skip(rest)
  }

  function Yielded(e: Option<Entry>, rest: Bytes): (s: Step) {
    if e.Some? then Yield(e.value, rest) else Stop
  }

  /** Everything the reader's iterator yields on the bytes after a header. */
  function Entries(b: Bytes): (es: seq<Entry>)
    decreases |b|
  {
    match ReadStep(b)
    case Stop => []
    case Skip(rest) => Entries(rest)
    case Yield(e, rest) => [e] + Entries(rest)
  }

  datatype OpenError = UnexpectedEof | InvalidHeader

  /** `SegmentReader::open` followed by collecting the iterator. */
  function ReadFile(file: Bytes): (r: Result<seq<Entry>, OpenError>) {
    if |file| < 16 then Err(UnexpectedEof)
    else if ParseHeader(file[..16]).None? then Err(InvalidHeader)
    else Ok(Entries(file[16..]))
  }

  /** The stateful reader: `data` is the file after its header, `pos` the read position. */
  class SegmentReader {
    const data: Bytes
    var pos: nat

    ghost predicate Valid()
      reads this
    {
      pos <= |data|
    }

    ghost function Unread(): Bytes
      reads this
      requires Valid()
    {
      data[pos..]
    }

    constructor (body: Bytes)
      ensures Valid() && data == body && Unread() == body
    {
      data, pos := body, 0;
    }

    /** `read_exact`: the next `n` bytes, or nothing when fewer are left. */
    method ReadExact(n: nat) returns (r: Option<Bytes>)
      requires Valid()
      modifies this
      ensures Valid()
      ensures r.Some? <==> n <= |old(Unread())|
      ensures r.Some? ==> r.value == old(Unread())[..n] && Unread() == old(Unread())[n..]
    {
      if pos + n <= |data| {
        r := Some(data[pos..pos + n]);
        assert r.value == Unread()[..n];
        pos := pos + n;
      } else {
        r := None;
      }
    }

    /** The iterator's `next`. After `None` the iteration is over. */
    method Next() returns (r: Option<Entry>)
      requires Valid()
      modifies this
      ensures Valid()
      ensures r.None? <==> Entries(old(Unread())) == []
      ensures r.Some? ==> Entries(old(Unread())) == [r.value] + Entries(Unread())
      ensures r.Some? ==> |Unread()| < |old(Unread())|
    {
      ghost var start := Unread();
      while true
        invariant Valid() && |Unread()| <= |start|
        invariant Entries(Unread()) == Entries(start)
        decreases |data| - pos
      {
        ghost var b := Unread();
        var kind := ReadExact(1);
        if kind.None? { return None; }
        var lenBytes := ReadExact(4);
        if lenBytes.None? { return None; }
        assert b[0] == kind.value[0] && b[1..5] == lenBytes.value && b[5..] == Unread();
        var len := ReadU32(lenBytes.value);
        if kind.value[0] == EOF_MARKER { return None; }
        var payload := ReadExact(len);
        if payload.None? { return None; }
        if kind.value[0] == ROOT_UPDATE {
          return ParseRootUpdate(payload.value);
        } else if kind.value[0] == SNAPSHOT_RECORD {
          return ParseSnapshotRecord(payload.value);
        }
      }
    }
  }

  /** Opens a segment file and drains its iterator. */
  method ReadSegment(file: Bytes) returns (r: Result<seq<Entry>, OpenError>)
    ensures r == ReadFile(file)
  {
    if |file| < 16 { return Err(UnexpectedEof); }
    if ParseHeader(file[..16]).None? { return Err(InvalidHeader); }
    var reader := new SegmentReader(file[16..]);
    var found: seq<Entry> := [];
    while true
      invariant reader.Valid() && fresh(reader)
      invariant found + Entries(reader.Unread()) == Entries(file[16..])
      decreases |reader.Unread()|
    {
      var e := reader.Next();
      if e.None? {
        assert found + [] == found;
        return Ok(found);
      }
      found := found + [e.value];
    }
  }

  // ------------------------------------------------------- torn-tail theorem

  /** What a segment body may hold: records, and frames of types the reader passes over
      (the legacy type 0x01 and every unknown one). */
  datatype Item = Record(entry: Entry) | Ignored(kind: byte, payload: Bytes)

  predicate WellFormed(i: Item) {
    match i
    case Record(e) => Storable(e)
    case Ignored(k, p) => k != ROOT_UPDATE && k != SNAPSHOT_RECORD && k != EOF_MARKER && |p| < U32_LIMIT
  }

  predicate AllWellFormed(items: seq<Item>) {
    forall k :: 0 <= k < |items| ==> WellFormed(items[k])
  }

  function ItemFrame(i: Item): (b: Bytes)
    ensures |b| >= 5
  {
    match i
    case Record(e) => Frame(e)
    case Ignored(k, p) => RawFrame(k, p)
  }

  function Body(items: seq<Item>): (b: Bytes) {
    if items == [] then [] else ItemFrame(items[0]) + Body(items[1..])
  }

  function Records(items: seq<Item>): (es: seq<Entry>) {
    if items == [] then [] else RecordsOf(items[0]) + Records(items[1..])
  }

  function RecordsOf(i: Item): (es: seq<Entry>) {
    if i.Record? then [i.entry] else []
  }

  /** How many leading items have their whole frame within the first `cut` bytes. */
  function Whole(items: seq<Item>, cut: nat): (n: nat)
    ensures n <= |items|
  {
    if items == [] || |ItemFrame(items[0])| > cut then 0
    else 1 + Whole(items[1..], cut - |ItemFrame(items[0])|)
  }

  lemma {:induction false} BodyAppend(a: seq<Item>, b: seq<Item>)
    ensures Body(a + b) == Body(a) + Body(b)
  {
    if a == [] {
      assert a + b == b;
    } else {
      BodyAppend(a[1..], b);
      Seqs.TailOfAppend(a, b);
      Seqs.Associative(ItemFrame(a[0]), Body(a[1..]), Body(b));
    }
  }

  lemma {:induction false} RecordsAppend(a: seq<Item>, b: seq<Item>)
    ensures Records(a + b) == Records(a) + Records(b)
  {
    if a == [] {
      assert a + b == b;
    } else {
      RecordsAppend(a[1..], b);
      Seqs.TailOfAppend(a, b);
      Seqs.Associative(RecordsOf(a[0]), Records(a[1..]), Records(b));
    }
  }

  /** `Whole` is the number of frames that end at or before the cut. */
  lemma {:induction false} WholeIsMaximal(items: seq<Item>, cut: nat)
    ensures var n := Whole(items, cut);
            |Body(items[..n])| <= cut && (n < |items| ==> cut < |Body(items[..n + 1])|)
  {
    var n := Whole(items, cut);
    if n < |items| {
      Seqs.PrefixTail(items, n + 1);
    }
    if n > 0 {
      WholeIsMaximal(items[1..], cut - |ItemFrame(items[0])|);
      Seqs.PrefixTail(items, n);
    }
  }

  /** Where the parts of a frame are found again in the bytes that start with it. */
  lemma FrameLayout(t: byte, payload: Bytes, rest: Bytes)
    requires |payload| < U32_LIMIT
    ensures var b := RawFrame(t, payload) + rest;
            b[0] == t && ReadU32(b[1..5]) == |payload|
            && b[5..][..|payload|] == payload && b[5..][|payload|..] == rest
  {
    var b := RawFrame(t, payload) + rest;
    assert b[1..5] == U32Bytes(|payload|);
    U32RoundTrip(|payload|);
    assert b[5..] == payload + rest;
  }

  lemma RootPayloadParses(root: Digest)
    ensures ParseRootUpdate(Payload(RootUpdate(root))) == Some(RootUpdate(root))
  {
    DigestRoundTrip(root);
    assert Payload(RootUpdate(root))[..28] == DigestBytes(root);
  }

  lemma SnapshotPayloadParses(e: Entry)
    requires e.SnapshotRecord? && Storable(e)
    ensures ParseSnapshotRecord(Payload(e)) == Some(e)
  {
    var name := NameBytes(e.name);
    PrefixFields(e.version, e.root, e.createdAt, |name|, name);
    assert Payload(e) == SnapshotPrefix(e.version, e.root, e.createdAt, |name|) + name;
  }

  /** A complete frame at the front of the unread bytes is consumed as that item. */
  lemma FrameStep(i: Item, rest: Bytes)
    requires WellFormed(i)
    ensures ReadStep(ItemFrame(i) + rest) == if i.Record? then Yield(i.entry, rest) else Skip(rest)
  {
    match i
    case Ignored(k, p) =>
      FrameLayout(k, p, rest);
    case Record(e) =>
      FrameLayout(TypeByte(e), Payload(e), rest);
      if e.RootUpdate? {
        RootPayloadParses(e.root);
      } else {
        SnapshotPayloadParses(e);
      }
  }

  lemma CutRawFrameStops(t: byte, payload: Bytes, cut: nat)
    requires |payload| < U32_LIMIT && cut < 5 + |payload|
    ensures ReadStep(RawFrame(t, payload)[..cut]) == Stop
  {
    if cut >= 5 {
      hide U32Bytes, ReadU32;
      var b, length := RawFrame(t, payload)[..cut], U32Bytes(|payload|);
      Seqs.CutBehind([t] + length, payload, cut);
      Seqs.SliceInFront([t] + length, payload[..cut - 5], 1, 5);
      Seqs.Parts([t], length);
      assert b[1..5] == length;
      U32RoundTrip(|payload|);
    }
  }

  /** A frame cut short ends the iteration and yields nothing. */
  lemma CutFrameStops(i: Item, cut: nat)
    requires WellFormed(i) && cut < |ItemFrame(i)|
    ensures ReadStep(ItemFrame(i)[..cut]) == Stop
  {
    match i
    case Ignored(k, p) => CutRawFrameStops(k, p, cut);
    case Record(e) => CutRawFrameStops(TypeByte(e), Payload(e), cut);
  }

  lemma EofStops(rest: Bytes)
    ensures Entries(EofFrame + rest) == []
  {
    assert (EofFrame + rest)[0] == EOF_MARKER;
  }

  /** Cutting a body anywhere loses exactly the records whose frame the cut reaches into. */
  lemma {:induction false} TornBody(items: seq<Item>, cut: nat)
    requires AllWellFormed(items)
    requires cut <= |Body(items)|
    ensures Entries(Body(items)[..cut]) == Records(items[..Whole(items, cut)])
  {
    if items != [] {
      var first, rest := items[0], items[1..];
      var size := |ItemFrame(first)|;
      if cut < size {
        Seqs.CutInFront(ItemFrame(first), Body(rest), cut);
        CutFrameStops(first, cut);
      } else {
        TornBody(rest, cut - size);
        Seqs.CutBehind(ItemFrame(first), Body(rest), cut);
        FrameStep(first, Body(rest)[..cut - size]);
        Seqs.PrefixTail(items, Whole(items, cut));
      }
    }
  }

  /** A body followed by other bytes: its records, then whatever those bytes hold. */
  lemma {:induction false} BodyThen(items: seq<Item>, rest: Bytes)
    requires AllWellFormed(items)
    ensures Entries(Body(items) + rest) == Records(items) + Entries(rest)
  {
    if items == [] {
      assert Body(items) + rest == rest;
    } else {
      BodyThen(items[1..], rest);
      Seqs.Associative(ItemFrame(items[0]), Body(items[1..]), rest);
      FrameStep(items[0], Body(items[1..]) + rest);
      Seqs.Associative(RecordsOf(items[0]), Records(items[1..]), Entries(rest));
    }
  }

  /** A segment file as the writer leaves it, open or closed with its EOF marker. */
  function FileBytes(id: u64, items: seq<Item>, closed: bool): (b: Bytes) {
    HeaderBytes(id) + Body(items) + (if closed then EofFrame else [])
  }

  /** A well-headed file opens and yields what its body holds. */
  lemma HeadedFile(id: u64, body: Bytes)
    ensures ReadFile(HeaderBytes(id) + body) == Ok(Entries(body))
  {
    HeaderRoundTrip(id);
    Seqs.Parts(HeaderBytes(id), body);
  }

  lemma TornBodyThenMarker(items: seq<Item>, marker: Bytes, cut: nat)
    requires AllWellFormed(items)
    requires marker <= EofFrame
    requires cut <= |Body(items)| + |marker|
    ensures Entries((Body(items) + marker)[..cut]) == Records(items[..Whole(items, cut)])
  {
    var body := Body(items);
    if cut <= |body| {
      Seqs.CutInFront(body, marker, cut);
      TornBody(items, cut);
    } else {
      var rest := marker[..cut - |body|];
      Seqs.CutBehind(body, marker, cut);
      BodyThen(items, rest);
      assert Entries(rest) == [];
      Seqs.Units(Records(items));
      WholeOfAll(items, cut);
      Seqs.Units(items);
    }
  }

  /** Torn-tail reading: whatever byte past the header the file is cut at, the reader opens it
      and yields exactly the records whose frames end at or before the cut. Ignored frames
      contribute nothing, wherever they stand. */
  lemma TornTail(id: u64, items: seq<Item>, closed: bool, cut: nat)
    requires AllWellFormed(items)
    requires 16 <= cut <= |FileBytes(id, items, closed)|
    ensures ReadFile(FileBytes(id, items, closed)[..cut]) == Ok(Records(items[..Whole(items, cut - 16)]))
  {
    var marker := if closed then EofFrame else [];
    Seqs.Associative(HeaderBytes(id), Body(items), marker);
    Seqs.CutBehind(HeaderBytes(id), Body(items) + marker, cut);
    HeadedFile(id, (Body(items) + marker)[..cut - 16]);
    TornBodyThenMarker(items, marker, cut - 16);
  }

  lemma {:induction false} WholeOfAll(items: seq<Item>, cut: nat)
    requires |Body(items)| <= cut
    ensures Whole(items, cut) == |items|
  {
    if items != [] {
      WholeOfAll(items[1..], cut - |ItemFrame(items[0])|);
    }
  }

  // ------------------------------------------------------ records that do not survive

  /** An entry the program can hold is read back from its own frame if and only if it is
      storable: an empty name comes back as no name, and an over-long payload is cut. */
  lemma FrameReadsBackIff(e: Entry)
    requires WellTyped(e)
    ensures Entries(Frame(e)) == [e] <==> Storable(e)
  {
    if Storable(e) {
      FrameStep(Record(e), []);
      assert Frame(e) + [] == Frame(e);
    } else {
      UnstorableFrame(e);
    }
  }

  /** The first thing read from an unstorable snapshot's frame has a different name. */
  lemma UnstorableFrame(e: Entry)
    requires WellTyped(e) && !Storable(e)
    ensures Entries(Frame(e)) == [] || Entries(Frame(e))[0] != e
  {
    var payload := Payload(e);
    var b := Frame(e);
    var len := AsU32(|payload|);
    assert b[1..5] == U32Bytes(len) && b[5..] == payload;
    U32RoundTrip(len);
    var cut := payload[..len];
    match ParseSnapshotRecord(cut)
    case None =>
    case Some(r) =>
      var prefix := SnapshotPrefix(e.version, e.root, e.createdAt, AsU32(|NameBytes(e.name)|));
      var tail := NameBytes(e.name)[..len - 48];
      assert cut == prefix + tail;
      PrefixFields(e.version, e.root, e.createdAt, AsU32(|NameBytes(e.name)|), tail);
      assert r.name.Some? ==> |r.name.value| == AsU32(|e.name.value|);
      assert r != e;
  }

  /** The concrete case: a snapshot named by the empty string is read back unnamed. */
  lemma EmptyNameIsLost(version: u64, root: Digest, createdAt: u64)
    ensures Entries(Frame(SnapshotRecord(version, root, createdAt, Some([]))))
         == [SnapshotRecord(version, root, createdAt, None)]
  {
    var named, plain := SnapshotRecord(version, root, createdAt, Some([])),
        SnapshotRecord(version, root, createdAt, None);
    assert Frame(named) == Frame(plain);
    FrameReadsBackIff(plain);
  }

  /** Everything the reader yields can be written again without loss. */
  lemma {:induction false} EntriesAreStorable(b: Bytes)
    ensures forall e :: e in Entries(b) ==> Storable(e)
    decreases |b|
  {
    match ReadStep(b)
    case Stop =>
    case Skip(rest) => EntriesAreStorable(rest);
    case Yield(e, rest) => EntriesAreStorable(rest);
  }
}
