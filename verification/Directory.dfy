/** Directory entry lists: their byte form, and the operations on list digests as operations on a
    map from names to inode numbers. */
module Directory {
  import opened ByteCodec
  import opened Cas
  import opened Tables
  import opened StoreView
  import opened Utf8
  import opened VarBytes
  import Ordered
  import Seqs

  // --------------------------------------------------------------------- records

  /** One entry: the digest of the name, the inode it names, and the name. */
  datatype Entry = Entry(key: Digest, ino: u64, name: Name)

  ghost predicate EntryFits(e: Entry) {
    ValidUtf8(e.name) && |e.name| < U32_LIMIT
  }

  ghost predicate EntriesFit(es: seq<Entry>) {
    forall i :: 0 <= i < |es| ==> EntryFits(es[i])
  }

  function EntryLength(e: Entry): (n: nat) {
    40 + |e.name|
  }

  function EncodeEntry(e: Entry): (b: Bytes)
    ensures |b| == EntryLength(e)
  {
    DigestBytes(e.key) + U64Bytes(e.ino) + Var(e.name)
  }

  function EncodeEntries(es: seq<Entry>): (b: Bytes) {
    if es == [] then [] else EncodeEntry(es[0]) + EncodeEntries(es[1..])
  }

  /** The entry at the front. */
  function TakeEntry(b: Bytes): (r: Result<Entry, MetaError>)
    ensures r.Ok? ==> EntryLength(r.value) <= |b|
  {
    if |b| < 36 then Err(Corrupted)
    else
      var name := TakeVar(b[36..]);
      if name.None? || !ValidUtf8(name.value) then Err(Corrupted)
      else Ok(Entry(ReadDigest(b[..28]), ReadU64(b[28..36]), name.value))
  }

  /** The first `n` entries; what follows them is not looked at. */
  function DecodeEntries(b: Bytes, n: nat): (r: Result<seq<Entry>, MetaError>) {
    if n == 0 then Ok([])
    else
      var e :- TakeEntry(b);
      var rest :- DecodeEntries(b[EntryLength(e)..], n - 1);
      Ok([e] + rest)
  }

  lemma EntryTaken(e: Entry, rest: Bytes)
    requires EntryFits(e)
    ensures TakeEntry(EncodeEntry(e) + rest) == Ok(e) && (EncodeEntry(e) + rest)[EntryLength(e)..] == rest
  {
    hide Var, TakeVar, ValidUtf8, DigestBytes, ReadDigest, U64Bytes, ReadU64;
    var d, i, v := DigestBytes(e.key), U64Bytes(e.ino), Var(e.name);
    DigestRoundTrip(e.key);
    U64RoundTrip(e.ino);
    VarTaken(e.name, rest);
    var b := EncodeEntry(e) + rest;
    assert b[..28] == d && b[28..36] == i && b[36..] == v + rest;
    Seqs.Parts(EncodeEntry(e), rest);
  }

  lemma EntryOnto(b: Bytes)
    requires TakeEntry(b).Ok?
    ensures EntryFits(TakeEntry(b).value)
  {
    hide ValidUtf8, TakeVar, Var, ReadDigest, ReadU64;
    VarOnto(b[36..]);
  }

  lemma {:induction false} EntriesRoundTrip(es: seq<Entry>)
    requires EntriesFit(es)
    ensures DecodeEntries(EncodeEntries(es), |es|) == Ok(es)
  {
    hide TakeEntry, EncodeEntry, EntryFits;
    if es != [] {
      EntriesRoundTrip(es[1..]);
      EntryTaken(es[0], EncodeEntries(es[1..]));
      assert es == [es[0]] + es[1..];
    }
  }

  lemma {:induction false} DecodedFit(b: Bytes, n: nat)
    requires DecodeEntries(b, n).Ok?
    ensures EntriesFit(DecodeEntries(b, n).value)
  {
    hide TakeEntry, EntryFits;
    if n > 0 {
      var e := TakeEntry(b).value;
      EntryOnto(b);
      DecodedFit(b[EntryLength(e)..], n - 1);
    }
  }

  // ------------------------------------------------------------------------ lists

  /** An entry list in memory: entries by the digest of their name, in key order. */
  type List = map<int, Entry>

  ghost predicate ListFits(m: List) {
    |m| < U32_LIMIT && forall k :: k in m ==> m[k].key == k && EntryFits(m[k])
  }

  ghost predicate Keyed(m: List, ks: seq<int>) {
    forall i :: 0 <= i < |ks| ==> ks[i] in m
  }

  function Rows(m: List, ks: seq<int>): (es: seq<Entry>)
    requires Keyed(m, ks)
    ensures |es| == |ks| && forall i :: 0 <= i < |ks| ==> es[i] == m[ks[i]]
  {
    seq(|ks|, i requires 0 <= i < |ks| => m[ks[i]])
  }

  /** All entries, in key order. */
  ghost function Sorted(m: List): (es: seq<Entry>) {
    var ks := Ordered.Ascending(m.Keys);
    assert Keyed(m, ks) by { forall i | 0 <= i < |ks| ensures ks[i] in m { assert ks[i] in ks; } }
    Rows(m, ks)
  }

  /** Entries are inserted in order; a repeated key keeps the last. */
  function Inserted(es: seq<Entry>): (m: List) {
    if es == [] then map[] else Inserted(es[..|es| - 1])[es[|es| - 1].key := es[|es| - 1]]
  }

  lemma SortedFits(m: List)
    requires ListFits(m)
    ensures |Sorted(m)| == |m| && EntriesFit(Sorted(m))
    ensures forall i :: 0 <= i < |Sorted(m)| ==> Sorted(m)[i].key in m && m[Sorted(m)[i].key] == Sorted(m)[i]
    ensures forall k :: k in m ==> m[k] in Sorted(m)
  {
    hide EntryFits;
    var ks := Ordered.Ascending(m.Keys);
    assert |m.Keys| == |m|;
    forall i | 0 <= i < |ks| ensures ks[i] in m { assert ks[i] in ks; }
    forall k | k in m ensures m[k] in Sorted(m) {
      assert k in ks;
      var i :| 0 <= i < |ks| && ks[i] == k;
      assert Sorted(m)[i] == m[k];
    }
  }

  lemma SortedDistinct(m: List)
    requires forall k :: k in m ==> m[k].key == k
    ensures forall i, j :: 0 <= i < j < |Sorted(m)| ==> Sorted(m)[i].key != Sorted(m)[j].key
  {
    var ks := Ordered.Ascending(m.Keys);
    forall i | 0 <= i < |ks| ensures ks[i] in m { assert ks[i] in ks; }
  }

  ghost function EncodeList(m: List): (b: Bytes) {
    U32Bytes(AsU32(|m|)) + EncodeEntries(Sorted(m))
  }

  /** No bytes at all stand for the empty list. */
  function DecodeList(b: Bytes): (r: Result<List, MetaError>) {
    if b == [] then Ok(map[])
    else if |b| < 4 then Err(Corrupted)
    else
      var es :- DecodeEntries(b[4..], ReadU32(b[..4]));
      Ok(Inserted(es))
  }

  ghost function Upto(m: List, ks: seq<int>): (r: List) {
    map k | k in m && k in ks :: m[k]
  }

  lemma {:induction false} InsertedRows(m: List, ks: seq<int>)
    requires Keyed(m, ks) && forall k :: k in m ==> m[k].key == k
    ensures Inserted(Rows(m, ks)) == Upto(m, ks)
  {
    if ks == [] {
      assert Upto(m, ks) == map[];
    } else {
      var front, k := ks[..|ks| - 1], ks[|ks| - 1];
      InsertedRows(m, front);
      assert Rows(m, ks)[..|ks| - 1] == Rows(m, front);
      UptoSnoc(m, front, k);
      Seqs.SplitLast(ks);
    }
  }

  lemma UptoSnoc(m: List, front: seq<int>, k: int)
    requires k in m
    ensures Upto(m, front + [k]) == Upto(m, front)[k := m[k]]
  {
    assert forall x :: x in front + [k] <==> x in front || x == k;
  }

  lemma InsertedSorted(m: List)
    requires ListFits(m)
    ensures Inserted(Sorted(m)) == m
  {
    hide EntryFits, Inserted;
    var ks := Ordered.Ascending(m.Keys);
    forall i | 0 <= i < |ks| ensures ks[i] in m { assert ks[i] in ks; }
    InsertedRows(m, ks);
    assert Upto(m, ks) == m;
  }

  lemma ListRoundTrip(m: List)
    requires ListFits(m)
    ensures DecodeList(EncodeList(m)) == Ok(m)
  {
    hide EncodeEntries, DecodeEntries, Inserted, Sorted, EntryFits, U32Bytes, ReadU32;
    SortedFits(m);
    var es := Sorted(m);
    U32RoundTrip(|m|);
    Seqs.Parts(U32Bytes(|m|), EncodeEntries(es));
    EntriesRoundTrip(es);
    InsertedSorted(m);
  }

  lemma {:induction false} InsertedFits(es: seq<Entry>)
    requires EntriesFit(es)
    ensures |Inserted(es)| <= |es| && forall k :: k in Inserted(es) ==>
            Inserted(es)[k].key == k
            && EntryFits(Inserted(es)[k])
  {
    hide EntryFits;
    if es != [] { InsertedFits(es[..|es| - 1]); }
  }

  lemma {:induction false} DecodedCount(b: Bytes, n: nat)
    requires DecodeEntries(b, n).Ok?
    ensures |DecodeEntries(b, n).value| == n
  {
    hide TakeEntry;
    if n > 0 { DecodedCount(b[EntryLength(TakeEntry(b).value)..], n - 1); }
  }

  /** Whatever is decoded can be encoded again. */
  lemma DecodedListFits(b: Bytes)
    requires DecodeList(b).Ok?
    ensures ListFits(DecodeList(b).value)
  {
    hide EntryFits, DecodeEntries, Inserted, ReadU32;
    if b != [] {
      var n := ReadU32(b[..4]);
      DecodedFit(b[4..], n);
      DecodedCount(b[4..], n);
      InsertedFits(DecodeEntries(b[4..], n).value);
    } else {
      assert |DecodeList(b).value| == 0;
    }
  }

  // ----------------------------------------------------------------- byte loops

  /** The keys of a map in ascending order, as iterating a `BTreeMap` gives them. */
  method AscendingKeys(s: set<int>) returns (q: seq<int>)
    ensures q == Ordered.Ascending(s)
  {
    q := [];
    var rest := s;
    while rest != {}
      invariant Ordered.Ascending(s) == q + Ordered.Ascending(rest)
      decreases rest
    {
      ghost var w := Ordered.LeastExists(rest);
      assert Ordered.IsLeast(w, rest);
      var k :| k in rest && forall x :: x in rest ==> k <= x;
      Ordered.AscendingCons(rest, k);
      Seqs.Associative(q, [k], Ordered.Ascending(rest - {k}));
      q := q + [k];
      rest := rest - {k};
    }
    assert Ordered.Ascending(rest) == [];
    Seqs.Units(q);
  }

  lemma {:induction false} EncodeEntriesSnoc(es: seq<Entry>, e: Entry)
    ensures EncodeEntries(es + [e]) == EncodeEntries(es) + EncodeEntry(e)
  {
    hide EncodeEntry;
    if es == [] {
      assert ([] + [e])[1..] == [] && es + [e] == [e];
      Seqs.Units(EncodeEntry(e));
    } else {
      EncodeEntriesSnoc(es[1..], e);
      Seqs.TailOfAppend(es, [e]);
      Seqs.Associative(EncodeEntry(es[0]), EncodeEntries(es[1..]), EncodeEntry(e));
    }
  }

  /** `serialize_entry_list`. */
  method SerializeEntryList(m: List) returns (b: Bytes)
    ensures b == EncodeList(m)
  {
    var ks := AscendingKeys(m.Keys);
    ghost var es := Sorted(m);
    b := U32Bytes(AsU32(|m|));
    ghost var count := b;
    Seqs.Units(b);
    for i := 0 to |ks|
      invariant b == count + EncodeEntries(es[..i])
    {
      assert ks[i] in ks;
      Seqs.PrefixSnoc(es, i);
      EncodeEntriesSnoc(es[..i], es[i]);
      Seqs.Associative(count, EncodeEntries(es[..i]), EncodeEntry(es[i]));
      b := b + EncodeEntry(m[ks[i]]);
    }
    Seqs.Units(es);
  }

  /** What decoding comes to when `done` has been read and `n` entries remain. */
  ghost function After(done: seq<Entry>, b: Bytes, n: nat): (r: Result<List, MetaError>) {
    var rest := DecodeEntries(b, n);
    if rest.Ok? then Ok(Inserted(done + rest.value)) else Err(rest.error)
  }

  lemma AfterStep(b: Bytes, i: nat, n: nat, done: seq<Entry>)
    requires i <= |b| && n > 0
    ensures TakeEntry(b[i..]).Err? ==> After(done, b[i..], n) == Err(TakeEntry(b[i..]).error)
    ensures TakeEntry(b[i..]).Ok? ==>
              var e := TakeEntry(b[i..]).value;
              After(done, b[i..], n) == After(done + [e], b[i + EntryLength(e)..], n - 1)
  {
    hide TakeEntry, Inserted;
    if TakeEntry(b[i..]).Ok? {
      var e := TakeEntry(b[i..]).value;
      assert b[i..][EntryLength(e)..] == b[i + EntryLength(e)..];
      var rest := DecodeEntries(b[i + EntryLength(e)..], n - 1);
      if rest.Ok? { Seqs.Associative(done, [e], rest.value); }
    }
  }

  lemma InsertedSnoc(es: seq<Entry>, e: Entry)
    ensures Inserted(es + [e]) == Inserted(es)[e.key := e]
  {
    assert (es + [e])[..|es|] == es;
  }

  lemma AfterEnds(b: Bytes, n: nat, done: seq<Entry>)
    ensures After(done, b, 0) == Ok(Inserted(done)) && Inserted([]) == map[]
    ensures b != [] && |b| >= 4 ==> DecodeList(b) == After([], b[4..], ReadU32(b[..4]))
  {
    assert DecodeEntries(b, 0) == Ok([]) && Inserted([]) == map[];
    hide DecodeEntries, Inserted;
    Seqs.Units(done);
    if |b| >= 4 {
      var rest := DecodeEntries(b[4..], ReadU32(b[..4]));
      if rest.Ok? { Seqs.Units(rest.value); }
    }
  }

  /** The cursor is at `i` with `n` entries to go, and `m` holds what was read. */
  ghost predicate Reading(b: Bytes, i: nat, n: nat, done: seq<Entry>, m: List) {
    4 <= i <= |b| && m == Inserted(done) && DecodeList(b) == After(done, b[i..], n)
  }

  lemma ReadingStep(b: Bytes, i: nat, n: nat, done: seq<Entry>, m: List)
    requires Reading(b, i, n, done, m) && n > 0
    ensures TakeEntry(b[i..]).Err? ==> DecodeList(b) == Err(TakeEntry(b[i..]).error)
    ensures TakeEntry(b[i..]).Ok? ==>
              var e := TakeEntry(b[i..]).value;
              Reading(b, i + EntryLength(e), n - 1, done + [e], m[e.key := e])
  {
    hide DecodeList, TakeEntry, After, Inserted;
    AfterStep(b, i, n, done);
    if TakeEntry(b[i..]).Ok? { InsertedSnoc(done, TakeEntry(b[i..]).value); }
  }

  lemma ReadingStarts(b: Bytes)
    requires |b| >= 4
    ensures Reading(b, 4, ReadU32(b[..4]), [], map[])
  {
    hide DecodeList, After, ReadU32;
    AfterEnds(b, 0, []);
  }

  lemma ReadingDone(b: Bytes, i: nat, done: seq<Entry>, m: List)
    requires Reading(b, i, 0, done, m)
    ensures DecodeList(b) == Ok(m)
  {
    hide DecodeList, After, Inserted, ReadU32;
    AfterEnds(b[i..], 0, done);
  }

  /** `deserialize_entry_list`: a cursor over the bytes, inserting as it goes. */
  method DeserializeEntryList(b: Bytes) returns (r: Result<List, MetaError>)
    ensures r == DecodeList(b)
  {
    if b == [] { return Ok(map[]); }
    if |b| < 4 { return Err(Corrupted); }
    var count: int := ReadU32(b[..4]);
    var m: List := map[];
    var i: nat := 4;
    ghost var done: seq<Entry> := [];
    ReadingStarts(b);
    hide DecodeList, TakeEntry;
    for n := 0 to count
      invariant i <= |b| && Reading(b, i, count - n, done, m)
    {
      ReadingStep(b, i, count - n, done, m);
      var e := TakeEntry(b[i..]);
      if e.Err? { return Err(e.error); }
      hide Reading;
      m := m[e.value.key := e.value];
      i := i + EntryLength(e.value);
      done := done + [e.value];
    }
    ReadingDone(b, i, done, m);
    return Ok(m);
  }

  // --------------------------------------------------------------- names and inodes

  /** The list holds exactly the names of `m`, each under its digest. */
  ghost predicate Represents(h: Hash, l: List, m: map<Name, nat>) {
    && (forall k :: k in l ==> k == h(l[k].name) && l[k].name in m && m[l[k].name] == l[k].ino)
    && (forall n :: n in m ==> h(n) in l && l[h(n)].name == n)
  }

  /** The digest names a stored list of exactly the entries `m`, whose names are stored as well. */
  ghost predicate DirOf(h: Hash, blobs: Blobs, d: Digest, m: map<Name, nat>) {
    && d in blobs && DecodeList(blobs[d]).Ok?
    && Represents(h, DecodeList(blobs[d]).value, m)
    && (forall n :: n in m ==> Has(h, blobs, n))
  }

  /** A directory resolves from its digest, with the same entries, in every larger store. */
  lemma OldDigestsResolve(h: Hash, blobs: Blobs, later: Blobs, d: Digest, m: map<Name, nat>)
    requires DirOf(h, blobs, d, m) && Grows(blobs, later)
    ensures DirOf(h, later, d, m)
  {
    hide DecodeList, Represents;
  }

  /** A name not yet stored under another name's digest is in the list exactly when it is in the map. */
  lemma KeyFinds(h: Hash, blobs: Blobs, d: Digest, m: map<Name, nat>, name: Name)
    requires DirOf(h, blobs, d, m) && NoClash(h, blobs, name)
    ensures var l := DecodeList(blobs[d]).value;
            && (h(name) in l <==> name in m)
            && (name in m ==> l[h(name)].ino == m[name] && l[h(name)].name == name)
  {
    hide DecodeList;
    var l := DecodeList(blobs[d]).value;
    if h(name) in l {
      var n := l[h(name)].name;
      assert Has(h, blobs, n);
    }
  }

  lemma AddRepresents(h: Hash, l: List, m: map<Name, nat>, e: Entry)
    requires Represents(h, l, m) && e.key == h(e.name) && e.key !in l
    ensures e.name !in m && Represents(h, l[e.key := e], m[e.name := e.ino])
  {
  }

  lemma RemoveRepresents(h: Hash, l: List, m: map<Name, nat>, name: Name)
    requires Represents(h, l, m) && name in m
    ensures Represents(h, l - {h(name)}, m - {name})
  {
  }

  // ------------------------------------------------------------------- operations

  function Loaded(blobs: Blobs, d: Digest): (r: Result<List, MetaError>) {
    if d in blobs then DecodeList(blobs[d]) else Err(Corrupted)
  }

  /** `create_dir_entries`: pushes both dot names and the list. */
  ghost function NewList(h: Hash, self: u64, parent: u64): (l: List) {
    map[h(DOT) := Entry(h(DOT), self, DOT)][h(DOTDOT) := Entry(h(DOTDOT), parent, DOTDOT)]
  }

  lemma DotsFit(h: Hash, self: u64, parent: u64)
    ensures ListFits(NewList(h, self, parent))
  {
    assert ValidUtf8(DOT) && ValidUtf8(DOTDOT) by {
      assert CharLength(DOT) == 1 && DOT[1..] == [];
      assert CharLength(DOTDOT) == 1 && DOTDOT[1..] == DOT;
    }
    var l := NewList(h, self, parent);
    assert l.Keys <= {h(DOT), h(DOTDOT)};
    Small(l.Keys, h(DOT), h(DOTDOT));
    assert |l.Keys| == |l|;
  }

  lemma Small(s: set<int>, a: int, b: int)
    requires s <= {a, b}
    ensures |s| <= 2
  {
    var t := s - {a} - {b};
    assert t == {};
    assert |s - {a}| <= 1;
  }

  /** A new directory holds itself and its parent. */
  lemma NewListRepresents(h: Hash, self: u64, parent: u64)
    requires h(DOT) != h(DOTDOT)
    ensures Represents(h, NewList(h, self, parent), map[DOT := self, DOTDOT := parent])
  {
  }

  ghost function AddEntry(h: Hash, blobs: Blobs, d: Digest, name: Name, ino: u64)
    : (r: (Blobs, Result<Digest, MetaError>))
  {
    if IsDot(name) then (blobs, Err(InvalidName))
    else
      match Loaded(blobs, d)
      case Err(e) => (blobs, Err(e))
      case Ok(l) =>
        var named := Put(h, blobs, name);
        if h(name) in l then (named, Err(AlreadyExists))
        else
          var b := EncodeList(l[h(name) := Entry(h(name), ino, name)]);
          (Put(h, named, b), Ok(h(b)))
  }

  ghost function RemoveEntry(h: Hash, blobs: Blobs, d: Digest, name: Name): (r: (Blobs, Result<Digest, MetaError>)) {
    if IsDot(name) then (blobs, Err(InvalidName))
    else
      match Loaded(blobs, d)
      case Err(e) => (blobs, Err(e))
      case Ok(l) =>
        var named := Put(h, blobs, name);
        if h(name) !in l then (named, Err(NotFound))
        else
          var b := EncodeList(l - {h(name)});
          (Put(h, named, b), Ok(h(b)))
  }

  /** Looking a name up pushes the name. */
  ghost function LookupEntry(h: Hash, blobs: Blobs, d: Digest, name: Name): (r: (Blobs, Result<u64, MetaError>)) {
    match Loaded(blobs, d)
    case Err(e) => (blobs, Err(e))
    case Ok(l) => (Put(h, blobs, name), if h(name) in l then Ok(l[h(name)].ino) else Err(NotFound))
  }

  method LoadEntryList(blobs: Blobs, d: Digest) returns (r: Result<List, MetaError>)
    ensures r == Loaded(blobs, d)
  {
    if d !in blobs { return Err(Corrupted); }
    r := DeserializeEntryList(blobs[d]);
  }

  /** `add_dir_entry`. */
  method AddDirEntry(h: Hash, blobs: Blobs, d: Digest, name: Name, ino: u64)
    returns (after: Blobs, r: Result<Digest, MetaError>)
    ensures (after, r) == AddEntry(h, blobs, d, name, ino)
  {
    hide Loaded, EncodeList;
    if IsDot(name) { return blobs, Err(InvalidName); }
    var loaded := LoadEntryList(blobs, d);
    if loaded.Err? { return blobs, Err(loaded.error); }
    var entries := loaded.value;
    after := Put(h, blobs, name);
    var key := h(name);
    if key in entries { return after, Err(AlreadyExists); }
    entries := entries[key := Entry(key, ino, name)];
    var b := SerializeEntryList(entries);
    after := Put(h, after, b);
    r := Ok(h(b));
  }

  /** `remove_dir_entry`. */
  method RemoveDirEntry(h: Hash, blobs: Blobs, d: Digest, name: Name)
    returns (after: Blobs, r: Result<Digest, MetaError>)
    ensures (after, r) == RemoveEntry(h, blobs, d, name)
  {
    hide Loaded, EncodeList;
    if IsDot(name) { return blobs, Err(InvalidName); }
    var loaded := LoadEntryList(blobs, d);
    if loaded.Err? { return blobs, Err(loaded.error); }
    var entries := loaded.value;
    after := Put(h, blobs, name);
    var key := h(name);
    if key !in entries { return after, Err(NotFound); }
    entries := entries - {key};
    var b := SerializeEntryList(entries);
    after := Put(h, after, b);
    r := Ok(h(b));
  }

  /** `lookup_dir_entry`. */
  method LookupDirEntry(h: Hash, blobs: Blobs, d: Digest, name: Name) returns (after: Blobs, r: Result<u64, MetaError>)
    ensures (after, r) == LookupEntry(h, blobs, d, name)
  {
    hide Loaded;
    var loaded := LoadEntryList(blobs, d);
    if loaded.Err? { return blobs, Err(loaded.error); }
    after := Put(h, blobs, name);
    r := if h(name) in loaded.value then Ok(loaded.value[h(name)].ino) else Err(NotFound);
  }

  /** `list_dir_entries`: the entries in key order. */
  method ListDirEntries(blobs: Blobs, d: Digest) returns (r: Result<seq<Entry>, MetaError>)
    ensures r == (match Loaded(blobs, d) case Ok(l) => Ok(Sorted(l)) case Err(e) => Err(e))
  {
    hide Loaded;
    var loaded := LoadEntryList(blobs, d);
    if loaded.Err? { return Err(loaded.error); }
    var l := loaded.value;
    var ks := AscendingKeys(l.Keys);
    assert Keyed(l, ks) by { forall i | 0 <= i < |ks| ensures ks[i] in l { assert ks[i] in ks; } }
    r := Ok(Rows(l, ks));
  }

  // ------------------------------------------- the operations on names and inodes

  /** What `add_dir_entry` pushes: the name, then the new list. */
  ghost function AddPushes(h: Hash, blobs: Blobs, d: Digest, name: Name, ino: u64): (ss: seq<Bytes>) {
    if IsDot(name) || Loaded(blobs, d).Err? then []
    else
      var l := Loaded(blobs, d).value;
      if h(name) in l then [name] else [name, EncodeList(l[h(name) := Entry(h(name), ino, name)])]
  }

  ghost function RemovePushes(h: Hash, blobs: Blobs, d: Digest, name: Name): (ss: seq<Bytes>) {
    if IsDot(name) || Loaded(blobs, d).Err? then []
    else
      var l := Loaded(blobs, d).value;
      if h(name) !in l then [name] else [name, EncodeList(l - {h(name)})]
  }

  ghost function LookupPushes(blobs: Blobs, d: Digest, name: Name): (ss: seq<Bytes>) {
    if Loaded(blobs, d).Err? then [] else [name]
  }

  lemma OnePush(h: Hash, blobs: Blobs, a: Bytes)
    ensures PutAll(h, blobs, [a]) == Put(h, blobs, a) && (Clean(h, blobs, [a]) <==> NoClash(h, blobs, a))
  {
    OneMore(h, blobs, [], a);
    assert [] + [a] == [a];
  }

  lemma TwoPushes(h: Hash, blobs: Blobs, a: Bytes, b: Bytes)
    ensures PutAll(h, blobs, [a, b]) == Put(h, Put(h, blobs, a), b)
    ensures Clean(h, blobs, [a, b]) <==> NoClash(h, blobs, a) && NoClash(h, Put(h, blobs, a), b)
    ensures Clean(h, blobs, [a, b]) ==>
              var after := Put(h, Put(h, blobs, a), b);
              Grows(blobs, after) && Has(h, after, a) && Has(h, after, b)
  {
    OnePush(h, blobs, a);
    OneMore(h, blobs, [a], b);
    assert [a] + [b] == [a, b];
  }

  /** The three operations change the store by exactly these pushes. */
  lemma PushesAre(h: Hash, blobs: Blobs, d: Digest, name: Name, ino: u64)
    ensures AddEntry(h, blobs, d, name, ino).0 == PutAll(h, blobs, AddPushes(h, blobs, d, name, ino))
    ensures RemoveEntry(h, blobs, d, name).0 == PutAll(h, blobs, RemovePushes(h, blobs, d, name))
    ensures LookupEntry(h, blobs, d, name).0 == PutAll(h, blobs, LookupPushes(blobs, d, name))
  {
    hide EncodeList, Loaded, Clean;
    OnePush(h, blobs, name);
    if Loaded(blobs, d).Ok? {
      var l := Loaded(blobs, d).value;
      TwoPushes(h, blobs, name, EncodeList(l[h(name) := Entry(h(name), ino, name)]));
      TwoPushes(h, blobs, name, EncodeList(l - {h(name)}));
    }
  }

  /** A new entry fits its fields: the name is text of fewer than 2^32 bytes, and so is the count. */
  ghost predicate NameFits(m: map<Name, nat>, name: Name) {
    !IsDot(name) && name !in m ==> ValidUtf8(name) && |name| < U32_LIMIT && |m| + 1 < U32_LIMIT
  }

  lemma {:induction false} ListSize(h: Hash, l: List, m: map<Name, nat>)
    requires Represents(h, l, m)
    ensures |l| == |m|
    decreases |m|
  {
    if m.Keys == {} {
      EmptyList(h, l, m);
    } else {
      var n :| n in m.Keys;
      assert h(n) in l && Represents(h, l - {h(n)}, m - {n}) by { RemoveRepresents(h, l, m, n); }
      hide Represents;
      SizeWithout(l, h(n));
      SizeWithout(m, n);
      ListSize(h, l - {h(n)}, m - {n});
    }
  }

  lemma EmptyList(h: Hash, l: List, m: map<Name, nat>)
    requires Represents(h, l, m) && m.Keys == {}
    ensures |l| == |m| == 0
  {
    forall k ensures k !in l.Keys { if k in l { assert false; } }
    assert l.Keys == {};
    assert |l.Keys| == |l| && |m.Keys| == |m|;
  }

  lemma SizeWithout<K, V>(m: map<K, V>, k: K)
    requires k in m
    ensures |m - {k}| == |m| - 1
  {
    assert (m - {k}).Keys == m.Keys - {k};
    assert |m.Keys| == |m| && |(m - {k}).Keys| == |m - {k}|;
  }

  /** An entry that was there can be put back. */
  lemma ReturnFits(h: Hash, blobs: Blobs, d: Digest, m: map<Name, nat>, name: Name)
    requires DirOf(h, blobs, d, m) && name in m
    ensures NameFits(m - {name}, name)
  {
    hide DecodeList, ValidUtf8;
    var l := DecodeList(blobs[d]).value;
    DecodedListFits(blobs[d]);
    ListSize(h, l, m);
    SizeWithout(m, name);
    assert EntryFits(l[h(name)]);
  }

  /** A list that has been pushed is a directory of what it represents. */
  lemma PushedIsDir(h: Hash, blobs: Blobs, l: List, m: map<Name, nat>)
    requires ListFits(l) && Represents(h, l, m) && Has(h, blobs, EncodeList(l))
    requires forall n :: n in m ==> Has(h, blobs, n)
    ensures DirOf(h, blobs, h(EncodeList(l)), m)
  {
    hide EncodeList, DecodeList, Represents;
    ListRoundTrip(l);
  }

  /** Adding an entry adds it to the map, refuses a name that is there, and protects the dots; every
      old digest still resolves. */
  lemma AddRefines(h: Hash, blobs: Blobs, d: Digest, m: map<Name, nat>, name: Name, ino: u64)
    requires DirOf(h, blobs, d, m) && NameFits(m, name) && Clean(h, blobs, AddPushes(h, blobs, d, name, ino))
    ensures var (after, r) := AddEntry(h, blobs, d, name, ino);
            && Grows(blobs, after)
            && (if IsDot(name) then r == Err(InvalidName)
                else if name in m then r == Err(AlreadyExists)
                else r.Ok? && DirOf(h, after, r.value, m[name := ino]))
  {
    hide EncodeList, DecodeList, Represents, ValidUtf8, DirOf, Clean, PutAll;
    PushesAre(h, blobs, d, name, ino);
    CleanGrows(h, blobs, AddPushes(h, blobs, d, name, ino));
    if !IsDot(name) {
      assert Loaded(blobs, d).Ok? && Represents(h, Loaded(blobs, d).value, m) by { hide *; DirLoads(h, blobs, d, m); }
      var l := Loaded(blobs, d).value;
      var e := Entry(h(name), ino, name);
      OnePush(h, blobs, name);
      TwoPushes(h, blobs, name, EncodeList(l[h(name) := e]));
      KeyFinds(h, blobs, d, m, name);
      if name !in m {
        AddRepresents(h, l, m, e);
        ListSize(h, l, m);
        assert ListFits(l[h(name) := e]) by { DecodedListFits(blobs[d]); }
        AddedIsDir(h, blobs, d, l[h(name) := e], m, name, ino);
      }
    }
  }

  lemma AddedIsDir(h: Hash, blobs: Blobs, d: Digest, l: List, m: map<Name, nat>, name: Name, ino: u64)
    requires DirOf(h, blobs, d, m) && Clean(h, blobs, [name, EncodeList(l)])
    requires ListFits(l) && Represents(h, l, m[name := ino])
    ensures DirOf(h, Put(h, Put(h, blobs, name), EncodeList(l)), h(EncodeList(l)), m[name := ino])
  {
    hide EncodeList, Represents, DirOf, ListFits, Clean;
    var after := Put(h, Put(h, blobs, name), EncodeList(l));
    TwoPushes(h, blobs, name, EncodeList(l));
    OldDigestsResolve(h, blobs, after, d, m);
    assert forall n :: n in m[name := ino] ==> Has(h, after, n) by { DirNames(h, after, d, m); }
    PushedIsDir(h, after, l, m[name := ino]);
  }

  lemma RemovedIsDir(h: Hash, blobs: Blobs, d: Digest, l: List, m: map<Name, nat>, name: Name)
    requires DirOf(h, blobs, d, m) && Clean(h, blobs, [name, EncodeList(l)])
    requires ListFits(l) && Represents(h, l, m - {name})
    ensures DirOf(h, Put(h, Put(h, blobs, name), EncodeList(l)), h(EncodeList(l)), m - {name})
  {
    hide EncodeList, Represents, DirOf, ListFits, Clean;
    var after := Put(h, Put(h, blobs, name), EncodeList(l));
    TwoPushes(h, blobs, name, EncodeList(l));
    OldDigestsResolve(h, blobs, after, d, m);
    assert forall n :: n in m - {name} ==> Has(h, after, n) by { DirNames(h, after, d, m); }
    PushedIsDir(h, after, l, m - {name});
  }

  lemma DirLoads(h: Hash, blobs: Blobs, d: Digest, m: map<Name, nat>)
    requires DirOf(h, blobs, d, m)
    ensures d in blobs && Loaded(blobs, d) == DecodeList(blobs[d]) && Loaded(blobs, d).Ok?
    ensures Represents(h, Loaded(blobs, d).value, m)
  {
  }

  lemma DirNames(h: Hash, blobs: Blobs, d: Digest, m: map<Name, nat>)
    requires DirOf(h, blobs, d, m)
    ensures forall n :: n in m ==> Has(h, blobs, n)
  {
  }

  /** Removing an entry removes it from the map, fails exactly when it is not there, and protects the
      dots; every old digest still resolves. */
  lemma RemoveRefines(h: Hash, blobs: Blobs, d: Digest, m: map<Name, nat>, name: Name)
    requires DirOf(h, blobs, d, m) && Clean(h, blobs, RemovePushes(h, blobs, d, name))
    ensures var (after, r) := RemoveEntry(h, blobs, d, name);
            && Grows(blobs, after)
            && (if IsDot(name) then r == Err(InvalidName)
                else if name !in m then r == Err(NotFound)
                else r.Ok? && DirOf(h, after, r.value, m - {name}))
  {
    hide EncodeList, DecodeList, Represents, DirOf, Clean, PutAll;
    PushesAre(h, blobs, d, name, 0);
    CleanGrows(h, blobs, RemovePushes(h, blobs, d, name));
    if !IsDot(name) {
      assert Loaded(blobs, d).Ok? && Represents(h, Loaded(blobs, d).value, m) by { hide *; DirLoads(h, blobs, d, m); }
      var l := Loaded(blobs, d).value;
      OnePush(h, blobs, name);
      TwoPushes(h, blobs, name, EncodeList(l - {h(name)}));
      KeyFinds(h, blobs, d, m, name);
      if name in m {
        RemoveRepresents(h, l, m, name);
        assert ListFits(l - {h(name)}) by { DecodedListFits(blobs[d]); FewerKeys(l, h(name)); }
        RemovedIsDir(h, blobs, d, l - {h(name)}, m, name);
      }
    }
  }

  lemma FewerKeys(l: List, k: int)
    ensures |l - {k}| <= |l|
  {
    assert (l - {k}).Keys == l.Keys - {k};
    assert |l.Keys| == |l| && |(l - {k}).Keys| == |l - {k}|;
  }

  /** Looking up finds exactly what the map holds, dots included. */
  lemma LookupRefines(h: Hash, blobs: Blobs, d: Digest, m: map<Name, nat>, name: Name)
    requires DirOf(h, blobs, d, m) && Clean(h, blobs, LookupPushes(blobs, d, name))
    ensures var (after, r) := LookupEntry(h, blobs, d, name);
            Grows(blobs, after) && r == if name in m then Ok(m[name]) else Err(NotFound)
  {
    hide DecodeList, Clean;
    DirLoads(h, blobs, d, m);
    OnePush(h, blobs, name);
    KeyFinds(h, blobs, d, m, name);
  }

  /** The listing holds each name of the map once, with its inode. */
  lemma ListRefines(h: Hash, blobs: Blobs, d: Digest, m: map<Name, nat>)
    requires DirOf(h, blobs, d, m)
    ensures Loaded(blobs, d).Ok?
    ensures var es := Sorted(Loaded(blobs, d).value);
            && (forall i :: 0 <= i < |es| ==> es[i].name in m && m[es[i].name] == es[i].ino)
            && (forall n :: n in m ==> exists i :: 0 <= i < |es| && es[i].name == n)
            && (forall i, j :: 0 <= i < j < |es| ==> es[i].name != es[j].name)
  {
    hide DecodeList, Sorted, EntryFits;
    DirLoads(h, blobs, d, m);
    DecodedListFits(blobs[d]);
    var l := Loaded(blobs, d).value;
    SortedFits(l);
    SortedDistinct(l);
    var es := Sorted(l);
    forall n | n in m ensures exists i :: 0 <= i < |es| && es[i].name == n {
      assert l[h(n)] in es;
      var i :| 0 <= i < |es| && es[i] == l[h(n)];
    }
  }
}
