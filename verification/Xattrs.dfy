/** Extended attributes: a flat list of names and values, its byte form, and the list as a map. */
module Xattrs {
  import opened ByteCodec
  import opened Tables
  import opened StoreView
  import opened Utf8
  import opened VarBytes
  import Seqs

  type Attr = (Name, Bytes)
  type Attrs = seq<Attr>

  // ------------------------------------------------------------------------ codec

  ghost predicate AttrFits(a: Attr) {
    ValidUtf8(a.0) && |a.0| < U32_LIMIT && |a.1| < U32_LIMIT
  }

  ghost predicate AttrsFit(xs: Attrs) {
    forall i :: 0 <= i < |xs| ==> AttrFits(xs[i])
  }

  function EncodeAttr(a: Attr): (b: Bytes)
    ensures |b| == AttrLength(a)
  {
    Var(a.0) + Var(a.1)
  }

  function AttrLength(a: Attr): (n: nat) {
    8 + |a.0| + |a.1|
  }

  function EncodeAttrs(xs: Attrs): (b: Bytes) {
    if xs == [] then [] else EncodeAttr(xs[0]) + EncodeAttrs(xs[1..])
  }

  /** The attribute at the front. */
  function TakeAttr(b: Bytes): (r: Result<Attr, MetaError>)
    ensures r.Ok? ==> AttrLength(r.value) <= |b|
  {
    var name := TakeVar(b);
    if name.None? || !ValidUtf8(name.value) then Err(Corrupted)
    else
      var value := TakeVar(b[4 + |name.value|..]);
      if value.None? then Err(Corrupted) else Ok((name.value, value.value))
  }

  function DecodeAttrs(b: Bytes): (r: Result<Attrs, MetaError>)
    decreases |b|
  {
    if b == [] then Ok([])
    else
      var a :- TakeAttr(b);
      var rest :- DecodeAttrs(b[AttrLength(a)..]);
      Ok([a] + rest)
  }

  lemma AttrTaken(a: Attr, rest: Bytes)
    requires AttrFits(a)
    ensures TakeAttr(EncodeAttr(a) + rest) == Ok(a) && (EncodeAttr(a) + rest)[AttrLength(a)..] == rest
  {
    hide Var, TakeVar, ValidUtf8;
    Seqs.Associative(Var(a.0), Var(a.1), rest);
    VarTaken(a.0, Var(a.1) + rest);
    VarTaken(a.1, rest);
    Seqs.Parts(EncodeAttr(a), rest);
  }

  lemma AttrOnto(b: Bytes)
    requires TakeAttr(b).Ok?
    ensures var a := TakeAttr(b).value; AttrFits(a) && b == EncodeAttr(a) + b[AttrLength(a)..]
  {
    hide Var, TakeVar, ValidUtf8;
    var a := TakeAttr(b).value;
    VarOnto(b);
    var tail := b[4 + |a.0|..];
    VarOnto(tail);
    Seqs.Associative(Var(a.0), Var(a.1), tail[4 + |a.1|..]);
    assert tail[4 + |a.1|..] == b[AttrLength(a)..];
  }

  lemma {:induction false} AttrsRoundTrip(xs: Attrs)
    requires AttrsFit(xs)
    ensures DecodeAttrs(EncodeAttrs(xs)) == Ok(xs)
  {
    hide TakeAttr, EncodeAttr, AttrFits;
    if xs != [] {
      AttrsRoundTrip(xs[1..]);
      AttrTaken(xs[0], EncodeAttrs(xs[1..]));
      assert xs == [xs[0]] + xs[1..];
    }
  }

  lemma {:induction false} AttrsOnto(b: Bytes)
    requires DecodeAttrs(b).Ok?
    ensures AttrsFit(DecodeAttrs(b).value) && EncodeAttrs(DecodeAttrs(b).value) == b
    decreases |b|
  {
    hide TakeAttr, EncodeAttr, AttrFits;
    if b != [] {
      var a := TakeAttr(b).value;
      AttrsOnto(b[AttrLength(a)..]);
      AttrOnto(b);
      var rest := DecodeAttrs(b[AttrLength(a)..]).value;
      Seqs.TailOfCons(a, rest);
    }
  }

  /** Encoding and decoding are mutual inverses: a byte string decodes to a list exactly when the
      list has valid names and 32-bit lengths and encodes to that string. */
  lemma XattrCodec(xs: Attrs, b: Bytes)
    ensures DecodeAttrs(b) == Ok(xs) <==> AttrsFit(xs) && EncodeAttrs(xs) == b
  {
    hide DecodeAttrs, EncodeAttrs;
    if DecodeAttrs(b) == Ok(xs) { AttrsOnto(b); }
    if AttrsFit(xs) && EncodeAttrs(xs) == b { AttrsRoundTrip(xs); }
  }

  lemma {:induction false} EncodeAttrsSnoc(xs: Attrs, a: Attr)
    ensures EncodeAttrs(xs + [a]) == EncodeAttrs(xs) + EncodeAttr(a)
  {
    hide EncodeAttr;
    if xs == [] {
      assert [a] + [] == [a] && ([] + [a])[1..] == [];
      Seqs.Units(EncodeAttr(a));
    } else {
      EncodeAttrsSnoc(xs[1..], a);
      Seqs.TailOfAppend(xs, [a]);
      Seqs.Associative(EncodeAttr(xs[0]), EncodeAttrs(xs[1..]), EncodeAttr(a));
    }
  }

  /** `serialize_xattrs`. */
  method SerializeXattrs(xs: Attrs) returns (b: Bytes)
    ensures b == EncodeAttrs(xs)
  {
    b := [];
    for i := 0 to |xs|
      invariant b == EncodeAttrs(xs[..i])
    {
      Seqs.PrefixSnoc(xs, i);
      EncodeAttrsSnoc(xs[..i], xs[i]);
      b := b + EncodeAttr(xs[i]);
    }
    Seqs.Units(xs);
  }

  /** Entries already read, in front of what the rest decodes to. */
  ghost function After(done: Attrs, r: Result<Attrs, MetaError>): (s: Result<Attrs, MetaError>) {
    if r.Ok? then Ok(done + r.value) else r
  }

  lemma AfterStep(b: Bytes, i: nat, done: Attrs)
    requires i < |b|
    ensures TakeAttr(b[i..]).Err? ==> After(done, DecodeAttrs(b[i..])) == Err(TakeAttr(b[i..]).error)
    ensures TakeAttr(b[i..]).Ok? ==>
              var a := TakeAttr(b[i..]).value;
              After(done, DecodeAttrs(b[i..])) == After(done + [a], DecodeAttrs(b[i + AttrLength(a)..]))
  {
    hide TakeAttr;
    if TakeAttr(b[i..]).Ok? {
      var a := TakeAttr(b[i..]).value;
      assert b[i..][AttrLength(a)..] == b[i + AttrLength(a)..];
      var rest := DecodeAttrs(b[i + AttrLength(a)..]);
      if rest.Ok? { Seqs.Associative(done, [a], rest.value); }
    }
  }

  lemma AfterEnds(b: Bytes, done: Attrs)
    ensures DecodeAttrs(b) == After([], DecodeAttrs(b[0..])) && After(done, DecodeAttrs(b[|b|..])) == Ok(done)
  {
    Seqs.Units(b);
    Seqs.Units(done);
    if DecodeAttrs(b).Ok? { Seqs.Units(DecodeAttrs(b).value); }
    assert b[|b|..] == [];
  }

  /** `deserialize_xattrs`: a cursor over the bytes. */
  method DeserializeXattrs(b: Bytes) returns (r: Result<Attrs, MetaError>)
    ensures r == DecodeAttrs(b)
  {
    hide DecodeAttrs, TakeAttr, After;
    var result: Attrs := [];
    var i := 0;
    AfterEnds(b, []);
    while i < |b|
      invariant 0 <= i <= |b|
      invariant DecodeAttrs(b) == After(result, DecodeAttrs(b[i..]))
      decreases |b| - i
    {
      AfterStep(b, i, result);
      var a := TakeAttr(b[i..]);
      if a.Err? { return Err(a.error); }
      result := result + [a.value];
      i := i + AttrLength(a.value);
    }
    AfterEnds(b, result);
    return Ok(result);
  }

  // ---------------------------------------------------------------- the list as a map

  ghost predicate Unique(xs: Attrs) {
    forall i, j :: 0 <= i < j < |xs| ==> xs[i].0 != xs[j].0
  }

  /** The first entry with name `n`, or the length of the list. */
  function IndexOf(xs: Attrs, n: Name): (k: nat)
    ensures k <= |xs| && (k < |xs| ==> xs[k].0 == n)
    ensures forall j :: 0 <= j < k ==> xs[j].0 != n
  {
    if xs == [] || xs[0].0 == n then 0 else 1 + IndexOf(xs[1..], n)
  }

  ghost function Names(xs: Attrs): (ns: set<Name>) {
    set i | 0 <= i < |xs| :: xs[i].0
  }

  ghost function AsMap(xs: Attrs): (m: map<Name, Bytes>) {
    map n | n in Names(xs) :: Value(xs, n)
  }

  ghost function Value(xs: Attrs, n: Name): (v: Bytes) {
    if IndexOf(xs, n) < |xs| then xs[IndexOf(xs, n)].1 else []
  }

  lemma InNames(xs: Attrs, n: Name)
    ensures n in Names(xs) <==> IndexOf(xs, n) < |xs|
  {
  }

  function SetAttr(xs: Attrs, n: Name, v: Bytes): (r: Attrs) {
    var k := IndexOf(xs, n);
    if k < |xs| then xs[k := (n, v)] else xs + [(n, v)]
  }

  function GetAttr(xs: Attrs, n: Name): (v: Option<Bytes>) {
    var k := IndexOf(xs, n);
    if k < |xs| then Some(xs[k].1) else None
  }

  function Retain(xs: Attrs, n: Name): (r: Attrs)
    ensures |r| <= |xs|
  {
    if xs == [] then [] else (if xs[0].0 == n then [] else [xs[0]]) + Retain(xs[1..], n)
  }

  lemma IndexIs(xs: Attrs, n: Name, k: nat)
    requires k <= |xs| && (k < |xs| ==> xs[k].0 == n) && forall j :: 0 <= j < k ==> xs[j].0 != n
    ensures IndexOf(xs, n) == k
  {
    var i := IndexOf(xs, n);
    assert k <= i && i <= k;
  }

  lemma SetIndex(xs: Attrs, n: Name, v: Bytes, m: Name)
    ensures var r := SetAttr(xs, n, v);
            if m == n then IndexOf(r, m) < |r| && Value(r, m) == v
            else (IndexOf(r, m) < |r| <==> IndexOf(xs, m) < |xs|) && Value(r, m) == Value(xs, m)
  {
    var r, k := SetAttr(xs, n, v), IndexOf(xs, n);
    var i := if m == n then k else IndexOf(xs, m);
    hide IndexOf;
    IndexIs(r, m, if i < |xs| || m == n then i else |r|);
  }

  lemma SetUnique(xs: Attrs, n: Name, v: Bytes)
    requires Unique(xs)
    ensures Unique(SetAttr(xs, n, v))
  {
    hide IndexOf;
  }

  /** Setting an attribute is a map update; it never repeats a name. */
  lemma SetRefinesMap(xs: Attrs, n: Name, v: Bytes)
    ensures AsMap(SetAttr(xs, n, v)) == AsMap(xs)[n := v]
    ensures Unique(xs) ==> Unique(SetAttr(xs, n, v))
  {
    hide IndexOf, SetAttr, Names, Value, Unique;
    var r := SetAttr(xs, n, v);
    forall m ensures (m in AsMap(r) <==> m in AsMap(xs)[n := v])
                     && (m in AsMap(r) ==> AsMap(r)[m] == AsMap(xs)[n := v][m])
    {
      InNames(r, m);
      InNames(xs, m);
      SetIndex(xs, n, v, m);
    }
    if Unique(xs) { SetUnique(xs, n, v); }
  }

  /** Getting an attribute is a map lookup. */
  lemma GetRefinesMap(xs: Attrs, n: Name)
    ensures GetAttr(xs, n) == if n in AsMap(xs) then Some(AsMap(xs)[n]) else None
  {
    InNames(xs, n);
  }

  lemma IndexCons(x: Attr, r: Attrs, m: Name)
    ensures IndexOf([x] + r, m) == if x.0 == m then 0 else 1 + IndexOf(r, m)
    ensures Value([x] + r, m) == if x.0 == m then x.1 else Value(r, m)
  {
    Seqs.TailOfCons(x, r);
  }

  lemma {:induction false} RetainFits(xs: Attrs, n: Name)
    requires AttrsFit(xs)
    ensures AttrsFit(Retain(xs, n))
  {
    hide AttrFits;
    if xs != [] {
      RetainFits(xs[1..], n);
    }
  }

  lemma RetainCons(x: Attr, r: Attrs, n: Name)
    ensures Retain([x] + r, n) == if x.0 == n then Retain(r, n) else [x] + Retain(r, n)
  {
    Seqs.TailOfCons(x, r);
    Seqs.Units(Retain(r, n));
  }

  lemma {:induction false} RetainIndex(xs: Attrs, n: Name, m: Name)
    ensures m == n ==> IndexOf(Retain(xs, n), m) == |Retain(xs, n)|
    ensures m != n ==> (IndexOf(Retain(xs, n), m) < |Retain(xs, n)| <==> IndexOf(xs, m) < |xs|)
    ensures m != n ==> Value(Retain(xs, n), m) == Value(xs, m)
  {
    if xs != [] {
      hide IndexOf, Retain, Value;
      var x, r := xs[0], xs[1..];
      RetainIndex(r, n, m);
      assert xs == [x] + r;
      RetainCons(x, r, n);
      IndexCons(x, r, m);
      IndexCons(x, Retain(r, n), m);
    }
  }

  lemma {:induction false} RetainShorter(xs: Attrs, n: Name)
    ensures |Retain(xs, n)| < |xs| <==> IndexOf(xs, n) < |xs|
  {
    if xs != [] { RetainShorter(xs[1..], n); }
  }

  lemma {:induction false} RetainNames(xs: Attrs, n: Name)
    ensures forall i :: 0 <= i < |Retain(xs, n)| ==> exists j :: 0 <= j < |xs| && xs[j] == Retain(xs, n)[i]
  {
    if xs != [] {
      RetainNames(xs[1..], n);
      var r := Retain(xs[1..], n);
      forall i | 0 <= i < |Retain(xs, n)| ensures exists j :: 0 <= j < |xs| && xs[j] == Retain(xs, n)[i] {
        if xs[0].0 != n && i == 0 {
          assert xs[0] == Retain(xs, n)[0];
        } else {
          var i' := if xs[0].0 == n then i else i - 1;
          assert Retain(xs, n)[i] == r[i'];
          var j :| 0 <= j < |xs[1..]| && xs[1..][j] == r[i'];
          assert xs[j + 1] == r[i'];
        }
      }
    } else {
      assert Retain(xs, n) == [];
    }
  }

  lemma {:induction false} RetainUnique(xs: Attrs, n: Name)
    requires Unique(xs)
    ensures Unique(Retain(xs, n))
  {
    if xs != [] {
      assert Unique(xs[1..]);
      RetainUnique(xs[1..], n);
      var r := Retain(xs[1..], n);
      RetainNames(xs[1..], n);
      forall i | 0 <= i < |r| ensures xs[0].0 != r[i].0 {
        var j :| 0 <= j < |xs[1..]| && xs[1..][j] == r[i];
        assert xs[j + 1] == r[i];
      }
    }
  }

  /** Removing an attribute removes its name from the map, and tells whether it was there. */
  lemma RemoveRefinesMap(xs: Attrs, n: Name)
    ensures AsMap(Retain(xs, n)) == AsMap(xs) - {n}
    ensures |Retain(xs, n)| < |xs| <==> n in AsMap(xs)
    ensures Unique(xs) ==> Unique(Retain(xs, n))
  {
    var r := Retain(xs, n);
    forall m ensures (m in AsMap(r) <==> m in AsMap(xs) - {n}) && (m in AsMap(r) ==> AsMap(r)[m] == AsMap(xs)[m]) {
      InNames(r, m);
      InNames(xs, m);
      RetainIndex(xs, n, m);
    }
    InNames(xs, n);
    RetainShorter(xs, n);
    if Unique(xs) { RetainUnique(xs, n); }
  }

  /** `set_xattr_entry`: replaces in place, or appends. */
  method SetXattrEntry(xs: Attrs, n: Name, v: Bytes) returns (r: Attrs)
    ensures r == SetAttr(xs, n, v)
  {
    var k := FindAttr(xs, n);
    if k < |xs| { r := xs[k := (n, v)]; } else { r := xs + [(n, v)]; }
  }

  method FindAttr(xs: Attrs, n: Name) returns (k: nat)
    ensures k == IndexOf(xs, n)
  {
    k := 0;
    while k < |xs| && xs[k].0 != n
      invariant k <= |xs| && forall j :: 0 <= j < k ==> xs[j].0 != n
    {
      k := k + 1;
    }
    IndexIs(xs, n, k);
  }

  /** `remove_xattr_entry`. */
  method RemoveXattrEntry(xs: Attrs, n: Name) returns (r: Attrs, removed: bool)
    ensures r == Retain(xs, n) && (removed <==> |r| < |xs|)
  {
    r := [];
    Seqs.Units(xs);
    Seqs.Units(Retain(xs, n));
    for i := 0 to |xs|
      invariant r + Retain(xs[i..], n) == Retain(xs, n)
    {
      assert xs[i..][1..] == xs[i + 1..];
      Seqs.Associative(r, [xs[i]], Retain(xs[i + 1..], n));
      if xs[i].0 != n { r := r + [xs[i]]; }
    }
    assert xs[|xs|..] == [];
    removed := |r| < |xs|;
  }

  /** `list_xattr_names`: each name of the map, once. */
  function ListNames(xs: Attrs): (ns: seq<Name>)
    ensures |ns| == |xs| && forall i :: 0 <= i < |xs| ==> ns[i] == xs[i].0
  {
    seq(|xs|, i requires 0 <= i < |xs| => xs[i].0)
  }

  lemma NamesListed(xs: Attrs)
    requires Unique(xs)
    ensures forall n :: n in ListNames(xs) <==> n in AsMap(xs)
    ensures forall i, j :: 0 <= i < j < |xs| ==> ListNames(xs)[i] != ListNames(xs)[j]
  {
    forall n ensures n in ListNames(xs) <==> n in AsMap(xs) {
      if n in ListNames(xs) {
        var i :| 0 <= i < |xs| && ListNames(xs)[i] == n;
        assert xs[i].0 in Names(xs);
      }
      if n in AsMap(xs) {
        InNames(xs, n);
        assert ListNames(xs)[IndexOf(xs, n)] == n;
      }
    }
  }
}
