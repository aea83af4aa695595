/** The content-addressed blob store, as the interface of the block engine promises it: bytes are
    pushed and later fetched by their digest. The hash is a parameter; that two different byte
    strings of one run never share a digest is stated where a theorem needs it. */
module Cas {
  import opened ByteCodec

  type Blobs = map<Digest, Bytes>
  type Hash = Bytes -> Digest

  /** Pushing a byte string writes the file its digest names. */
  function Put(h: Hash, blobs: Blobs, b: Bytes): (r: Blobs) {
    blobs[h(b) := b]
  }

  /** The string is fetched back by its digest. */
  ghost predicate Has(h: Hash, blobs: Blobs, b: Bytes) {
    h(b) in blobs && blobs[h(b)] == b
  }

  /** Pushing `b` overwrites nothing that differs from it. */
  ghost predicate NoClash(h: Hash, blobs: Blobs, b: Bytes) {
    h(b) in blobs ==> blobs[h(b)] == b
  }

  /** Nothing stored in `a` is lost or changed in `b`. */
  ghost predicate Grows(a: Blobs, b: Blobs) {
    forall d :: d in a ==> d in b && b[d] == a[d]
  }

  /** The store only grows exactly as long as digests do not clash. */
  lemma PutGrowsIff(h: Hash, blobs: Blobs, b: Bytes)
    ensures Has(h, Put(h, blobs, b), b)
    ensures Grows(blobs, Put(h, blobs, b)) <==> NoClash(h, blobs, b)
  {
    if !NoClash(h, blobs, b) {
      assert h(b) in blobs && Put(h, blobs, b)[h(b)] != blobs[h(b)];
    }
  }

  lemma GrowsTransitive(a: Blobs, b: Blobs, c: Blobs)
    requires Grows(a, b) && Grows(b, c)
    ensures Grows(a, c)
  {
  }

  lemma HasGrows(h: Hash, a: Blobs, b: Blobs, s: Bytes)
    requires Has(h, a, s) && Grows(a, b)
    ensures Has(h, b, s)
  {
  }

  // ------------------------------------------------------------- pushes in order

  /** The store after pushing `ss` one after the other. */
  function PutAll(h: Hash, blobs: Blobs, ss: seq<Bytes>): (r: Blobs) {
    if ss == [] then blobs else Put(h, PutAll(h, blobs, ss[..|ss| - 1]), ss[|ss| - 1])
  }

  /** None of these pushes, made in order, overwrites bytes that differ from its own. */
  ghost predicate Clean(h: Hash, blobs: Blobs, ss: seq<Bytes>) {
    ss == [] || (Clean(h, blobs, ss[..|ss| - 1]) && NoClash(h, PutAll(h, blobs, ss[..|ss| - 1]), ss[|ss| - 1]))
  }

  lemma OneMore(h: Hash, blobs: Blobs, ss: seq<Bytes>, b: Bytes)
    ensures PutAll(h, blobs, ss + [b]) == Put(h, PutAll(h, blobs, ss), b)
    ensures Clean(h, blobs, ss + [b]) <==> Clean(h, blobs, ss) && NoClash(h, PutAll(h, blobs, ss), b)
  {
    assert (ss + [b])[..|ss|] == ss;
  }

  lemma {:induction false} SomeMore(h: Hash, blobs: Blobs, ss: seq<Bytes>, more: seq<Bytes>)
    ensures PutAll(h, blobs, ss + more) == PutAll(h, PutAll(h, blobs, ss), more)
    ensures Clean(h, blobs, ss + more) <==> Clean(h, blobs, ss) && Clean(h, PutAll(h, blobs, ss), more)
  {
    if more == [] {
      assert ss + more == ss;
    } else {
      var front, b := more[..|more| - 1], more[|more| - 1];
      SomeMore(h, blobs, ss, front);
      OneMore(h, blobs, ss + front, b);
      assert ss + more == ss + front + [b];
    }
  }

  /** Clean pushes lose nothing, and each of their strings is there at the end. */
  lemma {:induction false} CleanGrows(h: Hash, blobs: Blobs, ss: seq<Bytes>)
    requires Clean(h, blobs, ss)
    ensures Grows(blobs, PutAll(h, blobs, ss)) && forall k :: 0 <= k < |ss| ==> Has(h, PutAll(h, blobs, ss), ss[k])
  {
    if ss != [] {
      var front := ss[..|ss| - 1];
      CleanGrows(h, blobs, front);
      PutGrowsIff(h, PutAll(h, blobs, front), ss[|ss| - 1]);
      forall k | 0 <= k < |ss| ensures Has(h, PutAll(h, blobs, ss), ss[k]) {
        if k < |front| { assert Has(h, PutAll(h, blobs, front), front[k]); }
      }
    }
  }

  /** Every string is stored under its own digest. */
  ghost predicate SelfNamed(h: Hash, blobs: Blobs) {
    forall d :: d in blobs ==> h(blobs[d]) == d
  }

  /** Pushes that are not clean exhibit two different strings with one digest. */
  lemma {:induction false} UncleanIsCollision(h: Hash, blobs: Blobs, ss: seq<Bytes>)
    requires SelfNamed(h, blobs)
    ensures SelfNamed(h, PutAll(h, blobs, ss))
    ensures !Clean(h, blobs, ss) ==> exists a: Bytes, b: Bytes :: a != b && h(a) == h(b)
  {
    if ss != [] {
      var front, b := ss[..|ss| - 1], ss[|ss| - 1];
      UncleanIsCollision(h, blobs, front);
      var before := PutAll(h, blobs, front);
      if !NoClash(h, before, b) { assert before[h(b)] != b && h(before[h(b)]) == h(b); }
    }
  }
}
