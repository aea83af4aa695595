/** Byte strings with a 32-bit length in front. */
module VarBytes {
  import opened ByteCodec
  import Seqs

  function Var(x: Bytes): (b: Bytes)
    ensures |b| == 4 + |x|
  {
    U32Bytes(AsU32(|x|)) + x
  }

  function TakeVar(b: Bytes): (x: Option<Bytes>)
    ensures x.Some? ==> 4 + |x.value| <= |b|
  {
    if |b| < 4 then None
    else
      var n: int := ReadU32(b[..4]);
      if 4 + n > |b| then None else Some(b[4..4 + n])
  }

  lemma VarTaken(x: Bytes, rest: Bytes)
    requires |x| < U32_LIMIT
    ensures TakeVar(Var(x) + rest) == Some(x) && (Var(x) + rest)[4 + |x|..] == rest
  {
    hide U32Bytes, ReadU32;
    var n := U32Bytes(AsU32(|x|));
    U32RoundTrip(|x|);
    Seqs.Associative(n, x, rest);
    Seqs.Parts(n, x + rest);
    Seqs.Parts(n + x, rest);
    assert (n + (x + rest))[4..4 + |x|] == x;
  }

  lemma VarOnto(b: Bytes)
    requires TakeVar(b).Some?
    ensures var x := TakeVar(b).value; |x| < U32_LIMIT && b == Var(x) + b[4 + |x|..]
  {
    hide U32Bytes, ReadU32;
    var x := TakeVar(b).value;
    U32Onto(b[..4]);
    assert b == b[..4] + x + b[4 + |x|..];
  }
}
