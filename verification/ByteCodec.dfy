/** Bytes, fixed-width little-endian integers and 224-bit digests, as every on-disk
    format of the store writes them. */
module ByteCodec {

  datatype Option<+T> = None | Some(value: T)

  datatype Result<+T, +E> = Ok(value: T) | Err(error: E) {

    predicate IsFailure() { Err? }

    function PropagateFailure<U>(): (r: Result<U, E>)
      requires Err?
    {
      Err(error)
    }

    function Extract(): (v: T)
      requires Ok?
    {
      value
    }
  }

  type byte = x: int | 0 <= x < 256
  type Bytes = seq<byte>

  const U32_LIMIT: nat := 0x1_0000_0000
  const U64_LIMIT: nat := 0x1_0000_0000_0000_0000
  const DIGEST_LIMIT: nat := 0x1_00000000_00000000_00000000_00000000_00000000_00000000_00000000

  type u32 = x: int | 0 <= x < U32_LIMIT
  type u64 = x: int | 0 <= x < U64_LIMIT

  /** A `Digest224`: its seven 32-bit words read as one number, most significant word
      first, so that the array order of the words is the numeric order. */
  type Digest = x: int | 0 <= x < DIGEST_LIMIT

  function Pow256(n: nat): (r: nat)
    ensures r > 0
  {
    if n == 0 then 1 else 256 * Pow256(n - 1)
  }

  /** The low `n` bytes of `x`, least significant first (`to_le_bytes`). */
  function Le(n: nat, x: nat): (b: Bytes)
    ensures |b| == n
  {
    if n == 0 then [] else [x % 256] + Le(n - 1, x / 256)
  }

  /** The number a little-endian byte string stands for (`from_le_bytes`). */
  function FromLe(b: Bytes): (x: nat)
    ensures x < Pow256(|b|)
  {
    if b == [] then 0 else b[0] + 256 * FromLe(b[1..])
  }

  lemma {:induction false} FromLeOfLe(n: nat, x: nat)
    requires x < Pow256(n)
    ensures FromLe(Le(n, x)) == x
  {
    if n > 0 {
      FromLeOfLe(n - 1, x / 256);
      assert Le(n, x)[1..] == Le(n - 1, x / 256);
    }
  }

  lemma {:induction false} LeOfFromLe(b: Bytes)
    ensures Le(|b|, FromLe(b)) == b
  {
    if b != [] {
      LeOfFromLe(b[1..]);
      assert FromLe(b) % 256 == b[0] && FromLe(b) / 256 == FromLe(b[1..]);
    }
  }

  lemma Pow256Widths()
    ensures Pow256(4) == U32_LIMIT
    ensures Pow256(8) == U64_LIMIT
  {
    assert Pow256(2) == 0x1_0000;
    assert Pow256(4) == 256 * (256 * Pow256(2));
    assert Pow256(6) == 256 * (256 * Pow256(4));
    assert Pow256(8) == 256 * (256 * Pow256(6));
  }

  function U32Bytes(x: u32): (b: Bytes)
    ensures |b| == 4
  {
    Le(4, x)
  }

  function U64Bytes(x: u64): (b: Bytes)
    ensures |b| == 8
  {
    Le(8, x)
  }

  function ReadU32(b: Bytes): (x: u32)
    requires |b| == 4
  {
    Pow256Widths();
    FromLe(b)
  }

  function ReadU64(b: Bytes): (x: u64)
    requires |b| == 8
  {
    Pow256Widths();
    FromLe(b)
  }

  lemma U32RoundTrip(x: u32)
    ensures ReadU32(U32Bytes(x)) == x
  {
    Pow256Widths();
    FromLeOfLe(4, x);
  }

  lemma U64RoundTrip(x: u64)
    ensures ReadU64(U64Bytes(x)) == x
  {
    Pow256Widths();
    FromLeOfLe(8, x);
  }

  lemma U32Onto(b: Bytes)
    requires |b| == 4
    ensures U32Bytes(ReadU32(b)) == b
  {
    LeOfFromLe(b);
  }

  /** The value of a 32-bit `as u32` cast. */
  function AsU32(x: nat): (r: u32)
  {
    x % U32_LIMIT
  }

  // Digests: the last `n` words of `d`, each little-endian.
  function WordBytes(n: nat, d: nat): (b: Bytes)
    ensures |b| == 4 * n
  {
    if n == 0 then [] else WordBytes(n - 1, d / U32_LIMIT) + U32Bytes(d % U32_LIMIT)
  }

  function FromWords(b: Bytes): (d: nat)
  {
    if |b| < 4 then 0 else FromWords(b[..|b| - 4]) * U32_LIMIT + ReadU32(b[|b| - 4..])
  }

  function PowWord(n: nat): (r: nat)
    ensures r > 0
  {
    if n == 0 then 1 else U32_LIMIT * PowWord(n - 1)
  }

  lemma {:induction false} FromWordsOfWordBytes(n: nat, d: nat)
    requires d < PowWord(n)
    ensures FromWords(WordBytes(n, d)) == d
  {
    if n > 0 {
      FromWordsOfWordBytes(n - 1, d / U32_LIMIT);
      U32RoundTrip(d % U32_LIMIT);
      var b := WordBytes(n, d);
      assert b[..|b| - 4] == WordBytes(n - 1, d / U32_LIMIT);
      assert b[|b| - 4..] == U32Bytes(d % U32_LIMIT);
    }
  }

  lemma WordSplit(high: nat, low: u32)
    ensures (high * U32_LIMIT + low) / U32_LIMIT == high && (high * U32_LIMIT + low) % U32_LIMIT == low
  {
  }

  lemma {:induction false} WordBytesOfFromWords(b: Bytes, n: nat)
    requires |b| == 4 * n
    ensures FromWords(b) < PowWord(n)
    ensures WordBytes(n, FromWords(b)) == b
  {
    if n > 0 {
      var front, last := b[..|b| - 4], b[|b| - 4..];
      WordBytesOfFromWords(front, n - 1);
      U32Onto(last);
      WordSplit(FromWords(front), ReadU32(last));
      assert front + last == b;
    }
  }

  lemma PowWordDigest()
    ensures PowWord(7) == DIGEST_LIMIT
  {
    assert PowWord(1) == U32_LIMIT;
    assert PowWord(3) == U32_LIMIT * (U32_LIMIT * PowWord(1));
    assert PowWord(5) == U32_LIMIT * (U32_LIMIT * PowWord(3));
    assert PowWord(7) == U32_LIMIT * (U32_LIMIT * PowWord(5));
  }

  /** A digest on disk: 28 bytes, seven little-endian words. */
  function DigestBytes(d: Digest): (b: Bytes)
    ensures |b| == 28
  {
    WordBytes(7, d)
  }

  function ReadDigest(b: Bytes): (d: Digest)
    requires |b| == 28
  {
    WordBytesOfFromWords(b, 7);
    PowWordDigest();
    FromWords(b)
  }

  lemma DigestRoundTrip(d: Digest)
    ensures ReadDigest(DigestBytes(d)) == d
  {
    PowWordDigest();
    FromWordsOfWordBytes(7, d);
  }

  lemma DigestOnto(b: Bytes)
    requires |b| == 28
    ensures DigestBytes(ReadDigest(b)) == b
  {
    WordBytesOfFromWords(b, 7);
  }
}
