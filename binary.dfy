/** Bytes, big-endian unsigned integers and chunk sequences: the building blocks shared by
    the encoder (its DataView writers) and the decoders (their DataView readers and chunk queues). */
module Binary {

  /** An octet, as held in a Uint8Array. */
  type byte = x: int | 0 <= x < 256

  /** 256 to the power n: one more than the largest value that fits in n bytes. */
  function Pow256(n: nat): (r: nat)
    ensures r >= 1
    ensures n > 0 ==> r >= 256
  {
    if n == 0 then 1 else 256 * Pow256(n - 1)
  }

  /** The `width` low-order bytes of `n`, most significant first. This is what DataView's
      big-endian setUint8/16/32 and setBigUint64 store: the value reduced modulo 2^(8*width). */
  function BigEndian(n: nat, width: nat): (r: seq<byte>)
    ensures |r| == width
  {
    if width == 0 then [] else BigEndian(n / 256, width - 1) + [n % 256]
  }

  /** The unsigned number whose big-endian form is `s` (DataView's getUint8/16/32, getBigUint64). */
  function FromBigEndian(s: seq<byte>): (r: nat)
    ensures r < Pow256(|s|)
  {
    if s == [] then 0 else FromBigEndian(s[..|s| - 1]) * 256 + s[|s| - 1]
  }

  /** Reading back what was written gives the number, when it fits in the width. */
  lemma {:induction false} FromToBigEndian(n: nat, width: nat)
    requires n < Pow256(width)
    ensures FromBigEndian(BigEndian(n, width)) == n
  {
    if width > 0 {
      var s := BigEndian(n, width);
      assert s[..|s| - 1] == BigEndian(n / 256, width - 1);
      FromToBigEndian(n / 256, width - 1);
    }
  }

  /** Writing back what was read gives the same bytes. */
  lemma {:induction false} ToFromBigEndian(s: seq<byte>)
    ensures BigEndian(FromBigEndian(s), |s|) == s
  {
    if s != [] {
      var p := s[..|s| - 1];
      var n := FromBigEndian(s);
      assert n / 256 == FromBigEndian(p) && n % 256 == s[|s| - 1];
      ToFromBigEndian(p);
      assert s == p + [s[|s| - 1]];
    }
  }

  /** The bytes of a sequence of chunks, one after the other. */
  function Flatten(chunks: seq<seq<byte>>): (r: seq<byte>)
  {
    if chunks == [] then [] else chunks[0] + Flatten(chunks[1..])
  }

  lemma {:induction false} FlattenConcat(a: seq<seq<byte>>, b: seq<seq<byte>>)
    ensures Flatten(a + b) == Flatten(a) + Flatten(b)
  {
    if a == [] {
      assert a + b == b;
    } else {
      assert (a + b)[0] == a[0];
      assert (a + b)[1..] == a[1..] + b;
      FlattenConcat(a[1..], b);
    }
  }

  lemma FlattenOne(c: seq<byte>)
    ensures Flatten([c]) == c
  {
    assert [c][1..] == [];
  }

  /** `n` zero bytes: the initial contents of a freshly allocated Uint8Array. */
  function Zeros(n: nat): (r: seq<byte>)
    ensures |r| == n && forall i :: 0 <= i < n ==> r[i] == 0
  {
    seq(n, _ => 0)
  }

  function Min(a: int, b: int): int { if a < b then a else b }
  function Max(a: int, b: int): int { if a < b then b else a }
}
