/** Where an encoding occurs in a byte string, and what the decoding specification reads there:
    the facts the round-trip proofs are assembled from. */
module Occurrence {
  import opened Binary
  import opened Results
  import opened Values
  import opened Decoding

  /** `bytes` occurs in `data` at `off`. */
  predicate At(data: seq<byte>, off: nat, bytes: seq<byte>)
  {
    off + |bytes| <= |data| && data[off..off + |bytes|] == bytes
  }

  /** Bytes that occur at `off` are the slice of `data` there. */
  lemma {:induction false} SliceAt(data: seq<byte>, off: nat, bytes: seq<byte>)
    requires At(data, off, bytes)
    ensures off + |bytes| <= |data| && data[off..off + |bytes|] == bytes
  {
  }

  /** Bytes that occur at `off` in two pieces: the first piece at `off`, the second right
      after it. */
  lemma {:induction false} AtConcat(data: seq<byte>, off: nat, a: seq<byte>, b: seq<byte>)
    requires At(data, off, a + b)
    ensures At(data, off, a) && At(data, off + |a|, b)
  {
    var s := a + b;
    forall i | 0 <= i < |a|
      ensures data[off..off + |a|][i] == a[i]
    {
      assert data[off..off + |s|][i] == s[i];
    }
    forall i | 0 <= i < |b|
      ensures data[off + |a|..off + |a| + |b|][i] == b[i]
    {
      assert data[off..off + |s|][|a| + i] == s[|a| + i];
    }
  }

  /** The bytes `enc` read back as `v` wherever they occur in `data`, and the reader ends
      just after them. */
  ghost predicate Decodes(data: seq<byte>, enc: seq<byte>, v: Value, variant: Variant)
  {
    forall off: nat {:trigger At(data, off, enc)} :: At(data, off, enc) ==> ReadsAs(data, off, variant, v, off + |enc|)
  }

  /** Each of the encodings reads back as the value at the same place. */
  ghost predicate AllDecode(data: seq<byte>, encs: seq<seq<byte>>, vals: seq<Value>, variant: Variant)
    decreases |encs|
  {
    |encs| == |vals|
    && (encs == [] || (Decodes(data, encs[0], vals[0], variant) && AllDecode(data, encs[1..], vals[1..], variant)))
  }

  /** Each key encoding reads back as its key and each value encoding as its value. */
  ghost predicate AllEntriesDecode(data: seq<byte>, keys: seq<string>, kencs: seq<seq<byte>>, vals: seq<Value>,
                                   vencs: seq<seq<byte>>, variant: Variant)
    decreases |keys|
  {
    |kencs| == |keys| && |vals| == |keys| && |vencs| == |keys|
    && (keys == []
        || (Decodes(data, kencs[0], Text(keys[0]), variant) && Decodes(data, vencs[0], vals[0], variant)
            && AllEntriesDecode(data, keys[1..], kencs[1..], vals[1..], vencs[1..], variant)))
  }

  /** Where `enc` occurs, the reader reads `v` and ends at `next`, just after it. */
  lemma {:induction false} UseDecodes(data: seq<byte>, enc: seq<byte>, v: Value, variant: Variant, off: nat, next: nat)
    requires Decodes(data, enc, v, variant) && At(data, off, enc) && next == off + |enc|
    ensures ReadsAs(data, off, variant, v, next)
  {
  }

  /** A reading restated with equal values and an equal end is the same reading. */
  lemma {:induction false} SameReading(data: seq<byte>, off: nat, variant: Variant, v: Value, next: nat,
                                       w: Value, end: nat)
    requires ReadsAs(data, off, variant, v, next) && v == w && next == end
    ensures ReadsAs(data, off, variant, w, end)
  {
  }
}
