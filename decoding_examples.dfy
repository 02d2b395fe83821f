/** Inputs on which the decoders part ways: what the older decode.ts decoder does differently
    from the Decoder class, and the items every decoder refuses. */
module DecodingExamples {
  import opened Binary
  import opened Results
  import opened Values
  import opened Decoding
  import Unicode

  /** An unsigned integer with an 8-byte argument: the Decoder class reads it and moves past
      all nine bytes; the older decoder reads the same number but moves on by two, so the
      next read starts inside the argument. */
  lemma EightByteArgument(data: seq<byte>, off: nat)
    requires off + 9 <= |data| && data[off] == 0x1B
    requires FromBigEndian(data[off + 1..off + 9]) <= MaxSafeInteger
    ensures Item(data, off, Buffered) == Ok((Int(FromBigEndian(data[off + 1..off + 9])), off + 9))
    ensures Item(data, off, Lossy) == Ok((Int(FromBigEndian(data[off + 1..off + 9])), off + 2))
  {
  }

  /** The list [2^32, 1], 82 1B 00 00 00 01 00 00 00 00 01: the older decoder reads its second
      element from the argument of the first and yields [2^32, 0], where the Decoder class
      yields [2^32, 1]. */
  lemma LossyListMisread(data: seq<byte>)
    requires data == [0x82, 0x1B, 0, 0, 0, 1, 0, 0, 0, 0, 0x01]
    ensures Item(data, 0, Buffered) == Ok((Array([Int(0x1_0000_0000), Int(1)]), 11))
    ensures Item(data, 0, Lossy) == Ok((Array([Int(0x1_0000_0000), Int(0)]), 4))
  {
    var n, pair, misread := 0x1_0000_0000, [Int(0x1_0000_0000), Int(1)], [Int(0x1_0000_0000), Int(0)];
    assert data[2..10] == BigEndian(n, 8);
    FromToBigEndian(n, 8);
    assert data[0] / 32 == 4 && data[0] % 32 == 2 && data[1] / 32 == 0 && data[1] % 32 == 27;
    assert data[3] / 32 == 0 && data[3] % 32 == 0 && data[10] / 32 == 0 && data[10] % 32 == 1;
    // The Decoder class: 2^32 from bytes 1 to 9, then 1 from byte 10.
    assert ReadArgument(data, 2, 27, Buffered) == Ok((n, 10));
    UnsignedItem(data, 1, Buffered, n, 10);
    assert ReadArgument(data, 11, 1, Buffered) == Ok((1, 11));
    UnsignedItem(data, 10, Buffered, 1, 11);
    assert [Int(n)] + [Int(1)] == pair && [] + [Int(n)] == [Int(n)];
    assert ItemsEnd(data, 11, 0, pair, Buffered, Ok((pair, 11)));
    ItemsStep(data, 10, 1, [Int(n)], Buffered, Int(1), 11, 0, Ok((pair, 11)));
    ItemsStep(data, 1, 2, [], Buffered, Int(n), 10, 1, Ok((pair, 11)));
    assert ReadArgument(data, 1, 2, Buffered) == Ok((2, 1));
    ArrayItem(data, 0, Buffered, 2, 1, pair, 11);
    // The older decoder: 2^32 from bytes 1 to 9 but ending at byte 3, then 0 from byte 3.
    assert ReadArgument(data, 2, 27, Lossy) == Ok((n, 3));
    UnsignedItem(data, 1, Lossy, n, 3);
    assert ReadArgument(data, 4, 0, Lossy) == Ok((0, 4));
    UnsignedItem(data, 3, Lossy, 0, 4);
    assert [Int(n)] + [Int(0)] == misread;
    assert ItemsEnd(data, 4, 0, misread, Lossy, Ok((misread, 4)));
    ItemsStep(data, 3, 1, [Int(n)], Lossy, Int(0), 4, 0, Ok((misread, 4)));
    ItemsStep(data, 1, 2, [], Lossy, Int(n), 3, 1, Ok((misread, 4)));
    assert ReadArgument(data, 1, 2, Lossy) == Ok((2, 1));
    ArrayItem(data, 0, Lossy, 2, 1, misread, 4);
  }

  /** The older decoder refuses byte strings (40, the empty one) and undefined (F7), which the
      Decoder class reads. */
  lemma LossyRefusals(empty: seq<byte>, undefined: seq<byte>)
    requires empty == [0x40] && undefined == [0xF7]
    ensures Item(empty, 0, Lossy) == Err(ByteStringsUnsupported) && Item(empty, 0, Buffered) == Ok((Bytes([]), 1))
    ensures Item(undefined, 0, Lossy) == Err(UndefinedUnsupported) && Item(undefined, 0, Buffered) == Ok((Undefined, 1))
  {
    assert Clamp(empty, 1, 0) == [];
  }

  /** 2^53 (1B 00 20 00 00 00 00 00 00) is out of the safe integer range: an UnsafeIntegerError
      for the Decoder class and the chunk decoders, a RangeError for the older decoder. */
  lemma UnsafeIntegerRefused(data: seq<byte>)
    requires data == [0x1B, 0, 0x20, 0, 0, 0, 0, 0, 0]
    ensures Item(data, 0, Buffered) == Err(UnsafeInteger(0x20_0000_0000_0000))
    ensures Item(data, 0, Streaming) == Err(UnsafeInteger(0x20_0000_0000_0000))
    ensures Item(data, 0, Lossy) == Err(IntegerOutOfRange)
  {
    var n := 0x20_0000_0000_0000;
    assert data[1..9] == BigEndian(n, 8);
    FromToBigEndian(n, 8);
    assert data[0] / 32 == 0 && data[0] % 32 == 27;
    assert ReadArgument(data, 1, 27, Buffered) == Ok((n, 9));
    ItemAfterHead(data, 0, Buffered, 0, n, 9);
    assert ReadArgument(data, 1, 27, Streaming) == Ok((n, 9));
    ItemAfterHead(data, 0, Streaming, 0, n, 9);
    assert ReadArgument(data, 1, 27, Lossy) == Ok((n, 2));
    ItemAfterHead(data, 0, Lossy, 0, n, 2);
  }

  /** {1: 1} (A1 01 01): every decoder refuses a key that is not a text string. */
  lemma NonStringKeyRefused(data: seq<byte>, variant: Variant)
    requires data == [0xA1, 0x01, 0x01]
    ensures Item(data, 0, variant) == Err(NonStringKey)
  {
    assert Item(data, 1, variant) == Ok((Int(1), 2));
    assert Entries(data, 1, 1, [], variant) == Err(NonStringKey);
  }

  /** A text string whose bytes run past the end (62 61: two bytes announced, one present):
      the Decoder class decodes what the clamped subarray holds and ends past the data, a
      chunk decoder waits for the rest and reports that the stream ended. */
  lemma TruncatedText(data: seq<byte>)
    requires data == [0x62, 0x61]
    ensures Item(data, 0, Buffered) == Ok((Text(Unicode.TextDecoderDecode([0x61])), 3))
    ensures Item(data, 0, Streaming) == Err(StreamEnded)
  {
    assert Clamp(data, 1, 2) == [0x61];
  }

  /** −2^53 (3B 00 1F FF FF FF FF FF FF, argument 2^53 − 1): the older decoder only checks for
      its Infinity sentinel and returns −2^53, below the safe range; the Decoder class raises
      an UnsafeIntegerError carrying −2^53. */
  lemma LossyAcceptsMinusTwoToThe53(data: seq<byte>)
    requires data == [0x3B, 0, 0x1F, 0xFF, 0xFF, 0xFF, 0xFF, 0xFF, 0xFF]
    ensures Item(data, 0, Lossy) == Ok((Int(-0x20_0000_0000_0000), 2))
    ensures Item(data, 0, Buffered) == Err(UnsafeInteger(-0x20_0000_0000_0000))
  {
    var n := 0x1F_FFFF_FFFF_FFFF;
    assert data[1..9] == BigEndian(n, 8);
    FromToBigEndian(n, 8);
    assert data[0] / 32 == 1 && data[0] % 32 == 27;
    assert ReadArgument(data, 1, 27, Lossy) == Ok((n, 2));
    ItemAfterHead(data, 0, Lossy, 1, n, 2);
    assert ReadArgument(data, 1, 27, Buffered) == Ok((n, 9));
    ItemAfterHead(data, 0, Buffered, 1, n, 9);
  }
}
