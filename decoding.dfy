/** What the three decoders compute, as pure functions of the byte sequence and a position in
    it. The buffered Decoder class, the chunk-queue decoder and the older DecodeState decoder
    (modules BufferedDecoder, ChunkDecoder and LossyDecoder) are each proved to return what
    `Item` returns for their variant and to leave their position where `Item` ends. */
module Decoding {
  import opened Binary
  import opened Results
  import opened Values
  import Header
  import Unicode

  /** The decoder whose policies apply. */
  datatype Variant =
    | Buffered   // the Decoder class over one Uint8Array
    | Streaming  // the Decoder classes over a queue of chunks, synchronous and asynchronous
    | Lossy      // decodeValue over a DecodeState

  /** What a read past the last available byte raises: a RangeError from DataView for the
      buffered decoders, "stream ended prematurely" for the chunk decoders. */
  function Truncated(variant: Variant): Error
  {
    if variant == Streaming then StreamEnded else OutOfBounds
  }

  /** A successful read's value with the position after it removed: what a decoder method
      returns, the position being left in the decoder's state. */
  function Outcome<T(==)>(d: Result<(T, nat)>): (r: Result<T>)
    ensures r.Ok? <==> d.Ok?
  {
    match d
    case Ok((v, _)) => Ok(v)
    case Err(e) => Err(e)
  }

  /** A decoder method that returned `r` and left its position at `position` did what `d`
      says: the same value or error, and on success the position just past what was read. */
  predicate Follows<T(==)>(r: Result<T>, position: nat, d: Result<(T, nat)>)
  {
    r == Outcome(d) && (d.Ok? ==> position == d.value.1)
  }

  /** Reading one byte gives that byte. */
  lemma ReadOneByte(data: seq<byte>, off: nat, variant: Variant)
    requires off < |data|
    ensures ReadUint(data, off, 1, variant) == Ok((data[off] as nat, off + 1))
  {
    var s := data[off..off + 1];
    assert s == [data[off]] && s[..0] == [];
  }

  /** The unsigned integer readers (uint8, uint16, uint32, uint64): `width` big-endian bytes
      at `off`. The older decoder's uint64 moves its offset on by one byte only. */
  function ReadUint(data: seq<byte>, off: nat, width: nat, variant: Variant): (r: Result<(nat, nat)>)
    requires width in {1, 2, 4, 8}
    ensures r.Ok? <==> off + width <= |data|
    ensures r.Ok? ==> r.value.0 < Pow256(width) && off < r.value.1 <= off + width
  {
    if off + width <= |data| then
      Ok((FromBigEndian(data[off..off + width]), off + (if variant == Lossy && width == 8 then 1 else width)))
    else Err(Truncated(variant))
  }

  /** getArgument: additional information below 24 is the argument itself and reads
      nothing; 24 to 27 read a 1, 2, 4 or 8 byte argument; 31 (indefinite length) and 28 to
      30 are errors. */
  function ReadArgument(data: seq<byte>, off: nat, ai: nat, variant: Variant): (r: Result<(nat, nat)>)
    ensures r.Ok? ==> off <= r.value.1 && (r.value.1 > off ==> r.value.1 <= |data|)
  {
    if ai < 24 then Ok((ai, off))
    else if ai == 24 then ReadUint(data, off, 1, variant)
    else if ai == 25 then ReadUint(data, off, 2, variant)
    else if ai == 26 then ReadUint(data, off, 4, variant)
    else if ai == 27 then ReadUint(data, off, 8, variant)
    else if ai == 31 then Err(IndefiniteLength)
    else Err(InvalidArgument)
  }

  /** `data.subarray(off, off + length)`: both ends are clamped to the end of the data. */
  function Clamp(data: seq<byte>, off: nat, length: nat): (r: seq<byte>)
    ensures |r| <= length
    ensures off + length <= |data| ==> r == data[off..off + length]
  {
    data[Min(off, |data|)..Min(off + length, |data|)]
  }

  /** decodeBytes. The buffered decoder allocates `length` zero bytes (a RangeError when the
      length is the Infinity a 64-bit argument beyond 2^53 − 1 becomes), copies in what the
      clamped subarray holds and moves on by `length`; the chunk decoders wait for all
      `length` bytes. */
  function ReadBytes(data: seq<byte>, off: nat, length: nat, variant: Variant): (r: Result<(seq<byte>, nat)>)
    requires variant != Lossy
    ensures r.Ok? ==> |r.value.0| == length && r.value.1 == off + length
    ensures r.Ok? && variant == Streaming ==> off + length <= |data|
  {
    if variant == Buffered then
      if MaxSafeInteger < length then Err(InvalidLength)
      else
        var part := Clamp(data, off, length);
        Ok((part + Zeros(length - |part|), off + length))
    else if off + length <= |data| then Ok((data[off..off + length], off + length))
    else Err(StreamEnded)
  }

  /** decodeString: the UTF-8 text of the next `length` bytes. The buffered decoder decodes
      whatever the clamped subarray holds; the older decoder's DataView and the chunk
      decoders need all `length` bytes. */
  function ReadText(data: seq<byte>, off: nat, length: nat, variant: Variant): (r: Result<(string, nat)>)
    ensures r.Ok? ==> r.value.1 == off + length
    ensures r.Ok? && variant != Buffered ==> off + length <= |data|
  {
    if variant == Buffered then Ok((Unicode.TextDecoderDecode(Clamp(data, off, length)), off + length))
    else if off + length <= |data| then Ok((Unicode.TextDecoderDecode(data[off..off + length]), off + length))
    else Err(Truncated(variant))
  }

  /** float16, float32 and float64: the raw bits of a float of the given width. */
  function ReadFloat(data: seq<byte>, off: nat, width: FloatWidth, variant: Variant): (r: Result<(Value, nat)>)
    ensures r.Ok? ==> r.value.1 == off + FloatSize(width) <= |data|
  {
    var n := FloatSize(width);
    if off + n <= |data| then Ok((Float(FloatBits(width, FromBigEndian(data[off..off + n]))), off + n))
    else Err(Truncated(variant))
  }

  /** Major type 7: false, true, null and undefined at 20 to 23 (undefined is an error for the
      older decoder), a simple value in a following byte at 24, floats at 25 to 27,
      indefinite length at 31, and everything else an invalid simple value. */
  function Simple(data: seq<byte>, off: nat, ai: nat, variant: Variant): (r: Result<(Value, nat)>)
    ensures r.Ok? ==> off <= r.value.1 && (r.value.1 > off ==> r.value.1 <= |data|)
  {
    if ai == 20 then Ok((Bool(false), off))
    else if ai == 21 then Ok((Bool(true), off))
    else if ai == 22 then Ok((Null, off))
    else if ai == 23 then (if variant == Lossy then Err(UndefinedUnsupported) else Ok((Undefined, off)))
    else if ai == 24 then Err(UnassignedSimple)
    else if ai == 25 then ReadFloat(data, off, Half, variant)
    else if ai == 26 then ReadFloat(data, off, Single, variant)
    else if ai == 27 then ReadFloat(data, off, Double, variant)
    else if ai == 31 then Err(IndefiniteLength)
    else Err(InvalidSimple)
  }

  /** decodeValue: the data item that starts at `off`, and the offset just past it. */
  function Item(data: seq<byte>, off: nat, variant: Variant): (r: Result<(Value, nat)>)
    ensures r.Ok? ==> off < |data| && off < r.value.1
    ensures r.Ok? && variant != Buffered ==> r.value.1 <= |data|
    decreases |data| - off, 1
  {
    if |data| <= off then Err(Truncated(variant))
    else
      var initialByte := data[off];
      var major, ai := initialByte / 32, initialByte % 32;
      if major == 6 then Err(TaggedItem)
      else if major == 7 then Simple(data, off + 1, ai, variant)
      else if major == 2 && variant == Lossy then Err(ByteStringsUnsupported)
      else
        match ReadArgument(data, off + 1, ai, variant)
        case Err(e) => Err(e)
        case Ok((argument, next)) => Content(data, major, argument, next, variant)
  }

  /** What follows the head of a data item of major type 0 to 5, given its argument. */
  function Content(data: seq<byte>, major: nat, argument: nat, off: nat, variant: Variant): (r: Result<(Value, nat)>)
    requires major < 6 && off <= |data|
    requires major == 2 ==> variant != Lossy
    ensures r.Ok? ==> off <= r.value.1
    ensures r.Ok? && variant != Buffered ==> r.value.1 <= |data|
    decreases |data| + 1 - off, 0
  {
    if major == 0 then
      if MaxSafeInteger < argument then Err(if variant == Lossy then IntegerOutOfRange else UnsafeInteger(argument))
      else Ok((Int(argument), off))
    else if major == 1 then
      if variant == Lossy then
        if MaxSafeInteger < argument then Err(IntegerOutOfRange) else Ok((Int(-1 - argument), off))
      else if -1 - argument < MinSafeInteger then Err(UnsafeInteger(-1 - argument))
      else Ok((Int(-1 - argument), off))
    else if major == 2 then
      match ReadBytes(data, off, argument, variant)
      case Err(e) => Err(e)
      case Ok((bytes, next)) => Ok((Bytes(bytes), next))
    else if major == 3 then
      match ReadText(data, off, argument, variant)
      case Err(e) => Err(e)
      case Ok((text, next)) => Ok((Text(text), next))
    else if major == 4 then
      if 0x1_0000_0000 <= argument then Err(InvalidLength)
      else
        match Items(data, off, argument, [], variant)
        case Err(e) => Err(e)
        case Ok((items, next)) => Ok((Array(items), next))
    else
      match Entries(data, off, argument, [], variant)
      case Err(e) => Err(e)
      case Ok((entries, next)) => Ok((Map(entries), next))
  }

  /** The loop of the list branch: `count` more data items, appended to `acc`. */
  function Items(data: seq<byte>, off: nat, count: nat, acc: seq<Value>, variant: Variant)
    : (r: Result<(seq<Value>, nat)>)
    ensures r.Ok? ==> off <= r.value.1 && |r.value.0| == |acc| + count
    ensures r.Ok? && variant != Buffered && off <= |data| ==> r.value.1 <= |data|
    decreases |data| - off, 2
  {
    if count == 0 then Ok((acc, off))
    else
      match Item(data, off, variant)
      case Err(e) => Err(e)
      case Ok((v, next)) => Items(data, next, count - 1, acc + [v], variant)
  }

  /** The loop of the object branch: `count` more key and value pairs, each key a text
      string, each assigned into `acc` as `value[key] = …` does. */
  function Entries(data: seq<byte>, off: nat, count: nat, acc: seq<(string, Value)>, variant: Variant)
    : (r: Result<(seq<(string, Value)>, nat)>)
    ensures r.Ok? ==> off <= r.value.1
    ensures r.Ok? && variant != Buffered && off <= |data| ==> r.value.1 <= |data|
    decreases |data| - off, 2
  {
    if count == 0 then Ok((acc, off))
    else
      match Item(data, off, variant)
      case Err(e) => Err(e)
      case Ok((key, next)) =>
        if !key.Text? then Err(NonStringKey)
        else
          match Item(data, next, variant)
          case Err(e) => Err(e)
          case Ok((v, after)) => Assigned(data, after, count - 1, acc, key.s, v, variant)
  }

  /** The rest of the object loop once `value[key] = v` has been done. */
  function Assigned(data: seq<byte>, off: nat, count: nat, acc: seq<(string, Value)>, key: string, v: Value,
                    variant: Variant): (r: Result<(seq<(string, Value)>, nat)>)
    ensures r.Ok? ==> off <= r.value.1
    ensures r.Ok? && variant != Buffered && off <= |data| ==> r.value.1 <= |data|
    decreases |data| - off, 3
  {
    Entries(data, off, count, Assign(acc, key, v), variant)
  }

  /** The data item at `off` reads as `v` and the reader ends at `next`. */
  predicate ReadsAs(data: seq<byte>, off: nat, variant: Variant, v: Value, next: nat)
  {
    Item(data, off, variant) == Ok((v, next))
  }

  /** The list loop from `off`, `count` more elements appended to `acc`, ends with `outcome`. */
  predicate ItemsEnd(data: seq<byte>, off: nat, count: nat, acc: seq<Value>, variant: Variant,
                     outcome: Result<(seq<Value>, nat)>)
  {
    Items(data, off, count, acc, variant) == outcome
  }

  /** The object loop from `off`, `count` more entries assigned into `acc`, ends with `outcome`. */
  predicate EntriesEnd(data: seq<byte>, off: nat, count: nat, acc: seq<(string, Value)>, variant: Variant,
                       outcome: Result<(seq<(string, Value)>, nat)>)
  {
    Entries(data, off, count, acc, variant) == outcome
  }

  /** A data item of major type 0 to 5 is what its major type and argument call for, read
      from just after its head. */
  lemma ItemAfterHead(data: seq<byte>, off: nat, variant: Variant, major: nat, arg: nat, next: nat)
    requires off < |data| && data[off] / 32 == major && major < 6
    requires major == 2 ==> variant != Lossy
    requires ReadArgument(data, off + 1, data[off] % 32, variant) == Ok((arg, next))
    ensures next <= |data|
    ensures Item(data, off, variant) == Content(data, major, arg, next, variant)
  {
  }

  /** A data item of major type 7 is the simple value or float its additional information
      calls for. */
  lemma ItemOfSimple(data: seq<byte>, off: nat, variant: Variant)
    requires off < |data| && data[off] / 32 == 7
    ensures Item(data, off, variant) == Simple(data, off + 1, data[off] % 32, variant)
  {
  }

  /** An unsigned integer whose argument is safe reads as the argument. */
  lemma UnsignedItem(data: seq<byte>, off: nat, variant: Variant, n: nat, next: nat)
    requires off < |data| && data[off] / 32 == 0 && n <= MaxSafeInteger
    requires ReadArgument(data, off + 1, data[off] % 32, variant) == Ok((n, next))
    ensures ReadsAs(data, off, variant, Int(n), next)
  {
    ItemAfterHead(data, off, variant, 0, n, next);
    ContentOfUnsigned(data, n, next, variant);
  }

  /** A negative integer whose argument n is safe reads as −1 − n. */
  lemma NegativeItem(data: seq<byte>, off: nat, variant: Variant, n: nat, next: nat)
    requires off < |data| && data[off] / 32 == 1 && n < MaxSafeInteger
    requires ReadArgument(data, off + 1, data[off] % 32, variant) == Ok((n, next))
    ensures ReadsAs(data, off, variant, Int(-1 - n), next)
  {
    ItemAfterHead(data, off, variant, 1, n, next);
    ContentOfNegative(data, n, next, variant);
  }

  /** A safe unsigned integer reads as itself. */
  lemma ContentOfUnsigned(data: seq<byte>, argument: nat, off: nat, variant: Variant)
    requires off <= |data| && argument <= MaxSafeInteger
    ensures Content(data, 0, argument, off, variant) == Ok((Int(argument), off))
  {
  }

  /** A negative integer whose argument n is safe reads as −1 − n. */
  lemma ContentOfNegative(data: seq<byte>, argument: nat, off: nat, variant: Variant)
    requires off <= |data| && argument < MaxSafeInteger
    ensures Content(data, 1, argument, off, variant) == Ok((Int(-1 - argument), off))
  {
  }

  /** A text string whose bytes are all there reads as the UTF-8 text of those bytes. */
  lemma ContentOfText(data: seq<byte>, length: nat, off: nat, variant: Variant)
    requires off + length <= |data|
    ensures Content(data, 3, length, off, variant) == Ok((Text(Unicode.TextDecoderDecode(data[off..off + length])), off + length))
  {
  }

  /** A byte string whose bytes are all there reads as those bytes. */
  lemma ContentOfBytes(data: seq<byte>, length: nat, off: nat, variant: Variant)
    requires off + length <= |data| && variant != Lossy && length <= MaxSafeInteger
    ensures Content(data, 2, length, off, variant) == Ok((Bytes(data[off..off + length]), off + length))
  {
    assert data[off..off + length] + Zeros(0) == data[off..off + length];
  }

  /** The list branch of decodeValue: the elements that follow, or the first error. */
  lemma ContentOfArray(data: seq<byte>, argument: nat, off: nat, variant: Variant)
    requires off <= |data| && argument < 0x1_0000_0000
    ensures Content(data, 4, argument, off, variant)
         == match Items(data, off, argument, [], variant)
            case Err(e) => Err(e)
            case Ok((items, next)) => Ok((Array(items), next))
  {
  }

  /** The object branch of decodeValue: the entries that follow, or the first error. */
  lemma ContentOfMap(data: seq<byte>, argument: nat, off: nat, variant: Variant)
    requires off <= |data|
    ensures Content(data, 5, argument, off, variant)
         == match Entries(data, off, argument, [], variant)
            case Err(e) => Err(e)
            case Ok((entries, next)) => Ok((Map(entries), next))
  {
  }

  /** A head of major type 3 followed by all the bytes it counts reads as the UTF-8 text of
      those bytes. */
  lemma TextItem(data: seq<byte>, off: nat, variant: Variant, next: nat, d: seq<byte>)
    requires off < |data| && data[off] / 32 == 3
    requires ReadArgument(data, off + 1, data[off] % 32, variant) == Ok((|d|, next))
    requires next + |d| <= |data| && data[next..next + |d|] == d
    ensures ReadsAs(data, off, variant, Text(Unicode.TextDecoderDecode(d)), next + |d|)
  {
    ItemAfterHead(data, off, variant, 3, |d|, next);
    ContentOfText(data, |d|, next, variant);
  }

  /** A head of major type 2 followed by all the bytes it counts reads as those bytes. */
  lemma BytesItem(data: seq<byte>, off: nat, variant: Variant, next: nat, d: seq<byte>)
    requires off < |data| && data[off] / 32 == 2 && variant != Lossy && |d| <= MaxSafeInteger
    requires ReadArgument(data, off + 1, data[off] % 32, variant) == Ok((|d|, next))
    requires next + |d| <= |data| && data[next..next + |d|] == d
    ensures ReadsAs(data, off, variant, Bytes(d), next + |d|)
  {
    ItemAfterHead(data, off, variant, 2, |d|, next);
    ContentOfBytes(data, |d|, next, variant);
  }

  /** A head of major type 4 whose elements all read reads as the list of them. */
  lemma ArrayItem(data: seq<byte>, off: nat, variant: Variant, count: nat, next: nat, items: seq<Value>, end: nat)
    requires off < |data| && data[off] / 32 == 4 && count < 0x1_0000_0000
    requires ReadArgument(data, off + 1, data[off] % 32, variant) == Ok((count, next))
    requires ItemsEnd(data, next, count, [], variant, Ok((items, end)))
    ensures ReadsAs(data, off, variant, Array(items), end)
  {
    ItemAfterHead(data, off, variant, 4, count, next);
    ContentOfArray(data, count, next, variant);
  }

  /** A head of major type 5 whose entries all read reads as the object they build. */
  lemma MapItem(data: seq<byte>, off: nat, variant: Variant, count: nat, next: nat,
                entries: seq<(string, Value)>, end: nat)
    requires off < |data| && data[off] / 32 == 5
    requires ReadArgument(data, off + 1, data[off] % 32, variant) == Ok((count, next))
    requires EntriesEnd(data, next, count, [], variant, Ok((entries, end)))
    ensures ReadsAs(data, off, variant, Map(entries), end)
  {
    ItemAfterHead(data, off, variant, 5, count, next);
    ContentOfMap(data, count, next, variant);
  }

  /** One pass of the list loop: the element read is appended and the loop goes on after it,
      to the outcome of the rest of the loop. */
  lemma ItemsStep(data: seq<byte>, off: nat, count: nat, acc: seq<Value>, variant: Variant,
                  v: Value, next: nat, rest: nat, outcome: Result<(seq<Value>, nat)>)
    requires count == rest + 1 && ReadsAs(data, off, variant, v, next)
    requires ItemsEnd(data, next, rest, acc + [v], variant, outcome)
    ensures ItemsEnd(data, off, count, acc, variant, outcome)
  {
  }

  /** The object loop ends with the error of the first key or value that fails. */
  lemma EntriesError(data: seq<byte>, off: nat, count: nat, acc: seq<(string, Value)>, variant: Variant,
                     next: nat, e: Error)
    requires count > 0
    requires Item(data, off, variant) == Err(e)
          || (Item(data, off, variant).Ok? && Item(data, off, variant).value.0.Text?
              && Item(data, off, variant).value.1 == next && Item(data, next, variant) == Err(e))
    ensures Entries(data, off, count, acc, variant) == Err(e)
  {
  }

  /** After the last entry the object is complete. */
  lemma EntriesDone(data: seq<byte>, off: nat, acc: seq<(string, Value)>, variant: Variant)
    ensures Entries(data, off, 0, acc, variant) == Ok((acc, off))
  {
  }

  /** One pass of the object loop: a key that is not a string ends it with an error. */
  lemma EntriesNonStringKey(data: seq<byte>, off: nat, count: nat, acc: seq<(string, Value)>,
                            variant: Variant, key: Value, next: nat)
    requires count > 0 && Item(data, off, variant) == Ok((key, next)) && !key.Text?
    ensures Entries(data, off, count, acc, variant) == Err(NonStringKey)
  {
  }

  /** One pass of the object loop: a string key and its value are assigned into the object. */
  lemma EntriesStep(data: seq<byte>, off: nat, count: nat, acc: seq<(string, Value)>, variant: Variant,
                    key: string, next: nat, v: Value, after: nat)
    requires count > 0 && Item(data, off, variant) == Ok((Text(key), next))
    requires Item(data, next, variant) == Ok((v, after))
    ensures Entries(data, off, count, acc, variant) == Entries(data, after, count - 1, Assign(acc, key, v), variant)
  {
    EntriesThen(data, off, count, count - 1, acc, variant, key, next, v, after);
  }

  /** One pass of the object loop, to the rest of the loop after the assignment. */
  lemma EntriesThen(data: seq<byte>, off: nat, count: nat, rest: nat, acc: seq<(string, Value)>, variant: Variant,
                    key: string, next: nat, v: Value, after: nat)
    requires count == rest + 1 && Item(data, off, variant) == Ok((Text(key), next))
    requires Item(data, next, variant) == Ok((v, after))
    ensures Entries(data, off, count, acc, variant) == Assigned(data, after, rest, acc, key, v, variant)
  {
  }

  /** One pass of the object loop over a key and a value that read back: the value is
      assigned under the key and the loop goes on after the value, to the outcome of the rest
      of the loop. */
  lemma EntryStep(data: seq<byte>, off: nat, count: nat, rest: nat, acc: seq<(string, Value)>, variant: Variant,
                  key: string, next: nat, v: Value, after: nat, outcome: Result<(seq<(string, Value)>, nat)>)
    requires count == rest + 1
    requires ReadsAs(data, off, variant, Text(key), next) && ReadsAs(data, next, variant, v, after)
    requires EntriesEnd(data, after, rest, Assign(acc, key, v), variant, outcome)
    ensures EntriesEnd(data, off, count, acc, variant, outcome)
  {
    EntriesThen(data, off, count, rest, acc, variant, key, next, v, after);
  }

  /** The object loop keeps array-index keys first and in ascending order: an object decoded
      from an empty one lists its keys in Object.keys order. */
  lemma {:induction false} EntriesOrder(data: seq<byte>, off: nat, count: nat, acc: seq<(string, Value)>,
                                        variant: Variant)
    requires IndexKeysFirst(Keys(acc))
    ensures Entries(data, off, count, acc, variant).Ok? ==>
      IndexKeysFirst(Keys(Entries(data, off, count, acc, variant).value.0))
    decreases |data| - off
  {
    if count > 0 {
      match Item(data, off, variant)
      case Err(_) =>
      case Ok((key, next)) =>
        if key.Text? {
          match Item(data, next, variant)
          case Err(_) =>
          case Ok((v, after)) =>
            AssignOrder(acc, key.s, v);
            EntriesOrder(data, after, count - 1, Assign(acc, key.s, v), variant);
        }
    }
  }

  /** The values a chunk decoder yields from position `off` of a stream holding `data`, one
      per data item, and the error that ends the sequence early, if any. */
  function ValueStream(data: seq<byte>, off: nat): (r: (seq<Value>, Option<Error>))
    decreases |data| - off
  {
    if |data| <= off then ([], None)
    else
      match Item(data, off, Streaming)
      case Err(e) => ([], Some(e))
      case Ok((v, next)) =>
        var rest := ValueStream(data, next);
        ([v] + rest.0, rest.1)
  }

  /** The value stream at a position inside the data: the item there, then the stream after
      it, or the item's error. */
  lemma ValueStreamStep(data: seq<byte>, off: nat)
    requires off < |data|
    ensures ValueStream(data, off)
         == match Item(data, off, Streaming)
            case Err(e) => ([], Some(e))
            case Ok((v, next)) => ([v] + ValueStream(data, next).0, ValueStream(data, next).1)
  {
  }

  /** A stream position holding a data item: the item, then the stream after it. */
  lemma ValueStreamThen(data: seq<byte>, off: nat, v: Value, next: nat, tail: seq<Value>, error: Option<Error>)
    requires ReadsAs(data, off, Streaming, v, next) && ValueStream(data, next) == (tail, error)
    ensures ValueStream(data, off) == ([v] + tail, error)
  {
    ValueStreamStep(data, off);
  }
}
