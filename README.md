# microcbor in Dafny

A model of the core of microcbor, a small CBOR codec (RFC 8949) for JavaScript. It covers the
encoder and its chunked output buffer, the three decoders, and the encoding-length calculator.
The decoders are the `Decoder` class over one `Uint8Array`, the older `decode` over a
`DecodeState`, and the chunk-queue decoders behind `decodeIterable` and `decodeAsyncIterable`.

The modules follow the program:

| module | file | what it holds |
|---|---|---|
| `Binary` | binary.dfy | bytes, big-endian numbers (DataView's integer getters and setters), `Flatten` of chunk sequences |
| `Results` | results.dfy | `Option`, `Result` and one `Error` constructor per exception the codec throws |
| `Unicode` | unicode.dfy | UTF-8 as TextEncoder writes it and TextDecoder reads it, and the UTF-16 view JavaScript strings have |
| `Values` | values.dfy | the value type, objects as property lists with `object[k]` and `object[k] = v`, and `compareKeys` |
| `Header` | header.dfy | `getAdditionalInformation` and the head `encodeTypeAndArgument` writes |
| `Encoding` | encoding.dfy | the bytes `encodeValue` writes, as pure functions, and their properties |
| `Encoder` | encoder.dfy | the `Encoder` class: buffer, offset, `closed`, `allocate`, the writers, `flush`, and `encode` |
| `EncodingLength` | encoding_length.dfy | `encodingLength` and its helpers, proved equal to the encoder's output length |
| `Decoding` | decoding.dfy | what a decoder reads at a position, as pure functions, one `Variant` per decoder |
| `BufferedDecoder` | buffered_decoder.dfy | the `Decoder` class of src/Decoder.ts and `decode` |
| `LossyDecoder` | lossy_decoder.dfy | `decodeValue` over a `DecodeState` (src/decode.ts) |
| `ChunkQueue`, `ChunkDecoder` | chunk_queue.dfy, chunk_decoder.dfy | the chunk queue, `allocate`, `fill`, `onFree`, `next`, and `decodeIterable` |
| `Occurrence`, `RoundTrip` | occurrence.dfy, round_trip.dfy | every decoder reads an encoding back as the value, wherever it occurs |
| `Reencoding` | reencoding.dfy | encoding the decoded value reproduces the bytes, for plain values |
| `KeyOrder` | key_order.dfy | the bytewise key order of section 4.2.1 of RFC 8949, as compareKeys was meant to compute it |
| `EncodingExamples`, `DecodingExamples` | encoding_examples.dfy, decoding_examples.dfy | concrete byte sequences: documented examples and the decoders' differences |

Modelling choices:

- **Values.** A JavaScript value is a `Value`:
  - `Undefined`, `Null` and `Bool`;
  - `Int` for numbers on the encoder's integer path;
  - `Float`, which is a width and the raw bits of the narrowest exact IEEE-754 form;
  - `Text`, a sequence of Unicode scalar values;
  - `Bytes`;
  - `Array`;
  - `Map`, a property list. An object a decoder builds is in the order `Object.keys` reports: `Values.Assign` models `value[key] = v` on `{}`. Assigning "__proto__" creates no property. A new array-index key (a canonical decimal below 2^32 − 1) goes among the index keys in ascending numeric order, ahead of all other keys. Other new keys go at the end.
- **Canonical form.** `Values.Canonical(v)` is what the decoders give back for the encoding of v:
  - every text and key loses a leading U+FEFF, because TextDecoder strips it;
  - every object is rebuilt by assigning its keys in compareKeys order, so "__proto__" vanishes and array-index keys come first.
  A value is `Plain` when it has no text or key starting with U+FEFF and no "__proto__" key. For plain values, re-encoding the canonical form reproduces the bytes.
- **Encoder class.** `Encoder.Encoder` keeps the source's fields. The buffer is an `array<byte>`, written through `offset`. Each writer returns the chunks it yields. Every method is proved to keep this invariant: the chunks yielded so far, followed by the pending bytes `buffer[0..offset)`, are the bytes of what was encoded so far.
- **Decoding specification.** `Decoding.Item(data, off, variant)` says what a decoder reads at a position: the value or the error, and where the read ends. Each decoder method is proved to return exactly that and to leave its offset where `Item` ends. The three variants differ where the sources differ:
  - the buffered `Decoder` clamps `subarray` reads past the end;
  - the chunk decoders report "stream ended prematurely";
  - `decode.ts` rejects byte strings and undefined, uses an Infinity sentinel, and moves on by one byte after an 8-byte argument.
- **Chunk decoders.** `decodeIterable` and `decodeAsyncIterable` are one class, `ChunkDecoder.Decoder`. Its source is the finite sequence of chunks the iterator yields. The `trackFree` flag stands for the presence of `onFree`, and the log `freed` records the chunks passed to it. Ghost fields place the queue within the concatenated stream.
- **compareKeys.** It is modelled as written: UTF-16 length first, then UTF-16 code units. It is proved to be a strict total order. Two lemmas show that it is not the bytewise order of encoded keys that section 4.2.1 of RFC 8949 describes:
  - `Encoding.KeyOrderIsNotBytewise`;
  - `Encoding.AdversarialKeys`, for the two keys of the test at test/complex.test.ts:89-94.

  `KeyOrder.ByteKeyLess` is the intended order: UTF-8 length first, then UTF-8 bytes. `KeyOrder.ByteKeyOrder` proves it is exactly the bytewise order of the encoded keys (second Findings row). The encoder model keeps compareKeys, as the program does.
- **decode.ts's 64-bit reader.** It moves on by one byte after an 8-byte argument (src/decode.ts:55-57). The model keeps this. `DecodingExamples.LossyListMisread` shows that `[2^32, 1]` comes back as `[2^32, 0]` from that decoder. The round trip for the `Lossy` variant is therefore stated for arguments below 2^32 only (`RoundTrip.LossyEncodable`).

## Model

| member | source | states |
|---|---|---|
| Binary.FromToBigEndian | src/encode.ts:63-79 | reading back the big-endian bytes a DataView setter wrote gives the number, when it fits in the width |
| Binary.ToFromBigEndian | src/Decoder.ts:31-34 | writing back the number a big-endian getter read reproduces the bytes |
| Binary.FlattenConcat | src/encode.ts:237-247 | the bytes of two chunk sequences joined are the bytes of the first, then those of the second |
| Header.AdditionalInformation | src/encode.ts:216-228 | the argument itself below 24, then 24, 25, 26 or 27 at the thresholds 2^8, 2^16 and 2^32 |
| Header.ArgumentSize | src/encode.ts:87-96 | additional information 24 to 27 has 1, 2, 4 or 8 argument bytes, and any other value has none |
| Header.SplitInitialByte | src/Decoder.ts:73-75 | `b >> 5` and `b & 0x1f` recover the major type and additional information that `(type << 5) \| ai` packed, and repack to the same byte |
| Header.EncodeShape | src/encode.ts:81-97 | the head is one initial byte carrying major type and additional information, then 0, 1, 2, 4 or 8 bytes whose big-endian value is the argument |
| Header.ShortestForm | src/encode.ts:216-228 | every argument uses the narrowest form: no wider form is chosen when a narrower one holds it |
| Header.AppendixSmallExamples | test/appendix_a.js:16-55 | 23 is `17`, 24 is `18 18`, and −100 is `38 63` |
| Header.AppendixThousand | test/appendix_a.js:32-35 | 1000 encodes as `19 03 e8` |
| Header.AppendixTrillion | test/appendix_a.js:40-43 | 10^12 encodes as `1b 00 00 00 e8 d4 a5 10 00` |
| Unicode.EncodeConcat | src/encode.ts:137 | TextEncoder's output for a concatenation is the concatenation of the outputs |
| Unicode.ByteLength | src/encodingLength.ts:97-99 | the UTF-8 byte length counted without encoding equals the length of the encoding |
| Unicode.DecodeStepEncodeScalar | src/Decoder.ts:44 | decoding the UTF-8 form of one scalar value, followed by anything, gives the value and consumes exactly its bytes; this is the step of the BOM-keeping decode, the corrected half of the first Findings row |
| Unicode.DecodeEncode | src/Decoder.ts:44 | UTF-8 decoding without BOM removal undoes TextEncoder's encoding for every string; this is the corrected half of the first Findings row, since the line cited strips a leading U+FEFF |
| Unicode.TextDecoderDropsByteOrderMark | src/Decoder.ts:44 | `new TextDecoder().decode` turns the encoding of "\uFEFF" (EF BB BF) into the empty string |
| Unicode.TextDecoderDecodeEncode | src/Decoder.ts:44 | `new TextDecoder().decode` of a string's encoding gives the string back without a leading U+FEFF, and unchanged when it does not start with one |
| Unicode.Utf16Injective | src/encode.ts:206-214 | different strings have different UTF-16 code units, so comparing code units orders strings |
| Unicode.ByteLengthBound | src/encode.ts:137 | a string's UTF-8 length is at most three times its UTF-16 length, so a safe-length string has a safe-length encoding |
| Values.FindFirst | src/Decoder.ts:112 | a property lookup finds the first property with that name |
| Values.AssignLookup | src/Decoder.ts:112 | after `value[key] = v` the object holds v for key, except that assigning "__proto__" leaves the object as it was; every other key keeps its value, and keys stay distinct |
| Values.Assign | src/Decoder.ts:112 | "__proto__" creates no property; a new key that is not an array index goes at the end; the object grows by one property exactly when the key is new and not "__proto__" |
| Values.AssignKeys | src/Decoder.ts:112 | the keys afterwards are the keys before, plus the assigned key when it was new and not "__proto__" |
| Values.AssignOrder | src/Decoder.ts:112 | when the array-index keys come first in ascending numeric order, they still do after an assignment, as in `Object.keys` |
| Values.AssignAllFresh | src/Decoder.ts:107-113 | assigning fields with distinct new keys other than "__proto__" keeps keys distinct, adds exactly those keys, and makes each key's value what it was or what was assigned |
| Values.AssignAllOrder | src/Decoder.ts:107-113 | a run of assignments keeps the array-index keys first and ascending |
| Values.FindUpdate | src/Decoder.ts:112 | overwriting one property does not move any other property |
| Values.FindDistinct | src/encode.ts:176-180 | in an object with distinct keys, looking up the key at position i finds position i |
| Values.CompareKeys | src/encode.ts:206-214 | compareKeys never returns 0 |
| Values.KeyLessIsStrictTotalOrder | src/encode.ts:206-214 | compareKeys is irreflexive, transitive and total on distinct strings |
| Values.LexLessTransitive | src/encode.ts:212 | JavaScript's `<` on strings is transitive |
| Values.LexLessTotal | src/encode.ts:212 | of two different strings, one is `<` the other |
| Values.ShorterKeyFirst | src/encode.ts:207-210 | a key with fewer UTF-16 code units comes first whatever its contents |
| Values.KeyLessExamples | src/encode.ts:206-214 | "b" comes before "aa", and "a" before "b" |
| Values.SortKeys | src/encode.ts:176 | sorting keys permutes them |
| Values.InsertKeySorted | src/encode.ts:176 | inserting a new key into a sorted key list keeps it sorted |
| Values.SortKeysSorted | src/encode.ts:176 | the sorted keys of an object with distinct keys are in strictly increasing compareKeys order |
| Values.SortedKeysUnique | src/encode.ts:176 | two sorted permutations of the same keys are equal, so the order of `Object.keys` does not matter |
| Encoding.FloatInfo | src/encode.ts:123-134 | a float's initial byte is F9, FA or FB and is followed by 2, 4 or 8 bytes, according to its width |
| Encoding.SimpleValues | src/encode.ts:156-163 | false, true, null and undefined are F4, F5, F6 and F7 |
| Encoding.IntegerEncoding | src/encode.ts:115-121 | a safe integer n ≥ 0 is major type 0 with argument n, a negative n is major type 1 with argument −1−n |
| Encoding.NumberEncoding | src/encode.ts:99-113 | a number other than −0 that is whole and safe takes the integer path, every other number the float path |
| Encoding.ZeroEncoding | src/encode.ts:100-103 | +0 is the byte 00 and −0 is written as a float |
| Encoding.MapEncoding | src/encode.ts:175-182 | an object is a major type 5 head with its key count, then each key as text followed by its value, keys in compareKeys order |
| Encoding.MapOrderIndependent | src/encode.ts:176-181 | objects with the same properties encode to the same bytes whatever order the properties were created in |
| Encoding.TwoEntryMap | src/encode.ts:175-182 | a two-property object is A2, then the smaller key's field, then the other's |
| Encoding.TwoKeysSorted | src/encode.ts:176 | sorting two distinct keys puts the compareKeys-smaller one first |
| Encoding.SmallInteger | src/encode.ts:115-121 | an integer from 0 to 23 is the single byte holding it |
| Encoding.ShortTexts | src/encode.ts:136-142 | "a" is `61 61`, "b" is `61 62`, and "aa" is `62 61 61` |
| Encoding.PairExample | src/encode.ts:170-174 | [2, 3] is `82 02 03` |
| Encoding.KeyOrderIsNotBytewise | src/encode.ts:196-214 | compareKeys puts "é" (`62 c3 a9`) before "ab" (`62 61 62`), against the bytewise order of the encodings |
| Encoding.AdversarialKeys | src/encode.ts:206-214 | compareKeys puts "👍" before "ﬁa", though the encoding of "ﬁa" is bytewise smaller |
| KeyOrder.BigEndianOrder | src/encode.ts:63-79 | numbers of one width written big-endian are bytewise ordered as they are ordered as numbers |
| KeyOrder.HeaderOrder | src/encode.ts:196-205 | heads of one major type are bytewise ordered as their arguments, whatever follows them |
| KeyOrder.ByteKeyOrder | src/encode.ts:196-214 | the corrected order (fewer UTF-8 bytes first, then the UTF-8 bytes) puts a key first exactly when its encoding is bytewise smaller |
| KeyOrder.ByteSortedEncodings | src/encode.ts:196-205 | keys listed in the corrected order have strictly increasing encodings bytewise |
| KeyOrder.ByteKeyLessIsStrictTotalOrder | src/encode.ts:206-214 | the corrected order is irreflexive, transitive and total on distinct strings |
| KeyOrder.AdversarialKeysBytewise | test/complex.test.ts:89-94 | the corrected order puts "ﬁa" before "👍", as canonical CBOR does, and compareKeys does not |
| EncodingExamples.ObjectExample | src/encode.ts:151-183 | {a: 1, b: [2, 3]} encodes as `a2 61 61 01 61 62 82 02 03` |
| EncodingExamples.ShortKeyFirstExample | src/encode.ts:206-214 | {aa: 1, b: 2} encodes as `a2 61 62 02 62 61 61 01`: the shorter key first |
| Encoder.Encoder.constructor | src/encode.ts:21-27 | a new encoder is open, has nothing pending, and has a buffer of chunkSize bytes (512 when chunkSize is 0) |
| Encoder.Encoder.Allocate | src/encode.ts:29-37 | afterwards size bytes are free; when they were not, it yields exactly the pending bytes and starts a buffer of max(size, chunkSize) bytes |
| Encoder.Encoder.Put | src/encode.ts:139-141 | the bytes are appended to what is yielded and pending |
| Encoder.Encoder.WriteUint | src/encode.ts:57-79 | uint8 to uint64 append the value's 1, 2, 4 or 8 big-endian bytes |
| Encoder.Encoder.EncodeTypeAndArgument | src/encode.ts:81-97 | appends the head of the major type and argument |
| Encoder.Encoder.EncodeInteger | src/encode.ts:115-121 | appends the integer's encoding |
| Encoder.Encoder.EncodeFloat | src/encode.ts:123-134 | appends the float's initial byte and its bits |
| Encoder.Encoder.EncodeNumber | src/encode.ts:99-113 | appends the encoding of the integer or float the number classifies as |
| Encoder.Encoder.EncodeString | src/encode.ts:136-142 | appends the text head and the UTF-8 bytes |
| Encoder.Encoder.EncodeBytes | src/encode.ts:144-149 | appends the byte-string head and the bytes |
| Encoder.Encoder.EncodeValue | src/encode.ts:151-183 | appends the value's encoding; once closed it yields nothing and changes nothing |
| Encoder.Encoder.EncodeArray | src/encode.ts:170-174 | appends the list head and each element's encoding in order |
| Encoder.Encoder.EncodeMap | src/encode.ts:175-182 | appends the object head and each field in compareKeys order |
| Encoder.Encoder.EncodeField | src/encode.ts:178-181 | appends the key as text and the encoding of `value[key]` |
| Encoder.Encoder.Flush | src/encode.ts:185-194 | closes the encoder and yields the pending bytes when there are any; a second flush yields nothing |
| Encoder.Encode | src/encode.ts:231-258 | the bytes `encode` returns are the value's encoding, for every chunk size: chunking is invisible |
| Encoder.Join | src/encode.ts:249-257 | copying the chunks into one array at increasing offsets gives their concatenation |
| EncodingLength.ArgumentEncodingLength | src/encodingLength.ts:52-64 | 1, 2, 3, 5 or 9, the length of the head encodeTypeAndArgument writes for any major type |
| EncodingLength.IntegerEncodingLength | src/encodingLength.ts:78-84 | the length of what encodeInteger writes, using argument −v−1 for negatives |
| EncodingLength.FloatEncodingLength | src/encodingLength.ts:86-95 | 3, 5 or 9 bytes; with minFloatSize at most 16 the length encodeFloat writes, never narrower than minFloatSize asks |
| EncodingLength.NumberEncodingLength | src/encodingLength.ts:66-76 | with the default minFloatSize, the length of what encodeNumber writes |
| EncodingLength.StringEncodingLength | src/encodingLength.ts:97-100 | header(UTF-8 length) + UTF-8 length, the length of what encodeString writes |
| EncodingLength.BytesEncodingLength | src/encodingLength.ts:102-105 | header(n) + n, the length of what encodeBytes writes |
| EncodingLength.EncodingLength | src/encodingLength.ts:10-50 | fails with "`undefined` is not allowed" exactly when undefined occurs and allowUndefined is false, otherwise returns the size |
| EncodingLength.ArrayLength | src/encodingLength.ts:29-34 | the loop adds the elements' sizes to the header length |
| EncodingLength.MapLength | src/encodingLength.ts:35-46 | the loop adds each key's and value's size to the header length, in Object.keys order |
| EncodingLength.PropertyLength | src/encodingLength.ts:38-42 | one property: key as text plus value |
| EncodingLength.SizeIsEncodingLength | src/encodingLength.ts:6-10 | with the default float option, the size is exactly the length of the encoder's output |
| EncodingLength.MapOrderIndependent | src/encodingLength.ts:35-46 | an object's size and whether it contains undefined do not depend on property order |
| EncodingLength.SumPermutation | src/encodingLength.ts:38-45 | a sum of sizes does not depend on the order of the summands |
| EncodingLength.FlattenLength | src/encode.ts:237-247 | the length of concatenated chunks is the sum of their lengths |
| EncodingLength.MapEncodedLength | src/encode.ts:175-182 | the length of an object's encoding is the header length plus its fields' lengths in compareKeys order |
| Decoding.Outcome | src/Decoder.ts:72 | a decoder method succeeds exactly when the specified read does |
| Decoding.ReadOneByte | src/Decoder.ts:31 | uint8 reads the byte at the offset and moves on by one |
| Decoding.ReadUint | src/Decoder.ts:28-34 | a 1, 2, 4 or 8-byte read succeeds exactly when the bytes are there, and gives a value below 2^(8·width) |
| Decoding.ReadArgument | src/Decoder.ts:49-70 | below 24 the argument is the additional information and nothing is read; 24 to 27 read 1, 2, 4 or 8 bytes; 28 to 31 fail |
| Decoding.Clamp | src/Decoder.ts:38 | `subarray` gives at most length bytes, and exactly the slice when it lies within the data |
| Decoding.ReadBytes | src/Decoder.ts:36-41 | decodeBytes returns length bytes and moves on by exactly length |
| Decoding.ReadText | src/Decoder.ts:43-47 | decodeString moves on by exactly length, and the chunk decoders and decode.ts need the bytes to be there; the string is TextDecoder's decoding, which drops a leading U+FEFF |
| Decoding.ReadFloat | src/Decoder.ts:28-30 | a float read moves on by its width and needs that many bytes |
| Decoding.Simple | src/Decoder.ts:117-139 | a major type 7 item that succeeds reads nothing or stays within the data |
| Decoding.Item | src/Decoder.ts:72-143 | a successful read starts inside the data and moves forward; the chunk decoders never read past the end |
| Decoding.Content | src/Decoder.ts:77-114 | reading the rest of an item never moves backward |
| Decoding.Items | src/Decoder.ts:97-103 | the list loop returns exactly count values |
| Decoding.Entries | src/Decoder.ts:104-114 | the object loop never moves backward, and it builds the object by `value[key] = v`, with JavaScript's treatment of "__proto__" and array-index keys |
| Decoding.EntriesOrder | src/Decoder.ts:104-114 | an object a decoder builds lists its array-index keys first, in ascending numeric order, as `Object.keys` does |
| BufferedDecoder.Decoder.constructor | src/Decoder.ts:11-14 | a new decoder starts at offset 0 |
| BufferedDecoder.Decoder.ReadUint | src/Decoder.ts:31-34 | uint8 to uint64 return what `ReadUint` specifies and move the offset by the width |
| BufferedDecoder.Decoder.ReadFloat | src/Decoder.ts:28-30 | float16 to float64 return the float's bits and move the offset by the width |
| BufferedDecoder.Decoder.DecodeBytes | src/Decoder.ts:36-41 | returns the clamped bytes padded with zeros and moves the offset by length |
| BufferedDecoder.Decoder.DecodeString | src/Decoder.ts:43-47 | returns the decoding of the clamped bytes and moves the offset by length |
| BufferedDecoder.Decoder.GetArgument | src/Decoder.ts:49-70 | returns what `ReadArgument` specifies |
| BufferedDecoder.Decoder.DecodeValue | src/Decoder.ts:72-143 | returns what `Item` specifies and leaves the offset where the item ends |
| BufferedDecoder.Decoder.DecodeArray | src/Decoder.ts:97-103 | the list loop returns what `Content` specifies for major type 4 |
| BufferedDecoder.Decoder.DecodeMap | src/Decoder.ts:104-114 | the object loop returns what `Content` specifies for major type 5 |
| BufferedDecoder.Decoder.DecodeEntry | src/Decoder.ts:108-112 | one key and value, assigned into the object, moving the offset forward |
| BufferedDecoder.Decoder.DecodeSimple | src/Decoder.ts:117-139 | returns what `Simple` specifies |
| BufferedDecoder.Decode | src/Decoder.ts:147-149 | `decode` returns the item at offset 0 |
| LossyDecoder.DecodeState.constructor | src/decode.ts:179 | a new state starts at offset 0 |
| LossyDecoder.ReadUint | src/decode.ts:40-63 | uint8 to uint32 move the offset by their width, uint64 by one |
| LossyDecoder.ReadFloat | src/decode.ts:22-38 | float16 to float64 return the float's bits and move the offset by the width |
| LossyDecoder.DecodeString | src/decode.ts:66-74 | needs all length bytes, decodes them and moves the offset by length |
| LossyDecoder.GetArgument | src/decode.ts:76-98 | returns what `ReadArgument` specifies for this decoder |
| LossyDecoder.DecodeValue | src/decode.ts:100-167 | returns what `Item` specifies for this decoder and leaves the offset where it ends |
| LossyDecoder.DecodeArray | src/decode.ts:124-131 | the list loop returns what `Content` specifies |
| LossyDecoder.DecodeMap | src/decode.ts:132-142 | the object loop returns what `Content` specifies |
| LossyDecoder.DecodeEntry | src/decode.ts:135-140 | one key and value, assigned into the object |
| LossyDecoder.DecodeSimple | src/decode.ts:145-166 | returns what `Simple` specifies for this decoder, rejecting undefined |
| LossyDecoder.Decode | src/decode.ts:175-182 | `decode` returns the item at offset 0 |
| ChunkQueue.TiledSuffix | src/decodeIterable.ts:60 | dropping queued chunks from the front leaves the rest in place in the stream |
| ChunkQueue.QueuedPush | src/decodeIterable.ts:26-27 | pushing the next source chunk keeps the queue invariant and adds its length to byteLength |
| ChunkQueue.QueuedSuffix | src/decodeIterable.ts:37-60 | after size bytes are consumed and the used-up chunks spliced off, the queue invariant holds at the new position |
| ChunkQueue.ChunkInFlatten | src/decodeIterable.ts:10 | each chunk sits in the stream right after the chunks before it |
| ChunkQueue.BoundariesTile | src/decodeIterable.ts:14-16 | the source's chunks tile the stream |
| ChunkDecoder.Decoder.Window | src/decodeIterable.ts:8-10 | the queued bytes are the stream's bytes from the position on, and all of what is left once the source is exhausted |
| ChunkDecoder.Decoder.constructor | src/decodeIterable.ts:7-16 | a new decoder has nothing queued, nothing pulled and nothing freed |
| ChunkDecoder.Decoder.Allocate | src/decodeIterable.ts:20-30 | pulls and queues chunks, empty ones included, until size bytes are queued, or fails with "stream ended prematurely" exactly when the stream is too short; it pulls no chunk more than needed and consumes nothing |
| ChunkDecoder.Decoder.PullOne | src/decodeIterable.ts:26-27 | queues the chunk and adds its length |
| ChunkDecoder.Decoder.Fill | src/decodeAsyncIterable.ts:34-68 | fails with the internal error, changing nothing, exactly when fewer than size bytes are queued; otherwise copies the next size bytes of the stream, splices off a prefix of the queue, and passes onFree exactly the chunks spliced off |
| ChunkDecoder.Decoder.CopyOut | src/decodeIterable.ts:37-58 | the copy loop writes the next size stream bytes into the target, counts the chunks used up, and leaves the offset inside the next chunk |
| ChunkDecoder.Decoder.OnFree | src/decodeAsyncIterable.ts:62-66 | the first count queued chunks are passed to onFree in queue order |
| ChunkDecoder.Set | src/decodeIterable.ts:45 | `target.set(source, at)` writes the bytes at `at` and changes nothing else |
| ChunkDecoder.Decoder.ReadConstant | src/decodeIterable.ts:63-70 | reads the next size stream bytes through the scratch buffer, or fails with "stream ended prematurely" exactly when they are not there |
| ChunkDecoder.Decoder.ReadUint | src/decodeIterable.ts:75-78 | returns what `ReadUint` specifies for the stream at the position |
| ChunkDecoder.Decoder.ReadFloat | src/decodeIterable.ts:72-74 | returns what `ReadFloat` specifies |
| ChunkDecoder.Decoder.DecodeBytes | src/decodeIterable.ts:80-85 | returns the next length stream bytes |
| ChunkDecoder.Decoder.DecodeString | src/decodeIterable.ts:87-92 | returns the decoding of the next length stream bytes |
| ChunkDecoder.Decoder.GetArgument | src/decodeIterable.ts:94-112 | returns what `ReadArgument` specifies |
| ChunkDecoder.Decoder.Next | src/decodeIterable.ts:114-127 | done exactly when the whole stream has been read; otherwise the item at the position |
| ChunkDecoder.Decoder.Skip | src/decodeIterable.ts:119 | an empty chunk pulled while idle is dropped: nothing is queued |
| ChunkDecoder.Decoder.DecodeValue | src/decodeIterable.ts:129-200 | returns what `Item` specifies for the stream at the position and moves the position to its end |
| ChunkDecoder.Decoder.DecodeArray | src/decodeIterable.ts:154-160 | the list loop returns what `Content` specifies |
| ChunkDecoder.Decoder.DecodeMap | src/decodeIterable.ts:161-171 | the object loop returns what `Content` specifies |
| ChunkDecoder.Decoder.DecodeEntry | src/decodeIterable.ts:165-169 | one key and value, assigned into the object |
| ChunkDecoder.Decoder.DecodeSimple | src/decodeIterable.ts:174-196 | returns what `Simple` specifies |
| ChunkDecoder.DecodeIterable | src/decodeIterable.ts:203-206 | the values yielded, and the error that ends them, depend only on the concatenated bytes, not on where the chunks split |
| Occurrence.AtConcat | src/encode.ts:237-256 | where a concatenation occurs, its first part occurs and the second follows it |
| Occurrence.UseDecodes | src/Decoder.ts:72 | an encoding that reads back as a value does so at each place it occurs |
| RoundTrip.ArgumentAt | src/Decoder.ts:55-64 | argument bytes written by uint8 to uint64 read back as the argument |
| RoundTrip.HeadAt | src/Decoder.ts:73-75 | a head written by encodeTypeAndArgument reads back as its major type and argument, and the read ends after it |
| RoundTrip.TextHead | src/encode.ts:137-138 | a safe-length string's UTF-8 length fits a 64-bit argument |
| RoundTrip.EncodingDecodes | src/Decoder.ts:72-143 | wherever a value's encoding occurs, each decoder reads it as the value's canonical form (no leading U+FEFF in texts or keys, no "__proto__" property, each object built by assigning its keys in compareKeys order), and ends right after it |
| RoundTrip.ScalarAt | src/Decoder.ts:77-96 | integers, floats, byte strings and the simple values read back as themselves, and a text as itself without a leading U+FEFF |
| RoundTrip.ConstantAt | src/Decoder.ts:117-126 | false, true, null and undefined read back |
| RoundTrip.IntegerAt | src/Decoder.ts:77-90 | an encoded safe integer reads back, negatives included |
| RoundTrip.FloatBytesAt | src/Decoder.ts:129-134 | a float's bits read back |
| RoundTrip.TextAt | src/Decoder.ts:94-96 | an encoded string reads back as itself without a leading U+FEFF |
| RoundTrip.BytesAt | src/Decoder.ts:91-93 | an encoded byte string reads back as itself |
| RoundTrip.ArrayDecodes | src/Decoder.ts:97-103 | an encoded list reads back as the list of its elements' canonical forms |
| RoundTrip.ItemsAt | src/Decoder.ts:100-102 | consecutive element encodings read back as the elements' canonical forms, in order |
| RoundTrip.MapDecodes | src/Decoder.ts:104-114 | an encoded object reads back as the object built by assigning its keys, without a leading U+FEFF, in compareKeys order to the canonical forms of their values |
| RoundTrip.EntriesAt | src/Decoder.ts:107-113 | consecutive field encodings read back as the assignments of their keys and values, in order, onto the object built so far |
| RoundTrip.PairStep | src/Decoder.ts:108-112 | a key followed by its value reads back as one `value[key] = v` assignment |
| RoundTrip.SortedDistinct | src/encode.ts:176 | keys in strictly increasing compareKeys order are distinct |
| RoundTrip.DecodeOfEncode | src/Decoder.ts:147-149 | `decode(encode(v))` is v's canonical form, and the decoder ends at the encoding's last byte |
| RoundTrip.StreamOfEncodings | src/decodeIterable.ts:114-127 | encodings one after the other up to the end of the stream come back as the values' canonical forms, with no error |
| RoundTrip.StreamDecodes | src/decodeIterable.ts:203-206 | the chunk decoders yield the canonical forms of the encoded values, whatever the chunk split |
| Reencoding.ReencodeCanonical | src/encode.ts:175-182 | a plain value (no text or key starting with U+FEFF, no "__proto__" key) and its canonical form encode to the same bytes |
| Reencoding.DecodeThenEncode | src/Decoder.ts:147-149 | for a plain value, re-encoding what `decode` reads from its encoding reproduces the encoding byte for byte |
| Reencoding.ValidWellFormed | src/encode.ts:176 | every object of a representable value has distinct keys |
| Reencoding.SortedKeysStable | src/encode.ts:176 | keys already in compareKeys order are left in place by sorting |
| Reencoding.ReencodeLosesByteOrderMark | src/Decoder.ts:43-47 | "\uFEFF" encodes as `63 ef bb bf`, reads back as "", and that re-encodes as `60` |
| Reencoding.ReencodeLosesProtoKey | src/Decoder.ts:104-114 | {"__proto__": 1} reads back as an empty object, which re-encodes as `a0`, not as the original bytes |
| DecodingExamples.EightByteArgument | src/decode.ts:55-57 | an 8-byte argument is read alike by both buffered decoders, but decode.ts ends two bytes in instead of nine |
| DecodingExamples.LossyListMisread | src/decode.ts:55-57 | decode.ts reads `82 1b 00 00 00 01 00 00 00 00 01` as [2^32, 0], the Decoder class as [2^32, 1] |
| DecodingExamples.LossyRefusals | src/decode.ts:117-118 | decode.ts rejects the empty byte string and undefined, which the Decoder class reads |
| DecodingExamples.UnsafeIntegerRefused | src/Decoder.ts:77-83 | 2^53 is an UnsafeIntegerError carrying 2^53 for the class decoders and a RangeError for decode.ts |
| DecodingExamples.LossyAcceptsMinusTwoToThe53 | src/decode.ts:110-116 | decode.ts returns −2^53 for argument 2^53−1 of major type 1, which the Decoder class rejects |
| DecodingExamples.NonStringKeyRefused | src/Decoder.ts:109-111 | every decoder rejects {1: 1} |
| DecodingExamples.TruncatedText | src/Decoder.ts:43-47 | a text string cut short is decoded from what is there by the Decoder class, and is "stream ended prematurely" for the chunk decoders |

## Left out

- Floating point. The choice of the narrowest exact float width (`getFloat16Precision`, `getFloat32Precision`), the conversions done by `setFloat16`, `getFloat16` and the DataView float accessors, and the strict-mode NaN and ±Infinity checks of src/decode.ts:11-19 are all left out. A float is its width and raw bits: the encoder writes the bits it is given, and the decoders return the bits they read.
- The JavaScript number behind `Int`. Numbers are mathematical integers. The Infinity that getArgument makes of a 64-bit argument above 2^53−1 is kept as the exact argument. Every check that compares it with the safe range is modelled, and so is the RangeError of `new Uint8Array(Infinity)`. Where JavaScript would go on with Infinity as an offset or a length, the model goes on with the exact number; the two differ only for inputs of 2^53 bytes or more.
- Lone surrogates in JavaScript strings. TextEncoder replaces them with U+FFFD, but a Dafny `char` is a Unicode scalar value, so such strings are not represented.
- Generators and promises. Each encoder writer returns the chunks it would yield, as a sequence. How a consumer interleaves with the generator is not modelled. The asynchronous decoder's awaits are not modelled either, since it pulls chunks one at a time in the same order as the synchronous decoder.
- Buffer aliasing. The encoder's chunks are views into buffers that it later abandons; the model copies their bytes. The chunk decoders' `subarray` views are modelled as copies too.
- Sources. A source is a finite sequence of chunks. An unbounded source, or one whose iterator throws, is not modelled.
- The `onFree` callback. What it does is not part of the model; the log `freed` records what it is given.
- `Decoder.getOffset` (src/Decoder.ts:16-18) is the plain read `BufferedDecoder.Decoder.GetOffset`.
- The options. `chunkSize` is modelled. `noCopy` and the fields of src/options.ts are left out because the encoder never reads them. The `strict` decode option is left out because it only concerns floats.
- The stream adapters (src/CBORDecoderStream.ts, src/CBOREncoderStream.ts) and the iterable wrappers (src/encodeIterable.ts, src/encodeAsyncIterable.ts, src/encodeStream.ts) are not part of this model.
- RoundTrip.EncodingDecodes: for the decode.ts variant, this is stated only for values with no byte strings and no undefined, which that decoder rejects, and with every argument below 2^32, because of its one-byte move after an 8-byte argument.
- Reencoding.DecodeThenEncode: this is stated for inputs the encoder wrote from plain values. A hand-written non-shortest or unsorted encoding decodes without complaint and does not re-encode to itself. A text or key starting with U+FEFF, or a "__proto__" key, does not survive the decode either (`Reencoding.ReencodeLosesByteOrderMark`, `Reencoding.ReencodeLosesProtoKey`).
- Reencoding.ReencodeCanonical: this is stated for plain values only, for the same reason. For other values the canonical form differs and so does its encoding.
- LossyDecoder.DecodeString: src/decode.ts:66-74 reads the string through a DataView over the whole ArrayBuffer behind `data`. When `data` is a subarray, that read can go past its end. The model treats `data` as its own buffer, so there this decoder, like the `Lossy` arm of `Decoding.ReadText`, fails with the out-of-bounds error.
- Values.Assign: assigning an object or null to "__proto__" replaces the prototype in JavaScript. The model leaves the property list unchanged for every value, which is what `Object.keys` and the encoder see. Inherited properties are not modelled.

## Findings

| source | as written | input that shows it | evidently intended | confidence | as-written member | corrected member |
|---|---|---|---|---|---|---|
| src/Decoder.ts:44 | `new TextDecoder().decode(...)` (also src/decode.ts:73, src/decodeIterable.ts:91, src/decodeAsyncIterable.ts:99) uses the default decoder, which removes a leading byte order mark; the decoders are modelled this way | the string "\uFEFF" encodes to `63 ef bb bf` and decodes to "" | text decodes to the string that was encoded (`ignoreBOM: true`) | not executed | Reencoding.ReencodeLosesByteOrderMark | Unicode.DecodeEncode |
| src/encode.ts:206-214 | compareKeys compares UTF-16 lengths, then UTF-16 code units | keys "ﬁa" and "👍": compareKeys puts "👍" first, but `64 ef ac 81 61` is bytewise smaller than `64 f0 9f 91 8d` | keys sorted by the bytewise order of their encodings, as the comment at src/encode.ts:196-205 says and section 4.2.1 of RFC 8949 asks | not executed | Encoding.AdversarialKeys | KeyOrder.ByteKeyOrder |
