/** Decoding what the encoder writes gives the value back: every decoder reads the encoding of
    a value as the value with its objects' properties in compareKeys order, stops right after
    it whatever follows, and the chunk decoders read a run of encodings back as the run of
    values however the bytes are split into chunks. */
module RoundTrip {
  import opened Binary
  import opened Results
  import opened Values
  import Header
  import Unicode
  import opened Encoding
  import opened Decoding
  import opened Occurrence

  /** Values the older decoder reads back: no byte strings and no undefined, which it rejects,
      and no argument of 2^32 or more, which it reads with its 8-byte reader. */
  predicate LossyEncodable(v: Value)
    decreases v
  {
    match v
    case Undefined => false
    case Bytes(_) => false
    case Int(i) => (if i < 0 then -i - 1 else i) < 0x1_0000_0000
    case Text(s) => |Unicode.Encode(s)| < 0x1_0000_0000
    case Array(items) => forall k :: 0 <= k < |items| ==> LossyEncodable(items[k])
    case Map(es) =>
      |es| < 0x1_0000_0000
      && forall k :: 0 <= k < |es| ==> |Unicode.Encode(es[k].0)| < 0x1_0000_0000 && LossyEncodable(es[k].1)
    case _ => true
  }

  /** The values a decoder of the given variant reads back from their encoding. */
  predicate Encodable(v: Value, variant: Variant)
  {
    Valid(v) && (variant == Lossy ==> LossyEncodable(v))
  }

  /** The values of a sequence of encoded elements, as the decoders give them back. */
  function CanonicalItems(items: seq<Value>): (r: seq<Value>)
    ensures |r| == |items| && forall k :: 0 <= k < |items| ==> r[k] == Canonical(items[k])
  {
    seq(|items|, k requires 0 <= k < |items| => Canonical(items[k]))
  }

  /** The argument bytes after an initial byte whose additional information is 24 to 27 read
      back as the number they hold. */
  lemma {:induction false} ArgumentAt(data: seq<byte>, p: nat, ai: nat, variant: Variant, bytes: seq<byte>)
    requires 24 <= ai <= 27 && |bytes| == Header.ArgumentSize(ai) && (variant == Lossy ==> ai < 27)
    requires At(data, p, bytes)
    ensures ReadArgument(data, p, ai, variant) == Ok((FromBigEndian(bytes), p + |bytes|))
  {
    SliceAt(data, p, bytes);
  }

  /** A head the encoder writes reads back as its major type and argument, and the reader
      ends just after it. */
  lemma {:induction false} HeadAt(data: seq<byte>, off: nat, major: nat, arg: nat, variant: Variant)
    requires major < 8 && arg < 0x1_0000_0000_0000_0000
    requires variant == Lossy ==> arg < 0x1_0000_0000
    requires At(data, off, Header.Encode(major, arg))
    ensures off < |data| && data[off] / 32 == major
    ensures ReadArgument(data, off + 1, data[off] % 32, variant) == Ok((arg, off + |Header.Encode(major, arg)|))
  {
    Header.EncodeShape(major, arg);
    HeadBytesAt(data, off, Header.Encode(major, arg), major, Header.AdditionalInformation(arg), arg, variant);
  }

  /** The bytes of a head, an initial byte and the argument bytes its additional information
      calls for, read back as the major type and argument. */
  lemma {:induction false} HeadBytesAt(data: seq<byte>, off: nat, h: seq<byte>, major: nat, ai: nat, arg: nat,
                                       variant: Variant)
    requires |h| == 1 + Header.ArgumentSize(ai) && h[0] / 32 == major && h[0] % 32 == ai
    requires ai < 24 ==> ai == arg
    requires ai >= 24 ==> FromBigEndian(h[1..]) == arg
    requires ai <= 27 && (variant == Lossy ==> ai < 27)
    requires At(data, off, h)
    ensures off < |data| && data[off] / 32 == major
    ensures ReadArgument(data, off + 1, data[off] % 32, variant) == Ok((arg, off + |h|))
  {
    assert h == [h[0]] + h[1..];
    AtConcat(data, off, [h[0]], h[1..]);
    if ai >= 24 {
      ArgumentAt(data, off + 1, ai, variant, h[1..]);
    }
  }

  /** A string's UTF-8 length fits in a 64-bit argument. */
  lemma {:induction false} TextHead(s: string)
    requires ValidText(s)
    ensures |Unicode.Encode(s)| < 0x1_0000_0000_0000_0000
  {
    Unicode.ByteLengthBound(s);
  }

  /** Decoding the encoding of a value gives the value, its objects' properties in compareKeys
      order, wherever the encoding occurs, and ends just after the encoding: nothing after it
      is read. */
  lemma {:induction false} EncodingDecodes(v: Value, data: seq<byte>, variant: Variant)
    requires Encodable(v, variant)
    ensures Decodes(data, EncodeValue(v), Canonical(v), variant)
    decreases v, 2
  {
    if v.Array? {
      ArrayDecodes(v, data, variant);
    } else if v.Map? {
      MapDecodes(v, data, variant);
    } else {
      ScalarDecodes(v, data, variant);
    }
  }

  /** A value other than a list or an object reads back as itself, a text less a leading byte
      order mark, wherever it occurs. */
  lemma {:induction false} ScalarDecodes(v: Value, data: seq<byte>, variant: Variant)
    requires !v.Array? && !v.Map? && Encodable(v, variant)
    ensures Decodes(data, EncodeValue(v), Canonical(v), variant)
  {
    forall off: nat | At(data, off, EncodeValue(v))
      ensures ReadsAs(data, off, variant, Canonical(v), off + |EncodeValue(v)|)
    {
      ScalarAt(v, data, off, variant, Canonical(v), EncodeValue(v));
    }
  }

  /** A value other than a list or an object, encoded as `enc`, reads back as `c`: itself, a
      text less a leading byte order mark. */
  lemma {:induction false} ScalarAt(v: Value, data: seq<byte>, off: nat, variant: Variant, c: Value, enc: seq<byte>)
    requires !v.Array? && !v.Map? && Encodable(v, variant)
    requires c == Canonical(v) && enc == EncodeValue(v) && At(data, off, enc)
    ensures ReadsAs(data, off, variant, c, off + |enc|)
  {
    if v.Int? {
      IntAt(v, data, off, variant, c, enc);
    } else if v.Float? {
      FloatValueAt(v, data, off, variant, c, enc);
    } else if v.Text? {
      TextValueAt(v, data, off, variant, c, enc);
    } else if v.Bytes? {
      BytesValueAt(v, data, off, variant, c, enc);
    } else {
      ConstantAt(v, data, off, variant, c, enc);
    }
  }

  /** false, true, null and undefined read back as themselves. */
  lemma {:induction false} ConstantAt(v: Value, data: seq<byte>, off: nat, variant: Variant, c: Value, enc: seq<byte>)
    requires (v.Bool? || v.Null? || v.Undefined?) && Encodable(v, variant)
    requires c == Canonical(v) && enc == EncodeValue(v) && At(data, off, enc)
    ensures ReadsAs(data, off, variant, c, off + |enc|)
  {
    match v
    case Undefined =>
      assert data[off] == 0xF7;
      ItemOfSimple(data, off, variant);
    case Null =>
      assert data[off] == 0xF6;
      ItemOfSimple(data, off, variant);
    case Bool(b) =>
      assert data[off] == if b then 0xF5 else 0xF4;
      ItemOfSimple(data, off, variant);
  }

  lemma {:induction false} IntAt(v: Value, data: seq<byte>, off: nat, variant: Variant, c: Value, enc: seq<byte>)
    requires v.Int? && Encodable(v, variant)
    requires c == Canonical(v) && enc == EncodeValue(v) && At(data, off, enc)
    ensures ReadsAs(data, off, variant, c, off + |enc|)
  {
    assert c == Int(v.i) && enc == EncodeInteger(v.i);
    IntegerAt(v.i, data, off, variant);
    SameReading(data, off, variant, Int(v.i), off + |EncodeInteger(v.i)|, c, off + |enc|);
  }

  lemma {:induction false} FloatValueAt(v: Value, data: seq<byte>, off: nat, variant: Variant, c: Value, enc: seq<byte>)
    requires v.Float? && Encodable(v, variant)
    requires c == Canonical(v) && enc == EncodeValue(v) && At(data, off, enc)
    ensures ReadsAs(data, off, variant, c, off + |enc|)
  {
    assert c == Float(v.f) && enc == EncodeFloat(v.f);
    FloatAt(v.f, data, off, variant);
    SameReading(data, off, variant, Float(v.f), off + |EncodeFloat(v.f)|, c, off + |enc|);
  }

  lemma {:induction false} TextValueAt(v: Value, data: seq<byte>, off: nat, variant: Variant, c: Value, enc: seq<byte>)
    requires v.Text? && Encodable(v, variant)
    requires c == Canonical(v) && enc == EncodeValue(v) && At(data, off, enc)
    ensures ReadsAs(data, off, variant, c, off + |enc|)
  {
    var s := v.s;
    TextValueParts(v, s, variant);
    TextReadAt(s, data, off, variant, c, enc);
  }

  /** A text string, under whatever names its decoded value and its encoding go by, reads
      back less a leading byte order mark. */
  lemma {:induction false} TextReadAt(s: string, data: seq<byte>, off: nat, variant: Variant, c: Value, enc: seq<byte>)
    requires c == Text(Unicode.DropByteOrderMark(s)) && enc == EncodeText(s) && TextEncodable(s, variant)
    requires At(data, off, enc)
    ensures ReadsAs(data, off, variant, c, off + |enc|)
  {
    TextDecodes(s, data, variant);
    UseDecodes(data, enc, c, variant, off, off + |enc|);
  }

  /** A text value reads back as its string less a leading byte order mark, and encodes as
      its string. */
  lemma TextValueParts(v: Value, s: string, variant: Variant)
    requires v == Text(s) && Encodable(v, variant)
    ensures Canonical(v) == Text(Unicode.DropByteOrderMark(s)) && EncodeValue(v) == EncodeText(s)
    ensures TextEncodable(s, variant)
  {
  }

  lemma {:induction false} BytesValueAt(v: Value, data: seq<byte>, off: nat, variant: Variant, c: Value, enc: seq<byte>)
    requires v.Bytes? && Encodable(v, variant)
    requires c == Canonical(v) && enc == EncodeValue(v) && At(data, off, enc)
    ensures ReadsAs(data, off, variant, c, off + |enc|)
  {
    var d := v.data;
    BytesValueParts(v, d, variant);
    BytesReadAt(d, data, off, variant, c, enc);
  }

  /** A byte string, under whatever names its value and its encoding go by, reads back as
      itself. */
  lemma {:induction false} BytesReadAt(d: seq<byte>, data: seq<byte>, off: nat, variant: Variant, c: Value, enc: seq<byte>)
    requires c == Bytes(d) && enc == EncodeBytes(d) && variant != Lossy && |d| <= MaxSafeInteger
    requires At(data, off, enc)
    ensures ReadsAs(data, off, variant, c, off + |enc|)
  {
    BytesPartsAt(data, off, enc, d, off + |enc|, variant);
  }

  /** A byte-string value reads back as itself and encodes as its bytes. */
  lemma BytesValueParts(v: Value, d: seq<byte>, variant: Variant)
    requires v == Bytes(d) && Encodable(v, variant)
    ensures Canonical(v) == Bytes(d) && EncodeValue(v) == EncodeBytes(d)
    ensures variant != Lossy && |d| <= MaxSafeInteger
  {
  }

  /** A safe integer reads back as itself. */
  lemma {:induction false} IntegerAt(i: int, data: seq<byte>, off: nat, variant: Variant)
    requires IsSafeInteger(i) && (variant == Lossy ==> (if i < 0 then -i - 1 else i) < 0x1_0000_0000)
    requires At(data, off, EncodeInteger(i))
    ensures ReadsAs(data, off, variant, Int(i), off + |EncodeInteger(i)|)
  {
    var enc := EncodeInteger(i);
    if i < 0 {
      var n := -i - 1;
      assert enc == Header.Encode(1, n) && i == -1 - n;
      NegativeAt(n, data, off, variant);
    } else {
      assert enc == Header.Encode(0, i);
      UnsignedAt(i, data, off, variant);
    }
  }

  /** The head of major type 0 with a safe argument reads back as that integer. */
  lemma {:induction false} UnsignedAt(n: nat, data: seq<byte>, off: nat, variant: Variant)
    requires n <= MaxSafeInteger && (variant == Lossy ==> n < 0x1_0000_0000)
    requires At(data, off, Header.Encode(0, n))
    ensures ReadsAs(data, off, variant, Int(n), off + |Header.Encode(0, n)|)
  {
    HeadAt(data, off, 0, n, variant);
    UnsignedItem(data, off, variant, n, off + |Header.Encode(0, n)|);
  }

  /** The head of major type 1 with a safe argument n reads back as −1 − n. */
  lemma {:induction false} NegativeAt(n: nat, data: seq<byte>, off: nat, variant: Variant)
    requires n < MaxSafeInteger && (variant == Lossy ==> n < 0x1_0000_0000)
    requires At(data, off, Header.Encode(1, n))
    ensures ReadsAs(data, off, variant, Int(-1 - n), off + |Header.Encode(1, n)|)
  {
    HeadAt(data, off, 1, n, variant);
    NegativeItem(data, off, variant, n, off + |Header.Encode(1, n)|);
  }

  /** A float reads back as the same width and bits. */
  lemma {:induction false} FloatAt(f: FloatBits, data: seq<byte>, off: nat, variant: Variant)
    requires f.payload < Pow256(FloatSize(f.width)) && At(data, off, EncodeFloat(f))
    ensures ReadsAs(data, off, variant, Float(f), off + |EncodeFloat(f)|)
  {
    var e := EncodeFloat(f);
    assert e == [e[0]] + e[1..];
    AtConcat(data, off, [e[0]], e[1..]);
    ItemOfSimple(data, off, variant);
    FloatBytesAt(f, data, off + 1, variant);
  }

  /** The payload bytes of a float read back as the same width and bits. */
  lemma {:induction false} FloatBytesAt(f: FloatBits, data: seq<byte>, p: nat, variant: Variant)
    requires f.payload < Pow256(FloatSize(f.width)) && At(data, p, BigEndian(f.payload, FloatSize(f.width)))
    ensures Simple(data, p, FloatInfo(f.width), variant) == Ok((Float(f), p + FloatSize(f.width)))
  {
    var n := FloatSize(f.width);
    SliceAt(data, p, BigEndian(f.payload, n));
    FromToBigEndian(f.payload, n);
    assert Simple(data, p, FloatInfo(f.width), variant) == ReadFloat(data, p, f.width, variant) by {
      match f.width {
        case Half => assert FloatInfo(f.width) == 25;
        case Single => assert FloatInfo(f.width) == 26;
        case Double => assert FloatInfo(f.width) == 27;
      }
    }
  }

  /** The strings the decoder of the given variant reads back. */
  predicate TextEncodable(s: string, variant: Variant)
  {
    ValidText(s) && (variant == Lossy ==> |Unicode.Encode(s)| < 0x1_0000_0000)
  }

  /** A text string reads back as the same string, except that the default TextDecoder drops
      a leading byte order mark. */
  lemma {:induction false} TextAt(s: string, data: seq<byte>, off: nat, variant: Variant, t: string, end: nat)
    requires TextEncodable(s, variant) && At(data, off, EncodeText(s))
    requires t == Unicode.DropByteOrderMark(s) && end == off + |EncodeText(s)|
    ensures ReadsAs(data, off, variant, Text(t), end)
  {
    var d := Unicode.Encode(s);
    TextHead(s);
    Unicode.TextDecoderDecodeEncode(s);
    TextPartsAt(data, off, EncodeText(s), d, t, end, variant);
  }

  /** A head of major type 3 followed by bytes that TextDecoder turns into `s` reads back as
      `s`. */
  lemma {:induction false} TextPartsAt(data: seq<byte>, off: nat, enc: seq<byte>, d: seq<byte>, s: string, end: nat,
                                       variant: Variant)
    requires |d| < 0x1_0000_0000_0000_0000 && (variant == Lossy ==> |d| < 0x1_0000_0000)
    requires enc == Header.Encode(3, |d|) + d && Unicode.TextDecoderDecode(d) == s && end == off + |enc|
    requires At(data, off, enc)
    ensures ReadsAs(data, off, variant, Text(s), end)
  {
    var h := Header.Encode(3, |d|);
    var next := off + |h|;
    AtConcat(data, off, h, d);
    HeadAt(data, off, 3, |d|, variant);
    SliceAt(data, next, d);
    TextItem(data, off, variant, next, d);
    SameReading(data, off, variant, Text(Unicode.TextDecoderDecode(d)), next + |d|, Text(s), end);
  }

  /** A text string reads back, less a leading byte order mark, wherever it occurs. */
  lemma {:induction false} TextDecodes(s: string, data: seq<byte>, variant: Variant)
    requires TextEncodable(s, variant)
    ensures Decodes(data, EncodeText(s), Text(Unicode.DropByteOrderMark(s)), variant)
  {
    forall off: nat | At(data, off, EncodeText(s))
      ensures ReadsAs(data, off, variant, Text(Unicode.DropByteOrderMark(s)), off + |EncodeText(s)|)
    {
      TextAt(s, data, off, variant, Unicode.DropByteOrderMark(s), off + |EncodeText(s)|);
    }
  }

  /** A byte string reads back as the same bytes. */
  lemma {:induction false} BytesAt(d: seq<byte>, data: seq<byte>, off: nat, variant: Variant)
    requires variant != Lossy && |d| <= MaxSafeInteger && At(data, off, EncodeBytes(d))
    ensures ReadsAs(data, off, variant, Bytes(d), off + |EncodeBytes(d)|)
  {
    BytesPartsAt(data, off, EncodeBytes(d), d, off + |EncodeBytes(d)|, variant);
  }

  /** A head of major type 2 followed by the bytes it counts reads back as those bytes. */
  lemma {:induction false} BytesPartsAt(data: seq<byte>, off: nat, enc: seq<byte>, d: seq<byte>, end: nat,
                                        variant: Variant)
    requires variant != Lossy && |d| <= MaxSafeInteger
    requires enc == Header.Encode(2, |d|) + d && end == off + |enc|
    requires At(data, off, enc)
    ensures ReadsAs(data, off, variant, Bytes(d), end)
  {
    var h := Header.Encode(2, |d|);
    AtConcat(data, off, h, d);
    HeadAt(data, off, 2, |d|, variant);
    SliceAt(data, off + |h|, d);
    BytesItem(data, off, variant, off + |h|, d);
    SameReading(data, off, variant, Bytes(d), off + |h| + |d|, Bytes(d), end);
  }

  /** A list reads back as its elements, each read back. */
  lemma {:induction false} ArrayDecodes(v: Value, data: seq<byte>, variant: Variant)
    requires v.Array? && Encodable(v, variant)
    ensures Decodes(data, EncodeValue(v), Canonical(v), variant)
    decreases v, 1
  {
    var items := v.items;
    var encs, vals := ItemEncodings(items), CanonicalItems(items);
    assert |items| < 0x1_0000_0000 && forall k :: 0 <= k < |items| ==> Encodable(items[k], variant);
    forall k | 0 <= k < |items| ensures Decodes(data, encs[k], vals[k], variant) {
      EncodingDecodes(items[k], data, variant);
    }
    EachDecodes(encs, vals, data, variant);
    ArrayEncoding(items);
    assert Canonical(v).items == vals;
    ListDecodes(encs, vals, data, variant);
  }

  lemma {:induction false} EachDecodes(encs: seq<seq<byte>>, vals: seq<Value>, data: seq<byte>, variant: Variant)
    requires |encs| == |vals| && forall k :: 0 <= k < |encs| ==> Decodes(data, encs[k], vals[k], variant)
    ensures AllDecode(data, encs, vals, variant)
    decreases |encs|
  {
    if encs != [] {
      forall k | 0 <= k < |encs| - 1 ensures Decodes(data, encs[1..][k], vals[1..][k], variant) {
        assert encs[1..][k] == encs[k + 1] && vals[1..][k] == vals[k + 1];
      }
      EachDecodes(encs[1..], vals[1..], data, variant);
    }
  }

  /** A list head followed by encodings that each read back as a value reads back as the list
      of those values. */
  lemma {:induction false} ListDecodes(encs: seq<seq<byte>>, vals: seq<Value>, data: seq<byte>, variant: Variant)
    requires |encs| < 0x1_0000_0000 && AllDecode(data, encs, vals, variant)
    ensures Decodes(data, Header.Encode(4, |encs|) + Flatten(encs), Array(vals), variant)
  {
    forall off: nat | At(data, off, Header.Encode(4, |encs|) + Flatten(encs))
      ensures ReadsAs(data, off, variant, Array(vals), off + |Header.Encode(4, |encs|) + Flatten(encs)|)
    {
      ListBodyAt(encs, vals, data, off, variant);
    }
  }

  /** A list head followed by encodings that each read back as a value reads back as the list
      of those values where it occurs. */
  lemma {:induction false} ListBodyAt(encs: seq<seq<byte>>, vals: seq<Value>, data: seq<byte>, off: nat, variant: Variant)
    requires |encs| < 0x1_0000_0000 && AllDecode(data, encs, vals, variant)
    requires At(data, off, Header.Encode(4, |encs|) + Flatten(encs))
    ensures ReadsAs(data, off, variant, Array(vals), off + |Header.Encode(4, |encs|) + Flatten(encs)|)
  {
    var h := Header.Encode(4, |encs|);
    AtConcat(data, off, h, Flatten(encs));
    assert [] + vals == vals;
    ItemsAt(encs, vals, data, off + |h|, [], variant, Ok((vals, off + |h + Flatten(encs)|)));
    ListAt(data, off, |encs|, off + |h|, variant, vals, off + |h + Flatten(encs)|);
  }

  /** A list head whose loop reads the elements reads as the list of them. */
  lemma {:induction false} ListAt(data: seq<byte>, off: nat, count: nat, body: nat, variant: Variant,
                                  items: seq<Value>, next: nat)
    requires count < 0x1_0000_0000 && At(data, off, Header.Encode(4, count))
    requires body == off + |Header.Encode(4, count)|
    requires ItemsEnd(data, body, count, [], variant, Ok((items, next)))
    ensures ReadsAs(data, off, variant, Array(items), next)
  {
    HeadAt(data, off, 4, count, variant);
    ArrayItem(data, off, variant, count, body, items, next);
  }

  /** The list loop over encodings that each read back as a value ends with `outcome`: the
      values read so far followed by those values, just after the last encoding. */
  lemma {:induction false} ItemsAt(encs: seq<seq<byte>>, vals: seq<Value>, data: seq<byte>, off: nat,
                                   acc: seq<Value>, variant: Variant, outcome: Result<(seq<Value>, nat)>)
    requires AllDecode(data, encs, vals, variant) && At(data, off, Flatten(encs))
    requires outcome == Ok((acc + vals, off + |Flatten(encs)|))
    ensures ItemsEnd(data, off, |encs|, acc, variant, outcome)
    decreases |encs|
  {
    if encs == [] {
      assert acc + vals == acc;
    } else {
      var next := off + |encs[0]|;
      AtConcat(data, off, encs[0], Flatten(encs[1..]));
      assert (acc + [vals[0]]) + vals[1..] == acc + vals;
      ItemsAt(encs[1..], vals[1..], data, next, acc + [vals[0]], variant, outcome);
      ItemThen(data, off, |encs|, |encs[1..]|, acc, variant, encs[0], vals[0], next, outcome);
    }
  }

  /** One pass of the list loop over an encoding that reads back as `v`, to the outcome of the
      rest of the loop. */
  lemma {:induction false} ItemThen(data: seq<byte>, off: nat, count: nat, rest: nat, acc: seq<Value>,
                                    variant: Variant, enc: seq<byte>, v: Value, next: nat,
                                    outcome: Result<(seq<Value>, nat)>)
    requires count == rest + 1 && Decodes(data, enc, v, variant) && At(data, off, enc) && next == off + |enc|
    requires ItemsEnd(data, next, rest, acc + [v], variant, outcome)
    ensures ItemsEnd(data, off, count, acc, variant, outcome)
  {
    UseDecodes(data, enc, v, variant, off, next);
    ItemsStep(data, off, count, acc, variant, v, next, rest, outcome);
  }

  /** The keys and values of an object can each be read back. */
  predicate EntriesEncodable(es: seq<(string, Value)>, variant: Variant)
  {
    forall k :: 0 <= k < |es| ==> TextEncodable(es[k].0, variant) && Encodable(es[k].1, variant)
  }

  /** What an encodable object demands of its properties. */
  lemma {:induction false} EncodableEntries(es: seq<(string, Value)>, variant: Variant)
    requires Encodable(Map(es), variant)
    ensures DistinctKeys(es) && |es| <= MaxSafeInteger && (variant == Lossy ==> |es| < 0x1_0000_0000)
    ensures EntriesEncodable(es, variant)
  {
  }

  /** Keys in strictly increasing compareKeys order are distinct. */
  lemma {:induction false} SortedDistinct(keys: seq<string>)
    requires StrictlySorted(keys)
    ensures NoDuplicates(keys)
  {
    forall i, j | 0 <= i < j < |keys| ensures keys[i] != keys[j] {
      KeyLessIsStrictTotalOrder(keys[i], keys[i], keys[i]);
    }
  }

  /** The key encodings of an object, in compareKeys order. */
  function KeyEncodings(keys: seq<string>): (r: seq<seq<byte>>)
    ensures |r| == |keys| && forall k :: 0 <= k < |keys| ==> r[k] == EncodeText(keys[k])
  {
    seq(|keys|, k requires 0 <= k < |keys| => EncodeText(keys[k]))
  }

  /** The encodings of the values an object holds for the given keys. */
  function ValueEncodings(es: seq<(string, Value)>, keys: seq<string>): (r: seq<seq<byte>>)
    ensures |r| == |keys| && forall k :: 0 <= k < |keys| ==> r[k] == EncodeValue(Lookup(es, keys[k]))
  {
    seq(|keys|, k requires 0 <= k < |keys| => EncodeValue(Lookup(es, keys[k])))
  }

  /** The values decoding gives for the values an object holds for the given keys. */
  function CanonicalValues(es: seq<(string, Value)>, keys: seq<string>): (r: seq<Value>)
    ensures |r| == |keys| && forall k :: 0 <= k < |keys| ==> r[k] == Canonical(Lookup(es, keys[k]))
  {
    seq(|keys|, k requires 0 <= k < |keys| => Canonical(Lookup(es, keys[k])))
  }

  /** The keys as the decoders read them back: without a leading byte order mark. */
  function DecodedKeys(keys: seq<string>): (r: seq<string>)
    ensures |r| == |keys| && forall k :: 0 <= k < |keys| ==> r[k] == Unicode.DropByteOrderMark(keys[k])
  {
    seq(|keys|, k requires 0 <= k < |keys| => Unicode.DropByteOrderMark(keys[k]))
  }

  /** Keys paired with values. */
  function Fields(keys: seq<string>, vals: seq<Value>): (r: seq<(string, Value)>)
    requires |keys| == |vals|
    ensures |r| == |keys| && forall k :: 0 <= k < |keys| ==> r[k] == (keys[k], vals[k])
  {
    seq(|keys|, k requires 0 <= k < |keys| => (keys[k], vals[k]))
  }

  /** Each key encoding followed by its value encoding. */
  function Pairs(kencs: seq<seq<byte>>, vencs: seq<seq<byte>>): (r: seq<seq<byte>>)
    requires |kencs| == |vencs|
    ensures |r| == |kencs| && forall k :: 0 <= k < |kencs| ==> r[k] == kencs[k] + vencs[k]
  {
    seq(|kencs|, k requires 0 <= k < |kencs| => kencs[k] + vencs[k])
  }

  /** Every sorted key is a key of the object. */
  lemma {:induction false} SortedKeysFound(es: seq<(string, Value)>, k: nat)
    requires k < |SortKeys(Keys(es))|
    ensures Find(es, SortKeys(Keys(es))[k]) < |es|
  {
    var key := SortKeys(Keys(es))[k];
    assert key in multiset(Keys(es));
    var m :| 0 <= m < |es| && Keys(es)[m] == key;
    assert es[m].0 == key;
    FindFirst(es, key);
  }

  /** An object's encoding and the object decoding gives back, assembled from its sorted keys
      and the values it holds for them. */
  lemma {:induction false} MapParts(es: seq<(string, Value)>, keys: seq<string>)
    requires keys == SortKeys(Keys(es))
    ensures Pairs(KeyEncodings(keys), ValueEncodings(es, keys)) == FieldEncodings(es)
    ensures Canonical(Map(es)) == Map(AssignAll([], Fields(DecodedKeys(keys), CanonicalValues(es, keys))))
  {
    MapFieldParts(es, keys);
    MapCanonicalParts(es, keys);
  }

  lemma {:induction false} MapFieldParts(es: seq<(string, Value)>, keys: seq<string>)
    requires keys == SortKeys(Keys(es))
    ensures Pairs(KeyEncodings(keys), ValueEncodings(es, keys)) == FieldEncodings(es)
  {
  }

  lemma {:induction false} MapCanonicalParts(es: seq<(string, Value)>, keys: seq<string>)
    requires keys == SortKeys(Keys(es))
    ensures Canonical(Map(es)) == Map(AssignAll([], Fields(DecodedKeys(keys), CanonicalValues(es, keys))))
  {
    CanonicalFieldsAt(es, keys);
    assert CanonicalFields(es, keys) == Fields(DecodedKeys(keys), CanonicalValues(es, keys));
  }

  /** An object reads back as its properties assigned in compareKeys order into an empty
      object, each key and value read back. */
  lemma {:induction false} MapDecodes(v: Value, data: seq<byte>, variant: Variant)
    requires v.Map? && Encodable(v, variant)
    ensures Decodes(data, EncodeValue(v), Canonical(v), variant)
    decreases v, 1
  {
    var es := v.entries;
    EncodableEntries(es, variant);
    var keys := SortKeys(Keys(es));
    var kencs, vencs, vals := KeyEncodings(keys), ValueEncodings(es, keys), CanonicalValues(es, keys);
    var dkeys := DecodedKeys(keys);
    MapEncoding(es);
    MapParts(es, keys);
    EntryPartsDecode(v, keys, data, variant);
    EachEntryDecodes(dkeys, kencs, vals, vencs, data, variant);
    ObjectDecodes(dkeys, kencs, vals, vencs, data, variant, Canonical(v), EncodeValue(v));
  }

  /** Each sorted key of an object, less a leading byte order mark, and the value the object
      holds for it, read back. */
  lemma {:induction false} EntryPartsDecode(v: Value, keys: seq<string>, data: seq<byte>, variant: Variant)
    requires v.Map? && EntriesEncodable(v.entries, variant) && keys == SortKeys(Keys(v.entries))
    ensures forall k :: 0 <= k < |keys| ==>
      Decodes(data, KeyEncodings(keys)[k], Text(DecodedKeys(keys)[k]), variant)
      && Decodes(data, ValueEncodings(v.entries, keys)[k], CanonicalValues(v.entries, keys)[k], variant)
    decreases v, 0
  {
    var es := v.entries;
    forall k | 0 <= k < |keys|
      ensures Decodes(data, EncodeText(keys[k]), Text(Unicode.DropByteOrderMark(keys[k])), variant)
      ensures Decodes(data, EncodeValue(Lookup(es, keys[k])), Canonical(Lookup(es, keys[k])), variant)
    {
      SortedKeysFound(es, k);
      var j := Find(es, keys[k]);
      assert es[j].0 == keys[k] && Lookup(es, keys[k]) == es[j].1;
      TextDecodes(keys[k], data, variant);
      EncodingDecodes(es[j].1, data, variant);
    }
  }

  lemma {:induction false} EachEntryDecodes(keys: seq<string>, kencs: seq<seq<byte>>, vals: seq<Value>,
                                            vencs: seq<seq<byte>>, data: seq<byte>, variant: Variant)
    requires |kencs| == |keys| && |vals| == |keys| && |vencs| == |keys|
    requires forall k :: 0 <= k < |keys| ==>
      Decodes(data, kencs[k], Text(keys[k]), variant) && Decodes(data, vencs[k], vals[k], variant)
    ensures AllEntriesDecode(data, keys, kencs, vals, vencs, variant)
    decreases |keys|
  {
    if keys != [] {
      forall k | 0 <= k < |keys| - 1
        ensures Decodes(data, kencs[1..][k], Text(keys[1..][k]), variant)
        ensures Decodes(data, vencs[1..][k], vals[1..][k], variant)
      {
        assert kencs[1..][k] == kencs[k + 1] && keys[1..][k] == keys[k + 1];
        assert vencs[1..][k] == vencs[k + 1] && vals[1..][k] == vals[k + 1];
      }
      EachEntryDecodes(keys[1..], kencs[1..], vals[1..], vencs[1..], data, variant);
    }
  }

  /** An object head followed by key and value encodings that each read back reads back as
      those keys and values assigned in order into an empty object. */
  lemma {:induction false} ObjectDecodes(keys: seq<string>, kencs: seq<seq<byte>>, vals: seq<Value>, vencs: seq<seq<byte>>,
                                         data: seq<byte>, variant: Variant, m: Value, enc: seq<byte>)
    requires AllEntriesDecode(data, keys, kencs, vals, vencs, variant)
    requires |keys| <= MaxSafeInteger && (variant == Lossy ==> |keys| < 0x1_0000_0000)
    requires m == Map(AssignAll([], Fields(keys, vals)))
    requires enc == Header.Encode(5, |keys|) + Flatten(Pairs(kencs, vencs))
    ensures Decodes(data, enc, m, variant)
  {
    forall off: nat | At(data, off, enc)
      ensures ReadsAs(data, off, variant, m, off + |enc|)
    {
      ObjectBodyAt(keys, kencs, vals, vencs, data, off, variant, m, Header.Encode(5, |keys|), Flatten(Pairs(kencs, vencs)));
    }
  }

  /** An object head followed by key and value encodings that each read back reads back, where
      it occurs, as those keys and values assigned in order into an empty object. */
  lemma {:induction false} ObjectBodyAt(keys: seq<string>, kencs: seq<seq<byte>>, vals: seq<Value>,
                                        vencs: seq<seq<byte>>, data: seq<byte>, off: nat, variant: Variant,
                                        m: Value, h: seq<byte>, body: seq<byte>)
    requires AllEntriesDecode(data, keys, kencs, vals, vencs, variant)
    requires |keys| <= MaxSafeInteger && (variant == Lossy ==> |keys| < 0x1_0000_0000)
    requires m == Map(AssignAll([], Fields(keys, vals)))
    requires h == Header.Encode(5, |keys|) && body == Flatten(Pairs(kencs, vencs)) && At(data, off, h + body)
    ensures ReadsAs(data, off, variant, m, off + |h + body|)
  {
    var entries, start, next := AssignAll([], Fields(keys, vals)), off + |h|, off + |h + body|;
    ObjectEntriesAt(keys, kencs, vals, vencs, data, off, variant, entries, h, body);
    ObjectAt(data, off, |keys|, h, start, variant, m, entries, next);
  }

  /** The entries after an object head read back as the keys and values assigned in order into
      an empty object. */
  lemma {:induction false} ObjectEntriesAt(keys: seq<string>, kencs: seq<seq<byte>>, vals: seq<Value>,
                                           vencs: seq<seq<byte>>, data: seq<byte>, off: nat, variant: Variant,
                                           entries: seq<(string, Value)>, h: seq<byte>, body: seq<byte>)
    requires AllEntriesDecode(data, keys, kencs, vals, vencs, variant)
    requires entries == AssignAll([], Fields(keys, vals))
    requires body == Flatten(Pairs(kencs, vencs)) && At(data, off, h + body)
    ensures At(data, off, h)
    ensures EntriesEnd(data, off + |h|, |keys|, [], variant, Ok((entries, off + |h + body|)))
  {
    AtConcat(data, off, h, body);
    EntriesAt(keys, kencs, vals, vencs, data, off + |h|, [], variant, Ok((entries, off + |h + body|)));
  }

  /** An object head whose loop reads the entries reads as the object of them. */
  lemma {:induction false} ObjectAt(data: seq<byte>, off: nat, count: nat, h: seq<byte>, body: nat, variant: Variant,
                                    m: Value, entries: seq<(string, Value)>, next: nat)
    requires count <= MaxSafeInteger && (variant == Lossy ==> count < 0x1_0000_0000)
    requires h == Header.Encode(5, count) && At(data, off, h) && body == off + |h|
    requires EntriesEnd(data, body, count, [], variant, Ok((entries, next))) && m == Map(entries)
    ensures ReadsAs(data, off, variant, m, next)
  {
    HeadAt(data, off, 5, count, variant);
    MapItem(data, off, variant, count, body, entries, next);
  }

  /** A key encoding and a value encoding, one after the other, read back as the key and the
      value. */
  lemma {:induction false} PairAt(data: seq<byte>, off: nat, key: string, kenc: seq<byte>, v: Value, venc: seq<byte>,
                                  mid: nat, after: nat, variant: Variant)
    requires Decodes(data, kenc, Text(key), variant) && Decodes(data, venc, v, variant)
    requires At(data, off, kenc + venc) && mid == off + |kenc| && after == mid + |venc|
    ensures ReadsAs(data, off, variant, Text(key), mid)
    ensures ReadsAs(data, mid, variant, v, after)
  {
    AtConcat(data, off, kenc, venc);
    UseDecodes(data, kenc, Text(key), variant, off, mid);
    UseDecodes(data, venc, v, variant, mid, after);
  }

  /** The first pair of encodings and the rest of them. */
  lemma {:induction false} PairsSplit(kencs: seq<seq<byte>>, vencs: seq<seq<byte>>)
    requires |kencs| == |vencs| && kencs != []
    ensures Flatten(Pairs(kencs, vencs)) == (kencs[0] + vencs[0]) + Flatten(Pairs(kencs[1..], vencs[1..]))
  {
    var body := Pairs(kencs, vencs);
    assert body[1..] == Pairs(kencs[1..], vencs[1..]);
  }

  /** Assigning the fields: the first one, then the rest. */
  lemma {:induction false} AssignAllSplit(acc: seq<(string, Value)>, keys: seq<string>, vals: seq<Value>)
    requires |keys| == |vals| && keys != []
    ensures AssignAll(Assign(acc, keys[0], vals[0]), Fields(keys[1..], vals[1..])) == AssignAll(acc, Fields(keys, vals))
  {
    assert Fields(keys, vals)[1..] == Fields(keys[1..], vals[1..]);
  }

  /** One pass of the object loop over a key encoding and a value encoding that read back,
      assigning the value under the key, to the outcome of the rest of the loop. */
  lemma {:induction false} PairStep(data: seq<byte>, off: nat, key: string, kenc: seq<byte>, v: Value,
                                    venc: seq<byte>, after: nat, count: nat, rest: nat,
                                    acc: seq<(string, Value)>, variant: Variant,
                                    outcome: Result<(seq<(string, Value)>, nat)>)
    requires count == rest + 1
    requires Decodes(data, kenc, Text(key), variant) && Decodes(data, venc, v, variant)
    requires At(data, off, kenc + venc) && after == off + |kenc| + |venc|
    requires EntriesEnd(data, after, rest, Assign(acc, key, v), variant, outcome)
    ensures EntriesEnd(data, off, count, acc, variant, outcome)
  {
    var mid := off + |kenc|;
    PairAt(data, off, key, kenc, v, venc, mid, after, variant);
    EntryStep(data, off, count, rest, acc, variant, key, mid, v, after, outcome);
  }

  /** The object loop over key and value encodings that each read back ends with `outcome`:
      the keys and values assigned into `acc` in order, just after the last encoding. */
  lemma {:induction false} EntriesAt(keys: seq<string>, kencs: seq<seq<byte>>, vals: seq<Value>, vencs: seq<seq<byte>>,
                                     data: seq<byte>, off: nat, acc: seq<(string, Value)>, variant: Variant,
                                     outcome: Result<(seq<(string, Value)>, nat)>)
    requires AllEntriesDecode(data, keys, kencs, vals, vencs, variant)
    requires At(data, off, Flatten(Pairs(kencs, vencs)))
    requires outcome == Ok((AssignAll(acc, Fields(keys, vals)), off + |Flatten(Pairs(kencs, vencs))|))
    ensures EntriesEnd(data, off, |keys|, acc, variant, outcome)
    decreases |keys|
  {
    if keys == [] {
      assert Fields(keys, vals) == [];
    } else {
      var pair, rest := kencs[0] + vencs[0], Flatten(Pairs(kencs[1..], vencs[1..]));
      PairsSplit(kencs, vencs);
      AtConcat(data, off, pair, rest);
      AssignAllSplit(acc, keys, vals);
      var after := off + |pair|;
      EntriesAt(keys[1..], kencs[1..], vals[1..], vencs[1..], data, after, Assign(acc, keys[0], vals[0]),
                variant, outcome);
      PairStep(data, off, keys[0], kencs[0], vals[0], vencs[0], after, |keys|, |keys[1..]|, acc, variant, outcome);
    }
  }

  /** decode(encode(v)): decoding a whole encoding gives the value back, its objects'
      properties in compareKeys order, and reads the encoding to its last byte. */
  lemma {:induction false} DecodeOfEncode(v: Value, variant: Variant)
    requires Encodable(v, variant)
    ensures Item(EncodeValue(v), 0, variant) == Ok((Canonical(v), |EncodeValue(v)|))
  {
    var enc := EncodeValue(v);
    EncodingDecodes(v, enc, variant);
    assert enc[0..|enc|] == enc;
    UseDecodes(enc, enc, Canonical(v), variant, 0, |enc|);
  }

  /** A run of encodings written one after the other, from `off` to the end of the stream,
      comes back from a chunk decoder as the run of values, with no error. */
  lemma {:induction false} StreamOfEncodings(vals: seq<Value>, data: seq<byte>, off: nat)
    requires forall k :: 0 <= k < |vals| ==> Encodable(vals[k], Streaming)
    requires At(data, off, Flatten(ItemEncodings(vals))) && off + |Flatten(ItemEncodings(vals))| == |data|
    ensures ValueStream(data, off) == (CanonicalItems(vals), None)
  {
    if vals != [] {
      var next := FirstOfStream(vals, data, off);
      StreamOfEncodings(vals[1..], data, next);
      ValueStreamThen(data, off, Canonical(vals[0]), next, CanonicalItems(vals[1..]), None);
      CanonicalItemsSplit(vals);
    }
  }

  /** The first encoding of a run reads back as the first value, and the rest of the run
      follows it. */
  lemma FirstOfStream(vals: seq<Value>, data: seq<byte>, off: nat) returns (next: nat)
    requires vals != [] && Encodable(vals[0], Streaming)
    requires At(data, off, Flatten(ItemEncodings(vals)))
    ensures ReadsAs(data, off, Streaming, Canonical(vals[0]), next)
    ensures At(data, next, Flatten(ItemEncodings(vals[1..])))
    ensures next + |Flatten(ItemEncodings(vals[1..]))| == off + |Flatten(ItemEncodings(vals))|
  {
    var first, rest := EncodeValue(vals[0]), Flatten(ItemEncodings(vals[1..]));
    next := off + |first|;
    EncodingsSplit(vals);
    AtConcat(data, off, first, rest);
    EncodingDecodes(vals[0], data, Streaming);
    UseDecodes(data, first, Canonical(vals[0]), Streaming, off, next);
  }

  /** The values a run reads back as: the first one's, then the rest's. */
  lemma CanonicalItemsSplit(vals: seq<Value>)
    requires vals != []
    ensures CanonicalItems(vals) == [Canonical(vals[0])] + CanonicalItems(vals[1..])
  {
  }

  /** The encodings of a run of values: the first value's, then the rest's. */
  lemma EncodingsSplit(vals: seq<Value>)
    requires vals != []
    ensures Flatten(ItemEncodings(vals)) == EncodeValue(vals[0]) + Flatten(ItemEncodings(vals[1..]))
  {
    assert ItemEncodings(vals)[1..] == ItemEncodings(vals[1..]);
  }

  /** The encodings of a run of values, concatenated into one stream, decode as the run of
      values wherever the stream is cut into chunks (ChunkDecoder.Decoder.DecodeIterable
      yields ValueStream of the concatenated chunks). */
  lemma StreamDecodes(vals: seq<Value>)
    requires forall k :: 0 <= k < |vals| ==> Encodable(vals[k], Streaming)
    ensures ValueStream(Flatten(ItemEncodings(vals)), 0) == (CanonicalItems(vals), None)
  {
    var data := Flatten(ItemEncodings(vals));
    assert data[0..|data|] == data;
    StreamOfEncodings(vals, data, 0);
  }
}
