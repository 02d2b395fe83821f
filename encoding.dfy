/** The bytes the encoder writes for a value, as a pure function. The stateful Encoder class
    (module Encoder) is proved to emit exactly these bytes, in chunks. */
module Encoding {
  import opened Binary
  import opened Results
  import opened Values
  import Header
  import Unicode

  /** encodeInteger: a negative n becomes major type 1 with argument −1−n, anything else
      major type 0 with the number itself. */
  function EncodeInteger(i: int): (r: seq<byte>)
  {
    if i < 0 then Header.Encode(1, -i - 1) else Header.Encode(0, i)
  }

  /** Additional information of a float of the given width: 25, 26 or 27. */
  function FloatInfo(w: FloatWidth): (r: nat)
    ensures r in {25, 26, 27} && Header.ArgumentSize(r) == FloatSize(w)
  {
    match w
    case Half => 25
    case Single => 26
    case Double => 27
  }

  /** encodeFloat: 0xE0 | 25/26/27, then the bits in the chosen width. */
  function EncodeFloat(f: FloatBits): (r: seq<byte>)
  {
    [0xE0 + FloatInfo(f.width)] + BigEndian(f.payload, FloatSize(f.width))
  }

  /** encodeString: major type 3 with the UTF-8 byte count, then the UTF-8 bytes. */
  function EncodeText(s: string): (r: seq<byte>)
  {
    var d := Unicode.Encode(s);
    Header.Encode(3, |d|) + d
  }

  /** encodeBytes: major type 2 with the byte count, then the bytes. */
  function EncodeBytes(d: seq<byte>): (r: seq<byte>)
  {
    Header.Encode(2, |d|) + d
  }

  /** encodeValue. An array is its count and then its elements in order; an object is its key
      count and then, for every key in compareKeys order, the key as text followed by the
      property's value. */
  function EncodeValue(v: Value): (r: seq<byte>)
    decreases v, 1
  {
    match v
    case Bool(b) => if b then [0xF5] else [0xF4]
    case Null => [0xF6]
    case Undefined => [0xF7]
    case Int(i) => EncodeInteger(i)
    case Float(f) => EncodeFloat(f)
    case Text(s) => EncodeText(s)
    case Bytes(d) => EncodeBytes(d)
    case Array(items) =>
      Header.Encode(4, |items|) + Flatten(seq(|items|, k requires 0 <= k < |items| => EncodeValue(items[k])))
    case Map(es) =>
      var keys := SortKeys(Keys(es));
      Header.Encode(5, |keys|) + Flatten(EntryEncodings(es, keys))
  }

  /** The entries of an object as encodeValue writes them: each key as text, then the value
      the object holds for it, or undefined where it holds none. */
  function EntryEncodings(es: seq<(string, Value)>, keys: seq<string>): (r: seq<seq<byte>>)
    decreases Map(es), 0
  {
    seq(|keys|, k requires 0 <= k < |keys| =>
      var j := Find(es, keys[k]);
      EncodeText(keys[k]) + (if j < |es| then EncodeValue(es[j].1) else [0xF7]))
  }

  /** The encodings of a list's elements, one per element. */
  function ItemEncodings(items: seq<Value>): (r: seq<seq<byte>>)
    ensures |r| == |items| && forall k :: 0 <= k < |items| ==> r[k] == EncodeValue(items[k])
  {
    seq(|items|, k requires 0 <= k < |items| => EncodeValue(items[k]))
  }

  /** One object entry: the key as text, then the encoding of `object[key]`. */
  function FieldEncoding(es: seq<(string, Value)>, key: string): (r: seq<byte>)
  {
    EncodeText(key) + EncodeValue(Lookup(es, key))
  }

  /** The entry encodings of an object, in compareKeys order. */
  function FieldEncodings(es: seq<(string, Value)>): (r: seq<seq<byte>>)
  {
    var keys := SortKeys(Keys(es));
    seq(|keys|, k requires 0 <= k < |keys| => FieldEncoding(es, keys[k]))
  }

  /** false, true, null and undefined are the single bytes F4, F5, F6 and F7. */
  lemma SimpleValues()
    ensures EncodeValue(Bool(false)) == [0xF4] && EncodeValue(Bool(true)) == [0xF5]
    ensures EncodeValue(Null) == [0xF6] && EncodeValue(Undefined) == [0xF7]
  {
  }

  /** An integer is major type 0 with the number as argument when it is not negative, major
      type 1 with argument −1−n when it is. */
  lemma IntegerEncoding(i: int)
    requires IsSafeInteger(i)
    ensures var r := EncodeValue(Int(i)); var ai := r[0] % 32;
      r[0] / 32 == (if i < 0 then 1 else 0)
      && (ai < 24 ==> ai == (if i < 0 then -1 - i else i))
      && (ai >= 24 ==> FromBigEndian(r[1..]) == (if i < 0 then -1 - i else i))
  {
    assert EncodeValue(Int(i)) == EncodeInteger(i);
    if i < 0 {
      Header.EncodeShape(1, -1 - i);
    } else {
      Header.EncodeShape(0, i);
    }
  }

  /** A list is a major type 4 header whose argument is the element count, followed by the
      encodings of the elements in order. */
  lemma ArrayEncoding(items: seq<Value>)
    ensures EncodeValue(Array(items)) == Header.Encode(4, |items|) + Flatten(ItemEncodings(items))
  {
    assert ItemEncodings(items) == seq(|items|, k requires 0 <= k < |items| => EncodeValue(items[k]));
  }

  /** An object is a major type 5 header whose argument is the key count, followed, for each
      key in compareKeys order, by the key as text and then its value. With distinct keys the
      keys come out strictly increasing in that order. */
  lemma MapEncoding(es: seq<(string, Value)>)
    ensures EncodeValue(Map(es)) == Header.Encode(5, |es|) + Flatten(FieldEncodings(es))
    ensures var keys := SortKeys(Keys(es));
      |FieldEncodings(es)| == |es| == |keys|
      && (forall k :: 0 <= k < |keys| ==> FieldEncodings(es)[k] == FieldEncoding(es, keys[k]))
      && (DistinctKeys(es) ==> StrictlySorted(keys))
  {
    var keys := SortKeys(Keys(es));
    assert |keys| == |es| by {
      assert |multiset(keys)| == |multiset(Keys(es))|;
    }
    MapBody(es, keys);
    if DistinctKeys(es) {
      SortKeysSorted(Keys(es));
    }
  }

  lemma MapBody(es: seq<(string, Value)>, keys: seq<string>)
    requires keys == SortKeys(Keys(es))
    ensures EncodeValue(Map(es)) == Header.Encode(5, |keys|) + Flatten(FieldEncodings(es))
  {
    var entries, fields := EntryEncodings(es, keys), FieldEncodings(es);
    forall k | 0 <= k < |keys| ensures entries[k] == fields[k] {
      FieldInline(es, keys[k]);
    }
    assert entries == fields;
  }

  /** A field as EncodeValue writes it inline: a missing property is written as undefined. */
  lemma FieldInline(es: seq<(string, Value)>, key: string)
    ensures var j := Find(es, key);
      FieldEncoding(es, key) == EncodeText(key) + (if j < |es| then EncodeValue(es[j].1) else [0xF7])
  {
    assert EncodeValue(Undefined) == [0xF7];
  }

  /** Objects with the same properties have the same encoding whatever order the properties
      were created in: the output is deterministic (section 4.2 of RFC 8949). */
  lemma MapOrderIndependent(a: seq<(string, Value)>, b: seq<(string, Value)>)
    requires DistinctKeys(a) && DistinctKeys(b)
    requires multiset(Keys(a)) == multiset(Keys(b))
    requires forall k :: Lookup(a, k) == Lookup(b, k)
    ensures EncodeValue(Map(a)) == EncodeValue(Map(b))
  {
    MapEncoding(a);
    MapEncoding(b);
    SortKeysSorted(Keys(a));
    SortKeysSorted(Keys(b));
    SortedKeysUnique(SortKeys(Keys(a)), SortKeys(Keys(b)));
    assert FieldEncodings(a) == FieldEncodings(b);
  }

  /** encodeNumber's view of a JavaScript number: whether it is −0, its value when it is a
      whole number (None for fractions, NaN and ±Infinity), and the bits the float path would
      write. */
  datatype Number = Number(negativeZero: bool, whole: Option<int>, bits: FloatBits)

  /** encodeNumber chooses the integer path for +0 and for whole numbers within the safe range,
      the float path for −0 and everything else. */
  function NumberValue(x: Number): (r: Value)
  {
    if !x.negativeZero && x.whole == Some(0) then Int(0)
    else if x.negativeZero then Float(x.bits)
    else if x.whole.Some? && MinSafeInteger <= x.whole.value <= MaxSafeInteger then Int(x.whole.value)
    else Float(x.bits)
  }

  /** What encodeNumber writes: the integer encoding exactly when the number is a safe whole
      number other than −0, otherwise the float encoding. */
  lemma NumberEncoding(x: Number)
    ensures !x.negativeZero && x.whole.Some? && IsSafeInteger(x.whole.value) ==>
      EncodeValue(NumberValue(x)) == EncodeInteger(x.whole.value)
    ensures x.negativeZero || x.whole.None? || !IsSafeInteger(x.whole.value) ==>
      EncodeValue(NumberValue(x)) == EncodeFloat(x.bits)
  {
  }

  /** Positive zero is the single byte 00; negative zero takes the float path. */
  lemma ZeroEncoding(bits: FloatBits)
    ensures EncodeValue(NumberValue(Number(false, Some(0), bits))) == [0x00]
    ensures EncodeValue(NumberValue(Number(true, Some(0), bits))) == EncodeFloat(bits)
  {
    assert NumberValue(Number(false, Some(0), bits)) == Int(0);
    SmallInteger(0);
    assert NumberValue(Number(true, Some(0), bits)) == Float(bits);
  }

  /** An object with two properties: whichever key compareKeys puts first is written first,
      whatever order the properties were created in. */
  lemma TwoEntryMap(k1: string, v1: Value, k2: string, v2: Value)
    requires k1 != k2
    ensures var f1, f2 := EncodeText(k1) + EncodeValue(v1), EncodeText(k2) + EncodeValue(v2);
      EncodeValue(Map([(k1, v1), (k2, v2)])) == [0xA2] + (if KeyLess(k1, k2) then f1 + f2 else f2 + f1)
  {
    var es := [(k1, v1), (k2, v2)];
    var keys := SortKeys(Keys(es));
    assert Keys(es) == [k1, k2];
    TwoKeysSorted(k1, k2);
    TwoEntryLookup(es, k1, v1, k2, v2);
    TwoEntryFields(es, keys);
    MapBody(es, keys);
    assert Header.Encode(5, 2) == [0xA2];
  }

  lemma TwoEntryFields(es: seq<(string, Value)>, keys: seq<string>)
    requires keys == SortKeys(Keys(es)) && |keys| == 2
    ensures Flatten(FieldEncodings(es)) == FieldEncoding(es, keys[0]) + FieldEncoding(es, keys[1])
  {
    var fe := FieldEncodings(es);
    assert |fe| == 2 && fe[0] == FieldEncoding(es, keys[0]) && fe[1] == FieldEncoding(es, keys[1]);
    assert fe == [fe[0], fe[1]];
    FlattenPair(fe[0], fe[1]);
  }

  lemma TwoEntryLookup(es: seq<(string, Value)>, k1: string, v1: Value, k2: string, v2: Value)
    requires k1 != k2 && es == [(k1, v1), (k2, v2)]
    ensures FieldEncoding(es, k1) == EncodeText(k1) + EncodeValue(v1)
    ensures FieldEncoding(es, k2) == EncodeText(k2) + EncodeValue(v2)
  {
    assert es[1..] == [(k2, v2)];
    assert Find(es, k1) == 0 && Find(es, k2) == 1;
  }

  lemma TwoKeysSorted(k1: string, k2: string)
    requires k1 != k2
    ensures SortKeys([k1, k2]) == if KeyLess(k1, k2) then [k1, k2] else [k2, k1]
  {
    assert [k1, k2][1..] == [k2];
    assert SortKeys([k2]) == [k2];
  }

  /** A non-negative integer below 24 is the single byte holding it. */
  lemma SmallInteger(n: int)
    requires 0 <= n < 24
    ensures EncodeValue(Int(n)) == [n]
  {
  }

  /** One-letter and two-letter ASCII keys as text: 61 xx and 62 xx yy. */
  lemma ShortTexts()
    ensures EncodeText("a") == [0x61, 0x61] && EncodeText("b") == [0x61, 0x62]
    ensures EncodeText("aa") == [0x62, 0x61, 0x61]
  {
    assert Unicode.Encode("a") == [0x61] && Unicode.Encode("b") == [0x62];
    assert Unicode.Encode("aa") == [0x61, 0x61];
  }

  /** [2, 3] is 82 02 03. */
  lemma PairExample(items: seq<Value>)
    requires items == [Int(2), Int(3)]
    ensures EncodeValue(Array(items)) == [0x82, 0x02, 0x03]
  {
    SmallInteger(2);
    SmallInteger(3);
    ArrayEncoding(items);
    assert ItemEncodings(items) == [[0x02], [0x03]];
    FlattenPair([0x02], [0x03]);
  }

  lemma FlattenPair(a: seq<byte>, b: seq<byte>)
    ensures Flatten([a, b]) == a + b
  {
    assert [a, b][1..] == [b];
    FlattenOne(b);
  }

  /** compareKeys measures keys in UTF-16 code units, not in encoded bytes, so its order is
      not the bytewise order of the encoded keys that section 4.2.1 of RFC 8949 asks for:
      "\U{E9}" (one code unit, encoded 62 C3 A9) is put before "ab" (two code units, encoded
      62 61 62), although 62 61 62 is bytewise smaller. */
  lemma KeyOrderIsNotBytewise()
    ensures KeyLess("\U{E9}", "ab")
    ensures EncodeText("\U{E9}") == [0x62, 0xC3, 0xA9] && EncodeText("ab") == [0x62, 0x61, 0x62]
    ensures LexLess(EncodeText("ab"), EncodeText("\U{E9}"))
  {
    assert Unicode.Utf16("\U{E9}") == [0xE9];
    assert Unicode.Utf16("ab") == [97, 98];
    assert Unicode.Encode("\U{E9}") == [0xC3, 0xA9];
    assert Unicode.Encode("ab") == [0x61, 0x62];
  }

  /** The adversarial keys "\U{FB01}a" and "\U{1F44D}": both are two UTF-16 code units and
      four UTF-8 bytes long. compareKeys compares code units and puts "\U{1F44D}" (D83D DC4D)
      first, while its encoding F0 9F 91 8D is bytewise greater than EF AC 81 61. */
  lemma AdversarialKeys()
    ensures KeyLess("\U{1F44D}", "\U{FB01}a")
    ensures EncodeText("\U{FB01}a") == [0x64, 0xEF, 0xAC, 0x81, 0x61]
    ensures EncodeText("\U{1F44D}") == [0x64, 0xF0, 0x9F, 0x91, 0x8D]
    ensures LexLess(EncodeText("\U{FB01}a"), EncodeText("\U{1F44D}"))
  {
    assert Unicode.Utf16("\U{1F44D}") == [0xD83D, 0xDC4D];
    assert Unicode.Utf16("\U{FB01}a") == [0xFB01, 0x61];
    assert Unicode.Encode("\U{FB01}a") == [0xEF, 0xAC, 0x81, 0x61];
    assert Unicode.Encode("\U{1F44D}") == [0xF0, 0x9F, 0x91, 0x8D];
  }
}
