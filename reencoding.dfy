/** Encoding what decoding gave back reproduces the bytes, for values without a leading byte
    order mark in any text or key and without a "__proto__" key: the encoder writes the
    properties of the object a decoder returns in compareKeys order, whatever order they were
    assigned in, byte for byte as before. */
module Reencoding {
  import opened Values
  import opened Encoding
  import opened RoundTrip
  import opened Decoding
  import opened Results
  import Unicode

  /** Re-encoding what a decoder reads from an encoding gives the encoding back, byte for
      byte, when no text or key starts with a byte order mark and no key is "__proto__". */
  lemma DecodeThenEncode(v: Value, variant: Variant)
    requires Encodable(v, variant) && Plain(v)
    ensures Item(EncodeValue(v), 0, variant).Ok?
    ensures EncodeValue(Item(EncodeValue(v), 0, variant).value.0) == EncodeValue(v)
  {
    DecodeOfEncode(v, variant);
    ValidWellFormed(v);
    ReencodeCanonical(v);
  }

  /** A value the model represents faithfully has distinct keys in every object. */
  lemma {:induction false} ValidWellFormed(v: Value)
    requires Valid(v)
    ensures WellFormed(v)
    decreases v
  {
    match v
    case Array(items) =>
      forall k | 0 <= k < |items| ensures WellFormed(items[k]) {
        ValidWellFormed(items[k]);
      }
    case Map(es) =>
      forall k | 0 <= k < |es| ensures WellFormed(es[k].1) {
        ValidWellFormed(es[k].1);
      }
    case _ =>
  }

  /** encode(decode(encode(v))) == encode(v): the value decoding gives back encodes to the
      same bytes as the value that was encoded, when no text or key starts with a byte order
      mark and no key is "__proto__". */
  lemma {:induction false} ReencodeCanonical(v: Value)
    requires WellFormed(v) && Plain(v)
    ensures EncodeValue(Canonical(v)) == EncodeValue(v)
    decreases v
  {
    match v
    case Array(items) =>
      var c := CanonicalItems(items);
      assert Canonical(v) == Array(c);
      forall k | 0 <= k < |items| ensures EncodeValue(c[k]) == EncodeValue(items[k]) {
        ReencodeCanonical(items[k]);
      }
      ArrayEncoding(items);
      ArrayEncoding(c);
      assert ItemEncodings(c) == ItemEncodings(items);
    case Map(es) =>
      forall j | 0 <= j < |es| ensures EncodeValue(Canonical(es[j].1)) == EncodeValue(es[j].1) {
        ReencodeCanonical(es[j].1);
      }
      MapReencode(es);
    case _ =>
  }

  /** An object whose values re-encode to their own bytes re-encodes to its own bytes. */
  lemma {:induction false} MapReencode(es: seq<(string, Value)>)
    requires DistinctKeys(es) && forall j :: 0 <= j < |es| ==> PlainKey(es[j].0)
    requires forall j :: 0 <= j < |es| ==> EncodeValue(Canonical(es[j].1)) == EncodeValue(es[j].1)
    ensures EncodeValue(Canonical(Map(es))) == EncodeValue(Map(es))
  {
    var keys := SortKeys(Keys(es));
    var canon := Fields(keys, CanonicalValues(es, keys));
    var r := AssignAll([], canon);
    PlainSortedKeys(es, keys);
    MapCanonicalParts(es, keys);
    assert Canonical(Map(es)) == Map(r);
    AssignedFields(keys, canon);
    MapOrderIndependent(r, canon);
    MapEncoding(es);
    MapEncoding(canon);
    CanonicalFieldEncodings(es, keys, canon);
  }

  /** The sorted keys of an object whose keys are plain are plain, distinct, and read back as
      themselves. */
  lemma PlainSortedKeys(es: seq<(string, Value)>, keys: seq<string>)
    requires DistinctKeys(es) && forall j :: 0 <= j < |es| ==> PlainKey(es[j].0)
    requires keys == SortKeys(Keys(es))
    ensures NoDuplicates(keys) && DecodedKeys(keys) == keys
    ensures forall k :: 0 <= k < |keys| ==> keys[k] != ProtoKey
  {
    SortKeysSorted(Keys(es));
    SortedDistinct(keys);
    forall k | 0 <= k < |keys| ensures PlainKey(keys[k]) {
      assert keys[k] in multiset(Keys(es));
      var m :| 0 <= m < |es| && Keys(es)[m] == keys[k];
    }
  }

  /** Assigning fields with distinct plain keys into an empty object gives an object with the
      same properties. */
  lemma AssignedFields(keys: seq<string>, canon: seq<(string, Value)>)
    requires NoDuplicates(keys) && Keys(canon) == keys
    requires forall k :: 0 <= k < |keys| ==> keys[k] != ProtoKey
    ensures DistinctKeys(AssignAll([], canon)) && DistinctKeys(canon)
    ensures multiset(Keys(AssignAll([], canon))) == multiset(Keys(canon))
    ensures forall k :: Lookup(AssignAll([], canon), k) == Lookup(canon, k)
  {
    assert [] + canon == canon;
    assert Keys([]) == [];
    AssignAllFresh([], canon);
  }

  /** The entries of the object decoding gives back encode as the original object's entries. */
  lemma {:induction false} CanonicalFieldEncodings(es: seq<(string, Value)>, keys: seq<string>, canon: seq<(string, Value)>)
    requires DistinctKeys(es) && keys == SortKeys(Keys(es))
    requires forall j :: 0 <= j < |es| ==> EncodeValue(Canonical(es[j].1)) == EncodeValue(es[j].1)
    requires canon == Fields(keys, CanonicalValues(es, keys))
    ensures FieldEncodings(canon) == FieldEncodings(es)
  {
    SortKeysSorted(Keys(es));
    assert Keys(canon) == keys;
    SortedKeysStable(keys);
    SortedDistinct(keys);
    forall k | 0 <= k < |keys| ensures FieldEncoding(canon, keys[k]) == FieldEncoding(es, keys[k]) {
      FieldReencode(es, keys, canon, k);
    }
    SameFieldEncodings(canon, es, keys);
  }

  /** Two objects whose keys sort alike and whose fields encode alike have the same entry
      encodings. */
  lemma SameFieldEncodings(a: seq<(string, Value)>, b: seq<(string, Value)>, keys: seq<string>)
    requires SortKeys(Keys(a)) == keys && SortKeys(Keys(b)) == keys
    requires forall k :: 0 <= k < |keys| ==> FieldEncoding(a, keys[k]) == FieldEncoding(b, keys[k])
    ensures FieldEncodings(a) == FieldEncodings(b)
  {
  }

  /** One entry: the value decoding gives back for a key encodes as the original value. */
  lemma {:induction false} FieldReencode(es: seq<(string, Value)>, keys: seq<string>, canon: seq<(string, Value)>, k: nat)
    requires keys == SortKeys(Keys(es)) && NoDuplicates(keys) && k < |keys|
    requires forall j :: 0 <= j < |es| ==> EncodeValue(Canonical(es[j].1)) == EncodeValue(es[j].1)
    requires canon == Fields(keys, CanonicalValues(es, keys))
    ensures FieldEncoding(canon, keys[k]) == FieldEncoding(es, keys[k])
  {
    assert Keys(canon) == keys;
    FindDistinct(canon, k);
    SortedKeysFound(es, k);
  }

  /** Keys already in compareKeys order stay where they are when sorted. */
  lemma {:induction false} SortedKeysStable(keys: seq<string>)
    requires StrictlySorted(keys)
    ensures SortKeys(keys) == keys
  {
    SortedDistinct(keys);
    SortKeysSorted(keys);
    SortedKeysUnique(SortKeys(keys), keys);
  }

  /** A text that starts with a byte order mark does not survive: "\uFEFF" encodes as
      63 EF BB BF, reads back as the empty string, and that re-encodes as 60. */
  lemma ReencodeLosesByteOrderMark(variant: Variant)
    ensures EncodeValue(Text("\U{FEFF}")) == [0x63, 0xEF, 0xBB, 0xBF]
    ensures Item(EncodeValue(Text("\U{FEFF}")), 0, variant) == Ok((Text(""), 4))
    ensures EncodeValue(Text("")) == [0x60]
  {
    Unicode.TextDecoderDropsByteOrderMark();
    assert Unicode.Utf16("\U{FEFF}") == [0xFEFF];
    DecodeOfEncode(Text("\U{FEFF}"), variant);
  }

  /** A "__proto__" property does not survive: { "__proto__": 1 } reads back as an empty
      object, which re-encodes as A0. */
  lemma ReencodeLosesProtoKey(variant: Variant)
    ensures Item(EncodeValue(Map([(ProtoKey, Int(1))])), 0, variant).Ok?
    ensures Item(EncodeValue(Map([(ProtoKey, Int(1))])), 0, variant).value.0 == Map([])
    ensures EncodeValue(Map([])) == [0xA0] != EncodeValue(Map([(ProtoKey, Int(1))]))
  {
    var v := Map([(ProtoKey, Int(1))]);
    ProtoMapCanonical(v);
    ProtoMapEncodable(v, variant);
    DecodeOfEncode(v, variant);
    ProtoMapEncodings(v);
  }

  lemma ProtoMapCanonical(v: Value)
    requires v == Map([(ProtoKey, Int(1))])
    ensures Canonical(v) == Map([])
  {
    var es := v.entries;
    assert Keys(es) == [ProtoKey];
    assert SortKeys([ProtoKey]) == [ProtoKey];
    assert CanonicalFields(es, [ProtoKey]) == [(ProtoKey, Int(1))];
    assert AssignAll([], [(ProtoKey, Int(1))]) == [];
  }

  lemma ProtoMapEncodable(v: Value, variant: Variant)
    requires v == Map([(ProtoKey, Int(1))])
    ensures Encodable(v, variant)
  {
    Unicode.Utf16LengthBound(ProtoKey);
    Unicode.ByteLengthBound(ProtoKey);
  }

  lemma ProtoMapEncodings(v: Value)
    requires v == Map([(ProtoKey, Int(1))])
    ensures EncodeValue(Map([])) == [0xA0] != EncodeValue(v)
  {
    var h0, h1 := Header.Encode(5, 0), Header.Encode(5, 1);
    assert h0 == [0xA0] && h1 == [0xA1];
    MapEncoding(v.entries);
    MapEncoding([]);
    assert EncodeValue(v)[0] == h1[0];
  }
}
