/** Worked examples of the encoder's output, checked against the encoding specification. */
module EncodingExamples {
  import opened Values
  import opened Encoding

  /** The example of the encoder's documentation: {a: 1, b: [2, 3]} is A2 61 61 01 61 62 82
      02 03. */
  lemma ObjectExample(a: string, b: string, items: seq<Value>)
    requires a == "a" && b == "b" && items == [Int(2), Int(3)]
    ensures EncodeValue(Map([(a, Int(1)), (b, Array(items))]))
         == [0xA2, 0x61, 0x61, 0x01, 0x61, 0x62, 0x82, 0x02, 0x03]
  {
    KeyLessExamples();
    assert KeyLess(a, b);
    TwoEntryMap(a, Int(1), b, Array(items));
    ObjectExampleEntries(a, b, items);
  }

  lemma ObjectExampleEntries(a: string, b: string, items: seq<Value>)
    requires a == "a" && b == "b" && items == [Int(2), Int(3)]
    ensures EncodeText(a) + EncodeValue(Int(1)) == [0x61, 0x61, 0x01]
    ensures EncodeText(b) + EncodeValue(Array(items)) == [0x61, 0x62, 0x82, 0x02, 0x03]
  {
    ShortTexts();
    SmallInteger(1);
    PairExample(items);
  }

  /** The shorter key comes first: {aa: 1, b: 2} is A2 61 62 02 62 61 61 01. */
  lemma ShortKeyFirstExample(aa: string, b: string)
    requires aa == "aa" && b == "b"
    ensures EncodeValue(Map([(aa, Int(1)), (b, Int(2))])) == [0xA2, 0x61, 0x62, 0x02, 0x62, 0x61, 0x61, 0x01]
  {
    TwoEntryMap(aa, Int(1), b, Int(2));
    KeyLessExamples();
    ShortTexts();
    SmallInteger(1);
    SmallInteger(2);
  }
}
