/** encodingLength: the number of bytes a value encodes into, computed without encoding it.
    The size of an object is a sum over its properties, so it does not depend on their order;
    with the default options it is exactly the length of what the encoder writes. */
module EncodingLength {
  import opened Binary
  import opened Results
  import opened Values
  import Header
  import Unicode
  import Encoding

  /** The two options encodingLength reads: `allowUndefined` and `minFloatSize`. */
  datatype Options = Options(allowUndefined: bool, minFloatSize: int)

  /** `allowUndefined ?? true` and `minFloatSize = 16`: the defaults when an option is absent. */
  const DefaultOptions := Options(true, 16)

  /** argumentEncodingLength: 1, 2, 3, 5 or 9 bytes at the thresholds 24, 2^8, 2^16 and 2^32,
      which is the length of the header encodeTypeAndArgument writes for any major type. */
  function ArgumentEncodingLength(argument: nat): (r: nat)
    ensures r in {1, 2, 3, 5, 9}
    ensures forall major :: 0 <= major < 8 ==> r == |Header.Encode(major, argument)|
  {
    if argument < 24 then 1
    else if argument < 0x100 then 1 + 1
    else if argument < 0x1_0000 then 1 + 2
    else if argument < 0x1_0000_0000 then 1 + 4
    else 1 + 8
  }

  /** integerEncodingLength: the header length for argument −v−1 or v, the length of what
      encodeInteger writes. */
  function IntegerEncodingLength(value: int): (r: nat)
    ensures r == |Encoding.EncodeInteger(value)|
  {
    if value < 0 then ArgumentEncodingLength(-value - 1) else ArgumentEncodingLength(value)
  }

  /** floatEncodingLength: the narrowest exact width, but never narrower than minFloatSize
      asks for. With minFloatSize at most 16 it is the length of what encodeFloat writes. */
  function FloatEncodingLength(value: FloatBits, minFloatSize: int): (r: nat)
    ensures r in {3, 5, 9}
    ensures r >= 1 + FloatSize(value.width)
    ensures minFloatSize <= 16 ==> r == |Encoding.EncodeFloat(value)|
    ensures minFloatSize > 16 ==> r >= 5
    ensures minFloatSize > 32 ==> r == 9
  {
    if minFloatSize <= 16 && value.width == Half then 1 + 2
    else if minFloatSize <= 32 && value.width != Double then 1 + 4
    else 1 + 8
  }

  /** numberEncodingLength: the integer length for +0 and safe whole numbers, the float length
      otherwise, following the same classification as encodeNumber. */
  function NumberEncodingLength(value: Encoding.Number, minFloatSize: int): (r: nat)
    ensures minFloatSize <= 16 ==> r == |Encoding.EncodeValue(Encoding.NumberValue(value))|
  {
    Encoding.NumberEncoding(value);
    if !value.negativeZero && value.whole == Some(0) then IntegerEncodingLength(0)
    else if value.negativeZero then FloatEncodingLength(value.bits, minFloatSize)
    else if value.whole.Some? && MinSafeInteger <= value.whole.value <= MaxSafeInteger then
      IntegerEncodingLength(value.whole.value)
    else FloatEncodingLength(value.bits, minFloatSize)
  }

  /** stringEncodingLength: the header for the UTF-8 byte count plus that count. */
  function StringEncodingLength(value: string): (r: nat)
    ensures r == |Encoding.EncodeText(value)|
  {
    var length := Unicode.ByteLength(value);
    ArgumentEncodingLength(length) + length
  }

  /** bytesEncodingLength: the header for the byte count plus that count. */
  function BytesEncodingLength(value: seq<byte>): (r: nat)
    ensures r == |Encoding.EncodeBytes(value)|
  {
    ArgumentEncodingLength(|value|) + |value|
  }

  /** The sum of a sequence of lengths, added up front to back as the `length +=` loops do. */
  function Sum(s: seq<nat>): (r: nat)
  {
    if s == [] then 0 else Sum(s[..|s| - 1]) + s[|s| - 1]
  }

  /** The size encodingLength computes for a value whose undefined parts are allowed: the
      header plus the sizes of the elements, or of the keys and values, in the order
      Object.keys lists them. */
  function Size(v: Value, minFloatSize: int): (r: nat)
    decreases v, 1
  {
    match v
    case Bool(_) => 1
    case Null => 1
    case Undefined => 1
    case Int(i) => IntegerEncodingLength(i)
    case Float(f) => FloatEncodingLength(f, minFloatSize)
    case Text(s) => StringEncodingLength(s)
    case Bytes(d) => BytesEncodingLength(d)
    case Array(items) => ArgumentEncodingLength(|items|) + Sum(ItemSizes(items, minFloatSize))
    case Map(es) => ArgumentEncodingLength(|es|) + Sum(EntrySizes(es, minFloatSize))
  }

  /** The size of every element of a list. */
  function ItemSizes(items: seq<Value>, minFloatSize: int): (r: seq<nat>)
    ensures |r| == |items|
    decreases Array(items), 0
  {
    seq(|items|, k requires 0 <= k < |items| => Size(items[k], minFloatSize))
  }

  /** The size of every property of an object: its key as text plus its value. */
  function EntrySizes(es: seq<(string, Value)>, minFloatSize: int): (r: seq<nat>)
    ensures |r| == |es|
    decreases Map(es), 0
  {
    seq(|es|, k requires 0 <= k < |es| => EntrySize(es[k], minFloatSize))
  }

  /** The size of one property: its key as text plus its value. */
  function EntrySize(e: (string, Value), minFloatSize: int): nat
    decreases e.1, 2
  {
    StringEncodingLength(e.0) + Size(e.1, minFloatSize)
  }

  /** Whether undefined occurs anywhere in the value, as an element or as a property value. */
  predicate HasUndefined(v: Value)
    decreases v
  {
    match v
    case Undefined => true
    case Array(items) => exists k :: 0 <= k < |items| && HasUndefined(items[k])
    case Map(es) => exists k :: 0 <= k < |es| && HasUndefined(es[k].1)
    case _ => false
  }

  /** encodingLength: fails exactly when undefined occurs and allowUndefined is false,
      otherwise returns the size. */
  method EncodingLength(value: Value, options: Options) returns (r: Result<nat>)
    ensures r == if !options.allowUndefined && HasUndefined(value) then Err(UndefinedNotAllowed)
                 else Ok(Size(value, options.minFloatSize))
    decreases value, 1
  {
    match value {
      case Bool(_) =>
        r := Ok(1);
      case Null =>
        r := Ok(1);
      case Undefined =>
        if options.allowUndefined {
          r := Ok(1);
        } else {
          r := Err(UndefinedNotAllowed);
        }
      case Int(i) =>
        r := Ok(IntegerEncodingLength(i));
      case Float(f) =>
        r := Ok(FloatEncodingLength(f, options.minFloatSize));
      case Text(s) =>
        r := Ok(StringEncodingLength(s));
      case Bytes(d) =>
        r := Ok(BytesEncodingLength(d));
      case Array(items) =>
        r := ArrayLength(items, options);
      case Map(es) =>
        r := MapLength(es, options);
    }
  }

  /** The list branch of encodingLength: the header, then every element's size in turn. */
  method ArrayLength(items: seq<Value>, options: Options) returns (r: Result<nat>)
    ensures r == if !options.allowUndefined && HasUndefined(Array(items)) then Err(UndefinedNotAllowed)
                 else Ok(Size(Array(items), options.minFloatSize))
    decreases Array(items), 0
  {
    ghost var sizes := ItemSizes(items, options.minFloatSize);
    var length := ArgumentEncodingLength(|items|);
    var i := 0;
    while i < |items|
      invariant 0 <= i <= |items|
      invariant length == ArgumentEncodingLength(|items|) + Sum(sizes[..i])
      invariant !options.allowUndefined ==> forall k :: 0 <= k < i ==> !HasUndefined(items[k])
    {
      var e := EncodingLength(items[i], options);
      if e.Err? {
        assert HasUndefined(Array(items));
        return e;
      }
      SumSnoc(sizes, i);
      length := length + e.value;
      i := i + 1;
    }
    assert sizes[..|items|] == sizes;
    SizeOfArray(items, options.minFloatSize);
    r := Ok(length);
  }

  /** The object branch of encodingLength: the header, then every key's and value's size, in
      the order Object.keys lists them. */
  method MapLength(es: seq<(string, Value)>, options: Options) returns (r: Result<nat>)
    ensures r == if !options.allowUndefined && HasUndefined(Map(es)) then Err(UndefinedNotAllowed)
                 else Ok(Size(Map(es), options.minFloatSize))
    decreases Map(es), 0
  {
    ghost var sizes := EntrySizes(es, options.minFloatSize);
    var length := ArgumentEncodingLength(|es|);
    var i := 0;
    while i < |es|
      invariant 0 <= i <= |es|
      invariant length == ArgumentEncodingLength(|es|) + Sum(sizes[..i])
      invariant !options.allowUndefined ==> forall k :: 0 <= k < i ==> !HasUndefined(es[k].1)
    {
      var e := PropertyLength(es[i], options);
      if e.Err? {
        UndefinedEntry(es, i);
        return e;
      }
      SumSnoc(sizes, i);
      length := length + e.value;
      i := i + 1;
    }
    assert sizes[..|es|] == sizes;
    SizeOfMap(es, options.minFloatSize);
    r := Ok(length);
  }

  /** One pass of the object loop: the key's size plus the value's. */
  method PropertyLength(entry: (string, Value), options: Options) returns (r: Result<nat>)
    ensures r == if !options.allowUndefined && HasUndefined(entry.1) then Err(UndefinedNotAllowed)
                 else Ok(EntrySize(entry, options.minFloatSize))
    decreases entry.1, 3
  {
    var length := StringEncodingLength(entry.0);
    r := EncodingLength(entry.1, options);
    if r.Ok? {
      r := Ok(length + r.value);
    }
  }

  lemma SumSnoc(s: seq<nat>, i: nat)
    requires i < |s|
    ensures Sum(s[..i + 1]) == Sum(s[..i]) + s[i]
  {
    assert s[..i + 1][..i] == s[..i];
  }

  lemma {:induction false} SumConcat(a: seq<nat>, b: seq<nat>)
    ensures Sum(a + b) == Sum(a) + Sum(b)
    decreases |b|
  {
    if b == [] {
      assert a + b == a;
    } else {
      var c := b[..|b| - 1];
      assert (a + b)[..|a + b| - 1] == a + c;
      SumConcat(a, c);
    }
  }

  /** f applied to every element. */
  function Image<T>(s: seq<T>, f: T -> nat): (r: seq<nat>)
    ensures |r| == |s|
  {
    seq(|s|, k requires 0 <= k < |s| => f(s[k]))
  }

  /** A sum over a sequence does not depend on the order of its elements. */
  lemma {:induction false} SumPermutation<T>(s: seq<T>, t: seq<T>, f: T -> nat)
    requires multiset(s) == multiset(t)
    ensures Sum(Image(s, f)) == Sum(Image(t, f))
    decreases |s|
  {
    if s == [] {
      assert |t| == |multiset(t)| == 0;
      assert Image(t, f) == [];
    } else {
      var x := s[|s| - 1];
      assert x in multiset(t);
      var j :| 0 <= j < |t| && t[j] == x;
      RemoveOne(s, t, j);
      SumPermutation(s[..|s| - 1], t[..j] + t[j + 1..], f);
      SumImageLast(s, f);
      SumImageRemove(t, j, f);
    }
  }

  lemma SumImageLast<T>(s: seq<T>, f: T -> nat)
    requires s != []
    ensures Sum(Image(s, f)) == Sum(Image(s[..|s| - 1], f)) + f(s[|s| - 1])
  {
    var n := |s| - 1;
    SumSnoc(Image(s, f), n);
    assert Image(s, f)[..n] == Image(s[..n], f);
    assert Image(s, f)[..n + 1] == Image(s, f);
  }

  lemma SumImageRemove<T>(t: seq<T>, j: nat, f: T -> nat)
    requires j < |t|
    ensures Sum(Image(t, f)) == Sum(Image(t[..j] + t[j + 1..], f)) + f(t[j])
  {
    var a, b := Image(t[..j], f), Image(t[j + 1..], f);
    assert Image(t, f) == a + [f(t[j])] + b;
    assert Image(t[..j] + t[j + 1..], f) == a + b;
    SumMiddle(a, f(t[j]), b);
  }

  /** Taking the last element of s out of t at a place where t holds it leaves equal multisets. */
  lemma RemoveOne<T>(s: seq<T>, t: seq<T>, j: nat)
    requires multiset(s) == multiset(t) && s != [] && j < |t| && t[j] == s[|s| - 1]
    ensures multiset(s[..|s| - 1]) == multiset(t[..j] + t[j + 1..])
  {
    var n := |s| - 1;
    RemoveAt(s, n);
    RemoveAt(t, j);
    assert s[..n] + s[n + 1..] == s[..n];
  }

  /** Deleting the element at j takes one occurrence of it out of the multiset. */
  lemma RemoveAt<T>(t: seq<T>, j: nat)
    requires j < |t|
    ensures multiset(t[..j] + t[j + 1..]) == multiset(t) - multiset{t[j]}
  {
    assert t == t[..j] + ([t[j]] + t[j + 1..]);
    assert multiset(t) == multiset(t[..j]) + (multiset{t[j]} + multiset(t[j + 1..]));
  }

  lemma SumMiddle(a: seq<nat>, x: nat, b: seq<nat>)
    ensures Sum(a + [x] + b) == Sum(a + b) + x
  {
    SumConcat(a + [x], b);
    SumConcat(a, b);
    SumSnoc(a + [x], |a|);
    assert (a + [x])[..|a|] == a;
  }

  /** The length of every chunk. */
  function Lengths(chunks: seq<seq<byte>>): (r: seq<nat>)
    ensures |r| == |chunks| && forall k :: 0 <= k < |chunks| ==> r[k] == |chunks[k]|
  {
    seq(|chunks|, k requires 0 <= k < |chunks| => |chunks[k]|)
  }

  /** The length of the chunks joined is the sum of their lengths. */
  lemma {:induction false} FlattenLength(chunks: seq<seq<byte>>)
    ensures |Flatten(chunks)| == Sum(Lengths(chunks))
    decreases |chunks|
  {
    if chunks != [] {
      var n := |chunks| - 1;
      assert chunks == chunks[..n] + [chunks[n]];
      FlattenConcat(chunks[..n], [chunks[n]]);
      FlattenOne(chunks[n]);
      FlattenLength(chunks[..n]);
      assert Lengths(chunks)[..n] == Lengths(chunks[..n]);
    }
  }

  /** The size of an object is the same whatever order its properties are listed in, and so
      is whether it holds undefined. */
  lemma MapOrderIndependent(a: seq<(string, Value)>, b: seq<(string, Value)>, minFloatSize: int)
    requires multiset(a) == multiset(b)
    ensures Size(Map(a), minFloatSize) == Size(Map(b), minFloatSize)
    ensures HasUndefined(Map(a)) == HasUndefined(Map(b))
  {
    var f := (e: (string, Value)) => EntrySize(e, minFloatSize);
    assert |a| == |multiset(a)| == |b|;
    SumPermutation(a, b, f);
    EntrySizesImage(a, minFloatSize, f);
    EntrySizesImage(b, minFloatSize, f);
    UndefinedOrderIndependent(a, b);
    UndefinedOrderIndependent(b, a);
  }

  /** One element of the property sizes. */
  lemma EntrySizeAt(es: seq<(string, Value)>, minFloatSize: int, k: nat)
    requires k < |es|
    ensures EntrySizes(es, minFloatSize)[k] == StringEncodingLength(es[k].0) + Size(es[k].1, minFloatSize)
  {
  }

  lemma EntrySizesImage(es: seq<(string, Value)>, minFloatSize: int, f: ((string, Value)) -> nat)
    requires forall e :: f(e) == EntrySize(e, minFloatSize)
    ensures Image(es, f) == EntrySizes(es, minFloatSize)
  {
  }

  lemma UndefinedOrderIndependent(a: seq<(string, Value)>, b: seq<(string, Value)>)
    requires multiset(a) == multiset(b)
    ensures HasUndefined(Map(a)) ==> HasUndefined(Map(b))
  {
    if HasUndefined(Map(a)) {
      var k :| 0 <= k < |a| && HasUndefined(a[k].1);
      assert a[k] in multiset(b);
      var j :| 0 <= j < |b| && b[j] == a[k];
      assert HasUndefined(b[j].1);
    }
  }

  /** With minFloatSize at most 16 (the default) the size is the length of the encoder's
      output, for every value whose objects have distinct keys. */
  lemma {:induction false} SizeIsEncodingLength(v: Value, minFloatSize: int)
    requires WellFormed(v) && minFloatSize <= 16
    ensures Size(v, minFloatSize) == |Encoding.EncodeValue(v)|
    decreases v
  {
    match v
    case Array(items) =>
      forall k | 0 <= k < |items| ensures Size(items[k], minFloatSize) == |Encoding.EncodeValue(items[k])| {
        SizeIsEncodingLength(items[k], minFloatSize);
      }
      ArraySize(items, minFloatSize);
    case Map(es) =>
      forall k | 0 <= k < |es| ensures Size(es[k].1, minFloatSize) == |Encoding.EncodeValue(es[k].1)| {
        SizeIsEncodingLength(es[k].1, minFloatSize);
      }
      MapSize(es, minFloatSize);
    case _ =>
  }

  lemma ArraySize(items: seq<Value>, minFloatSize: int)
    requires forall k :: 0 <= k < |items| ==> Size(items[k], minFloatSize) == |Encoding.EncodeValue(items[k])|
    ensures Size(Array(items), minFloatSize) == |Encoding.EncodeValue(Array(items))|
  {
    var encodings := Encoding.ItemEncodings(items);
    Encoding.ArrayEncoding(items);
    FlattenLength(encodings);
    assert Lengths(encodings) == ItemSizes(items, minFloatSize);
    SizeOfArray(items, minFloatSize);
  }

  lemma MapSize(es: seq<(string, Value)>, minFloatSize: int)
    requires DistinctKeys(es)
    requires forall k :: 0 <= k < |es| ==> Size(es[k].1, minFloatSize) == |Encoding.EncodeValue(es[k].1)|
    ensures Size(Map(es), minFloatSize) == |Encoding.EncodeValue(Map(es))|
  {
    var g := (key: string) => FieldLength(es, key);
    MapEncodedLength(es, g);
    SumPermutation(SortKeys(Keys(es)), Keys(es), g);
    KeyedSizes(es, minFloatSize, g);
    SizeOfMap(es, minFloatSize);
  }

  /** An object holds undefined when one of its values does. */
  lemma UndefinedEntry(es: seq<(string, Value)>, i: nat)
    requires i < |es| && HasUndefined(es[i].1)
    ensures HasUndefined(Map(es))
  {
  }

  /** The size of a list: its header and its elements' sizes. */
  lemma SizeOfArray(items: seq<Value>, minFloatSize: int)
    ensures Size(Array(items), minFloatSize) == ArgumentEncodingLength(|items|) + Sum(ItemSizes(items, minFloatSize))
  {
  }

  /** The size of an object: its header and its properties' sizes. */
  lemma SizeOfMap(es: seq<(string, Value)>, minFloatSize: int)
    ensures Size(Map(es), minFloatSize) == ArgumentEncodingLength(|es|) + Sum(EntrySizes(es, minFloatSize))
  {
  }

  /** The length of one encoded object entry. */
  function FieldLength(es: seq<(string, Value)>, key: string): nat
  {
    |Encoding.FieldEncoding(es, key)|
  }

  /** The encoded length of an object: its header plus the length of every field, taken in
      sorted key order. */
  lemma MapEncodedLength(es: seq<(string, Value)>, g: string -> nat)
    requires forall key :: g(key) == FieldLength(es, key)
    ensures |Encoding.EncodeValue(Map(es))| == ArgumentEncodingLength(|es|) + Sum(Image(SortKeys(Keys(es)), g))
  {
    var keys := SortKeys(Keys(es));
    var fields := Encoding.FieldEncodings(es);
    Encoding.MapEncoding(es);
    FlattenLength(fields);
    assert Lengths(fields) == Image(keys, g);
  }

  /** In the order Object.keys lists them, the field lengths are the property sizes. */
  lemma KeyedSizes(es: seq<(string, Value)>, minFloatSize: int, g: string -> nat)
    requires DistinctKeys(es)
    requires forall key :: g(key) == FieldLength(es, key)
    requires forall k :: 0 <= k < |es| ==> Size(es[k].1, minFloatSize) == |Encoding.EncodeValue(es[k].1)|
    ensures Image(Keys(es), g) == EntrySizes(es, minFloatSize)
  {
    forall k | 0 <= k < |es|
      ensures Image(Keys(es), g)[k] == EntrySizes(es, minFloatSize)[k]
    {
      FindDistinct(es, k);
      EntrySizeAt(es, minFloatSize, k);
    }
  }
}
