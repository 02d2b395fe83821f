/** The streaming encoder: a class that writes into a fixed-capacity buffer and hands out the
    filled part as a chunk whenever the next write would not fit. Every method returns the
    chunks it yields, in order; each is proved to emit exactly the bytes of the encoding
    specification (module Encoding), whatever the chunk size. */
module Encoder {
  import opened Binary
  import opened Values
  import Header
  import Unicode
  import Encoding
  import opened Results

  /** Encoder.defaultChunkSize. */
  const DefaultChunkSize: nat := 512

  class Encoder {
    const chunkSize: nat
    var closed: bool
    var buffer: array<byte>
    var offset: nat

    ghost predicate Valid()
      reads this
    {
      chunkSize > 0 && offset <= buffer.Length
    }

    /** The bytes written to the current buffer and not yet handed out. */
    ghost function Pending(): (r: seq<byte>)
      reads this, buffer
      requires Valid()
    {
      buffer[..offset]
    }

    /** A chunk size of 0 (the option left out) means the default; the first buffer has
        exactly that capacity. */
    constructor (chunkSize: nat)
      ensures Valid() && !closed && Pending() == []
      ensures this.chunkSize == if chunkSize == 0 then DefaultChunkSize else chunkSize
      ensures fresh(buffer) && buffer.Length == this.chunkSize
    {
      this.chunkSize := if chunkSize == 0 then DefaultChunkSize else chunkSize;
      buffer := new byte[if chunkSize == 0 then DefaultChunkSize else chunkSize];
      offset := 0;
      closed := false;
    }

    /** allocate: when `size` more bytes would overflow the buffer, yield the filled prefix
        and start a new buffer of max(size, chunkSize) bytes. Afterwards `size` bytes are free
        and no byte has been lost or added. */
    method Allocate(size: nat) returns (chunks: seq<seq<byte>>)
      requires Valid()
      modifies this
      ensures Valid() && closed == old(closed)
      ensures offset + size <= buffer.Length
      ensures Flatten(chunks) + Pending() == old(Pending())
      ensures old(offset) + size <= old(buffer.Length) ==>
        chunks == [] && buffer == old(buffer) && offset == old(offset)
      ensures old(buffer.Length) < old(offset) + size ==>
        chunks == [old(Pending())] && offset == 0 && fresh(buffer) && buffer.Length == Max(size, chunkSize)
    {
      chunks := [];
      if buffer.Length < offset + size {
        chunks := [buffer[..offset]];
        FlattenOne(buffer[..offset]);
        buffer := new byte[Max(size, chunkSize)];
        offset := 0;
      }
    }

    /** Allocate room for `data`, copy it in at the offset and move the offset past it: the
        pattern shared by the integer writers (setUint8/16/32, setBigUint64), the float
        writers and the copies of encodeString and encodeBytes. */
    method Put(data: seq<byte>) returns (chunks: seq<seq<byte>>)
      requires Valid()
      modifies this, buffer
      ensures Valid() && closed == old(closed)
      ensures buffer == old(buffer) || fresh(buffer)
      ensures Flatten(chunks) + Pending() == old(Pending()) + data
    {
      chunks := Allocate(|data|);
      ghost var before := Pending();
      forall i | 0 <= i < |data| {
        buffer[offset + i] := data[i];
      }
      offset := offset + |data|;
      assert Pending() == before + data;
    }

    /** uint8, uint16, uint32 and uint64: the value, big-endian, in `width` bytes. */
    method WriteUint(value: nat, width: nat) returns (chunks: seq<seq<byte>>)
      requires Valid()
      modifies this, buffer
      ensures Valid() && closed == old(closed)
      ensures buffer == old(buffer) || fresh(buffer)
      ensures Flatten(chunks) + Pending() == old(Pending()) + BigEndian(value, width)
    {
      chunks := Put(BigEndian(value, width));
    }

    /** encodeTypeAndArgument: the initial byte, then the argument in the width the
        additional information calls for. */
    method EncodeTypeAndArgument(major: nat, argument: nat) returns (chunks: seq<seq<byte>>)
      requires Valid() && major < 8
      modifies this, buffer
      ensures Valid() && closed == old(closed)
      ensures buffer == old(buffer) || fresh(buffer)
      ensures Flatten(chunks) + Pending() == old(Pending()) + Header.Encode(major, argument)
    {
      ghost var p0 := Pending();
      var ai := Header.AdditionalInformation(argument);
      chunks := WriteUint(Header.InitialByte(major, ai), 1);
      assert BigEndian(Header.InitialByte(major, ai), 1) == [Header.InitialByte(major, ai)];
      ghost var p1 := Pending();
      var more: seq<seq<byte>> := [];
      if ai == 24 {
        more := WriteUint(argument, 1);
      } else if ai == 25 {
        more := WriteUint(argument, 2);
      } else if ai == 26 {
        more := WriteUint(argument, 4);
      } else if ai == 27 {
        more := WriteUint(argument, 8);
      }
      Chain(chunks, more, p0, p1, Pending(), [Header.InitialByte(major, ai)], BigEndian(argument, Header.ArgumentSize(ai)));
      chunks := chunks + more;
    }

    /** encodeInteger. */
    method EncodeInteger(value: int) returns (chunks: seq<seq<byte>>)
      requires Valid()
      modifies this, buffer
      ensures Valid() && closed == old(closed)
      ensures buffer == old(buffer) || fresh(buffer)
      ensures Flatten(chunks) + Pending() == old(Pending()) + Encoding.EncodeInteger(value)
    {
      if value < 0 {
        chunks := EncodeTypeAndArgument(1, -value - 1);
      } else {
        chunks := EncodeTypeAndArgument(0, value);
      }
    }

    /** encodeFloat: the initial byte 0xE0 | 25/26/27, then the bits in that width. */
    method EncodeFloat(value: FloatBits) returns (chunks: seq<seq<byte>>)
      requires Valid()
      modifies this, buffer
      ensures Valid() && closed == old(closed)
      ensures buffer == old(buffer) || fresh(buffer)
      ensures Flatten(chunks) + Pending() == old(Pending()) + Encoding.EncodeFloat(value)
    {
      ghost var p0 := Pending();
      var ai := Encoding.FloatInfo(value.width);
      chunks := WriteUint(Header.InitialByte(7, ai), 1);
      assert BigEndian(Header.InitialByte(7, ai), 1) == [Header.InitialByte(7, ai)];
      ghost var p1 := Pending();
      var more := Put(BigEndian(value.payload, FloatSize(value.width)));
      Chain(chunks, more, p0, p1, Pending(), [Header.InitialByte(7, ai)], BigEndian(value.payload, FloatSize(value.width)));
      chunks := chunks + more;
    }

    /** encodeNumber: +0 and safe whole numbers go to the integer writer, −0 and everything
        else to the float writer. */
    method EncodeNumber(value: Encoding.Number) returns (chunks: seq<seq<byte>>)
      requires Valid()
      modifies this, buffer
      ensures Valid() && closed == old(closed)
      ensures buffer == old(buffer) || fresh(buffer)
      ensures Flatten(chunks) + Pending() == old(Pending()) + Encoding.EncodeValue(Encoding.NumberValue(value))
    {
      Encoding.NumberEncoding(value);
      if !value.negativeZero && value.whole == Some(0) {
        chunks := EncodeInteger(value.whole.value);
      } else if value.negativeZero {
        chunks := EncodeFloat(value.bits);
      } else if value.whole.Some? && MinSafeInteger <= value.whole.value <= MaxSafeInteger {
        chunks := EncodeInteger(value.whole.value);
      } else {
        chunks := EncodeFloat(value.bits);
      }
    }

    /** encodeString: the header with the UTF-8 byte count, then the UTF-8 bytes. */
    method EncodeString(value: string) returns (chunks: seq<seq<byte>>)
      requires Valid()
      modifies this, buffer
      ensures Valid() && closed == old(closed)
      ensures buffer == old(buffer) || fresh(buffer)
      ensures Flatten(chunks) + Pending() == old(Pending()) + Encoding.EncodeText(value)
    {
      ghost var p0 := Pending();
      var data := Unicode.Encode(value);
      chunks := EncodeTypeAndArgument(3, |data|);
      ghost var p1 := Pending();
      var more := Put(data);
      Chain(chunks, more, p0, p1, Pending(), Header.Encode(3, |data|), data);
      chunks := chunks + more;
    }

    /** encodeBytes: the header with the byte count, then the bytes. */
    method EncodeBytes(value: seq<byte>) returns (chunks: seq<seq<byte>>)
      requires Valid()
      modifies this, buffer
      ensures Valid() && closed == old(closed)
      ensures buffer == old(buffer) || fresh(buffer)
      ensures Flatten(chunks) + Pending() == old(Pending()) + Encoding.EncodeBytes(value)
    {
      ghost var p0 := Pending();
      chunks := EncodeTypeAndArgument(2, |value|);
      ghost var p1 := Pending();
      var more := Put(value);
      Chain(chunks, more, p0, p1, Pending(), Header.Encode(2, |value|), value);
      chunks := chunks + more;
    }

    /** encodeValue: nothing once the encoder is closed; otherwise the chunks hold, together
        with what stays in the buffer, exactly the encoding of the value. */
    method EncodeValue(value: Value) returns (chunks: seq<seq<byte>>)
      requires Valid()
      modifies this, buffer
      ensures Valid() && closed == old(closed)
      ensures buffer == old(buffer) || fresh(buffer)
      ensures old(closed) ==> chunks == [] && buffer == old(buffer) && unchanged(buffer) && offset == old(offset)
      ensures old(closed) ==> Pending() == old(Pending())
      ensures !old(closed) ==> Flatten(chunks) + Pending() == old(Pending()) + Encoding.EncodeValue(value)
      decreases value, 2
    {
      if closed {
        return [];
      }
      match value {
        case Bool(b) =>
          chunks := WriteUint(if b then 0xF5 else 0xF4, 1);
        case Null =>
          chunks := WriteUint(0xF6, 1);
        case Undefined =>
          chunks := WriteUint(0xF7, 1);
        case Int(i) =>
          chunks := EncodeInteger(i);
        case Float(f) =>
          chunks := EncodeFloat(f);
        case Text(s) =>
          chunks := EncodeString(s);
        case Bytes(d) =>
          chunks := EncodeBytes(d);
        case Array(items) =>
          chunks := EncodeArray(items);
          Encoding.ArrayEncoding(items);
        case Map(es) =>
          chunks := EncodeMap(es);
          Encoding.MapEncoding(es);
      }
    }

    /** The list branch of encodeValue: the count, then every element. */
    method EncodeArray(items: seq<Value>) returns (chunks: seq<seq<byte>>)
      requires Valid() && !closed
      modifies this, buffer
      ensures Valid() && !closed
      ensures buffer == old(buffer) || fresh(buffer)
      ensures Flatten(chunks) + Pending() == old(Pending()) + (Header.Encode(4, |items|) + Flatten(Encoding.ItemEncodings(items)))
      decreases Array(items), 1
    {
      chunks := EncodeTypeAndArgument(4, |items|);
      ghost var header := Header.Encode(4, |items|);
      ghost var encodings := Encoding.ItemEncodings(items);
      var i := 0;
      while i < |items|
        invariant 0 <= i <= |items|
        invariant Valid() && !closed
        invariant buffer == old(buffer) || fresh(buffer)
        invariant Flatten(chunks) + Pending() == old(Pending()) + (header + Flatten(encodings[..i]))
      {
        ghost var p1 := Pending();
        var more := EncodeValue(items[i]);
        Extend(chunks, more, old(Pending()), p1, Pending(), header, encodings, i);
        chunks := chunks + more;
        i := i + 1;
      }
      Complete(header, encodings);
    }

    /** The object branch of encodeValue: the key count, then for every key in compareKeys
        order the key as text and the property's value. */
    method EncodeMap(es: seq<(string, Value)>) returns (chunks: seq<seq<byte>>)
      requires Valid() && !closed
      modifies this, buffer
      ensures Valid() && !closed
      ensures buffer == old(buffer) || fresh(buffer)
      ensures Flatten(chunks) + Pending() == old(Pending()) + (Header.Encode(5, |es|) + Flatten(Encoding.FieldEncodings(es)))
      decreases Map(es), 1
    {
      var keys := SortKeys(Keys(es));
      assert |keys| == |es| by {
        assert |multiset(keys)| == |multiset(Keys(es))|;
      }
      chunks := EncodeTypeAndArgument(5, |keys|);
      ghost var header := Header.Encode(5, |keys|);
      ghost var encodings := Encoding.FieldEncodings(es);
      var i := 0;
      while i < |keys|
        invariant 0 <= i <= |keys|
        invariant Valid() && !closed
        invariant buffer == old(buffer) || fresh(buffer)
        invariant Flatten(chunks) + Pending() == old(Pending()) + (header + Flatten(encodings[..i]))
      {
        assert keys[i] in Keys(es) by {
          assert keys[i] in multiset(keys);
        }
        ghost var p1 := Pending();
        var more := EncodeField(es, keys[i]);
        Extend(chunks, more, old(Pending()), p1, Pending(), header, encodings, i);
        chunks := chunks + more;
        i := i + 1;
      }
      Complete(header, encodings);
    }

    /** One pass of the object loop: the key as a text string, then the property's value. */
    method EncodeField(es: seq<(string, Value)>, key: string) returns (chunks: seq<seq<byte>>)
      requires Valid() && !closed && key in Keys(es)
      modifies this, buffer
      ensures Valid() && !closed
      ensures buffer == old(buffer) || fresh(buffer)
      ensures Flatten(chunks) + Pending() == old(Pending()) + Encoding.FieldEncoding(es, key)
      decreases Map(es), 0
    {
      var j := Find(es, key);
      assert j < |es| by {
        var m :| 0 <= m < |es| && Keys(es)[m] == key;
        FindFirst(es, key);
      }
      ghost var p1 := Pending();
      var c1 := EncodeString(key);
      ghost var p2 := Pending();
      var c2 := EncodeValue(es[j].1);
      Chain(c1, c2, p1, p2, Pending(), Encoding.EncodeText(key), Encoding.EncodeValue(es[j].1));
      chunks := c1 + c2;
    }

    /** flush: close the encoder and yield what is left in the buffer, if anything; a closed
        encoder yields nothing. */
    method Flush() returns (chunks: seq<seq<byte>>)
      requires Valid()
      modifies this
      ensures Valid() && closed && buffer == old(buffer) && offset == old(offset)
      ensures old(closed) ==> chunks == []
      ensures !old(closed) ==> chunks == if old(offset) > 0 then [old(Pending())] else []
    {
      if closed {
        return [];
      }
      closed := true;
      chunks := [];
      if offset > 0 {
        chunks := [buffer[..offset]];
      }
    }
  }

  /** Two writes in a row: what the first handed out and kept, followed by what the second
      handed out and kept, is both writes' bytes. */
  lemma Chain(a: seq<seq<byte>>, b: seq<seq<byte>>, p0: seq<byte>, p1: seq<byte>, p2: seq<byte>,
              x: seq<byte>, y: seq<byte>)
    requires Flatten(a) + p1 == p0 + x
    requires Flatten(b) + p2 == p1 + y
    ensures Flatten(a + b) + p2 == p0 + (x + y)
  {
    FlattenConcat(a, b);
    calc {
      Flatten(a + b) + p2;
      Flatten(a) + (Flatten(b) + p2);
      Flatten(a) + (p1 + y);
      (Flatten(a) + p1) + y;
    }
  }

  /** One more element of a sequence of encodings written: the invariant of the array and
      object loops moves from i to i + 1. */
  lemma Extend(chunks: seq<seq<byte>>, more: seq<seq<byte>>, p0: seq<byte>, p1: seq<byte>,
               p2: seq<byte>, header: seq<byte>, encodings: seq<seq<byte>>, i: nat)
    requires i < |encodings|
    requires Flatten(chunks) + p1 == p0 + (header + Flatten(encodings[..i]))
    requires Flatten(more) + p2 == p1 + encodings[i]
    ensures Flatten(chunks + more) + p2 == p0 + (header + Flatten(encodings[..i + 1]))
  {
    Chain(chunks, more, p0, p1, p2, header + Flatten(encodings[..i]), encodings[i]);
    FlattenSnoc(encodings, i);
  }

  lemma Complete(header: seq<byte>, encodings: seq<seq<byte>>)
    ensures header + Flatten(encodings[..|encodings|]) == header + Flatten(encodings)
  {
    assert encodings[..|encodings|] == encodings;
  }

  lemma FlattenSnoc(s: seq<seq<byte>>, i: nat)
    requires i < |s|
    ensures Flatten(s[..i + 1]) == Flatten(s[..i]) + s[i]
  {
    assert s[..i + 1] == s[..i] + [s[i]];
    FlattenConcat(s[..i], [s[i]]);
    FlattenOne(s[i]);
  }

  /** encode: run encodeValue and flush on a fresh encoder and join the chunks. The result
      is the encoding of the value for every chunk size: chunking is invisible. */
  method Encode(value: Value, chunkSize: nat) returns (data: seq<byte>)
    ensures data == Encoding.EncodeValue(value)
  {
    var encoder := new Encoder(chunkSize);
    var chunks := encoder.EncodeValue(value);
    var rest := encoder.Flush();
    assert Flatten(rest) == encoder.Pending() by {
      if encoder.offset > 0 {
        FlattenOne(encoder.Pending());
      }
    }
    FlattenConcat(chunks, rest);
    data := Join(chunks + rest);
  }

  /** The second half of encode: add up the chunk lengths, allocate one array of that size
      and copy every chunk in at its offset. */
  method Join(chunks: seq<seq<byte>>) returns (data: seq<byte>)
    ensures data == Flatten(chunks)
  {
    var byteLength := 0;
    var k := 0;
    while k < |chunks|
      invariant 0 <= k <= |chunks|
      invariant byteLength == |Flatten(chunks[..k])|
    {
      FlattenSnoc(chunks, k);
      byteLength := byteLength + |chunks[k]|;
      k := k + 1;
    }
    var out := new byte[byteLength];
    var offset := 0;
    k := 0;
    assert chunks[..|chunks|] == chunks;
    while k < |chunks|
      invariant 0 <= k <= |chunks|
      invariant offset == |Flatten(chunks[..k])| <= byteLength
      invariant out[..offset] == Flatten(chunks[..k])
      invariant forall m :: 0 <= m < k ==> |Flatten(chunks[..m])| <= |Flatten(chunks[..k])|
    {
      FlattenSnoc(chunks, k);
      PrefixLength(chunks, k + 1);
      var chunk := chunks[k];
      forall m | 0 <= m < |chunk| {
        out[offset + m] := chunk[m];
      }
      offset := offset + |chunk|;
      k := k + 1;
    }
    data := out[..];
  }

  lemma {:induction false} PrefixLength(chunks: seq<seq<byte>>, k: nat)
    requires k <= |chunks|
    ensures |Flatten(chunks[..k])| <= |Flatten(chunks)|
  {
    assert chunks == chunks[..k] + chunks[k..];
    FlattenConcat(chunks[..k], chunks[k..]);
  }
}
