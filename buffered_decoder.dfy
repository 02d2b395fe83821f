/** The one-shot decoder: a class over one complete Uint8Array with an offset that every read
    moves forward. Each method is proved to return what the decoding specification (module
    Decoding, variant Buffered) gives at the offset it starts from, and to leave the offset
    where the specification ends. */
module BufferedDecoder {
  import opened Binary
  import opened Results
  import opened Values
  import Unicode
  import Decoding

  class Decoder {
    const data: seq<byte>
    var offset: nat

    constructor (data: seq<byte>)
      ensures this.data == data && offset == 0
    {
      this.data := data;
      offset := 0;
    }

    /** getOffset: the position of the next byte to be read. */
    function GetOffset(): nat
      reads this
    {
      offset
    }

    /** The readers uint8, uint16, uint32 and uint64: a DataView read at the offset, which
        throws a RangeError past the end, then the offset moves on by the width. */
    method ReadUint(width: nat) returns (r: Result<nat>)
      requires width in {1, 2, 4, 8}
      modifies this
      ensures Decoding.Follows(r, offset, Decoding.ReadUint(data, old(offset), width, Decoding.Buffered))
    {
      if offset + width <= |data| {
        r := Ok(FromBigEndian(data[offset..offset + width]));
        offset := offset + width;
      } else {
        r := Err(OutOfBounds);
      }
    }

    /** float16, float32 and float64: the raw bits of the float at the offset. */
    method ReadFloat(width: FloatWidth) returns (r: Result<Value>)
      modifies this
      ensures Decoding.Follows(r, offset, Decoding.ReadFloat(data, old(offset), width, Decoding.Buffered))
    {
      var size := FloatSize(width);
      if offset + size <= |data| {
        r := Ok(Float(FloatBits(width, FromBigEndian(data[offset..offset + size]))));
        offset := offset + size;
      } else {
        r := Err(OutOfBounds);
      }
    }

    /** decodeBytes: `new Uint8Array(length)` (a RangeError for the Infinity of an unsafe
        64-bit length), filled from the clamped subarray at the offset; the offset moves on
        by `length` whatever the subarray held. */
    method DecodeBytes(length: nat) returns (r: Result<seq<byte>>)
      modifies this
      ensures Decoding.Follows(r, offset, Decoding.ReadBytes(data, old(offset), length, Decoding.Buffered))
    {
      if MaxSafeInteger < length {
        return Err(InvalidLength);
      }
      var value := new byte[length](_ => 0);
      var part := Decoding.Clamp(data, offset, length);
      forall k | 0 <= k < |part| {
        value[k] := part[k];
      }
      offset := offset + length;
      assert value[..] == part + Zeros(length - |part|);
      r := Ok(value[..]);
    }

    /** decodeString: the UTF-8 text of the clamped subarray at the offset; the offset moves
        on by `length`. */
    method DecodeString(length: nat) returns (value: string)
      modifies this
      ensures Decoding.ReadText(data, old(offset), length, Decoding.Buffered) == Ok((value, offset))
    {
      value := Unicode.TextDecoderDecode(Decoding.Clamp(data, offset, length));
      offset := offset + length;
    }

    /** getArgument: the argument that the additional information stands for. A 64-bit
        argument is kept exactly; its callers check it against the safe range. */
    method GetArgument(additionalInformation: nat) returns (r: Result<nat>)
      modifies this
      ensures Decoding.Follows(r, offset,
        Decoding.ReadArgument(data, old(offset), additionalInformation, Decoding.Buffered))
    {
      if additionalInformation < 24 {
        r := Ok(additionalInformation);
      } else if additionalInformation == 24 {
        r := ReadUint(1);
      } else if additionalInformation == 25 {
        r := ReadUint(2);
      } else if additionalInformation == 26 {
        r := ReadUint(4);
      } else if additionalInformation == 27 {
        r := ReadUint(8);
      } else if additionalInformation == 31 {
        r := Err(IndefiniteLength);
      } else {
        r := Err(InvalidArgument);
      }
    }

    /** decodeValue: the data item at the offset, read front to back, lists and objects by
        loops that call decodeValue for every element, key and value. */
    method DecodeValue() returns (r: Result<Value>)
      modifies this
      ensures Decoding.Follows(r, offset, Decoding.Item(data, old(offset), Decoding.Buffered))
      decreases |data| - offset, 0
    {
      ghost var start := offset;
      var initialByte := ReadUint(1);
      if initialByte.Err? {
        return Err(initialByte.error);
      }
      Decoding.ReadOneByte(data, start, Decoding.Buffered);
      var majorType := initialByte.value / 32;
      var additionalInformation := initialByte.value % 32;
      if majorType == 6 {
        return Err(TaggedItem);
      } else if majorType == 7 {
        r := DecodeSimple(additionalInformation);
        return;
      }
      var argument := GetArgument(additionalInformation);
      if argument.Err? {
        return Err(argument.error);
      }
      ghost var body := offset;
      var length := argument.value;
      if majorType == 0 {
        if MaxSafeInteger < length {
          return Err(UnsafeInteger(length));
        }
        return Ok(Int(length));
      } else if majorType == 1 {
        if -1 - length < MinSafeInteger {
          return Err(UnsafeInteger(-1 - length));
        }
        return Ok(Int(-1 - length));
      } else if majorType == 2 {
        var bytes := DecodeBytes(length);
        if bytes.Err? {
          return Err(bytes.error);
        }
        return Ok(Bytes(bytes.value));
      } else if majorType == 3 {
        var text := DecodeString(length);
        return Ok(Text(text));
      } else if majorType == 4 {
        if 0x1_0000_0000 <= length {
          return Err(InvalidLength);
        }
        r := DecodeArray(length);
      } else {
        r := DecodeMap(length);
      }
    }

    /** The list branch of decodeValue: `new Array(length)`, then one decodeValue per element. */
    method DecodeArray(length: nat) returns (r: Result<Value>)
      requires offset <= |data| && length < 0x1_0000_0000
      modifies this
      ensures Decoding.Follows(r, offset, Decoding.Content(data, 4, length, old(offset), Decoding.Buffered))
      decreases |data| - offset, 1
    {
      Decoding.ContentOfArray(data, length, offset, Decoding.Buffered);
      ghost var body := offset;
      var value := new Value[length];
      var i := 0;
      while i < length
        invariant 0 <= i <= length && body <= offset
        invariant Decoding.Items(data, offset, length - i, value[..i], Decoding.Buffered)
               == Decoding.Items(data, body, length, [], Decoding.Buffered)
      {
        var element := DecodeValue();
        if element.Err? {
          return Err(element.error);
        }
        value[i] := element.value;
        assert value[..i + 1] == value[..i] + [element.value];
        i := i + 1;
      }
      assert value[..] == value[..length];
      r := Ok(Array(value[..]));
    }

    /** The object branch of decodeValue: `{}`, then one entry after the other. */
    method DecodeMap(length: nat) returns (r: Result<Value>)
      requires offset <= |data|
      modifies this
      ensures Decoding.Follows(r, offset, Decoding.Content(data, 5, length, old(offset), Decoding.Buffered))
      decreases |data| - offset, 2
    {
      Decoding.ContentOfMap(data, length, offset, Decoding.Buffered);
      ghost var spec := Decoding.Entries(data, offset, length, [], Decoding.Buffered);
      var value: seq<(string, Value)> := [];
      var i := 0;
      ghost var remaining := length;
      while i < length
        invariant 0 <= i <= length && old(offset) <= offset
        invariant remaining == length - i
        invariant Decoding.Entries(data, offset, remaining, value, Decoding.Buffered) == spec
      {
        var entry := DecodeEntry(remaining, value);
        if entry.Err? {
          return Err(entry.error);
        }
        value := entry.value;
        i := i + 1;
        remaining := remaining - 1;
      }
      Decoding.EntriesDone(data, offset, value, Decoding.Buffered);
      r := Ok(Map(value));
    }

    /** One pass of the object loop: a key, which must be a string, then a value, assigned as
        `value[key] = …` does. */
    method DecodeEntry(ghost count: nat, value: seq<(string, Value)>)
      returns (r: Result<seq<(string, Value)>>)
      requires count > 0
      modifies this
      ensures r.Ok? ==> old(offset) < offset
      ensures r.Ok? ==>
        Decoding.Entries(data, old(offset), count, value, Decoding.Buffered)
        == Decoding.Entries(data, offset, count - 1, r.value, Decoding.Buffered)
      ensures r.Err? ==> Decoding.Entries(data, old(offset), count, value, Decoding.Buffered) == Err(r.error)
      decreases |data| - offset, 1
    {
      ghost var at := offset;
      var key := DecodeValue();
      if key.Err? {
        Decoding.EntriesError(data, at, count, value, Decoding.Buffered, 0, key.error);
        return Err(key.error);
      }
      if !key.value.Text? {
        Decoding.EntriesNonStringKey(data, at, count, value, Decoding.Buffered, key.value, offset);
        return Err(NonStringKey);
      }
      ghost var next := offset;
      var element := DecodeValue();
      if element.Err? {
        Decoding.EntriesError(data, at, count, value, Decoding.Buffered, next, element.error);
        return Err(element.error);
      }
      Decoding.EntriesStep(data, at, count, value, Decoding.Buffered, key.value.s, next, element.value, offset);
      r := Ok(Assign(value, key.value.s, element.value));
    }

  /** The major type 7 branch of decodeValue. */
    method DecodeSimple(additionalInformation: nat) returns (r: Result<Value>)
      modifies this
      ensures Decoding.Follows(r, offset,
        Decoding.Simple(data, old(offset), additionalInformation, Decoding.Buffered))
    {
      if additionalInformation == 20 {
        r := Ok(Bool(false));
      } else if additionalInformation == 21 {
        r := Ok(Bool(true));
      } else if additionalInformation == 22 {
        r := Ok(Null);
      } else if additionalInformation == 23 {
        r := Ok(Undefined);
      } else if additionalInformation == 24 {
        r := Err(UnassignedSimple);
      } else if additionalInformation == 25 {
        r := ReadFloat(Half);
      } else if additionalInformation == 26 {
        r := ReadFloat(Single);
      } else if additionalInformation == 27 {
        r := ReadFloat(Double);
      } else if additionalInformation == 31 {
        r := Err(IndefiniteLength);
      } else {
        r := Err(InvalidSimple);
      }
    }
  }

  /** decode: the first data item of the buffer, read by a fresh decoder. */
  method Decode(data: seq<byte>) returns (r: Result<Value>)
    ensures r == Decoding.Outcome(Decoding.Item(data, 0, Decoding.Buffered))
  {
    var decoder := new Decoder(data);
    r := decoder.DecodeValue();
  }
}
