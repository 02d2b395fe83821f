/** The older one-shot decoder: free functions over a mutable DecodeState whose offset every
    reader moves forward. It rejects byte strings and undefined, turns a 64-bit argument beyond
    2^53 − 1 into Infinity, and its uint64 reader moves the offset on by one byte only. Each
    method is proved to do what the decoding specification (module Decoding, variant Lossy)
    gives at the offset it starts from. */
module LossyDecoder {
  import opened Binary
  import opened Results
  import opened Values
  import Unicode
  import Decoding

  /** DecodeState: the bytes (its DataView) and the offset of the next byte to read. The
      `strict` option only concerns floats and is not part of this model. */
  class DecodeState {
    const data: seq<byte>
    var offset: nat

    constructor (data: seq<byte>)
      ensures this.data == data && offset == 0
    {
      this.data := data;
      offset := 0;
    }
  }

  /** constants.uint8, uint16, uint32 and uint64: a DataView read at the offset (a RangeError
      past the end). uint8, uint16 and uint32 move the offset on by their width, uint64 by one
      byte only. */
  method ReadUint(state: DecodeState, width: nat) returns (r: Result<nat>)
    requires width in {1, 2, 4, 8}
    modifies state
    ensures Decoding.Follows(r, state.offset, Decoding.ReadUint(state.data, old(state.offset), width, Decoding.Lossy))
  {
    if state.offset + width <= |state.data| {
      r := Ok(FromBigEndian(state.data[state.offset..state.offset + width]));
      if width == 8 {
        state.offset := state.offset + 1;
      } else {
        state.offset := state.offset + width;
      }
    } else {
      r := Err(OutOfBounds);
    }
  }

  /** constants.float16, float32 and float64: the raw bits of the float at the offset. */
  method ReadFloat(state: DecodeState, width: FloatWidth) returns (r: Result<Value>)
    modifies state
    ensures Decoding.Follows(r, state.offset, Decoding.ReadFloat(state.data, old(state.offset), width, Decoding.Lossy))
  {
    var size := FloatSize(width);
    if state.offset + size <= |state.data| {
      r := Ok(Float(FloatBits(width, FromBigEndian(state.data[state.offset..state.offset + size]))));
      state.offset := state.offset + size;
    } else {
      r := Err(OutOfBounds);
    }
  }

  /** decodeString: a DataView over the next `length` bytes (a RangeError when they are not
      all there), the offset moved on by `length`, and the UTF-8 text of those bytes. */
  method DecodeString(state: DecodeState, length: nat) returns (r: Result<string>)
    modifies state
    ensures Decoding.Follows(r, state.offset, Decoding.ReadText(state.data, old(state.offset), length, Decoding.Lossy))
  {
    if |state.data| < state.offset + length {
      return Err(OutOfBounds);
    }
    var view := state.data[state.offset..state.offset + length];
    state.offset := state.offset + length;
    r := Ok(Unicode.TextDecoderDecode(view));
  }

  /** getArgument: additional information below 24 is the argument; 24 to 27 read it from
      the following bytes; 31 and 28 to 30 are errors. The argument is kept exact: one beyond
      2^53 − 1 is what this decoder sees as Infinity. */
  method GetArgument(state: DecodeState, additionalInformation: nat) returns (r: Result<nat>)
    modifies state
    ensures Decoding.Follows(r, state.offset,
      Decoding.ReadArgument(state.data, old(state.offset), additionalInformation, Decoding.Lossy))
  {
    if additionalInformation < 24 {
      r := Ok(additionalInformation);
    } else if additionalInformation == 24 {
      r := ReadUint(state, 1);
    } else if additionalInformation == 25 {
      r := ReadUint(state, 2);
    } else if additionalInformation == 26 {
      r := ReadUint(state, 4);
    } else if additionalInformation == 27 {
      r := ReadUint(state, 8);
    } else if additionalInformation == 31 {
      r := Err(IndefiniteLength);
    } else {
      r := Err(InvalidArgument);
    }
  }

  /** decodeValue: the data item at the offset. */
  method DecodeValue(state: DecodeState) returns (r: Result<Value>)
    modifies state
    ensures Decoding.Follows(r, state.offset, Decoding.Item(state.data, old(state.offset), Decoding.Lossy))
    decreases |state.data| - state.offset, 0
  {
    var initialByte := ReadUint(state, 1);
    if initialByte.Err? {
      return Err(initialByte.error);
    }
    Decoding.ReadOneByte(state.data, old(state.offset), Decoding.Lossy);
    var majorType := initialByte.value / 32;
    var additionalInformation := initialByte.value % 32;
    if majorType == 2 {
      return Err(ByteStringsUnsupported);
    } else if majorType == 6 {
      return Err(TaggedItem);
    } else if majorType == 7 {
      r := DecodeSimple(state, additionalInformation);
      return;
    }
    var argument := GetArgument(state, additionalInformation);
    if argument.Err? {
      return Err(argument.error);
    }
    var length := argument.value;
    if majorType == 0 {
      if MaxSafeInteger < length {
        return Err(IntegerOutOfRange);
      }
      return Ok(Int(length));
    } else if majorType == 1 {
      if MaxSafeInteger < length {
        return Err(IntegerOutOfRange);
      }
      return Ok(Int(-1 - length as int));
    } else if majorType == 3 {
      var text := DecodeString(state, length);
      if text.Err? {
        return Err(text.error);
      }
      return Ok(Text(text.value));
    } else if majorType == 4 {
      if 0x1_0000_0000 <= length {
        return Err(InvalidLength);
      }
      r := DecodeArray(state, length);
    } else {
      r := DecodeMap(state, length);
    }
  }

  /** The list branch of decodeValue: `new Array(length)`, then one decodeValue per element. */
  method DecodeArray(state: DecodeState, length: nat) returns (r: Result<Value>)
    requires state.offset <= |state.data| && length < 0x1_0000_0000
    modifies state
    ensures Decoding.Follows(r, state.offset, Decoding.Content(state.data, 4, length, old(state.offset), Decoding.Lossy))
    decreases |state.data| - state.offset, 1
  {
    Decoding.ContentOfArray(state.data, length, state.offset, Decoding.Lossy);
    ghost var body := state.offset;
    var value := new Value[length];
    var i := 0;
    while i < length
      invariant 0 <= i <= length && body <= state.offset
      invariant Decoding.Items(state.data, state.offset, length - i, value[..i], Decoding.Lossy)
             == Decoding.Items(state.data, body, length, [], Decoding.Lossy)
    {
      var element := DecodeValue(state);
      if element.Err? {
        return Err(element.error);
      }
      value[i] := element.value;
      assert value[..i + 1] == value[..i] + [element.value];
      i := i + 1;
    }
    assert value[..] == value[..length];
    r := Ok(Array(value[..]));
  }

  /** The object branch of decodeValue: `{}`, then one entry after the other. */
  method DecodeMap(state: DecodeState, length: nat) returns (r: Result<Value>)
    requires state.offset <= |state.data|
    modifies state
    ensures Decoding.Follows(r, state.offset, Decoding.Content(state.data, 5, length, old(state.offset), Decoding.Lossy))
    decreases |state.data| - state.offset, 2
  {
    Decoding.ContentOfMap(state.data, length, state.offset, Decoding.Lossy);
    ghost var spec := Decoding.Entries(state.data, state.offset, length, [], Decoding.Lossy);
    var value: seq<(string, Value)> := [];
    var i := 0;
    ghost var remaining := length;
    while i < length
      invariant 0 <= i <= length && old(state.offset) <= state.offset
      invariant remaining == length - i
      invariant Decoding.Entries(state.data, state.offset, remaining, value, Decoding.Lossy) == spec
    {
      var entry := DecodeEntry(state, remaining, value);
      if entry.Err? {
        return Err(entry.error);
      }
      value := entry.value;
      i := i + 1;
      remaining := remaining - 1;
    }
    Decoding.EntriesDone(state.data, state.offset, value, Decoding.Lossy);
    r := Ok(Map(value));
  }

  /** One pass of the object loop: a key, which must be a string, then a value, assigned as
      `value[key] = …` does. */
  method DecodeEntry(state: DecodeState, ghost count: nat, value: seq<(string, Value)>)
    returns (r: Result<seq<(string, Value)>>)
    requires count > 0
    modifies state
    ensures r.Ok? ==> old(state.offset) < state.offset
    ensures r.Ok? ==>
      Decoding.Entries(state.data, old(state.offset), count, value, Decoding.Lossy)
      == Decoding.Entries(state.data, state.offset, count - 1, r.value, Decoding.Lossy)
    ensures r.Err? ==> Decoding.Entries(state.data, old(state.offset), count, value, Decoding.Lossy) == Err(r.error)
    decreases |state.data| - state.offset, 1
  {
    ghost var at := state.offset;
    var key := DecodeValue(state);
    if key.Err? {
      Decoding.EntriesError(state.data, at, count, value, Decoding.Lossy, 0, key.error);
      return Err(key.error);
    }
    if !key.value.Text? {
      Decoding.EntriesNonStringKey(state.data, at, count, value, Decoding.Lossy, key.value, state.offset);
      return Err(NonStringKey);
    }
    ghost var next := state.offset;
    var element := DecodeValue(state);
    if element.Err? {
      Decoding.EntriesError(state.data, at, count, value, Decoding.Lossy, next, element.error);
      return Err(element.error);
    }
    Decoding.EntriesStep(state.data, at, count, value, Decoding.Lossy, key.value.s, next, element.value, state.offset);
    r := Ok(Assign(value, key.value.s, element.value));
  }

  /** The major type 7 branch of decodeValue: undefined is rejected. */
  method DecodeSimple(state: DecodeState, additionalInformation: nat) returns (r: Result<Value>)
    modifies state
    ensures Decoding.Follows(r, state.offset,
      Decoding.Simple(state.data, old(state.offset), additionalInformation, Decoding.Lossy))
  {
    if additionalInformation == 20 {
      r := Ok(Bool(false));
    } else if additionalInformation == 21 {
      r := Ok(Bool(true));
    } else if additionalInformation == 22 {
      r := Ok(Null);
    } else if additionalInformation == 23 {
      r := Err(UndefinedUnsupported);
    } else if additionalInformation == 24 {
      r := Err(UnassignedSimple);
    } else if additionalInformation == 25 {
      r := ReadFloat(state, Half);
    } else if additionalInformation == 26 {
      r := ReadFloat(state, Single);
    } else if additionalInformation == 27 {
      r := ReadFloat(state, Double);
    } else if additionalInformation == 31 {
      r := Err(IndefiniteLength);
    } else {
      r := Err(InvalidSimple);
    }
  }

  /** decode: the first data item of the buffer, read from a fresh DecodeState. */
  method Decode(data: seq<byte>) returns (r: Result<Value>)
    ensures r == Decoding.Outcome(Decoding.Item(data, 0, Decoding.Lossy))
  {
    var state := new DecodeState(data);
    r := DecodeValue(state);
  }
}
