/** The decoders over a source of Uint8Array chunks (decodeIterable and decodeAsyncIterable):
    a queue of chunks pulled from the source on demand, the offset of the next unread byte in
    the first of them, and the number of unread bytes queued. Both decoders are modelled by
    one class; the asynchronous one awaits each pull in turn, which changes nothing in what it
    computes, and may be given an onFree callback, modelled by the `trackFree` flag and the
    log `freed` of the chunks handed to it.

    The source is the finite sequence of chunks its iterator yields. The stream is all of
    them one after the other, and the position is how far into it the decoder has read. Each
    method is proved to return what the decoding specification (module Decoding, variant
    Streaming) gives for the stream at the position it starts from. */
module ChunkDecoder {
  import opened Binary
  import opened Results
  import opened Values
  import Unicode
  import Decoding
  import opened ChunkQueue

  class Decoder {
    /** The chunks the source's iterator yields, in order. */
    const source: seq<seq<byte>>
    /** How many of them `iter.next()` has returned so far. */
    var pulled: nat
    /** The queue of chunks pulled and not yet used up. */
    var chunks: seq<seq<byte>>
    /** The offset of the next unread byte in the first queued chunk. */
    var offset: nat
    /** The number of unread bytes in the queue. */
    var byteLength: nat
    /** The eight-byte scratch buffer the fixed-width readers fill. */
    const constantBuffer: array<byte>
    /** Whether an onFree callback was given. */
    const trackFree: bool
    /** The chunks handed to onFree, in the order of the calls. */
    var freed: seq<seq<byte>>
    /** All the bytes of the source, one chunk after the other. */
    ghost const stream: seq<byte>
    /** Where each chunk of the source starts in the stream, then the stream's length. */
    ghost const boundaries: seq<nat>
    /** Where each queued chunk starts in the stream, then where the last one ends. */
    ghost var starts: seq<nat>
    /** How many bytes of the stream have been read. */
    ghost var position: nat

    /** The source chunks lie one after the other in the stream; so do the queued chunks,
        which end where the chunks not pulled yet begin; the offset lies inside the first
        queued chunk, the position is where it points, and `byteLength` counts the queued
        bytes after it. */
    ghost predicate Valid()
      reads this
    {
      && constantBuffer.Length == 8
      && pulled <= |source|
      && Tiled(stream, boundaries, source) && boundaries[|source|] == |stream|
      && Queued(stream, starts, chunks, offset, byteLength, position)
      && starts[|chunks|] == boundaries[pulled]
      && (!trackFree ==> freed == [])
    }

    /** The queued bytes from the offset on are the stream's bytes from the position on, and
        once the source is exhausted they are all that is left of it. */
    lemma Window()
      requires Valid()
      ensures position + byteLength <= |stream|
      ensures pulled == |source| ==> position + byteLength == |stream|
    {
      if pulled < |source| {
        assert boundaries[pulled] <= boundaries[pulled + 1] <= |stream| by {
          assert source[pulled] == source[pulled];
        }
      }
    }

    constructor (source: seq<seq<byte>>, trackFree: bool)
      ensures Valid() && fresh(constantBuffer)
      ensures this.source == source && this.trackFree == trackFree && stream == Flatten(source)
      ensures pulled == 0 && chunks == [] && freed == [] && position == 0
    {
      this.source := source;
      this.trackFree := trackFree;
      pulled := 0;
      chunks := [];
      offset := 0;
      byteLength := 0;
      constantBuffer := new byte[8](_ => 0);
      freed := [];
      stream := Flatten(source);
      boundaries := Boundaries(source);
      starts := [0];
      position := 0;
      new;
      BoundariesTile(source);
    }

    /** allocate: pull chunks until at least `size` unread bytes are queued, or fail with
        "stream ended prematurely" when the source runs out first. It pulls no chunk more
        than it needs. */
    method Allocate(size: nat) returns (r: Result<()>)
      requires Valid()
      modifies this
      ensures Valid() && position == old(position)
      ensures offset == old(offset) && freed == old(freed)
      ensures old(pulled) <= pulled && chunks == old(chunks) + source[old(pulled)..pulled]
      ensures r.Ok? <==> old(position) + size <= |stream|
      ensures r.Ok? ==> size <= byteLength
      ensures r.Err? ==> r.error == StreamEnded
      ensures old(pulled) < pulled ==> byteLength - |source[pulled - 1]| < size
    {
      while byteLength < size
        invariant Valid() && position == old(position) && offset == old(offset) && freed == old(freed)
        invariant old(pulled) <= pulled && chunks == old(chunks) + source[old(pulled)..pulled]
        invariant old(pulled) < pulled ==> byteLength - |source[pulled - 1]| < size
        decreases |source| - pulled
      {
        if pulled == |source| {
          Window();
          return Err(StreamEnded);
        }
        var value := source[pulled];
        assert source[old(pulled)..pulled + 1] == source[old(pulled)..pulled] + [value];
        PullOne(value);
      }
      Window();
      r := Ok(());
    }

    /** One `iter.next()` that yields `value`, pushed onto the queue. */
    method PullOne(value: seq<byte>)
      requires Valid() && pulled < |source| && value == source[pulled]
      modifies this
      ensures Valid() && position == old(position)
      ensures offset == old(offset) && freed == old(freed)
      ensures pulled == old(pulled) + 1 && chunks == old(chunks) + [value]
      ensures byteLength == old(byteLength) + |value|
    {
      assert boundaries[pulled] + |value| == boundaries[pulled + 1] <= |stream|;
      QueuedPush(stream, starts, chunks, offset, byteLength, position, value, boundaries[pulled + 1]);
      pulled := pulled + 1;
      chunks := chunks + [value];
      starts := starts + [boundaries[pulled]];
      byteLength := byteLength + |value|;
    }

    /** fill: copy the next `size` unread bytes into the first `size` bytes of `target`,
        splice out the chunks that are used up and hand each of them to onFree. With fewer
        than `size` bytes queued it fails with an internal error and changes nothing. The
        chunks spliced out all end at or before the new position. */
    method Fill(target: array<byte>, size: nat) returns (r: Result<()>)
      requires Valid() && size <= target.Length
      modifies this, target
      ensures Valid() && pulled == old(pulled)
      ensures r.Ok? <==> size <= old(byteLength)
      ensures r.Err? ==> r.error == InternalError && unchanged(this) && unchanged(target)
      ensures r.Ok? ==> position == old(position) + size <= |stream|
      ensures r.Ok? ==> target[..size] == stream[old(position)..position]
      ensures target[size..] == old(target[size..])
      ensures |chunks| <= |old(chunks)| && chunks == old(chunks)[|old(chunks)| - |chunks|..]
      ensures old(starts)[|old(chunks)| - |chunks|] <= position
      ensures freed == old(freed) + (if trackFree then old(chunks)[..|old(chunks)| - |chunks|] else [])
    {
      if byteLength < size {
        return Err(InternalError);
      }
      Window();
      var deleteCount := CopyOut(target, size);
      if trackFree {
        OnFree(deleteCount);
      }
      QueuedSuffix(stream, starts, chunks, old(offset), old(byteLength), position, deleteCount, offset, size);
      chunks := chunks[deleteCount..];
      starts := starts[deleteCount..];
      position := position + size;
      assert forall j :: 0 <= j < size ==> target[j] == stream[old(position)..position][j];
      r := Ok(());
    }

    /** The copying loop of fill: the next `size` unread bytes go into `target`, chunk by
        chunk, each chunk read to its end counted in `deleteCount`; the offset moves into the
        first chunk not used up. The queue itself is left as it is. */
    method CopyOut(target: array<byte>, size: nat) returns (deleteCount: nat)
      requires Valid() && size <= target.Length && size <= byteLength && position + size <= |stream|
      modifies `offset, `byteLength, target
      ensures deleteCount <= |chunks|
      ensures offset == 0 || (deleteCount < |chunks| && offset < |chunks[deleteCount]|)
      ensures old(position) + size == starts[deleteCount] + offset
      ensures forall j :: 0 <= j < size ==> target[j] == stream[old(position) + j]
      ensures forall j :: size <= j < target.Length ==> target[j] == old(target[j])
      ensures byteLength == old(byteLength) - size
    {
      var queue := chunks;
      var written := 0;
      deleteCount := 0;
      var i := 0;
      while written < size
        invariant 0 <= written <= size && deleteCount <= i && deleteCount <= |queue|
        invariant written < size ==> deleteCount == i
        invariant offset == 0 || (deleteCount < |queue| && offset < |queue[deleteCount]|)
        invariant old(position) + written == starts[deleteCount] + offset
        invariant forall j :: 0 <= j < written ==> target[j] == stream[old(position) + j]
        invariant forall j :: size <= j < target.Length ==> target[j] == old(target[j])
        invariant byteLength + written == old(byteLength)
        decreases size - written, |queue| - i
      {
        assert i < |queue|;
        var chunk := queue[i];
        var capacity := size - written;
        var length := |chunk| - offset;
        if length <= capacity {
          Set(target, chunk[offset..], written);
          written := written + length;
          deleteCount := deleteCount + 1;
          offset := 0;
          byteLength := byteLength - length;
        } else {
          Set(target, chunk[offset..offset + capacity], written);
          written := written + capacity;
          offset := offset + capacity;
          byteLength := byteLength - capacity;
        }
        i := i + 1;
      }
    }

    /** The onFree calls: each of the first `count` queued chunks, in order. */
    method OnFree(count: nat)
      requires count <= |chunks|
      modifies `freed
      ensures freed == old(freed) + chunks[..count]
    {
      var i := 0;
      while i < count
        invariant 0 <= i <= count && freed == old(freed) + chunks[..i]
      {
        assert chunks[..i + 1] == chunks[..i] + [chunks[i]];
        freed := freed + [chunks[i]];
        i := i + 1;
      }
    }

    /** constant: allocate `size` bytes, fill the start of the scratch buffer with them and
        hand them to the reader. */
    method ReadConstant(size: nat) returns (r: Result<seq<byte>>)
      requires Valid() && size <= 8
      modifies this, constantBuffer
      ensures Valid()
      ensures r.Ok? <==> old(position) + size <= |stream|
      ensures r.Ok? ==> r.value == stream[old(position)..old(position) + size]
      ensures r.Ok? ==> position == old(position) + size
      ensures r.Err? ==> r.error == StreamEnded
    {
      var reserved := Allocate(size);
      if reserved.Err? {
        return Err(reserved.error);
      }
      var filled := Fill(constantBuffer, size);
      assert filled.Ok?;
      r := Ok(constantBuffer[..size]);
    }

    /** uint8, uint16, uint32 and uint64: the big-endian integer in the next `width` bytes. */
    method ReadUint(width: nat) returns (r: Result<nat>)
      requires Valid() && width in {1, 2, 4, 8}
      modifies this, constantBuffer
      ensures Valid()
      ensures Decoding.Follows(r, position, Decoding.ReadUint(stream, old(position), width, Decoding.Streaming))
    {
      var bytes := ReadConstant(width);
      if bytes.Err? {
        return Err(bytes.error);
      }
      r := Ok(FromBigEndian(bytes.value));
    }

    /** float16, float32 and float64: the raw bits of the float in the next bytes. */
    method ReadFloat(width: FloatWidth) returns (r: Result<Value>)
      requires Valid()
      modifies this, constantBuffer
      ensures Valid()
      ensures Decoding.Follows(r, position, Decoding.ReadFloat(stream, old(position), width, Decoding.Streaming))
    {
      var bytes := ReadConstant(FloatSize(width));
      if bytes.Err? {
        return Err(bytes.error);
      }
      r := Ok(Float(FloatBits(width, FromBigEndian(bytes.value))));
    }

    /** decodeBytes: allocate `length` bytes, then fill a new Uint8Array of that length. */
    method DecodeBytes(length: nat) returns (r: Result<seq<byte>>)
      requires Valid()
      modifies this
      ensures Valid()
      ensures Decoding.Follows(r, position, Decoding.ReadBytes(stream, old(position), length, Decoding.Streaming))
    {
      var reserved := Allocate(length);
      if reserved.Err? {
        return Err(reserved.error);
      }
      var bytes := new byte[length](_ => 0);
      var filled := Fill(bytes, length);
      assert filled.Ok?;
      assert bytes[..] == bytes[..length];
      r := Ok(bytes[..]);
    }

    /** decodeString: allocate `length` bytes, fill a new Uint8Array with them and decode it
        as UTF-8. */
    method DecodeString(length: nat) returns (r: Result<string>)
      requires Valid()
      modifies this
      ensures Valid()
      ensures Decoding.Follows(r, position, Decoding.ReadText(stream, old(position), length, Decoding.Streaming))
    {
      var reserved := Allocate(length);
      if reserved.Err? {
        return Err(reserved.error);
      }
      var data := new byte[length](_ => 0);
      var filled := Fill(data, length);
      assert filled.Ok?;
      assert data[..] == data[..length];
      r := Ok(Unicode.TextDecoderDecode(data[..]));
    }

    /** getArgument: additional information below 24 is the argument; 24 to 27 read it from
        the next 1, 2, 4 or 8 bytes; 31 and 28 to 30 are errors. A 64-bit argument is kept
        exactly; its callers check it against the safe range. */
    method GetArgument(additionalInformation: nat) returns (r: Result<nat>)
      requires Valid()
      modifies this, constantBuffer
      ensures Valid()
      ensures Decoding.Follows(r, position,
        Decoding.ReadArgument(stream, old(position), additionalInformation, Decoding.Streaming))
    {
      if additionalInformation < 24 {
        r := Ok(additionalInformation);
      } else if additionalInformation == 24 {
        r := ReadUint(1);
      } else if additionalInformation == 25 {
        r := ReadUint(2);
      } else if additionalInformation == 26 {
        r := ReadUint(4);
      } else if additionalInformation == 27 {
        r := ReadUint(8);
      } else if additionalInformation == 31 {
        r := Err(IndefiniteLength);
      } else {
        r := Err(InvalidArgument);
      }
    }

    /** next: while no unread byte is queued, pull a chunk, keeping it only when it is not
        empty; the iteration is done when the source runs out, and otherwise yields the next
        data item (or throws its error). */
    method Next() returns (r: Option<Result<Value>>)
      requires Valid()
      modifies this, constantBuffer
      ensures Valid()
      ensures r.None? <==> old(position) == |stream|
      ensures r.Some? ==> Decoding.Follows(r.value, position, Decoding.Item(stream, old(position), Decoding.Streaming))
    {
      while byteLength == 0
        invariant Valid() && position == old(position)
        decreases |source| - pulled
      {
        if pulled == |source| {
          Window();
          return None;
        }
        var value := source[pulled];
        if |value| > 0 {
          PullOne(value);
        } else {
          Skip(value);
        }
      }
      Window();
      var value := DecodeValue();
      r := Some(value);
    }

    /** A pulled chunk that is empty and is not queued. */
    method Skip(value: seq<byte>)
      requires Valid() && pulled < |source| && value == source[pulled] && value == []
      modifies this
      ensures Valid() && position == old(position)
      ensures offset == old(offset) && chunks == old(chunks)
      ensures pulled == old(pulled) + 1 && byteLength == old(byteLength) && freed == old(freed)
    {
      assert boundaries[pulled] == boundaries[pulled + 1];
      pulled := pulled + 1;
    }

    /** decodeValue: the data item at the position. */
    method DecodeValue() returns (r: Result<Value>)
      requires Valid()
      modifies this, constantBuffer
      ensures Valid()
      ensures Decoding.Follows(r, position, Decoding.Item(stream, old(position), Decoding.Streaming))
      decreases |stream| - position, 0
    {
      ghost var start := position;
      var initialByte := ReadUint(1);
      if initialByte.Err? {
        return Err(initialByte.error);
      }
      Decoding.ReadOneByte(stream, start, Decoding.Streaming);
      var majorType := initialByte.value / 32;
      var additionalInformation := initialByte.value % 32;
      if majorType == 6 {
        return Err(TaggedItem);
      } else if majorType == 7 {
        r := DecodeSimple(additionalInformation);
        return;
      }
      var argument := GetArgument(additionalInformation);
      if argument.Err? {
        return Err(argument.error);
      }
      var length := argument.value;
      Window();
      if majorType == 0 {
        if MaxSafeInteger < length {
          return Err(UnsafeInteger(length));
        }
        return Ok(Int(length));
      } else if majorType == 1 {
        if -1 - length < MinSafeInteger {
          return Err(UnsafeInteger(-1 - length));
        }
        return Ok(Int(-1 - length));
      } else if majorType == 2 {
        var bytes := DecodeBytes(length);
        if bytes.Err? {
          return Err(bytes.error);
        }
        return Ok(Bytes(bytes.value));
      } else if majorType == 3 {
        var text := DecodeString(length);
        if text.Err? {
          return Err(text.error);
        }
        return Ok(Text(text.value));
      } else if majorType == 4 {
        if 0x1_0000_0000 <= length {
          return Err(InvalidLength);
        }
        r := DecodeArray(length);
      } else {
        r := DecodeMap(length);
      }
    }

    /** The list branch of decodeValue: `new Array(length)`, then one decodeValue per element. */
    method DecodeArray(length: nat) returns (r: Result<Value>)
      requires Valid() && position <= |stream| && length < 0x1_0000_0000
      modifies this, constantBuffer
      ensures Valid()
      ensures Decoding.Follows(r, position, Decoding.Content(stream, 4, length, old(position), Decoding.Streaming))
      decreases |stream| - position, 1
    {
      Decoding.ContentOfArray(stream, length, position, Decoding.Streaming);
      ghost var spec := Decoding.Items(stream, position, length, [], Decoding.Streaming);
      var value := new Value[length];
      var i := 0;
      while i < length
        invariant Valid() && 0 <= i <= length && old(position) <= position
        invariant Decoding.Items(stream, position, length - i, value[..i], Decoding.Streaming) == spec
      {
        var element := DecodeValue();
        if element.Err? {
          return Err(element.error);
        }
        value[i] := element.value;
        assert value[..i + 1] == value[..i] + [element.value];
        i := i + 1;
      }
      assert value[..] == value[..length];
      r := Ok(Array(value[..]));
    }

    /** The object branch of decodeValue: `{}`, then one entry after the other. */
    method DecodeMap(length: nat) returns (r: Result<Value>)
      requires Valid() && position <= |stream|
      modifies this, constantBuffer
      ensures Valid()
      ensures Decoding.Follows(r, position, Decoding.Content(stream, 5, length, old(position), Decoding.Streaming))
      decreases |stream| - position, 2
    {
      Decoding.ContentOfMap(stream, length, position, Decoding.Streaming);
      ghost var spec := Decoding.Entries(stream, position, length, [], Decoding.Streaming);
      var value: seq<(string, Value)> := [];
      var i := 0;
      ghost var remaining := length;
      while i < length
        invariant Valid() && 0 <= i <= length && old(position) <= position
        invariant remaining == length - i
        invariant Decoding.Entries(stream, position, remaining, value, Decoding.Streaming) == spec
      {
        var entry := DecodeEntry(remaining, value);
        if entry.Err? {
          return Err(entry.error);
        }
        value := entry.value;
        i := i + 1;
        remaining := remaining - 1;
      }
      Decoding.EntriesDone(stream, position, value, Decoding.Streaming);
      r := Ok(Map(value));
    }

    /** One pass of the object loop: a key, which must be a string, then a value, assigned as
        `value[key] = …` does. */
    method DecodeEntry(ghost count: nat, value: seq<(string, Value)>)
      returns (r: Result<seq<(string, Value)>>)
      requires Valid() && count > 0
      modifies this, constantBuffer
      ensures Valid()
      ensures r.Ok? ==> old(position) < position
      ensures r.Ok? ==>
        Decoding.Entries(stream, old(position), count, value, Decoding.Streaming)
        == Decoding.Entries(stream, position, count - 1, r.value, Decoding.Streaming)
      ensures r.Err? ==> Decoding.Entries(stream, old(position), count, value, Decoding.Streaming) == Err(r.error)
      decreases |stream| - position, 1
    {
      ghost var at := position;
      var key := DecodeValue();
      if key.Err? {
        Decoding.EntriesError(stream, at, count, value, Decoding.Streaming, 0, key.error);
        return Err(key.error);
      }
      if !key.value.Text? {
        Decoding.EntriesNonStringKey(stream, at, count, value, Decoding.Streaming, key.value, position);
        return Err(NonStringKey);
      }
      ghost var next := position;
      var element := DecodeValue();
      if element.Err? {
        Decoding.EntriesError(stream, at, count, value, Decoding.Streaming, next, element.error);
        return Err(element.error);
      }
      Decoding.EntriesStep(stream, at, count, value, Decoding.Streaming, key.value.s, next, element.value, position);
      r := Ok(Assign(value, key.value.s, element.value));
    }

    /** The major type 7 branch of decodeValue. */
    method DecodeSimple(additionalInformation: nat) returns (r: Result<Value>)
      requires Valid()
      modifies this, constantBuffer
      ensures Valid()
      ensures Decoding.Follows(r, position,
        Decoding.Simple(stream, old(position), additionalInformation, Decoding.Streaming))
    {
      if additionalInformation == 20 {
        r := Ok(Bool(false));
      } else if additionalInformation == 21 {
        r := Ok(Bool(true));
      } else if additionalInformation == 22 {
        r := Ok(Null);
      } else if additionalInformation == 23 {
        r := Ok(Undefined);
      } else if additionalInformation == 24 {
        r := Err(UnassignedSimple);
      } else if additionalInformation == 25 {
        r := ReadFloat(Half);
      } else if additionalInformation == 26 {
        r := ReadFloat(Single);
      } else if additionalInformation == 27 {
        r := ReadFloat(Double);
      } else if additionalInformation == 31 {
        r := Err(IndefiniteLength);
      } else {
        r := Err(InvalidSimple);
      }
    }
  }

  /** `target.set(source, at)`: the bytes of `source` written into `target` from `at` on. */
  method Set(target: array<byte>, source: seq<byte>, at: nat)
    requires at + |source| <= target.Length
    modifies target
    ensures forall j :: 0 <= j < at ==> target[j] == old(target[j])
    ensures forall j :: at <= j < at + |source| ==> target[j] == source[j - at]
    ensures forall j :: at + |source| <= j < target.Length ==> target[j] == old(target[j])
  {
    forall k | 0 <= k < |source| {
      target[at + k] := source[k];
    }
  }

  /** decodeIterable (and decodeAsyncIterable): the values of a decoder drained until it is
      done, ending early with the first error. What it yields depends only on the bytes of
      the source, not on where the chunk boundaries fall. */
  method DecodeIterable(source: seq<seq<byte>>) returns (values: seq<Value>, error: Option<Error>)
    ensures (values, error) == Decoding.ValueStream(Flatten(source), 0)
  {
    ghost var data := Flatten(source);
    var decoder := new Decoder(source, false);
    values := [];
    assert values + Decoding.ValueStream(data, 0).0 == Decoding.ValueStream(data, 0).0;
    while true
      invariant decoder.Valid() && fresh(decoder) && fresh(decoder.constantBuffer) && decoder.stream == data
      invariant Decoding.ValueStream(data, 0)
             == (values + Decoding.ValueStream(data, decoder.position).0, Decoding.ValueStream(data, decoder.position).1)
      decreases |data| - decoder.position
    {
      ghost var at := decoder.position;
      decoder.Window();
      var step := decoder.Next();
      if step.None? {
        assert values + [] == values;
        return values, None;
      }
      Decoding.ValueStreamStep(data, at);
      if step.value.Err? {
        assert values + [] == values;
        return values, Some(step.value.error);
      }
      ghost var rest := Decoding.ValueStream(data, decoder.position);
      assert (values + [step.value.value]) + rest.0 == values + ([step.value.value] + rest.0);
      values := values + [step.value.value];
    }
  }
}
