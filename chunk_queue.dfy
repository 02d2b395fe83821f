/** A queue of byte chunks laid over the stream of all the bytes: where each chunk starts, and
    the facts the chunked decoder keeps about its queue, its offset and its unread bytes. */
module ChunkQueue {
  import opened Binary

  /** The chunks lie one after the other in `stream`, chunk `k` from `starts[k]` up to
      `starts[k + 1]`. */
  ghost predicate Tiled(stream: seq<byte>, starts: seq<nat>, chunks: seq<seq<byte>>)
  {
    && |starts| == |chunks| + 1
    && forall k {:trigger chunks[k]} :: 0 <= k < |chunks| ==>
         starts[k] + |chunks[k]| == starts[k + 1] <= |stream| && stream[starts[k]..starts[k + 1]] == chunks[k]
  }

  /** The chunks after the first `d` still lie where they did. */
  lemma TiledSuffix(stream: seq<byte>, starts: seq<nat>, chunks: seq<seq<byte>>, d: nat)
    requires Tiled(stream, starts, chunks) && d <= |chunks|
    ensures Tiled(stream, starts[d..], chunks[d..])
  {
    forall k {:trigger chunks[d..][k]} | 0 <= k < |chunks| - d
      ensures starts[d..][k] + |chunks[d..][k]| == starts[d..][k + 1] <= |stream|
      ensures stream[starts[d..][k]..starts[d..][k + 1]] == chunks[d..][k]
    {
      assert chunks[d..][k] == chunks[d + k];
    }
  }

  /** The queued chunks lie one after the other in the stream; the offset lies inside the
      first of them, the position is where it points, and `byteLength` counts the queued
      bytes from there on. */
  ghost predicate Queued(stream: seq<byte>, starts: seq<nat>, chunks: seq<seq<byte>>, offset: nat, byteLength: nat, position: nat)
  {
    && Tiled(stream, starts, chunks)
    && (offset == 0 || (chunks != [] && offset < |chunks[0]|))
    && position == starts[0] + offset
    && position + byteLength == starts[|chunks|]
  }

  /** Pushing the chunk that follows the queue in the stream keeps it queued. */
  lemma QueuedPush(stream: seq<byte>, starts: seq<nat>, chunks: seq<seq<byte>>, offset: nat, byteLength: nat, position: nat,
                   chunk: seq<byte>, end: nat)
    requires Queued(stream, starts, chunks, offset, byteLength, position)
    requires starts[|chunks|] + |chunk| == end <= |stream| && stream[starts[|chunks|]..end] == chunk
    ensures Queued(stream, starts + [end], chunks + [chunk], offset, byteLength + |chunk|, position)
  {
    var chunks', starts' := chunks + [chunk], starts + [end];
    forall k {:trigger chunks'[k]} | 0 <= k < |chunks'|
      ensures starts'[k] + |chunks'[k]| == starts'[k + 1] <= |stream| && stream[starts'[k]..starts'[k + 1]] == chunks'[k]
    {
      if k < |chunks| {
        assert chunks'[k] == chunks[k];
      }
    }
  }

  /** Reading `size` bytes on, with the first `d` chunks used up and the offset moved into the
      chunk after them, keeps the rest of the queue queued. */
  lemma QueuedSuffix(stream: seq<byte>, starts: seq<nat>, chunks: seq<seq<byte>>, offset: nat, byteLength: nat, position: nat,
                     d: nat, offset': nat, size: nat)
    requires Queued(stream, starts, chunks, offset, byteLength, position)
    requires d <= |chunks| && (offset' == 0 || (d < |chunks| && offset' < |chunks[d]|))
    requires position + size == starts[d] + offset' && size <= byteLength
    ensures Queued(stream, starts[d..], chunks[d..], offset', byteLength - size, position + size)
  {
    TiledSuffix(stream, starts, chunks, d);
  }

  /** Where each chunk starts in the bytes of all of them, then the length of them all. */
  ghost function Boundaries(chunks: seq<seq<byte>>): (r: seq<nat>)
    ensures |r| == |chunks| + 1 && r[|chunks|] == |Flatten(chunks)|
  {
    assert chunks[..|chunks|] == chunks;
    seq(|chunks| + 1, k requires 0 <= k <= |chunks| => |Flatten(chunks[..k])|)
  }

  /** Chunk `k` is the bytes between the end of the chunks before it and the end of the
      chunks up to it. */
  lemma ChunkInFlatten(chunks: seq<seq<byte>>, k: nat)
    requires k < |chunks|
    ensures |Flatten(chunks[..k])| + |chunks[k]| == |Flatten(chunks[..k + 1])| <= |Flatten(chunks)|
    ensures Flatten(chunks)[|Flatten(chunks[..k])|..|Flatten(chunks[..k + 1])|] == chunks[k]
  {
    assert chunks[..k + 1] == chunks[..k] + [chunks[k]];
    FlattenConcat(chunks[..k], [chunks[k]]);
    FlattenOne(chunks[k]);
    assert chunks == chunks[..k + 1] + chunks[k + 1..];
    FlattenConcat(chunks[..k + 1], chunks[k + 1..]);
  }

  /** The boundaries tile the bytes of all the chunks with the chunks. */
  lemma BoundariesTile(chunks: seq<seq<byte>>)
    ensures Tiled(Flatten(chunks), Boundaries(chunks), chunks)
  {
    var bounds, bytes := Boundaries(chunks), Flatten(chunks);
    forall k {:trigger chunks[k]} | 0 <= k < |chunks|
      ensures bounds[k] + |chunks[k]| == bounds[k + 1] <= |bytes| && bytes[bounds[k]..bounds[k + 1]] == chunks[k]
    {
      ChunkInFlatten(chunks, k);
      assert bounds[k] == |Flatten(chunks[..k])| && bounds[k + 1] == |Flatten(chunks[..k + 1])|;
    }
  }
}
