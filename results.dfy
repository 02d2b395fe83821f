/** Optional values, results, and the errors the codec raises. */
module Results {

  datatype Option<T> = None | Some(value: T)

  /** The conditions under which the encoder, decoders and length calculator throw. */
  datatype Error =
    | IndefiniteLength          // additional information 31: indefinite lengths are not supported
    | InvalidArgument           // additional information 28 to 30
    | UnsafeInteger(value: int) // UnsafeIntegerError, carrying the integer that is out of range
    | IntegerOutOfRange         // decode.ts: RangeError on the Infinity sentinel in major types 0 and 1
    | ByteStringsUnsupported    // decode.ts: major type 2
    | UndefinedUnsupported      // decode.ts: simple value 23
    | NonStringKey              // a map key that is not a text string
    | TaggedItem                // major type 6
    | UnassignedSimple          // simple value in a following byte (additional information 24)
    | InvalidSimple             // any other simple value that is not supported
    | OutOfBounds               // DataView RangeError: a read past the end of the buffer
    | InvalidLength             // RangeError from new Array or new Uint8Array for an impossible length
    | StreamEnded               // the source ran out in the middle of a data item
    | InternalError             // fill asked for more bytes than are queued
    | UndefinedNotAllowed       // encodingLength met undefined while allowUndefined is false

  datatype Result<T> = Ok(value: T) | Err(error: Error)
}
