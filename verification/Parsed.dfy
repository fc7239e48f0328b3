/** The outcome of reading a value from a byte buffer at a position. */
module Parsed {
  import opened Bytes

  datatype Error =
    | Overflow                        // a varint above 64 bits
    | InvalidUtf8
    | UnknownPacket(tag: nat)
    | UnexpectedPacket
    | UnsupportedCustomSerialization
    | UnsupportedType
    | Deserialize                     // low-cardinality header
    | UnknownTimezone
    | Panicked                        // an assertion, slice or division panic of the reader

  /** `WouldBlock` means that the bytes ran out: the caller starts again from the
      same position once more of them have arrived. */
  datatype Parsed<+T> = Ok(value: T, pos: nat) | WouldBlock | Err(error: Error, pos: nat) {
    predicate IsFailure() { !Ok? }

    function PropagateFailure<U>(): Parsed<U>
      requires IsFailure()
    {
      if WouldBlock? then WouldBlock else Err(error, pos)
    }

    function Extract(): (T, nat)
      requires Ok?
    {
      (value, pos)
    }

    /** The cursor stops inside the buffer, not before where it started. */
    predicate Within(start: nat, d: Bytes) {
      !WouldBlock? ==> start <= pos <= |d|
    }
  }
}
