/** Decode failures and the failure-compatible result type used by the decoder. */
module Results {

  /** Why a byte sequence could not be decoded. */
  datatype DecodeError =
    /** A field starting at or before `at` needs bytes past the end of the input. */
    | Truncated(at: nat)
    /** The chunk whose header starts at `at` declares a total length shorter than its own header,
        so skipping it would have to move backwards. */
    | MalformedSkip(at: nat, length: nat)

  /** Either a decoded value or the reason decoding stopped; usable with `:-`. */
  datatype Result<+T> = Ok(value: T) | Err(error: DecodeError) {

    predicate IsFailure() {
      Err?
    }

    function PropagateFailure<U>(): Result<U>
      requires Err?
    {
      Err(error)
    }

    function Extract(): T
      requires Ok?
    {
      value
    }
  }
}
