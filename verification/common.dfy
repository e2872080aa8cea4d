/** Shared vocabulary of the model: optional values, results carrying the
    error each operation raises, the element-type stand-in and HDF5's
    UNLIMITED extent marker. */
module Common {

  /** A value that may be absent (Python's `None`). */
  datatype Option<+T> = None | Some(value: T) {

    /** The carried value, or `default` when absent. */
    function GetOr(default: T): T {
      match this
      case Some(v) => v
      case None => default
    }
  }

  /** The exceptions the modelled code raises, one constructor per raise site.
      The comment on each names the Python exception class. */
  datatype Error =
    | RankExceeded               // IndexError: index rank is greater than dataset rank
    | MultipleEllipsis           // ValueError: only one Ellipsis supported
    | ZeroStep                   // IndexError: a step of 0 is not valid
    | UnlimitedAxisBeyondRank    // IndexError: count_idx[unlimited_index] out of range
    | NoBlockShape               // TypeError: list(None) when forcing the unlimited block
    | BlockAxisBeyondRank        // IndexError: bs[unlimited_index] out of range
    | EmptyMapList               // ValueError: at least one virtual map is required
    | NoSourceFiles              // IndexError: files[0] of an empty file list
    | NoFrameCount               // IndexError: frames[0] of an empty frames tuple
    | MismatchedAttribute        // ValueError: files have mismatched attribute
    | FrameCountMismatch(frames: int, expected: int)  // ValueError: frames do not match shape
    | AlternateTooShort          // IndexError: alternate[axis] out of range

  /** The outcome of an operation that may raise. */
  datatype Result<+T> = Ok(value: T) | Err(error: Error) {

    predicate IsFailure() {
      Err?
    }

    function PropagateFailure<U>(): Result<U>
      requires Err?
    {
      Err(error)
    }

    function Extract(): T
      requires Ok?
    {
      value
    }
  }

  /** An element type, known only by name and compared for equality. */
  type DType = string

  /** HDF5's H5S_UNLIMITED extent, `(hsize_t)-1`, as exposed by h5py. */
  const UNLIMITED: int := 0xFFFF_FFFF_FFFF_FFFF
}
