/** Java references that may be null, and the failure modes of the repository.
    A Java method that either returns a value or throws is modelled as a function
    returning a `Result`; the exception class becomes the `Error` variant. */
module Wrappers {

  /** A Java reference that may be null: `None` stands for `null`. */
  datatype Option<+T> = None | Some(value: T)

  /** The exceptions the repositories can raise. */
  datatype Error =
    | IllegalArgument(message: string)   // IllegalArgumentException raised by the repository itself
    | IllegalState(message: string)      // IllegalStateException raised by role or message-type mapping
    | IndexOutOfBounds(index: int)       // ArrayIndexOutOfBoundsException from indexing a split result
    | SubListRange(toIndex: int)         // IllegalArgumentException from ArrayList.subList(0, toIndex) with toIndex < 0
    | Unsupported                        // UnsupportedOperationException
    | NullPointer                        // NullPointerException from dereferencing a null argument
    | MemoryAccess(message: string)      // AgentCoreMemoryException wrapping an SDK failure
    | SdkFailure                         // an SDK failure propagated unwrapped

  /** The outcome of a Java call: its return value or the exception it threw. */
  datatype Result<+T> = Success(value: T) | Failure(error: Error)
}
