/** Failure values shared by the chunk planner and the kernel dispatch. */
module Errors {

  /** The exceptions the modelled code raises. */
  datatype Error =
    | ChunkExceedsDim(dim: int, chunkDim: int) // AssertionError of _pad_amount
    | InvalidDatatype                          // ValueError('invalid datatype')
    | InvalidInterpolationMethod               // ValueError('invalid interpolation method')
    | NotCupyArray                             // ValueError('only works on cupy arrays')
    | NoneNotCallable                          // TypeError: the kernel looked up was None

  /** A value, or the exception raised instead of returning it. */
  datatype Result<T> = Ok(value: T) | Err(error: Error)

  /** An optional argument, such as an output shape passed as None. */
  datatype Option<T> = None | Some(value: T)
}
