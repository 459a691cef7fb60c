/**
 * The failures the modelled operations can raise. In the program these are
 * exceptions thrown by the runtime; here they are returned values.
 */
module Errors {

  datatype Error =
    /** A size that is negative where an array or buffer of that size is allocated. */
    | NegativeSize
    /** A read of the cell array outside its bounds. */
    | IndexOutOfRange

  datatype Result<T> = Success(value: T) | Failure(error: Error)
}
