/** The failure-carrying result type used for the operations that throw. */
module Wrappers {

  datatype Result<T, E> = Ok(value: T) | Err(error: E)

}
