/** Types that the other modules share. */
module Wrappers {

  /** None stands for a null pointer or a missing result. */
  datatype Option<+T> = None | Some(value: T)

  /** An unsigned byte, as a number. */
  type byte = b: int | 0 <= b < 256
}
