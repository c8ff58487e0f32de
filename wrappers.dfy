/** The nullable values of the calculator (`number | null`, `string | null`). */
module Wrappers {
  datatype Option<+T> = None | Some(value: T)
}
