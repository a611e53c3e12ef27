/** Types that every part of the model uses. */
module Prelude {

  /** The size of a page and of a frame. */
  const PAGE: nat := 4096

  type byte = b: int | 0 <= b < 256

  datatype Option<T> = None | Some(value: T)
}
