/** Small shared vocabulary: an optional value. */
module Prelude {

  /** A value that may be absent (a missing header, a lookup that found nothing). */
  datatype Option<+T> = None | Some(value: T)
}
