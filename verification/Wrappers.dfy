/** Values that may be missing, or not finite. */
module Wrappers {
  datatype Option<+T> = None | Some(value: T)

  /** A double where the code asks whether it is finite. */
  datatype Double = Finite(value: real) | NotFinite
}
