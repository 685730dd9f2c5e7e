/** Kotlin's nullable results (`Int?`, `T?`) are modelled as an Option. */
module Wrappers {

  datatype Option<+T> = None | Some(value: T)
}
