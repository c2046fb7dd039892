/** Small failure-carrying datatypes shared by the model. */
module Wrappers {

  /** An optional value: Swift's `T?`. */
  datatype Option<+T> = None | Some(value: T)

  /** The outcome of a throwing call whose error is caught and discarded
      (the `do { try … } catch { … }` shape of the port model). */
  datatype Outcome<+T> = Success(value: T) | Failure
}
