/** Small failure-carrying datatypes shared by the whole model. */
module Wrappers {

  datatype Option<+T> = None | Some(value: T) {
    function GetOr(default: T): T {
      match this
      case Some(v) => v
      case None => default
    }
  }

  /** The reply of an external generator call: a value, or a failure
      (network, authentication or a reply that does not parse). */
  datatype Reply<+T> = Generated(value: T) | Failed
}
