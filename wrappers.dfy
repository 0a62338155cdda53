/** The optional-value datatype shared by every module of the model. */
module Wrappers {

  /** `None` stands for JavaScript's `null`/`undefined` where a value may be missing. */
  datatype Option<+T> = None | Some(value: T) {

    /** The value, or `default` when there is none (JavaScript's `x || default` on objects). */
    function GetOr(default: T): T {
      match this
      case Some(v) => v
      case None => default
    }
  }
}
