/** The optional-value datatype used for the source's `undefined`-able fields. */
module Wrappers {

  /** `None` stands for a JavaScript `undefined` property, `Some(v)` for a present one. */
  datatype Option<+T> = None | Some(value: T) {

    /** The source's `x ?? default`: the present value, or `default` when
        the property is `undefined`. */
    function GetOr(default: T): T {
      match this
      case Some(v) => v
      case None => default
    }
  }
}
