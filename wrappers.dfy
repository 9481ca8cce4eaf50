/** An optional value, for the fields the EC2 responses may leave out. */
module Wrappers {

  datatype Option<+T> = None | Some(value: T) {

    /** The value itself, or `default` when absent (JavaScript's `x || default`). */
    function GetOr(default: T): T
    {
      match this
      case Some(v) => v
      case None => default
    }
  }
}
