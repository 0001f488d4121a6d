/** Option and Result, the shapes the model uses for std::optional and for
    operations that throw. */
module Wrappers {

  datatype Option<+T> = None | Some(value: T) {
    function GetOr(default: T): T {
      match this
      case Some(v) => v
      case None => default
    }
  }

  /** An operation that either yields a value or throws an exception carrying
      a message. */
  datatype Result<+T> = Ok(value: T) | Err(error: string)
}
