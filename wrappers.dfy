/** Optional values and results with an error message, used across the model. */
module Wrappers {
  datatype Option<T> = None | Some(value: T)
  {
    function GetOr(default: T): T
    {
      if Some? then value else default
    }
  }

  /** `Throw(msg)` stands for a JavaScript `throw new Error(msg)`. */
  datatype Result<T> = Ok(value: T) | Throw(msg: string)
}
