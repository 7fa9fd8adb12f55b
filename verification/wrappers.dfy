/** Optional values and results shared by every module of the model.
    `None` stands for a pandas missing value (NaN, None, NA, NaT) wherever a
    column may be null; `Result` stands for a Python exception path. */
module Wrappers {

  datatype Option<+T> = None | Some(value: T) {
    function GetOr(default: T): T {
      match this
      case Some(v) => v
      case None => default
    }
  }

  /** The exceptions the modelled functions raise, by their Python class. */
  datatype Error = ValueError(msg: string) | KeyError(msg: string) | LoadError(msg: string) | CastError(msg: string)
                | ZeroDivisionError(msg: string) | AttributeError(msg: string) | RuntimeError(msg: string)

  datatype Result<+R> = Ok(value: R) | Err(error: Error)
}
