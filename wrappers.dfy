/** Option and Result values, and the Python exceptions the pipeline can raise. */
module Wrappers {

  datatype Option<T> = None | Some(value: T) {
    function GetOr(default: T): T {
      match this
      case Some(v) => v
      case None => default
    }
  }

  /** The exceptions the modelled code can end with. */
  datatype Error =
    | IndexError                    // `x[0]` on an empty list, `shift[2]` on a short shift
    | CannotOpen(path: string)      // gdal.Open returned None and the next call on it failed
    | ShapeMismatch                 // masked arrays of different shapes subtracted
    | EmptyReduction                // np.nanmin / np.nanmax on a zero-size array
    | NameError(name: string)       // a global name that is neither defined nor imported
    | UnboundLocal(name: string)    // a local read before any assignment

  datatype Result<T> = Ok(value: T) | Err(error: Error)
}
