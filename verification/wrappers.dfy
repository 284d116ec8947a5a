/** Optional values, results and the exceptions the modelled operations raise. */
module Wrappers {

  /** A nullable reference or value: `None` stands for C#'s `null`. */
  datatype Option<+T> = None | Some(value: T) {
    function GetOr(default: T): T {
      if Some? then value else default
    }
  }

  /** The exception an operation throws, by cause. */
  datatype Error =
    | ArgumentNull    // ArgumentNullException
    | CrossScene      // the argument belongs to a different scene
    | SelfChild       // a model added as its own child
    | OutOfRange      // ArgumentOutOfRangeException / IndexOutOfRangeException
    | NotSupported    // NotSupportedException: the model kind has no node attribute
    | TypeMismatch    // node attribute type differs from the model type
    | BadPolygon      // polygon null or with fewer than three indices
    | BadArity        // fewer than three indices per polygon requested
    | NotDivisible    // flat index buffer not a multiple of the polygon arity
    | NullReference   // NullReferenceException on a null receiver
    | Conversion      // a System.Convert call that throws

  /** Either the value an operation returns or the exception it throws. */
  datatype Result<+T> = Ok(value: T) | Err(error: Error)

  /** C#'s `s ?? String.Empty`. */
  function OrEmpty(s: Option<string>): (r: string)
    ensures s.Some? ==> r == s.value
    ensures s.None? ==> r == ""
  {
    s.GetOr("")
  }
}
