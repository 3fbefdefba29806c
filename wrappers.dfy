/** Option and Result, the value-level form of Swift's optionals and thrown errors. */
module Wrappers {

  datatype Option<+T> = None | Some(value: T)

  datatype Result<+R, +E> = Success(value: R) | Failure(error: E)
  {
    /** Collapses a Result to an Option, the way `try?` or a `catch { return nil }` does. */
    function ToOption(): (o: Option<R>)
      ensures o.Some? <==> Success?
      ensures Success? ==> o.value == value
    {
      match this
      case Success(v) => Some(v)
      case Failure(_) => None
    }
  }
}
