/** Option and Result, the two failure-carrying shapes the library's
    `Option<T>` and `io::Result<T>` values take. */
module Wrappers {

  datatype Option<+T> = None | Some(value: T) {

    /** `Option::is_some` */
    predicate IsSome() { Some? }

    /** `Option::unwrap_or` */
    function UnwrapOr(default: T): (r: T)
      ensures Some? ==> r == value
      ensures None? ==> r == default
    {
      match this
      case Some(v) => v
      case None => default
    }
  }

  datatype Result<+T, +E> = Ok(value: T) | Err(error: E) {

    /** `Result::ok`: forgets the error */
    function ToOption(): (r: Option<T>)
      ensures r.Some? <==> Ok?
      ensures r.Some? ==> r.value == value
    {
      match this
      case Ok(v) => Some(v)
      case Err(_) => None
    }
  }
}
