/** Optional values (PHP's nullable values) and results with an error branch. */
module Wrappers {
  datatype Option<T> = None | Some(value: T)
  {
    /** PHP's null-coalescing operator `??`. */
    function OrElse(default: T): (r: T)
      ensures this.Some? ==> r == this.value
      ensures this.None? ==> r == default
    {
      match this
      case Some(v) => v
      case None => default
    }

    /** `??` between two nullable values: this one unless it is null. */
    function Or(other: Option<T>): (r: Option<T>)
      ensures this.Some? ==> r == this
      ensures this.None? ==> r == other
    {
      if this.Some? then this else other
    }
  }

  datatype Result<T, E> = Ok(value: T) | Err(error: E)
}
