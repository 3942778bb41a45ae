/** The bounds-checked subscript `array[safe: index]` and the optional value it returns. */
module SafeSubscript {

  datatype Option<T> = None | Some(value: T) {

    /** The wrapped value, or `default` when there is none (Swift's `??`). */
    function GetOr(default: T): (r: T)
      ensures Some? ==> r == value
      ensures None? ==> r == default
    {
      match this
      case Some(v) => v
      case None => default
    }
  }

  /** `a[safe: i]`: the element at `i` when `i` is one of the indices of `a`, and `None`
      otherwise. It is total: no index, negative or past the end, makes it trap. */
  function SafeGet<T>(a: seq<T>, i: int): (r: Option<T>)
    ensures 0 <= i < |a| ==> r == Some(a[i])
    ensures i < 0 ==> r == None
    ensures |a| <= i ==> r == None
    ensures a == [] ==> r == None
  {
    if 0 <= i < |a| then Some(a[i]) else None
  }
}
