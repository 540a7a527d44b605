/**
 * Option, for values the source leaves `None`, `null` or `undefined`, and Result, for calls
 * into a store or library that may raise instead of returning; and `Repeat`, n copies of a value.
 */
module Wrappers {
  datatype Option<+T> = None | Some(value: T) {
    function GetOr(default: T): T {
      match this
      case Some(v) => v
      case None => default
    }
  }

  /** The outcome of a call that may raise: its value, or the message of the error it raised. */
  datatype Result<+T> = Ok(value: T) | Err(message: string)

  /** n copies of x. */
  function Repeat<T>(x: T, n: nat): (r: seq<T>)
    ensures |r| == n && forall i :: 0 <= i < n ==> r[i] == x
  {
    if n == 0 then [] else Repeat(x, n - 1) + [x]
  }
}
