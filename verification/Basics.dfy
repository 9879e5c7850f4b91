module Basics {
  function Min(x: int, y: int): (m: int)
    ensures m <= x && m <= y && (m == x || m == y)
  {
    if x <= y then x else y
  }

  function Max(x: int, y: int): (m: int)
    ensures m >= x && m >= y && (m == x || m == y)
  {
    if x <= y then y else x
  }

  /** The last items, at most max of them. */
  function Newest<T>(items: seq<T>, max: nat): seq<T> {
    if |items| <= max then items else items[|items| - max..]
  }
}
