/** What several components share. */
module Basics {
  datatype Option<T> = None | Some(value: T)

  function Max(a: int, b: int): (r: int)
    ensures r == a || r == b
    ensures a <= r && b <= r
  {
    if a > b then a else b
  }
}
