/** Optional values: a nullable column, a missing query parameter or a lookup
    that may find nothing. */
module Base {

  datatype Option<T> = None | Some(value: T)

  function Min(a: int, b: int): int {
    if a <= b then a else b
  }

  function Max(a: int, b: int): int {
    if a <= b then b else a
  }
}
