/** Small shared vocabulary used by every other module. */
module Common {

  /** A value that may be missing: a SQL table that does not exist, a dict lookup that failed. */
  datatype Option<+T> = None | Some(value: T)

  function Min(a: int, b: int): int
  {
    if a <= b then a else b
  }
}
