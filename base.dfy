/** Small shared definitions: an optional value and the minimum of two integers. */
module Base {

  /** Absence (Python's None, or an exception path that yields no value) or a value. */
  datatype Option<+T> = None | Some(value: T)

  function Min(a: int, b: int): (m: int)
    ensures m <= a && m <= b
    ensures m == a || m == b
  {
    if a <= b then a else b
  }
}
