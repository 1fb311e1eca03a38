/** Small definitions shared by the models. */
module Common {
  datatype Option<+T> = None | Some(value: T)

  /** A second, in nanoseconds. */
  const SECOND: int := 1_000_000_000

  function Max(a: int, b: int): (m: int)
    ensures m >= a && m >= b && (m == a || m == b)
  {
    if a < b then b else a
  }

  /** A truth value as a number. */
  function One(b: bool): (n: nat) {
    if b then 1 else 0
  }
}
