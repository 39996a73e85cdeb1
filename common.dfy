/** Small shared vocabulary: an optional value (for DOM lookups and parses that
    may yield nothing) and integer minimum/maximum. */
module Common {

  datatype Option<+T> = None | Some(value: T)

  function Min(a: int, b: int): int
  {
    if a <= b then a else b
  }

  function Max(a: int, b: int): int
  {
    if a <= b then b else a
  }
}
