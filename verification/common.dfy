/** Small shared vocabulary: optional values and the machine-integer ranges the program relies on. */
module Common {
  datatype Option<+T> = None | Some(value: T)

  const TWO_POW_63: int := 0x8000_0000_0000_0000
  const TWO_POW_64: int := 0x1_0000_0000_0000_0000

  newtype int32 = x: int | -0x8000_0000 <= x < 0x8000_0000

  predicate FitsInt64(x: int)
    ensures FitsInt64(x) <==> -0x8000_0000_0000_0000 <= x < 0x8000_0000_0000_0000
  {
    -TWO_POW_63 <= x < TWO_POW_63
  }

  function Min(x: int, y: int): (m: int)
    ensures m <= x && m <= y && (m == x || m == y)
  {
    if x < y then x else y
  }

  function Min32(x: int32, y: int32): (m: int32)
    ensures m as int == Min(x as int, y as int)
  {
    if x < y then x else y
  }

  function Max(x: int, y: int): (m: int)
    ensures m >= x && m >= y && (m == x || m == y)
  {
    if x < y then y else x
  }
}
