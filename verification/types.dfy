/** Small shared vocabulary: optional values, bytes and the C MIN macro. */
module Types {

  datatype Option<+T> = None | Some(value: T)

  /** An unsigned 8-bit value, as `unsigned char` and `char` buffers hold them. */
  newtype byte = x: int | 0 <= x < 256

  /** The MIN macro of sys/param.h. */
  function Min(a: int, b: int): (m: int)
    ensures m <= a && m <= b && (m == a || m == b)
  {
    if a < b then a else b
  }
}
