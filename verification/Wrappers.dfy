/** Types shared by the components. */
module Wrappers {
  datatype Option<+T> = None | Some(value: T)

  /** An unsigned 8-bit value. */
  newtype byte = b: int | 0 <= b < 256

  type Bytes = seq<byte>

  function Min(a: nat, b: nat): nat {
    if a < b then a else b
  }
}
