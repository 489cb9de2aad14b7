/** Machine words and small helpers that several modules share. */
module Common {

  const UINT: nat := 0x1_0000_0000    // 32-bit arithmetic is modulo this
  const PGSIZE: nat := 4096

  newtype byte = x: int | 0 <= x < 256

  datatype Option<T> = None | Some(value: T)

  function Max(a: int, b: int): (r: int) { if a > b then a else b }

  function Min(a: int, b: int): (r: int) { if a < b then a else b }
}
