/** Small value types shared by every component. */
module Common {
  datatype Option<+T> = None | Some(value: T)
  {
    function GetOr(default: T): T {
      match this
      case None => default
      case Some(v) => v
    }
  }

  newtype byte = b: int | 0 <= b < 0x100

  type Bytes = seq<byte>

  function Min(a: int, b: int): int {
    if a < b then a else b
  }
}
