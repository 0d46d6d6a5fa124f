/** The small types every component of the model shares. */
module Basics {
  datatype Option<+T> = None | Some(value: T)
  {
    function GetOr(default: T): T {
      if Some? then value else default
    }
  }

  newtype Byte = b: int | 0 <= b < 256

  type Bytes = seq<Byte>
}
