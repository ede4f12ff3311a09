/** Values every other module uses: bytes, optional values and big-endian reads. */
module Basics {

  /** An unsigned 8-bit value. Masks and shifts of the original are written as `/` and `%`. */
  type byte = x: int | 0 <= x < 0x100

  type uint16 = x: int | 0 <= x < 0x1_0000

  type uint32 = x: int | 0 <= x < 0x1_0000_0000

  type Bytes = seq<byte>

  /** Result codes of the CAS plugin. */
  datatype Result =
    | Ok | BadValue | Unsupported | NotProvisioned | NoLicense
    | SessionClosed | Busy | Decrypt | Revoked | InvalidState | Unknown

  datatype Option<+T> = None | Some(value: T)

  function Be16(hi: byte, lo: byte): (r: uint16)
    ensures r / 0x100 == hi && r % 0x100 == lo
  {
    hi * 0x100 + lo
  }
}
