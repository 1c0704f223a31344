/** Small value types shared by every module of the model. */
module Common {

  /** The tagged "maybe" type. Where the C code uses the sentinel MISSING_UID
      or a NULL pointer, the model uses None. */
  datatype Option<+T> = None | Some(value: T)

  /** An octet of an address or of a buffer. */
  type Byte = x: int | 0 <= x < 0x100

  /** in_port_t: a 16-bit unsigned port number, in whichever byte order the
      context says. */
  type Port16 = x: int | 0 <= x < 0x1_0000

  /** uid_t: a 32-bit unsigned user id. */
  type Uid = x: int | 0 <= x < 0x1_0000_0000

  /** A 32-bit signed C int. */
  type Int32 = x: int | -0x8000_0000 <= x < 0x8000_0000

  /** The C conversion of a signed int to uid_t (reduction modulo 2^32). */
  function IntToUid(x: Int32): (u: Uid)
    ensures x >= 0 ==> u == x
    ensures x < 0 ==> u == x + 0x1_0000_0000
  {
    x % 0x1_0000_0000
  }
}
