/** The C integer conversions the driver and the server rely on. */
module CInt {

  const TWO31: int := 0x8000_0000
  const TWO32: int := 0x1_0000_0000
  const TWO64: int := 0x1_0000_0000_0000_0000

  /** Conversion to `uint32_t`. */
  function ToUint32(x: int): (r: nat)
    ensures 0 <= x < TWO32 ==> r == x
    ensures r < TWO32
  {
    x % TWO32
  }

  /** Conversion to a 32-bit `int`. */
  function ToInt32(x: int): (r: int)
    ensures -TWO31 <= x < TWO31 ==> r == x
    ensures -TWO31 <= r < TWO31
  {
    (x + TWO31) % TWO32 - TWO31
  }

  /** Conversion of a signed 32- or 64-bit value to a 64-bit `size_t`. */
  function ToSizeT(x: int): (r: int)
    ensures 0 <= x < TWO64 ==> r == x
    ensures -TWO64 <= x < 0 ==> r == x + TWO64
    ensures 0 <= r < TWO64
  {
    x % TWO64
  }
}
