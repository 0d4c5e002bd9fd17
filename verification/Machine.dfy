/**
  What the models of the C sources share: bytes, the limits of integer types, and values that
  may be missing.
*/
module Machine {

  type byte = bv8

  const INT_MAX := 0x7fff_ffff
  const TWO_32 := 0x1_0000_0000
  const TWO_63 := 0x8000_0000_0000_0000
  const TWO_64 := 0x1_0000_0000_0000_0000

  datatype Option<+T> = None | Some(value: T)

  /** Conversion of an unsigned value to the 32-bit int of a C parameter. */
  function ToInt(x: int): (r: int)
    ensures 0 <= x ==> r <= x
    ensures 0 <= x <= INT_MAX ==> r == x
    ensures INT_MAX < x <= TWO_32 ==> r <= 0
  {
    var m := x % TWO_32;
    if m <= INT_MAX then m else m - TWO_32
  }
}
