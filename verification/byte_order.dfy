/** The 64-bit byte swap behind the conversion to network byte order on a little-endian host. */
module ByteOrder {

  /** The macro on an unsigned operand. */
  function Swap64(val: bv64): bv64 {
    (val >> 56)
    | ((val & 0x00ff000000000000) >> 40)
    | ((val & 0x0000ff0000000000) >> 24)
    | ((val & 0x000000ff00000000) >> 8)
    | ((val & 0x00000000ff000000) << 8)
    | ((val & 0x0000000000ff0000) << 24)
    | ((val & 0x000000000000ff00) << 40)
    | (val << 56)
  }

  /** A signed right shift by 56 repeats the sign bit. */
  function ArithmeticShift56(val: bv64): bv64 {
    if val & 0x8000000000000000 == 0 then val >> 56 else (val >> 56) | 0xffffffffffffff00
  }

  /** The macro on a signed operand: its first shift is arithmetic. */
  function SwapSigned64(val: bv64): bv64 {
    ArithmeticShift56(val)
    | ((val & 0x00ff000000000000) >> 40)
    | ((val & 0x0000ff0000000000) >> 24)
    | ((val & 0x000000ff00000000) >> 8)
    | ((val & 0x00000000ff000000) << 8)
    | ((val & 0x0000000000ff0000) << 24)
    | ((val & 0x000000000000ff00) << 40)
    | (val << 56)
  }

  /** Swapping reverses the octets, so what a little-endian host stores is in network byte order. */
  lemma SwapReverses(x: bv64)
    ensures Swap64(x) & 0xff == (x >> 56) & 0xff
    ensures (Swap64(x) >> 8) & 0xff == (x >> 48) & 0xff
    ensures (Swap64(x) >> 16) & 0xff == (x >> 40) & 0xff
    ensures (Swap64(x) >> 24) & 0xff == (x >> 32) & 0xff
    ensures (Swap64(x) >> 32) & 0xff == (x >> 24) & 0xff
    ensures (Swap64(x) >> 40) & 0xff == (x >> 16) & 0xff
    ensures (Swap64(x) >> 48) & 0xff == (x >> 8) & 0xff
    ensures (Swap64(x) >> 56) & 0xff == x & 0xff
  {
  }

  /** Swapping twice changes nothing. */
  lemma SwapTwice(x: bv64)
    ensures Swap64(Swap64(x)) == x
  {
  }

  /** On a signed operand the macro is right exactly when the operand is not negative or ends in seven octets of
      ones. Read from the network, the operand is negative when the last octet is 0x80 or more. */
  lemma SignedSwapIff(x: bv64)
    ensures SwapSigned64(x) == Swap64(x)
            <==> x & 0x8000000000000000 == 0 || x & 0x00ffffffffffffff == 0x00ffffffffffffff
  {
  }
}
