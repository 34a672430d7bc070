/** Fixed-width integers.  Assigning to a variable of one of these types is a
    proof that the value fits, so no assignment in the model wraps around.
    An arithmetic right shift by k is division by 2^k, which Dafny rounds
    towards minus infinity for a positive divisor, as the shift does. */
module MachineInt {
  type int8 = x: int | -0x80 <= x < 0x80
  type int32 = x: int | -0x8000_0000 <= x < 0x8000_0000
  type int64 = x: int | -0x8000_0000_0000_0000 <= x < 0x8000_0000_0000_0000
  type byte = x: int | 0 <= x < 0x100
}
