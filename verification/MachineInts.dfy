/** Fixed-width integers of the sources, with the casts written out. */
module MachineInts {
  type U8 = x: int | 0 <= x < 0x100
  type U16 = x: int | 0 <= x < 0x1_0000
  type U32 = x: int | 0 <= x < 0x1_0000_0000
  type I32 = x: int | -0x8000_0000 <= x < 0x8000_0000
  type I64 = x: int | -0x8000_0000_0000_0000 <= x < 0x8000_0000_0000_0000

  /** `x as u32` on an `i32`: the same 32 bits read as unsigned. */
  function I32AsU32(x: I32): U32 {
    if x < 0 then x + 0x1_0000_0000 else x
  }

  /** `x as i32` on an `i64` (`c_long`): keeps the low 32 bits. */
  function I64AsI32(x: I64): I32 {
    var low := x % 0x1_0000_0000;
    if low >= 0x8000_0000 then low - 0x1_0000_0000 else low
  }

  /** `n as u32` on a `usize`. */
  function UsizeAsU32(n: nat): U32 {
    n % 0x1_0000_0000
  }

  /** A cast keeps the low 32 bits and nothing else, so its range determines the result; values in range survive. */
  lemma {:induction false} CastsKeepLowBits(x: I64, y: I32, n: nat)
    ensures (x - I64AsI32(x)) % 0x1_0000_0000 == 0
    ensures -0x8000_0000 <= x < 0x8000_0000 ==> I64AsI32(x) == x
    ensures (I32AsU32(y) - y) % 0x1_0000_0000 == 0
    ensures y >= 0 ==> I32AsU32(y) == y
    ensures (n - UsizeAsU32(n)) % 0x1_0000_0000 == 0
  {
    var low := x % 0x1_0000_0000;
    assert x - low == (x / 0x1_0000_0000) * 0x1_0000_0000;
    assert n - n % 0x1_0000_0000 == (n / 0x1_0000_0000) * 0x1_0000_0000;
  }
}
