/**
 * Machine-level integer types shared by the models of the firmware:
 * unsigned 8/16/32-bit values, and the two's-complement wrap that a C cast
 * to `int16_t` or an unsigned 32-bit subtraction performs.
 */
module Machine {

  type u8 = x: int | 0 <= x < 0x100
  type u16 = x: int | 0 <= x < 0x1_0000
  type u32 = x: int | 0 <= x < 0x1_0000_0000
  type i16 = x: int | -0x8000 <= x < 0x8000
  type i32 = x: int | -0x8000_0000 <= x < 0x8000_0000

  /** The value of `x` reduced modulo 2^32, as an unsigned 32-bit C expression yields it. */
  function Wrap32(x: int): (r: u32)
    ensures 0 <= x < 0x1_0000_0000 ==> r == x
    ensures (r - x) % 0x1_0000_0000 == 0
  {
    x % 0x1_0000_0000
  }

  /** Unsigned 32-bit subtraction `a - b` (wraps on underflow). */
  function Sub32(a: u32, b: u32): (r: u32)
    ensures a >= b ==> r == a - b
    ensures a < b ==> r == a - b + 0x1_0000_0000
  {
    Wrap32(a - b)
  }

  /** Conversion of an integer to `int16_t`: the value modulo 2^16 read in two's complement. */
  function ToInt16(x: int): (r: i16)
    ensures -0x8000 <= x < 0x8000 ==> r == x
    ensures (r - x) % 0x1_0000 == 0
  {
    var m := x % 0x1_0000;
    if m < 0x8000 then m else m - 0x1_0000
  }

  /** Conversion of an integer to `uint8_t`: the value modulo 2^8. */
  function ToU8(x: int): (r: u8)
    ensures 0 <= x < 0x100 ==> r == x
    ensures (r - x) % 0x100 == 0
  {
    x % 0x100
  }

  /** Bitwise AND of two bytes. */
  function And8(a: u8, b: u8): (r: u8)
    ensures r <= a && r <= b
    ensures a == 0xFF ==> r == b
  {
    AllOnesKeeps(0xFF, b);
    And(a, b)
  }

  /** Bitwise AND of two naturals, bit by bit from the least significant. */
  function And(a: nat, b: nat): (r: nat)
    ensures r <= a && r <= b
    decreases a
  {
    if a == 0 || b == 0 then 0
    else 2 * And(a / 2, b / 2) + (if a % 2 == 1 && b % 2 == 1 then 1 else 0)
  }

  /** `a` is a run of one bits (0, 1, 3, 7, 0xF, ...). */
  predicate AllOnes(a: nat)
    decreases a
  {
    a == 0 || (a % 2 == 1 && AllOnes(a / 2))
  }

  /** ANDing with a run of ones keeps every value that fits under it. */
  lemma {:induction false} AllOnesKeeps(a: nat, b: nat)
    requires AllOnes(a) && b <= a
    ensures And(a, b) == b
    decreases a
  {
    if a != 0 && b != 0 {
      AllOnesKeeps(a / 2, b / 2);
    }
  }

  /** C's `/` on integers: the quotient truncated toward zero (Dafny's `/` is Euclidean). */
  function TruncDiv(a: int, b: int): (q: int)
    requires b != 0
    ensures a >= 0 && b > 0 ==> q == a / b
    ensures b > 0 && a >= 0 ==> q * b <= a < (q + 1) * b
    ensures b > 0 && a < 0 ==> (q - 1) * b < a <= q * b
  {
    if a >= 0 && b > 0 then a / b
    else if a < 0 && b > 0 then -((-a) / b)
    else if a >= 0 then -(a / (-b))
    else (-a) / (-b)
  }

  /** Regrouping three sequences appended to a fourth. */
  lemma AppendAssoc3<T>(s: seq<T>, a: seq<T>, b: seq<T>, c: seq<T>)
    ensures s + a + b + c == s + (a + b + c)
  {
  }
}
