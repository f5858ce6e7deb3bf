/** The machine integers that the kernel and its programs compute with. */
module Types {
  type byte = x: int | 0 <= x < 0x100
  type u16 = x: int | 0 <= x < 0x1_0000
  type u32 = x: int | 0 <= x < 0x1_0000_0000

  datatype Option<+T> = None | Some(value: T)

  const NUM_TERMS := 3
  const MAX_PROCESSES := 6
  const FOUR_KB := 0x1000

  const NUL: byte := 0
  const TAB: byte := 9
  const NEWLINE: byte := 10
  const RETURN: byte := 13
  const SPACE: byte := 32

  /** The remainder of C, which takes the sign of the dividend. */
  function Rem(a: int, b: int): int
    requires b > 0
  {
    if a < 0 then -(-a % b) else a % b
  }

  /** Conversions between signed and unsigned words. */
  function Unsigned(a: int): u32 {
    a % 0x1_0000_0000
  }

  function Signed(a: u32): int {
    if a < 0x8000_0000 then a else a - 0x1_0000_0000
  }

  /** The sum of two 32-bit words. */
  function Add32(a: u32, b: u32): u32 {
    if a + b < 0x1_0000_0000 then a + b else a + b - 0x1_0000_0000
  }

  lemma MultipleOf(q: int, d: int)
    requires d >= 0
    ensures q >= 1 ==> q * d >= d
    ensures q <= -1 ==> q * d <= -d
  {
  }

  /** Quotient and remainder are unique. */
  lemma DivModIs(n: nat, d: nat, q: nat, r: nat)
    requires r < d && n == q * d + r
    ensures n / d == q && n % d == r
  {
    var q0, r0 := n / d, n % d;
    assert n == q0 * d + r0 && 0 <= r0 < d;
    assert (q - q0) * d == r0 - r by {
      assert (q - q0) * d == q * d - q0 * d;
    }
    MultipleOf(q - q0, d);
  }

  lemma ModSuccessor(n: nat, d: nat)
    requires d > 0
    ensures (n + 1) % d == if n % d + 1 == d then 0 else n % d + 1
  {
    assert n == n / d * d + n % d;
    if n % d + 1 == d {
      DivModIs(n + 1, d, n / d + 1, 0);
    } else {
      DivModIs(n + 1, d, n / d, n % d + 1);
    }
  }
}
