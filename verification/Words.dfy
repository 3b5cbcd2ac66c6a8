/** The C integer widths the sources use, and where they wrap. */
module Words {
  const U32_RANGE: int := 0x1_0000_0000
  const U64_RANGE: int := 0x1_0000_0000_0000_0000

  /** Task ids that survive the casts to `int32_t`. */
  const ID_LIMIT: int := 0x8000_0000

  type u8 = x: int | 0 <= x < 0x100
  type u32 = x: int | 0 <= x < U32_RANGE
  type u64 = x: int | 0 <= x < U64_RANGE
  type i32 = x: int | -0x8000_0000 <= x < 0x8000_0000

  /** Conversion to `uint32_t`; also the result of 32-bit unsigned arithmetic. */
  function Wrap32(x: int): (r: u32)
    ensures 0 <= x < U32_RANGE ==> r == x
  {
    x % U32_RANGE
  }

  /** Conversion to `uint64_t`; also the result of 64-bit unsigned arithmetic. */
  function Wrap64(x: int): (r: u64)
    ensures 0 <= x < U64_RANGE ==> r == x
  {
    x % U64_RANGE
  }

  /** The cast `(int32_t)x` of an unsigned word. */
  function AsI32(x: u32): i32 {
    if x < 0x8000_0000 then x else x - U32_RANGE
  }

  lemma ModOfSum(a: int, k: int, m: int)
    requires m > 0
    ensures (a + k * m) % m == a % m
  {
    var q, r := a / m, a % m;
    assert a + k * m == (q + k) * m + r;
    QuotientIs(a + k * m, q + k, r, m);
  }

  /** The exact product of two words, as an integer. */
  function Times(a: int, b: int): int {
    a * b
  }

  /** The Euclidean quotient and remainder are the only pair with a remainder in range. */
  lemma QuotientIs(x: int, q: int, r: int, m: int)
    requires m > 0 && 0 <= r < m && x == q * m + r
    ensures x / m == q && x % m == r
  {
    var d := x / m - q;
    assert d * m == r - x % m;
    OnlyZeroInside(d, m);
  }

  lemma OnlyZeroInside(d: int, m: int)
    requires -m < d * m < m
    ensures d == 0
  {
  }

  /** Numbers less than `n` apart with equal remainders are equal. */
  lemma SameResidue(a: int, b: int, n: nat)
    requires n > 0 && a % n == b % n && -(n as int) < a - b < n
    ensures a == b
  {
    assert a - b == (a / n - b / n) * n;
    OnlyZeroInside(a / n - b / n, n);
  }

  lemma CancelFactor(a: int, b: int, m: nat)
    requires a * m < b * m
    ensures a < b
  {
  }

  /** Wrapping an operand first does not change a wrapped product. */
  lemma WrapFactor(a: int, b: int, m: int)
    requires m > 0
    ensures ((a % m) * b) % m == (a * b) % m
  {
    var q, r := a / m, a % m;
    assert a * b == r * b + (q * b) * m by {
      assert a == q * m + r;
      assert (q * m + r) * b == (q * m) * b + r * b;
      assert (q * m) * b == (q * b) * m;
    }
    ModOfSum(r * b, q * b, m);
  }
}
