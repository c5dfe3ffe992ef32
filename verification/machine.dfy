/** Fixed-width unsigned arithmetic of the C implementation, written out
    explicitly: Dafny integers are unbounded, the engine's counters are not. */
module Machine {

  const U32: nat := 0x1_0000_0000
  const U64: nat := 0x1_0000_0000_0000_0000

  /** Value of an `int` expression stored into a `uint32_t`. */
  function Wrap32(n: int): (r: nat)
    ensures r < U32
    ensures 0 <= n < U32 ==> r == n
    ensures n < 0 && -(U32 as int) <= n ==> r == n + U32
  {
    n % U32
  }

  /** Value of an `int` expression stored into a `uint64_t`. */
  function Wrap64(n: int): (r: nat)
    ensures r < U64
    ensures 0 <= n < U64 ==> r == n
    ensures n < 0 && -(U64 as int) <= n ==> r == n + U64
  {
    n % U64
  }

  /** Wrapping after every step of a sum is wrapping once at the end. */
  lemma Wrap64Shift(a: int, d: int)
    ensures Wrap64(Wrap64(a) + d) == Wrap64(a + d)
  {
    var q := a / U64;
    assert a == q * U64 + Wrap64(a);
    ModShift(Wrap64(a) + d, q, U64);
  }

  lemma ModShift(x: int, q: int, m: nat)
    requires m > 0
    ensures (x + q * m) % m == x % m
  {
    var r := x % m;
    var k := x / m;
    assert x == k * m + r;
    assert x + q * m == (k + q) * m + r by {
      assert (k + q) * m == k * m + q * m;
    }
    ModUnique(x + q * m, k + q, r, m);
  }

  /** The remainder is the unique `r` in `[0, m)` with `y == k * m + r`. */
  lemma ModUnique(y: int, k: int, r: int, m: nat)
    requires m > 0 && 0 <= r < m && y == k * m + r
    ensures y % m == r
  {
    var k' := y / m;
    var r' := y % m;
    var d := k - k';
    assert d * m == r' - r by {
      assert y == k' * m + r';
      MulSub(k, k', m);
    }
    if d > 0 {
      MulAtLeast(d, m);
    } else if d < 0 {
      MulAtLeast(-d, m);
      MulNeg(d, m);
    }
  }

  lemma MulSub(a: int, b: int, m: int)
    ensures (a - b) * m == a * m - b * m
  {
  }

  lemma MulNeg(a: int, m: int)
    ensures (-a) * m == -(a * m)
  {
  }

  lemma MulAtLeast(d: int, m: nat)
    requires d >= 1
    ensures d * m >= m
  {
    MulSub(d, 1, m);
    assert (d - 1) * m >= 0;
  }

  lemma MulMonotone(a: nat, b: nat, c: nat, d: nat)
    requires a <= c && b <= d
    ensures a * b <= c * d
  {
    assert a * b <= c * b;
    assert c * b <= c * d;
  }

  /** A board of 32-bit dimensions has a cell count that leaves room in a
      `uint64_t`. */
  lemma ProductFits(a: nat, b: nat)
    requires a < U32 && b < U32
    ensures a * b + 4 < U64
  {
    MulMonotone(a, b, U32 - 1, U32 - 1);
  }
}
