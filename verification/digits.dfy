/** Decimal digit counting (`log_10` of the C source) and the decimal
    rendering of a number that the board printer builds from it. */
module Digits {
  import opened Machine

  function Pow10(n: nat): (r: nat)
    ensures r >= 1
  {
    if n == 0 then 1 else 10 * Pow10(n - 1)
  }

  /** Number of decimal digits of `x`; zero has none. */
  function Log10(x: nat): (r: nat)
    ensures x == 0 <==> r == 0
    ensures x > 0 ==> Pow10(r - 1) <= x < Pow10(r)
  {
    if x == 0 then 0 else 1 + Log10(x / 10)
  }

  /** The C loop: divide by ten until nothing is left, counting the steps. */
  method CountDigits(x: nat) returns (i: nat)
    requires x < U32
    ensures x == 0 ==> i == 0
    ensures x > 0 ==> i >= 1 && Pow10(i - 1) <= x < Pow10(i)
  {
    var v := x;
    i := 0;
    while v > 0
      invariant i + Log10(v) == Log10(x)
      decreases v
    {
      v := v / 10;
      i := i + 1;
    }
  }

  lemma {:induction false} Pow10Monotone(a: nat, b: nat)
    requires a <= b
    ensures Pow10(a) <= Pow10(b)
    decreases b
  {
    if a < b {
      Pow10Monotone(a, b - 1);
    }
  }

  /** A number has exactly `r` digits iff it lies in [10^(r-1), 10^r). */
  lemma {:induction false} Log10Unique(x: nat, r: nat)
    requires r >= 1 && Pow10(r - 1) <= x < Pow10(r)
    ensures Log10(x) == r
  {
    var k := Log10(x);
    if k < r {
      Pow10Monotone(k, r - 1);
    } else if k > r {
      Pow10Monotone(r, k - 1);
    }
  }

  /** More is never shorter. */
  lemma {:induction false} Log10Monotone(x: nat, y: nat)
    requires x <= y
    ensures Log10(x) <= Log10(y)
  {
    if x > 0 && Log10(x) > Log10(y) {
      Pow10Monotone(Log10(y), Log10(x) - 1);
    }
  }

  /** A 32-bit value has at most ten decimal digits. */
  lemma Log10Of32Bit(x: nat)
    requires x < U32
    ensures Log10(x) <= 10
  {
    Log10Monotone(x, U32 - 1);
    assert Pow10(9) <= U32 - 1 < Pow10(10);
    Log10Unique(U32 - 1, 10);
  }

  function DigitChar(d: nat): (c: char)
    requires d < 10
    ensures '0' <= c <= '9'
  {
    ((d + '0' as int) as char)
  }

  function DigitValue(c: char): nat
    requires '0' <= c <= '9'
  {
    (c as int) - ('0' as int)
  }

  /** The digits `parse_number` writes for `n`, most significant first
      (empty for zero, which the printer shows as '.'). */
  function Decimal(n: nat): (s: seq<char>)
    ensures |s| == Log10(n)
    ensures forall i :: 0 <= i < |s| ==> '0' <= s[i] <= '9'
  {
    if n == 0 then [] else Decimal(n / 10) + [DigitChar(n % 10)]
  }

  /** Reads a string of decimal digits back as a number. */
  function Value(s: seq<char>): nat
    requires forall i :: 0 <= i < |s| ==> '0' <= s[i] <= '9'
  {
    if |s| == 0 then 0 else 10 * Value(s[..|s| - 1]) + DigitValue(s[|s| - 1])
  }

  lemma {:induction false} DecimalRoundTrip(n: nat)
    ensures Value(Decimal(n)) == n
  {
    if n > 0 {
      DecimalRoundTrip(n / 10);
      var s := Decimal(n);
      assert s[..|s| - 1] == Decimal(n / 10);
    }
  }

  /** A rendered number never starts with a zero digit. */
  lemma {:induction false} DecimalNoLeadingZero(n: nat)
    requires n > 0
    ensures Decimal(n)[0] != '0'
  {
    if n / 10 > 0 {
      DecimalNoLeadingZero(n / 10);
    }
  }
}
