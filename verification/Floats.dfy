/** Integers as 64-bit floating-point numbers, with their 53 bits of precision. */
module Floats {
  import opened Bytes

  /** Integers below 2^53 are represented exactly. */
  const EXACT: nat := 0x20_0000_0000_0000

  function Pow2(r: nat): (p: nat)
    ensures p >= 1
  {
    if r == 0 then 1 else 2 * Pow2(r - 1)
  }

  lemma {:induction false} Pow2Monotone(a: nat, b: nat)
    requires a <= b
    ensures Pow2(a) <= Pow2(b)
  {
    if a < b {
      Pow2Monotone(a, b - 1);
    }
  }

  /**
   * Rounding to 53 bits, to the nearest and ties to even.  Bits are dropped until one is left beyond
   * the 53; `sticky` says whether a dropped bit was set.
   */
  function Round(n: nat, sticky: bool): nat
  {
    if n < EXACT then n
    else if n < 2 * EXACT then
      var q := n / 2;
      if n % 2 == 1 && (sticky || q % 2 == 1) then 2 * (q + 1) else 2 * q
    else 2 * Round(n / 2, sticky || n % 2 == 1)
  }

  /** Conversion of an integer to floating point. */
  function ToFloat(n: nat): nat { Round(n, false) }

  /** One bit beyond the 53: to the nearest, and in the middle to the even neighbour. */
  lemma RoundsOneBit(n: nat, sticky: bool)
    requires EXACT <= n < 2 * EXACT
    ensures Round(n, sticky) == if n % 2 == 0 then n else if n / 2 % 2 == 0 && !sticky then n - 1 else n + 1
  {
    var q := n / 2;
    assert n == 2 * q + n % 2;
  }

  /** Two bits beyond them: what was dropped first decides in the middle. */
  lemma RoundsTwoBits(n: nat)
    requires 2 * EXACT <= n < 4 * EXACT
    ensures var q, r := n / 4, n % 4;
            ToFloat(n) == if r < 2 || (r == 2 && q % 2 == 0) then 4 * q else 4 * (q + 1)
  {
    var half := n / 2;
    assert half / 2 == n / 4 && n % 4 == 2 * (half % 2) + n % 2;
    assert ToFloat(n) == 2 * Round(half, n % 2 == 1);
    RoundsOneBit(half, n % 2 == 1);
    assert half == 2 * (half / 2) + half % 2;
  }

  lemma ToFloatDouble(n: nat)
    ensures ToFloat(2 * n) == 2 * ToFloat(n)
  {
  }

  lemma TwiceInside(a: int, p: int)
    ensures a * (2 * p) == 2 * (a * p)
  {
  }

  /** Scaling by a power of two and rounding commute. */
  lemma {:induction false} ToFloatScales(n: nat, r: nat)
    ensures ToFloat(n) * Pow2(r) == ToFloat(n * Pow2(r))
  {
    if r > 0 {
      var p := Pow2(r - 1);
      ToFloatScales(n, r - 1);
      ToFloatDouble(n * p);
      TwiceInside(n, p);
      TwiceInside(ToFloat(n), p);
    }
  }

  /** Rounding never crosses 2^53. */
  lemma {:induction false} RoundLarge(n: nat, sticky: bool)
    requires n >= EXACT
    ensures Round(n, sticky) >= EXACT
  {
    if n >= 2 * EXACT {
      RoundLarge(n / 2, sticky || n % 2 == 1);
    }
  }

  /** Rounding reaches a power of two from half a unit below it; the tie goes up. */
  lemma {:induction false} RoundBelowIff(n: nat, sticky: bool, k: nat)
    requires k > 0
    ensures Round(n, sticky) < EXACT * Pow2(k) <==> n < EXACT * Pow2(k) - Pow2(k - 1)
  {
    if n >= 2 * EXACT {
      if k == 1 {
        RoundLarge(n / 2, sticky || n % 2 == 1);
      } else {
        RoundBelowIff(n / 2, sticky || n % 2 == 1, k - 1);
      }
    }
  }

  /**
   * A number is converted to less than 2^63 exactly when it is below 2^63 - 512: the largest
   * representable number under 2^63 is 1024 below it.
   */
  lemma ToFloatFitsIff(n: nat)
    ensures ToFloat(n) < INT64 <==> n < INT64 - 512
  {
    RoundBelowIff(n, false, 10);
    assert Pow2(4) == 16 && Pow2(8) == 16 * Pow2(4);
    assert Pow2(9) == 512 && Pow2(10) == 1024;
  }
}
