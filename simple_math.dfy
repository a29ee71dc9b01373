/**
 * The Simple Math test library: maximum, minimum, absolute value and
 * integer power over C `int`. The C type is 32 bits wide; signed overflow is
 * undefined in C, so every operation requires that no step overflows.
 */
module SimpleMath {

  const INT_MIN: int := -0x8000_0000
  const INT_MAX: int := 0x7fff_ffff

  /** A C `int`. */
  newtype Int32 = x: int | -0x8000_0000 <= x < 0x8000_0000

  predicate InInt32(x: int) {
    INT_MIN <= x <= INT_MAX
  }

  /** sm_max: the larger of the two. */
  function SmMax(a: Int32, b: Int32): (r: Int32)
    ensures r >= a && r >= b
    ensures r == a || r == b
  {
    if a > b then a else b
  }

  /** sm_min: the smaller of the two. */
  function SmMin(a: Int32, b: Int32): (r: Int32)
    ensures r <= a && r <= b
    ensures r == a || r == b
  {
    if a < b then a else b
  }

  /** The minimum and the maximum are the two arguments, so they add up to their sum. */
  lemma MinMaxSum(a: Int32, b: Int32)
    ensures SmMin(a, b) as int + SmMax(a, b) as int == a as int + b as int
    ensures SmMin(a, b) <= SmMax(a, b)
  {
  }

  /** Neither depends on the order of the arguments. */
  lemma MinMaxCommute(a: Int32, b: Int32)
    ensures SmMax(a, b) == SmMax(b, a)
    ensures SmMin(a, b) == SmMin(b, a)
  {
  }

  /** sm_abs: the absolute value; `-x` overflows for the most negative `int`. */
  function SmAbs(x: Int32): (r: Int32)
    requires x as int != INT_MIN
    ensures r >= 0
    ensures r == x || r as int == -(x as int)
    ensures x >= 0 ==> r == x
  {
    if x < 0 then -x else x
  }

  /** The absolute value is the larger of `x` and `-x`, and taking it twice changes nothing. */
  lemma AbsIsMaxOfNegation(x: Int32)
    requires x as int != INT_MIN
    ensures SmAbs(x) == SmMax(x, -x)
    ensures SmAbs(SmAbs(x)) == SmAbs(x)
  {
  }

  /** `base` raised to `n`, multiplying in `base` once per step as the loop does. */
  function Power(base: int, n: nat): int {
    if n == 0 then 1 else Power(base, n - 1) * base
  }

  /** Exponents add. */
  lemma {:induction false} PowerAdd(base: int, m: nat, n: nat)
    ensures Power(base, m + n) == Power(base, m) * Power(base, n)
    decreases n
  {
    if n > 0 {
      PowerAdd(base, m, n - 1);
      assert Power(base, m + n) == Power(base, m + n - 1) * base;
    }
  }

  /** No partial product of the loop overflows an `int`. */
  predicate PowerFits(base: int, exp: int) {
    forall k: nat :: k <= exp ==> InInt32(Power(base, k))
  }

  /** sm_pow: multiply `result` by `base`, `exp` times; a negative `exp` runs no step. */
  method SmPow(base: Int32, exp: Int32) returns (result: Int32)
    requires PowerFits(base as int, exp as int)
    ensures exp >= 0 ==> result as int == Power(base as int, exp as nat)
    ensures exp <= 0 ==> result == 1
  {
    result := 1;
    var i: Int32 := 0;
    while i < exp
      invariant 0 <= i && (exp >= 0 ==> i <= exp) && (exp < 0 ==> i == 0)
      invariant result as int == Power(base as int, i as nat)
      decreases exp as int - i as int
    {
      assert InInt32(Power(base as int, i as nat + 1));
      result := result * base;
      i := i + 1;
    }
  }

  /** The magnitude of a power never shrinks as the exponent grows, unless the base is 0. */
  lemma {:induction false} PowerMagnitudeGrows(base: int, k: nat, n: nat)
    requires base != 0 && k <= n
    ensures Abs(Power(base, k)) <= Abs(Power(base, n))
    ensures k < n && Abs(base) >= 2 ==> 2 * Abs(Power(base, k)) <= Abs(Power(base, n))
    decreases n - k
  {
    if k < n {
      PowerMagnitudeGrows(base, k, n - 1);
      AbsMul(Power(base, n - 1), base);
      ScaleUp(Abs(Power(base, n - 1)), Abs(base));
    }
  }

  lemma ScaleUp(x: nat, b: nat)
    requires b >= 1
    ensures x <= x * b
    ensures b >= 2 ==> 2 * x <= x * b
  {
    assert x * b == x * (b - 1) + x;
    if b >= 2 {
      assert x * b == x * (b - 2) + 2 * x;
    }
  }

  /**
   * For a non-negative exponent it is enough that the final result fits: the
   * partial products are no larger in magnitude than the last one.
   */
  lemma ResultFitsSuffices(base: Int32, exp: Int32)
    requires exp >= 0 && InInt32(Power(base as int, exp as nat))
    ensures PowerFits(base as int, exp as int)
  {
    var b := base as int;
    var n := exp as nat;
    forall k: nat | k <= n
      ensures InInt32(Power(b, k))
    {
      if b == 0 {
        ZeroPower(k);
      } else if k < n {
        PowerMagnitudeGrows(b, k, n);
        if Abs(b) == 1 {
          UnitPower(b, k);
        }
      }
    }
  }

  function Abs(x: int): nat {
    if x < 0 then -x else x
  }

  lemma AbsMul(a: int, b: int)
    ensures Abs(a * b) == Abs(a) * Abs(b)
  {
  }

  lemma {:induction false} ZeroPower(n: nat)
    ensures Power(0, n) == if n == 0 then 1 else 0
  {
    if n > 0 {
      ZeroPower(n - 1);
    }
  }

  lemma {:induction false} UnitPower(base: int, n: nat)
    requires Abs(base) == 1
    ensures Abs(Power(base, n)) == 1
  {
    if n > 0 {
      UnitPower(base, n - 1);
      AbsMul(Power(base, n - 1), base);
    }
  }
}
