/**
 * The memory-alignment probe: starting from the alignment of a union of a
 * pointer, a double and a long, it counts how often the value can be
 * halved before only its lowest bit may remain, that is the base-2
 * logarithm of a power-of-two alignment, and prints the alignment, that
 * count, and whether the alignment is below 4. The alignment itself comes
 * from the compiler and is a parameter here.
 */
module MMAlignment {

  /** A C `size_t` on a 64-bit target. */
  newtype SizeT = x: int | 0 <= x < 0x1_0000_0000_0000_0000

  /**
   * `i & ~0x1` keeps every bit but the lowest, so it is non-zero exactly
   * when `i >= 2`; the loop condition is written that way below.
   */
  lemma ClearLowBitTest(i: bv64)
    ensures (i & !1 != 0) == (i >= 2)
  {
  }

  /** `i >> 1` on an unsigned value halves it, rounding down. */
  lemma ShiftRightHalves(i: bv64)
    ensures i >> 1 == i / 2
  {
  }

  function Pow2(k: nat): (r: nat)
    ensures r >= 1
  {
    if k == 0 then 1 else 2 * Pow2(k - 1)
  }

  /** The base-2 logarithm, rounded down; 0 for 0 and 1. */
  function FloorLog2(a: nat): (r: nat)
    ensures a >= 1 ==> Pow2(r) <= a < Pow2(r + 1)
    ensures a <= 1 ==> r == 0
  {
    if a < 2 then 0 else 1 + FloorLog2(a / 2)
  }

  /** The probe: the printed count of halvings, the printed `alignment < 4`, and the value `i` ends with. */
  method AlignmentProbe(alignment: SizeT) returns (zeros: int, belowFour: int, rest: SizeT)
    ensures zeros == FloorLog2(alignment as nat)
    ensures alignment >= 1 ==> Pow2(zeros) <= alignment as int < Pow2(zeros + 1)
    ensures alignment <= 1 ==> zeros == 0
    ensures 0 <= zeros < 64
    ensures rest <= 1
    ensures rest == 0 <==> alignment == 0
    ensures belowFour == (if alignment < 4 then 1 else 0)
  {
    var i := alignment;
    zeros := 0;
    while i >= 2
      invariant 0 <= zeros
      invariant zeros + FloorLog2(i as nat) == FloorLog2(alignment as nat)
      invariant i == 0 <==> alignment == 0
      decreases i
    {
      zeros := zeros + 1;
      i := i / 2;
    }
    rest := i;
    LogBelow64(alignment as nat);
    belowFour := if alignment < 4 then 1 else 0;
  }

  /** Exponents add. */
  lemma {:induction false} Pow2Add(j: nat, k: nat)
    ensures Pow2(j + k) == Pow2(j) * Pow2(k)
    decreases k
  {
    if k > 0 {
      Pow2Add(j, k - 1);
    }
  }

  lemma {:induction false} Pow2Monotone(j: nat, k: nat)
    requires j <= k
    ensures Pow2(j) <= Pow2(k)
    decreases k
  {
    if j < k {
      Pow2Monotone(j, k - 1);
    }
  }

  lemma Pow2Of64()
    ensures Pow2(64) == 0x1_0000_0000_0000_0000
  {
    assert Pow2(8) == 0x100;
    Pow2Add(8, 8);
    Pow2Add(16, 16);
    Pow2Add(32, 32);
  }

  /** The count fits in a C `int`: every `size_t` is below 2 to the 64th. */
  lemma LogBelow64(a: nat)
    requires a < 0x1_0000_0000_0000_0000
    ensures FloorLog2(a) < 64
  {
    Pow2Of64();
    var r := FloorLog2(a);
    if r >= 64 {
      Pow2Monotone(64, r);
    }
  }

  /** The logarithm is the only exponent that brackets the value. */
  lemma {:induction false} FloorLog2Unique(a: nat, k: nat)
    requires Pow2(k) <= a < Pow2(k + 1)
    ensures FloorLog2(a) == k
  {
    var r := FloorLog2(a);
    if r < k {
      Pow2Monotone(r + 1, k);
    } else if r > k {
      Pow2Monotone(k + 1, r);
    }
  }

  /** For an alignment of 2 to the `k`, the count is `k`. */
  lemma Log2OfPower(k: nat)
    ensures FloorLog2(Pow2(k)) == k
  {
    FloorLog2Unique(Pow2(k), k);
  }

  /** The third printed value is 1 exactly when at most one halving happened. */
  lemma BelowFourIffFewHalvings(a: nat)
    ensures a < 4 <==> FloorLog2(a) <= 1
  {
    var r := FloorLog2(a);
    if r >= 2 {
      Pow2Monotone(2, r);
    }
  }
}
