/** Spark swap arithmetic: how much of a swap total a load may fill before the host memory
    guard acts, and the smallest whole-GiB total that holds a load. */
module Swap {
  const GIB: int := 1073741824
  const FLOOR_GIB: int := 2
  const FREE_PERCENT: int := 10
  const USED_PERCENT: int := 90

  function Max(a: int, b: int): int { if a >= b then a else b }
  function Min(a: int, b: int): int { if a <= b then a else b }

  /** What guard rule R1 keeps free of a total. */
  function KeptFree(total: int): int { Max(FLOOR_GIB * GIB, total / 100 * FREE_PERCENT) }

  /** What guard rule R2 lets be used of a total. */
  function MayUse(total: int): int { total / 100 * USED_PERCENT }

  function UsableSwapBytes(total: int): int { Max(0, Min(total - KeptFree(total), MayUse(total))) }

  /** A fill that neither guard rule acts on: 2 GiB and ten hundredths of the total stay free, and at
      most ninety hundredths are used. */
  predicate WithinGuards(total: int, fill: int) {
    && 0 <= fill && total - fill >= 2147483648 && total - fill >= 10 * (total / 100)
    && fill <= 90 * (total / 100)
  }

  /** Despite the floor divisions the percentage kept free never binds before the one used. */
  lemma UsableIs(total: int)
    ensures UsableSwapBytes(total) == Max(0, Min(total - FLOOR_GIB * GIB, total / 100 * 90))
  {
    assert total == total / 100 * 100 + total % 100;
  }

  /** Usable swap never shrinks as the total grows, byte by byte. */
  lemma UsableMonotone(a: int, b: int)
    requires a <= b
    ensures UsableSwapBytes(a) <= UsableSwapBytes(b)
  {
    UsableIs(a);
    UsableIs(b);
    assert a / 100 <= b / 100;
  }

  ghost predicate IsLargest(total: int, fill: int) {
    WithinGuards(total, fill) && forall other :: WithinGuards(total, other) ==> other <= fill
  }

  /** Usable swap is the largest fill within both guards exactly when the total reaches the
      free floor; below it no fill, not even an empty one, is within them. */
  lemma LargestFill(total: int)
    ensures IsLargest(total, UsableSwapBytes(total)) <==> total >= FLOOR_GIB * GIB
    ensures total < FLOOR_GIB * GIB ==> UsableSwapBytes(total) == 0 && forall fill :: !WithinGuards(total, fill)
  {
    UsableIs(total);
    assert total == total / 100 * 100 + total % 100;
  }

  /** Python's `-(-load // GIB)`. */
  function CeilGib(load: int): int { -((-load) / GIB) }

  /** A total of `n` GiB is enough once it is a ninth and some above the load. */
  lemma EnoughSwap(load: int, n: int)
    requires load > 0 && 9 * n * GIB >= 10 * load + 9 * 2 * GIB + 900
    ensures UsableSwapBytes(n * GIB) >= load
  {
    var total := n * GIB;
    UsableIs(total);
    assert total == total / 100 * 100 + total % 100;
  }

  /** `swap_needed_bytes`, the inverse of usable swap: `n` GiB hold the load exactly when the size
      needed is at most `n` GiB. The size is whole GiB, and within a ninth and four GiB of the
      load, so the loop takes a linear number of steps. */
  method SwapNeededBytes(load: int) returns (size: int)
    ensures size >= 0 && size % GIB == 0 && (load <= 0 ==> size == 0)
    ensures forall n :: 0 <= n ==> (load <= UsableSwapBytes(n * GIB) <==> size <= n * GIB)
    ensures load > 0 ==> 9 * size <= 10 * load + 9 * 4 * GIB
  {
    if load <= 0 { assert forall n :: 0 <= n ==> 0 <= n * GIB; return 0; }
    var gib := CeilGib(load);
    while UsableSwapBytes(gib * GIB) < load
      invariant gib >= 1 && 9 * (gib - 1) * GIB < 10 * load + 9 * 2 * GIB + 900
      invariant forall n :: 0 <= n < gib ==> UsableSwapBytes(n * GIB) < load
      decreases 10 * load + 9 * 3 * GIB + 900 - 9 * gib * GIB
    {
      EnoughOr(load, gib);
      gib := gib + 1;
    }
    size := gib * GIB;
    NeededAlways(load, gib);
  }

  lemma NeededAlways(load: int, gib: int)
    requires load <= UsableSwapBytes(gib * GIB)
    requires forall m :: 0 <= m < gib ==> UsableSwapBytes(m * GIB) < load
    ensures forall n :: 0 <= n ==> (load <= UsableSwapBytes(n * GIB) <==> gib * GIB <= n * GIB)
  {
    forall n | 0 <= n ensures load <= UsableSwapBytes(n * GIB) <==> gib * GIB <= n * GIB {
      NeededInverse(load, gib, n);
    }
  }

  lemma EnoughOr(load: int, n: int)
    requires load > 0 && UsableSwapBytes(n * GIB) < load
    ensures 9 * n * GIB < 10 * load + 9 * 2 * GIB + 900
  {
    if 9 * n * GIB >= 10 * load + 9 * 2 * GIB + 900 { EnoughSwap(load, n); }
  }

  /** The least whole-GiB total that holds a load fits in `n` GiB exactly when `n` GiB holds it. */
  lemma NeededInverse(load: int, gib: int, n: int)
    requires n >= 0 && load <= UsableSwapBytes(gib * GIB)
    requires forall m :: 0 <= m < gib ==> UsableSwapBytes(m * GIB) < load
    ensures load <= UsableSwapBytes(n * GIB) <==> gib * GIB <= n * GIB
  {
    if gib <= n { UsableMonotone(gib * GIB, n * GIB); }
  }
}
