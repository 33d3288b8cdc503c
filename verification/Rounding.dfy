/**
 Integer rounding by a positive step, as Python's floor, ceil and int do it.
 */
module Rounding {

  function FloorDiv(a: int, step: int): int
    requires step > 0
  {
    a / step
  }

  function CeilDiv(a: int, step: int): int
    requires step > 0
  {
    -((-a) / step)
  }

  /** int(a / step): towards zero. */
  function TruncDiv(a: int, step: int): int
    requires step > 0
  {
    if a >= 0 then a / step else -((-a) / step)
  }

  lemma Distribute(k: int, step: int)
    ensures (k + 1) * step == k * step + step && (k - 1) * step == k * step - step
  {
  }

  lemma MultiplyMonotone(j: int, k: int, step: int)
    requires step > 0
    ensures j <= k <==> j * step <= k * step
    ensures j < k <==> j * step < k * step
  {
  }

  lemma FloorBounds(a: int, step: int)
    requires step > 0
    ensures FloorDiv(a, step) * step <= a < FloorDiv(a, step) * step + step
  {
  }

  lemma CeilBounds(a: int, step: int)
    requires step > 0
    ensures CeilDiv(a, step) * step - step < a <= CeilDiv(a, step) * step
  {
    FloorBounds(-a, step);
    assert CeilDiv(a, step) * step == -(((-a) / step) * step);
  }

  lemma TruncBounds(a: int, step: int)
    requires step > 0
    ensures a >= 0 ==> TruncDiv(a, step) * step <= a < TruncDiv(a, step) * step + step
    ensures a < 0 ==> TruncDiv(a, step) * step - step < a <= TruncDiv(a, step) * step
  {
    if a >= 0 {
      FloorBounds(a, step);
    } else {
      CeilBounds(a, step);
    }
  }

  lemma CeilIs(a: int, step: int, k: int)
    requires step > 0 && k * step - step < a <= k * step
    ensures CeilDiv(a, step) == k
  {
    CeilBounds(a, step);
    var c := CeilDiv(a, step);
    Distribute(k, step);
    Distribute(c, step);
    MultiplyMonotone(k - 1, c, step);
    MultiplyMonotone(c - 1, k, step);
  }

  lemma FloorIs(a: int, step: int, k: int)
    requires step > 0 && k * step <= a < k * step + step
    ensures FloorDiv(a, step) == k
  {
    FloorBounds(a, step);
    var c := FloorDiv(a, step);
    Distribute(k, step);
    Distribute(c, step);
    MultiplyMonotone(c, k + 1, step);
    MultiplyMonotone(k, c + 1, step);
  }

  lemma AddMultiples(j: int, k: int, step: int)
    ensures (j + k) * step == j * step + k * step
  {
  }
}
