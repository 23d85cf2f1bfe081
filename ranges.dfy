/**
 * Python's `range(start, stop, step)` for a positive step, as a sequence of
 * naturals, with the index arithmetic that the route decoder relies on.
 */
module Ranges {

  /** The elements of `range(start, stop, step)`, in increasing order. */
  function Range(start: nat, stop: nat, step: nat): (r: seq<nat>)
    requires step >= 1
    ensures forall t :: 0 <= t < |r| ==> start <= r[t] < stop
    decreases stop - start
  {
    if start >= stop then [] else [start] + Range(start + step, stop, step)
  }

  /** `len(range(start, stop, step))` as Python computes it for a positive step. */
  function RangeLen(start: nat, stop: nat, step: nat): nat
    requires step >= 1
  {
    if start >= stop then 0 else (stop - start + step - 1) / step
  }

  lemma {:induction false} MulAtLeast(a: nat, k: nat)
    requires a >= 1
    ensures a * k >= k
    decreases a
  {
    if a > 1 {
      MulAtLeast(a - 1, k);
      assert a * k == (a - 1) * k + k;
    }
  }

  /** Division by a positive divisor is determined by quotient and remainder. */
  lemma DivModUnique(x: int, k: int, q: int, r: int)
    requires k >= 1 && 0 <= r < k && x == q * k + r
    ensures x / k == q && x % k == r
  {
    var q', r' := x / k, x % k;
    assert x == q' * k + r';
    assert (q' - q) * k == r - r';
    if q' > q {
      MulAtLeast(q' - q, k);
    } else if q' < q {
      MulAtLeast(q - q', k);
    }
  }

  lemma DivModStep(a: nat, k: nat)
    requires k >= 1
    ensures (a + k) / k == a / k + 1 && (a + k) % k == a % k
  {
    var q, r := a / k, a % k;
    assert a + k == (q + 1) * k + r;
    DivModUnique(a + k, k, q + 1, r);
  }

  lemma DivSplit(a: nat, k: nat)
    requires k >= 1
    ensures a == a % k + (a / k) * k
  {
  }

  lemma SmallDiv(a: nat, k: nat)
    requires k >= 1 && a < k
    ensures a / k == 0 && a % k == a
  {
  }

  /** The range has exactly as many elements as Python's `len` reports. */
  lemma {:induction false} RangeLength(start: nat, stop: nat, step: nat)
    requires step >= 1
    ensures |Range(start, stop, step)| == RangeLen(start, stop, step)
    decreases stop - start
  {
    if start < stop {
      RangeLength(start + step, stop, step);
      var a := stop - start - 1;
      if start + step >= stop {
        SmallDiv(a, step);
        DivModStep(a, step);
      } else {
        DivModStep(a, step);
        assert a + step == (stop - start + step - 1);
        assert stop - (start + step) + step - 1 == a;
      }
    }
  }

  /** Element `t` of the range is `start + t * step`. */
  lemma {:induction false} RangeAt(start: nat, stop: nat, step: nat, t: nat)
    requires step >= 1
    requires t < |Range(start, stop, step)|
    ensures Range(start, stop, step)[t] == start + t * step
    decreases stop - start
  {
    if t > 0 {
      RangeAt(start + step, stop, step, t - 1);
      assert start + step + (t - 1) * step == start + t * step;
    }
  }

  /** Every slot `start + t * step` below `stop` is in the range, at index `t`. */
  lemma {:induction false} SlotInRange(start: nat, stop: nat, step: nat, t: nat)
    requires step >= 1
    requires start + t * step < stop
    ensures t < |Range(start, stop, step)|
    ensures Range(start, stop, step)[t] == start + t * step
    decreases t
  {
    if t > 0 {
      assert start + step + (t - 1) * step == start + t * step;
      SlotInRange(start + step, stop, step, t - 1);
    }
  }

  /** A slot `i + t * k` with `i < k` has residue `i` and quotient `t`. */
  lemma {:induction false} SlotDivMod(i: nat, t: nat, k: nat)
    requires k >= 1 && i < k
    ensures (i + t * k) % k == i && (i + t * k) / k == t
    decreases t
  {
    if t == 0 {
      SmallDiv(i, k);
    } else {
      SlotDivMod(i, t - 1, k);
      assert i + t * k == (i + (t - 1) * k) + k;
      DivModStep(i + (t - 1) * k, k);
    }
  }

  /** Shifting start and stop by one step shifts every element by one step. */
  lemma {:induction false} RangeShift(start: nat, stop: nat, step: nat)
    requires step >= 1
    ensures |Range(start + step, stop + step, step)| == |Range(start, stop, step)|
    decreases stop - start
  {
    if start < stop {
      RangeShift(start + step, stop, step);
    }
  }
}
