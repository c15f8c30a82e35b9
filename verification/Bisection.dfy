/**
 The bisection both refinements of the capacity search run: halve `[low, high]`
 until its relative width is at most `percent`. Whether it stops is a property
 of `low` and `percent` alone, and not one the configuration guarantees.
 */
module Bisection {
  import opened Outcomes

  /** The loop guard: the width is more than `percent` of the upper bound. */
  predicate TooWide(low: nat, high: nat, percent: real) {
    100.0 * (high - low) as real > percent * high as real
  }

  /** Two neighbouring loads at or above `first` already meet the boundary. */
  predicate Converging(first: nat, percent: real) {
    percent * (first + 1) as real >= 100.0
  }

  /** The load a bisection measures next. */
  function Middle(low: nat, high: nat): nat { (low + high) / 2 }

  /** How often a bracket can be halved, rounding up. */
  function Halvings(low: nat, high: nat): nat { if high <= low then 0 else CeilLog2(high - low) }

  lemma HalvingsMonotone(low: nat, high: nat, lower: nat, higher: nat)
    requires lower <= low && high <= higher
    ensures Halvings(low, high) <= Halvings(lower, higher)
  {
    if low < high { CeilLog2Monotone(high - low, higher - lower); }
  }

  /** Whether the load measured in a given iteration passes. */
  type Trial = (nat, nat) -> bool

  /** The loop, entered in iteration `i`, makes at least `n` measurements. */
  ghost predicate RunsFor(low: nat, high: nat, percent: real, passes: Trial, i: nat, n: nat)
    decreases n
  {
    n == 0 ||
    (TooWide(low, high, percent) &&
     var mid := Middle(low, high);
     if passes(i, mid) then RunsFor(mid, high, percent, passes, i + 1, n - 1)
     else RunsFor(low, mid, percent, passes, i + 1, n - 1))
  }

  ghost predicate Stops(low: nat, high: nat, percent: real, passes: Trial) {
    exists n: nat :: !RunsFor(low, high, percent, passes, 0, n)
  }

  lemma NeighboursAreNarrow(first: nat, low: nat, high: nat, percent: real)
    requires Converging(first, percent) && first <= low <= high
    ensures high <= low + 1 ==> !TooWide(low, high, percent)
  {
    var gap := (high - first - 1) as real;
    if high > first {
      assert percent > 0.0;
      assert percent * high as real == percent * (first + 1) as real + percent * gap;
      assert percent * gap >= 0.0;
    } else {
      assert percent > 0.0;
      assert percent * high as real >= 0.0;
    }
  }

  /** Either half of a bracket takes one measurement less. */
  lemma Halving(low: nat, high: nat)
    requires low + 2 <= high
    ensures var mid := Middle(low, high);
            low < mid < high &&
            1 + Halvings(mid, high) <= Halvings(low, high) &&
            1 + Halvings(low, mid) <= Halvings(low, high)
  {
    var mid := Middle(low, high);
    CeilLog2Monotone(high - mid, (high - low + 1) / 2);
    CeilLog2Monotone(mid - low, (high - low + 1) / 2);
  }

  /** The midpoint of a bracket that is still too wide is new to it. */
  lemma Midpoint(first: nat, low: nat, high: nat, percent: real)
    requires Converging(first, percent) && first <= low <= high && TooWide(low, high, percent)
    ensures var mid := Middle(low, high);
            low < mid < high &&
            1 + Halvings(mid, high) <= Halvings(low, high) &&
            1 + Halvings(low, mid) <= Halvings(low, high)
  {
    NeighboursAreNarrow(first, low, high, percent);
    Halving(low, high);
  }

  /** The number of measurements is logarithmic in the starting width. */
  lemma {:induction false} MeasurementsAreLogarithmic(
    low: nat, high: nat, percent: real, passes: Trial, i: nat, n: nat)
    requires Converging(low, percent) && low < high
    requires RunsFor(low, high, percent, passes, i, n)
    ensures n <= Halvings(low, high)
    decreases n
  {
    NeighboursAreNarrow(low, low, high, percent);
    var mid := Middle(low, high);
    if n > 0 {
      Halving(low, high);
      if passes(i, mid) {
        StillConverging(low, mid, percent);
        MeasurementsAreLogarithmic(mid, high, percent, passes, i + 1, n - 1);
      } else {
        MeasurementsAreLogarithmic(low, mid, percent, passes, i + 1, n - 1);
      }
    }
  }

  lemma StillConverging(first: nat, low: nat, percent: real)
    requires Converging(first, percent) && first <= low
    ensures Converging(low, percent)
  {
    assert percent > 0.0;
    assert percent * (low + 1) as real == percent * (first + 1) as real + percent * (low - first) as real;
  }

  /**
   A system whose capacity is exactly `low` keeps a bisection that is too fine
   for its integers running: it narrows to `[low, low + 1]`, whose midpoint is
   `low` again, and re-measures `low` for ever.
   */
  lemma {:induction false} CapacityAtLowRunsForEver(low: nat, high: nat, percent: real, i: nat, n: nat)
    requires 1 <= low < high && !Converging(low, percent)
    ensures RunsFor(low, high, percent, (_, users) => users <= low, i, n)
    decreases n
  {
    StillTooWide(low, high, percent);
    if n > 0 {
      var mid := Middle(low, high);
      if mid <= low {
        CapacityAtLowRunsForEver(low, high, percent, i + 1, n - 1);
      } else {
        CapacityAtLowRunsForEver(low, mid, percent, i + 1, n - 1);
      }
    }
  }

  lemma StillTooWide(low: nat, high: nat, percent: real)
    requires 1 <= low < high && !Converging(low, percent)
    ensures TooWide(low, high, percent)
  {
    var width := (high - low) as real;
    if percent <= 0.0 {
      assert percent * high as real <= 0.0;
    } else {
      ProductGrows(low as real, width);
      ProductsOrdered(percent, high as real, (low as real + 1.0) * width);
      ProductsOrdered(width, percent * (low + 1) as real, 100.0);
      assert percent * ((low as real + 1.0) * width) == width * (percent * (low + 1) as real);
    }
  }

  lemma ProductGrows(l: real, width: real)
    requires l >= 0.0 && width >= 1.0
    ensures l + width <= (l + 1.0) * width
  {
    assert (l + 1.0) * width == l * width + width;
    assert l * (width - 1.0) >= 0.0;
  }

  lemma ProductsOrdered(p: real, a: real, b: real)
    requires p > 0.0
    ensures a <= b ==> p * a <= p * b
    ensures a < b ==> p * a < p * b
  {
    if a < b { assert p * (b - a) > 0.0; }
  }

  /**
   The exact condition: the bisection from `[low, high]` stops whatever the
   measurements say if and only if one user more than `low` is within the
   requested boundary.
   */
  lemma StopsExactlyWhenConverging(low: nat, high: nat, percent: real)
    requires 1 <= low < high
    ensures (forall passes: Trial :: Stops(low, high, percent, passes)) <==> Converging(low, percent)
  {
    if Converging(low, percent) {
      forall passes: Trial ensures Stops(low, high, percent, passes) {
        var n := Halvings(low, high) + 1;
        if RunsFor(low, high, percent, passes, 0, n) {
          MeasurementsAreLogarithmic(low, high, percent, passes, 0, n);
          assert false;
        }
      }
    } else {
      var capacity: Trial := (_, users) => users <= low;
      forall n: nat ensures RunsFor(low, high, percent, capacity, 0, n) {
        CapacityAtLowRunsForEver(low, high, percent, 0, n);
      }
      assert !Stops(low, high, percent, capacity);
    }
  }
}
