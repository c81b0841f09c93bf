/**
 Linear fitness rescaling used by GABNI's selection step.

 A population's raw fitness values are mapped through `alpha * f + beta`, with
 `alpha = h / (max - min)` and `beta = 1 - alpha * min`, so that the worst
 chromosome gets adjusted fitness 1 and the best gets `h + 1`: the best is
 selected `h + 1` times as often as the worst. Floating-point values are
 modelled as mathematical reals.
 */
module Gabni {

  /** Every non-empty sequence has a largest and a smallest element. */
  lemma {:induction false} ExtremaExist(s: seq<real>)
    requires |s| > 0
    ensures exists m :: m in s && forall i :: 0 <= i < |s| ==> s[i] <= m
    ensures exists m :: m in s && forall i :: 0 <= i < |s| ==> m <= s[i]
  {
    if |s| > 1 {
      var rest := s[1..];
      ExtremaExist(rest);
      var hi :| hi in rest && forall i :: 0 <= i < |rest| ==> rest[i] <= hi;
      var lo :| lo in rest && forall i :: 0 <= i < |rest| ==> lo <= rest[i];
      var top := if s[0] >= hi then s[0] else hi;
      var bottom := if s[0] <= lo then s[0] else lo;
      assert forall i :: 1 <= i < |s| ==> s[i] == rest[i - 1];
      assert top in s && forall i :: 0 <= i < |s| ==> s[i] <= top;
      assert bottom in s && forall i :: 0 <= i < |s| ==> bottom <= s[i];
    } else {
      assert s[0] in s && forall i :: 0 <= i < |s| ==> s[i] == s[0];
    }
  }

  /** The largest element of a non-empty sequence (Python's `max`). */
  function Max(s: seq<real>): (m: real)
    requires |s| > 0
    ensures m in s
    ensures forall i :: 0 <= i < |s| ==> s[i] <= m
  {
    ExtremaExist(s);
    var m :| m in s && forall i :: 0 <= i < |s| ==> s[i] <= m;
    m
  }

  /** The smallest element of a non-empty sequence (Python's `min`). */
  function Min(s: seq<real>): (m: real)
    requires |s| > 0
    ensures m in s
    ensures forall i :: 0 <= i < |s| ==> m <= s[i]
  {
    ExtremaExist(s);
    var m :| m in s && forall i :: 0 <= i < |s| ==> m <= s[i];
    m
  }

  /**
   The largest and smallest fitness differ exactly when the population holds
   two different fitnesses: this is when the rescaling's division is defined.
   */
  lemma SpreadIffDistinct(s: seq<real>)
    requires |s| > 0
    ensures Max(s) != Min(s) <==> exists i, j :: 0 <= i < |s| && 0 <= j < |s| && s[i] != s[j]
  {
    if Max(s) != Min(s) {
      var i :| 0 <= i < |s| && s[i] == Max(s);
      var j :| 0 <= j < |s| && s[j] == Min(s);
      assert s[i] != s[j];
    }
  }

  /** The slope of the rescaling map: the spread `max - min` is stretched to `h`. */
  function Alpha(maxFitness: real, minFitness: real, h: real): (alpha: real)
    requires maxFitness != minFitness
    ensures alpha * (maxFitness - minFitness) == h
  {
    h / (maxFitness - minFitness)
  }

  /**
   Adjusted fitness of one chromosome: the minimum maps to 1 and the maximum
   to h + 1.
   */
  function AdjustedFitness(fitness: real, maxFitness: real, minFitness: real, h: real): (r: real)
    requires maxFitness != minFitness
    ensures fitness == minFitness ==> r == 1.0
    ensures fitness == maxFitness ==> r == h + 1.0
  {
    var alpha := Alpha(maxFitness, minFitness, h);
    var beta := 1.0 - alpha * minFitness;
    alpha * fitness + beta
  }

  /**
   The adjusted fitness is one plus `h` times the position of `fitness`
   between `minFitness` (position 0) and `maxFitness` (position 1).
   */
  lemma AdjustedFitnessPosition(fitness: real, maxFitness: real, minFitness: real, h: real)
    requires maxFitness != minFitness
    ensures (AdjustedFitness(fitness, maxFitness, minFitness, h) - 1.0) * (maxFitness - minFitness)
            == h * (fitness - minFitness)
  {
    var alpha := Alpha(maxFitness, minFitness, h);
    assert alpha * (maxFitness - minFitness) == h;
    calc {
      (AdjustedFitness(fitness, maxFitness, minFitness, h) - 1.0) * (maxFitness - minFitness);
      (alpha * (fitness - minFitness)) * (maxFitness - minFitness);
      (alpha * (maxFitness - minFitness)) * (fitness - minFitness);
      h * (fitness - minFitness);
    }
  }

  /** The map is affine: differences of inputs are scaled by `alpha`. */
  lemma AdjustedFitnessLinear(a: real, b: real, maxFitness: real, minFitness: real, h: real)
    requires maxFitness != minFitness
    ensures AdjustedFitness(a, maxFitness, minFitness, h) - AdjustedFitness(b, maxFitness, minFitness, h)
            == Alpha(maxFitness, minFitness, h) * (a - b)
  {
    var alpha := Alpha(maxFitness, minFitness, h);
    var beta := 1.0 - alpha * minFitness;
    calc {
      AdjustedFitness(a, maxFitness, minFitness, h) - AdjustedFitness(b, maxFitness, minFitness, h);
      (alpha * a + beta) - (alpha * b + beta);
      alpha * (a - b);
    }
  }

  /** A quotient by a positive real keeps the sign of the dividend. */
  lemma QuotientSign(x: real, y: real)
    requires 0.0 < y && 0.0 <= x
    ensures 0.0 <= x / y
    ensures 0.0 < x ==> 0.0 < x / y
  {
  }

  /** A product of non-negative reals is non-negative, and of positive reals positive. */
  lemma ProductSign(x: real, y: real)
    requires 0.0 <= x && 0.0 <= y
    ensures 0.0 <= x * y
    ensures 0.0 < x && 0.0 < y ==> 0.0 < x * y
  {
  }

  /** Two values whose difference is a product of positive reals are strictly ordered. */
  lemma OrderedByPositiveDifference(lo: real, hi: real, x: real, y: real)
    requires hi - lo == x * y
    requires 0.0 < x && 0.0 < y
    ensures lo < hi
  {
    ProductSign(x, y);
  }

  /** For `h >= 0` and `min < max` the map is non-decreasing. */
  lemma AdjustedFitnessMonotone(a: real, b: real, maxFitness: real, minFitness: real, h: real)
    requires minFitness < maxFitness && 0.0 <= h
    requires a <= b
    ensures AdjustedFitness(a, maxFitness, minFitness, h) <= AdjustedFitness(b, maxFitness, minFitness, h)
  {
    assert 0.0 <= Alpha(maxFitness, minFitness, h) && (0.0 < h ==> 0.0 < Alpha(maxFitness, minFitness, h)) by {
      QuotientSign(h, maxFitness - minFitness);
    }
    AdjustedFitnessLinear(b, a, maxFitness, minFitness, h);
    ProductSign(Alpha(maxFitness, minFitness, h), b - a);
  }

  /** For `h > 0` and `min < max` the map is strictly increasing. */
  lemma AdjustedFitnessStrict(a: real, b: real, maxFitness: real, minFitness: real, h: real)
    requires minFitness < maxFitness && 0.0 < h
    requires a < b
    ensures AdjustedFitness(a, maxFitness, minFitness, h) < AdjustedFitness(b, maxFitness, minFitness, h)
  {
    QuotientSign(h, maxFitness - minFitness);
    AdjustedFitnessLinear(b, a, maxFitness, minFitness, h);
    OrderedByPositiveDifference(AdjustedFitness(a, maxFitness, minFitness, h),
                                AdjustedFitness(b, maxFitness, minFitness, h),
                                Alpha(maxFitness, minFitness, h), b - a);
  }

  /** For `h >= 0`, a fitness within `[min, max]` is adjusted into `[1, h + 1]`. */
  lemma AdjustedFitnessBounds(fitness: real, maxFitness: real, minFitness: real, h: real)
    requires minFitness < maxFitness && 0.0 <= h
    requires minFitness <= fitness <= maxFitness
    ensures 1.0 <= AdjustedFitness(fitness, maxFitness, minFitness, h) <= h + 1.0
  {
    AdjustedFitnessMonotone(minFitness, fitness, maxFitness, minFitness, h);
    AdjustedFitnessMonotone(fitness, maxFitness, maxFitness, minFitness, h);
  }

  /** The unit-test cases in which the lowest score becomes the baseline 1. */
  lemma AdjustedFitnessLowestExamples()
    ensures AdjustedFitness(1.0, 2.0, 1.0, 5.0) == 1.0
    ensures AdjustedFitness(3.0, 5.0, 3.0, 3.0) == 1.0
  {
  }

  /** The unit-test cases in which the highest score becomes h + 1. */
  lemma AdjustedFitnessHighestExamples()
    ensures AdjustedFitness(2.0, 2.0, 1.0, 2.0) == 3.0
    ensures AdjustedFitness(5.0, 5.0, 3.0, 3.0) == 4.0
  {
  }

  /**
   The rescaling with `maxFitness`, `minFitness` and `h` fixed, applied to
   every fitness of a population in order.
   */
  function AdjustAll(fitnesses: seq<real>, maxFitness: real, minFitness: real, h: real): (r: seq<real>)
    requires maxFitness != minFitness
    ensures |r| == |fitnesses|
    ensures forall i :: 0 <= i < |r| ==> r[i] == AdjustedFitness(fitnesses[i], maxFitness, minFitness, h)
  {
    seq(|fitnesses|, i requires 0 <= i < |fitnesses| => AdjustedFitness(fitnesses[i], maxFitness, minFitness, h))
  }

  /**
   Adjusted fitnesses of a whole population, in input order. Python's `max`
   and `min` fail on an empty list and the rescaling divides by their
   difference, so the population must be non-empty and not all equal.
   */
  function AdjustedFitnesses(fitnesses: seq<real>, h: real): (r: seq<real>)
    requires |fitnesses| > 0
    requires Max(fitnesses) != Min(fitnesses)
    ensures |r| == |fitnesses|
    ensures forall i :: 0 <= i < |r| ==>
              r[i] == AdjustedFitness(fitnesses[i], Max(fitnesses), Min(fitnesses), h)
    ensures forall i :: 0 <= i < |r| && fitnesses[i] == Min(fitnesses) ==> r[i] == 1.0
    ensures forall i :: 0 <= i < |r| && fitnesses[i] == Max(fitnesses) ==> r[i] == h + 1.0
  {
    AdjustAll(fitnesses, Max(fitnesses), Min(fitnesses), h)
  }

  /** A population whose consecutive fitnesses differ by a constant step. */
  predicate EvenlySpaced(s: seq<real>, step: real)
  {
    forall i :: 0 <= i < |s| - 1 ==> s[i + 1] - s[i] == step
  }

  /** Every fitness lies between `lo` and `hi`. */
  predicate Within(s: seq<real>, lo: real, hi: real)
  {
    forall i :: 0 <= i < |s| ==> lo <= s[i] <= hi
  }

  /** For `h >= 0`, fitnesses within `[min, max]` are all adjusted into `[1, h + 1]`. */
  lemma AdjustAllBounds(fitnesses: seq<real>, maxFitness: real, minFitness: real, h: real)
    requires minFitness < maxFitness && 0.0 <= h
    requires Within(fitnesses, minFitness, maxFitness)
    ensures Within(AdjustAll(fitnesses, maxFitness, minFitness, h), 1.0, h + 1.0)
  {
    var r := AdjustAll(fitnesses, maxFitness, minFitness, h);
    forall i | 0 <= i < |r|
      ensures 1.0 <= r[i] <= h + 1.0
    {
      AdjustedFitnessBounds(fitnesses[i], maxFitness, minFitness, h);
    }
  }

  /** For `h >= 0` and `min < max`, the fixed rescaling is non-decreasing: a fitter chromosome is never adjusted below a less fit one. */
  lemma AdjustAllMonotone(fitnesses: seq<real>, maxFitness: real, minFitness: real, h: real, i: nat, j: nat)
    requires minFitness < maxFitness && 0.0 <= h
    requires i < |fitnesses| && j < |fitnesses| && fitnesses[i] <= fitnesses[j]
    ensures AdjustAll(fitnesses, maxFitness, minFitness, h)[i] <= AdjustAll(fitnesses, maxFitness, minFitness, h)[j]
  {
    AdjustedFitnessMonotone(fitnesses[i], fitnesses[j], maxFitness, minFitness, h);
  }

  /**
   For `h > 0` and `min < max`, chromosome `i` is no fitter than chromosome `j`
   before the fixed rescaling exactly when it is no fitter after it.
   */
  lemma AdjustAllOrder(fitnesses: seq<real>, maxFitness: real, minFitness: real, h: real, i: nat, j: nat)
    requires minFitness < maxFitness && 0.0 < h
    requires i < |fitnesses| && j < |fitnesses|
    ensures fitnesses[i] <= fitnesses[j]
            <==> AdjustAll(fitnesses, maxFitness, minFitness, h)[i] <= AdjustAll(fitnesses, maxFitness, minFitness, h)[j]
  {
    if fitnesses[i] <= fitnesses[j] {
      AdjustedFitnessMonotone(fitnesses[i], fitnesses[j], maxFitness, minFitness, h);
    } else {
      AdjustedFitnessStrict(fitnesses[j], fitnesses[i], maxFitness, minFitness, h);
    }
  }

  /** The fixed rescaling turns an evenly spaced population into one spaced by `alpha * step`. */
  lemma AdjustAllEvenlySpaced(fitnesses: seq<real>, maxFitness: real, minFitness: real, h: real, step: real)
    requires maxFitness != minFitness
    requires EvenlySpaced(fitnesses, step)
    ensures EvenlySpaced(AdjustAll(fitnesses, maxFitness, minFitness, h), Alpha(maxFitness, minFitness, h) * step)
  {
    var r := AdjustAll(fitnesses, maxFitness, minFitness, h);
    forall i | 0 <= i < |r| - 1
      ensures r[i + 1] - r[i] == Alpha(maxFitness, minFitness, h) * step
    {
      AdjustedFitnessLinear(fitnesses[i + 1], fitnesses[i], maxFitness, minFitness, h);
    }
  }

  /** For `h >= 0`, every adjusted fitness of a population lies in `[1, h + 1]`. */
  lemma AdjustedFitnessesBounds(fitnesses: seq<real>, h: real)
    requires |fitnesses| > 0 && Max(fitnesses) != Min(fitnesses)
    requires 0.0 <= h
    ensures Within(AdjustedFitnesses(fitnesses, h), 1.0, h + 1.0)
  {
    AdjustAllBounds(fitnesses, Max(fitnesses), Min(fitnesses), h);
  }

  /** For `h >= 0`, the adjustment is non-decreasing: a fitter chromosome is never adjusted below a less fit one. */
  lemma AdjustedFitnessesMonotone(fitnesses: seq<real>, h: real, i: nat, j: nat)
    requires |fitnesses| > 0 && Max(fitnesses) != Min(fitnesses)
    requires 0.0 <= h
    requires i < |fitnesses| && j < |fitnesses| && fitnesses[i] <= fitnesses[j]
    ensures AdjustedFitnesses(fitnesses, h)[i] <= AdjustedFitnesses(fitnesses, h)[j]
  {
    AdjustAllMonotone(fitnesses, Max(fitnesses), Min(fitnesses), h, i, j);
  }

  /**
   For `h > 0`, the adjustment keeps the relative order of any two
   chromosomes in both directions (with `h == 0` every fitness becomes 1).
   */
  lemma AdjustedFitnessesOrder(fitnesses: seq<real>, h: real, i: nat, j: nat)
    requires |fitnesses| > 0 && Max(fitnesses) != Min(fitnesses)
    requires 0.0 < h
    requires i < |fitnesses| && j < |fitnesses|
    ensures fitnesses[i] <= fitnesses[j] <==> AdjustedFitnesses(fitnesses, h)[i] <= AdjustedFitnesses(fitnesses, h)[j]
  {
    AdjustAllOrder(fitnesses, Max(fitnesses), Min(fitnesses), h, i, j);
  }

  /** Neighbours one `step` apart in a population stay `alpha * step` apart after adjustment. */
  lemma AdjustedFitnessesStepAt(fitnesses: seq<real>, h: real, step: real, i: nat)
    requires |fitnesses| > 0 && Max(fitnesses) != Min(fitnesses)
    requires i + 1 < |fitnesses| && fitnesses[i + 1] - fitnesses[i] == step
    ensures AdjustedFitnesses(fitnesses, h)[i + 1] - AdjustedFitnesses(fitnesses, h)[i]
            == Alpha(Max(fitnesses), Min(fitnesses), h) * step
  {
    AdjustedFitnessLinear(fitnesses[i + 1], fitnesses[i], Max(fitnesses), Min(fitnesses), h);
  }

  /** Evenly spaced input gives evenly spaced output, the step scaled by `alpha`. */
  lemma AdjustedFitnessesEvenlySpaced(fitnesses: seq<real>, h: real, step: real)
    requires |fitnesses| > 0 && Max(fitnesses) != Min(fitnesses)
    requires EvenlySpaced(fitnesses, step)
    ensures EvenlySpaced(AdjustedFitnesses(fitnesses, h), Alpha(Max(fitnesses), Min(fitnesses), h) * step)
  {
    forall i | 0 <= i < |fitnesses| - 1
      ensures AdjustedFitnesses(fitnesses, h)[i + 1] - AdjustedFitnesses(fitnesses, h)[i]
              == Alpha(Max(fitnesses), Min(fitnesses), h) * step
    {
      AdjustedFitnessesStepAt(fitnesses, h, step, i);
    }
  }

  /** The unit test in which the maximum and minimum of a population are adjusted. */
  lemma AdjustedFitnessesMaxMinExample()
    ensures Max([5.0, 3.0]) == 5.0 && Min([5.0, 3.0]) == 3.0
    ensures AdjustedFitnesses([5.0, 3.0], 3.0) == [4.0, 1.0]
  {
    var s := [5.0, 3.0];
    assert Max(s) in s && s[0] <= Max(s);
    assert Min(s) in s && Min(s) <= s[1];
  }

  /** The extremes of the evenly spaced test population. */
  lemma EvenlySpacedExampleExtrema()
    ensures Max([5.0, 4.0, 3.0]) == 5.0 && Min([5.0, 4.0, 3.0]) == 3.0
  {
    var s := [5.0, 4.0, 3.0];
    assert Max(s) in s && s[0] <= Max(s) && s[1] <= Max(s);
    assert Min(s) in s && Min(s) <= s[2] && Min(s) <= s[1];
  }

  /** The rescaling of the evenly spaced test population, with its extremes fixed. */
  lemma EvenlySpacedExampleAdjusted()
    ensures AdjustAll([5.0, 4.0, 3.0], 5.0, 3.0, 4.0) == [5.0, 3.0, 1.0]
  {
    assert AdjustedFitness(4.0, 5.0, 3.0, 4.0) == 3.0;
  }

  /** The unit test in which evenly spaced input gives evenly spaced output. */
  lemma AdjustedFitnessesEvenlySpacedExample()
    ensures Max([5.0, 4.0, 3.0]) == 5.0 && Min([5.0, 4.0, 3.0]) == 3.0
    ensures AdjustedFitnesses([5.0, 4.0, 3.0], 4.0) == [5.0, 3.0, 1.0]
  {
    EvenlySpacedExampleExtrema();
    EvenlySpacedExampleAdjusted();
  }
}
