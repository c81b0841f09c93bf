# GABNI numeric helpers in Dafny

This project models the numeric helpers of a genetic-algorithm-based Boolean
network inference tool (GABNI) and proves properties of them. There are two
groups:

- **Fitness rescaling** (module `Gabni`, file `gabni.dfy`). A population's raw
  fitness values are mapped linearly through `alpha * f + beta`, with
  `alpha = h / (max - min)` and `beta = 1 - alpha * min`. The worst chromosome
  gets adjusted fitness 1 and the best gets `h + 1`, so the best is selected
  `h + 1` times as often as the worst.
- **Performance metrics** (module `Metrics`, file `metrics.dfy`). Precision,
  recall and structural accuracy are computed from confusion counts. Each is a
  ratio of counts and is defined to be 1 when all the counts it uses are zero.

Both groups are pure, so they are Dafny functions with lemmas about them.

Modelling choices:

- Python `float` is modelled as Dafny `real`, so every rational value is exact.
- Integer counts are `nat`.
- Python's `max` and `min` are `Gabni.Max` and `Gabni.Min`. Each is defined by
  its characterising property: the result is in the sequence and bounds every
  element. `Gabni.ExtremaExist` proves that such a value exists.
- `functools.partial` fixes the maximum, minimum and `h`. Here that is
  `Gabni.AdjustAll`, which takes those three values as ordinary arguments and
  maps the rescaling over the population in order.
  `Gabni.AdjustedFitnesses` passes in `Max` and `Min` of the population.
- The Python code raises in two cases: `max` and `min` on an empty list, and
  division by zero when all fitnesses are equal. These are preconditions
  (`|fitnesses| > 0`, `Max(fitnesses) != Min(fitnesses)`), not modelled error
  results. `Gabni.SpreadIffDistinct` shows that the second precondition holds
  exactly when the population contains two different fitnesses.
  `calc_adjusted_fitness` has the matching precondition `maxFitness != minFitness`.
- The slope `alpha = h / (max - min)` (`src/utils/gabni.py:29`) is
  `Gabni.Alpha`. `Gabni.AdjustedFitness` uses it, and the linearity, step
  and evenly-spaced lemmas state their results in terms of it.
- The metric guards are modelled exactly. The all-zero case returns 1.
  Otherwise the result is the ratio of the counts.

## Model

| member | source | states |
|---|---|---|
| Gabni.ExtremaExist | src/utils/gabni.py:60-61 | every non-empty population has a largest and a smallest fitness, so Python's `max` and `min` are defined on it |
| Gabni.Max | src/utils/gabni.py:60 | the maximum is an element of the population and no element exceeds it |
| Gabni.Min | src/utils/gabni.py:61 | the minimum is an element of the population and no element is below it |
| Gabni.SpreadIffDistinct | src/utils/gabni.py:29 | the divisor `max - min` is non-zero exactly when the population holds two different fitnesses (both directions) |
| Gabni.Alpha | src/utils/gabni.py:29 | the slope stretches the population's spread to exactly `h`: `alpha * (max - min) == h` |
| Gabni.AdjustedFitness | src/utils/gabni.py:14-32 | defined only when max and min differ (line 29 divides by their difference); the minimum maps to exactly 1 and the maximum to exactly h + 1 |
| Gabni.AdjustedFitnessPosition | src/utils/gabni.py:17-20 | the adjusted fitness minus 1 is `h` times the fitness's relative position between min (0) and max (1) |
| Gabni.AdjustedFitnessLinear | src/utils/gabni.py:29-32 | the map is affine: the difference of two adjusted fitnesses is `alpha` times the difference of the raw ones |
| Gabni.AdjustedFitnessMonotone | src/utils/gabni.py:29-32 | for `h >= 0` and `min < max`, the map is non-decreasing |
| Gabni.AdjustedFitnessStrict | src/utils/gabni.py:29-32 | for `h > 0` and `min < max`, the map is strictly increasing, so a strictly fitter chromosome gets a strictly larger adjusted fitness |
| Gabni.AdjustedFitnessBounds | src/utils/gabni.py:17-20 | for `h >= 0`, a fitness within `[min, max]` is adjusted into `[1, h + 1]` |
| Gabni.AdjustedFitnessLowestExamples | src/utils/gabni.py:39-41 | the two test cases in which the lowest score becomes 1 |
| Gabni.AdjustedFitnessHighestExamples | src/utils/gabni.py:43-45 | the two test cases in which the highest score becomes h + 1 (3.0 and 4.0) |
| Gabni.AdjustAll | src/utils/gabni.py:63-67 | with max, min and h fixed, the result has the population's length, and element `i` is the adjusted fitness of element `i` |
| Gabni.AdjustedFitnesses | src/utils/gabni.py:49-67 | requires a non-empty population with max != min; keeps length and order; element `i` is the adjustment of element `i` with the population's own max and min; every minimum becomes 1 and every maximum becomes h + 1 |
| Gabni.AdjustAllBounds | src/utils/gabni.py:63-67 | for `h >= 0`, fitnesses within `[min, max]` are all adjusted into `[1, h + 1]` |
| Gabni.AdjustAllMonotone | src/utils/gabni.py:63-67 | for `h >= 0`, if chromosome `i` is no fitter than chromosome `j`, the same holds after adjustment (non-decreasing) |
| Gabni.AdjustAllOrder | src/utils/gabni.py:63-67 | for `h > 0`, chromosome `i` is no fitter than chromosome `j` before the rescaling exactly when it is no fitter after it (both directions) |
| Gabni.AdjustAllEvenlySpaced | src/utils/gabni.py:63-67 | evenly spaced fitnesses with step `d` map to evenly spaced values with step `alpha * d` |
| Gabni.AdjustedFitnessesBounds | src/utils/gabni.py:49-53 | for `h >= 0`, every adjusted fitness of a population lies in `[1, h + 1]` |
| Gabni.AdjustedFitnessesMonotone | src/utils/gabni.py:49-67 | for `h >= 0`, the adjustment is non-decreasing: a fitter chromosome is never adjusted below a less fit one |
| Gabni.AdjustedFitnessesOrder | src/utils/gabni.py:49-67 | for `h > 0`, the adjustment keeps the relative order of any two chromosomes in both directions: `f[i] <= f[j]` exactly when the adjusted `r[i] <= r[j]` |
| Gabni.AdjustedFitnessesStepAt | src/utils/gabni.py:83-88 | two neighbours `step` apart stay `alpha * step` apart after adjustment |
| Gabni.AdjustedFitnessesEvenlySpaced | src/utils/gabni.py:83-88 | evenly spaced input gives evenly spaced output, the step scaled by `alpha = h / (max - min)` |
| Gabni.AdjustedFitnessesMaxMinExample | src/utils/gabni.py:74-81 | `[5, 3]` with h = 3 has max 5 and min 3 and is adjusted to `[4, 1]` |
| Gabni.EvenlySpacedExampleExtrema | src/utils/gabni.py:84-85 | `[5, 4, 3]` has max 5 and min 3 |
| Gabni.EvenlySpacedExampleAdjusted | src/utils/gabni.py:84-86 | `[5, 4, 3]` rescaled with max 5, min 3 and h = 4 is `[5, 3, 1]` |
| Gabni.AdjustedFitnessesEvenlySpacedExample | src/utils/gabni.py:83-88 | `[5, 4, 3]` with h = 4 is adjusted to `[5, 3, 1]` |
| Metrics.Precision | src/utils/metrics.py:11-23 | result in `[0, 1]`; 1 when both counts are zero; otherwise result times `tp + fp` equals `tp`; equals 1 exactly when `fp == 0`; equals 0 exactly when `tp == 0` and `fp > 0` |
| Metrics.Recall | src/utils/metrics.py:40-52 | result in `[0, 1]`; 1 when both counts are zero; otherwise result times `tp + fn` equals `tp`; equals 1 exactly when `fn == 0`; equals 0 exactly when `tp == 0` and `fn > 0` |
| Metrics.StructuralAccuracy | src/utils/metrics.py:69-83 | result in `[0, 1]`; 1 when all four counts are zero; otherwise result times the total equals `tp + tn`; equals 1 exactly when `fp == fn == 0`; equals 0 exactly when `tp == tn == 0` and some count is positive |
| Metrics.PrecisionMonotone | src/utils/metrics.py:20-23 | more true positives or fewer false positives never lower precision |
| Metrics.RecallMonotone | src/utils/metrics.py:49-52 | more true positives or fewer false negatives never lower recall |
| Metrics.RecallIsPrecisionOfNegatives | src/utils/metrics.py:49-52 | recall is the same guarded ratio as precision, with false negatives in place of false positives |
| Metrics.StructuralAccuracySymmetric | src/utils/metrics.py:80-83 | swapping positives with negatives (tp with tn, fp with fn) leaves structural accuracy unchanged |
| Metrics.PrecisionExamples | src/utils/metrics.py:30-36 | `precision(0,0) = 1`, `precision(5,5) = 0.5`, `precision(15,5) = 0.75`, `precision(10,0) = 1` |
| Metrics.RecallExamples | src/utils/metrics.py:59-65 | `recall(0,0) = 1`, `recall(5,5) = 0.5`, `recall(15,5) = 0.75`, `recall(10,0) = 1` |
| Metrics.StructuralAccuracyExamples | src/utils/metrics.py:90-96 | `accuracy(0,0,0,0) = 1`, `accuracy(5,5,5,5) = 0.5`, `accuracy(15,15,5,5) = 0.75`, `accuracy(15,15,0,0) = 1` |

## Left out

- IEEE-754 rounding. Fitness values and metric results are exact reals. The
  unit tests' exact equalities hold for these values, and no claim is made
  about float rounding.
- Negative confusion counts. The source does not validate them (for example,
  `calc_precision(1, -1)` divides by zero). The model takes `nat` counts.
- The empty population and an all-equal population in `calc_adjusted_fitnesses`,
  and `max_fitness == min_fitness` in `calc_adjusted_fitness`. Python raises
  there, so the model has preconditions instead of an error value.
- `functools.partial` as a mechanism. It is modelled as a direct call with the
  fixed max, min and h (`Gabni.AdjustAll`).
- The crossover operator and any selection, mutation or random-number logic.
  Their source is not part of this model.
- The test functions as runnable code. Their assertions are the example
  lemmas listed above.
