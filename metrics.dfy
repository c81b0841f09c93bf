/**
 Performance metrics of an inferred network against the true one, computed
 from confusion counts (true/false positives and negatives). Each metric is a
 ratio of counts; when every count it uses is zero it is defined to be 1.
 Python's true division of integers is modelled as division of reals.
 */
module Metrics {

  /** A ratio of a part to a positive whole lies in `[0, 1]` and recovers the part. */
  lemma RatioFacts(x: real, y: real)
    requires 0.0 <= x <= y && 0.0 < y
    ensures (x / y) * y == x
    ensures 0.0 <= x / y <= 1.0
    ensures x / y == 1.0 <==> x == y
    ensures x / y == 0.0 <==> x == 0.0
  {
    var q := x / y;
    assert q * y == x;
  }

  /** Precision: the share of predicted edges that are true edges. */
  function Precision(tp: nat, fp: nat): (r: real)
    ensures 0.0 <= r <= 1.0
    ensures tp == 0 && fp == 0 ==> r == 1.0
    ensures tp + fp > 0 ==> r * ((tp + fp) as real) == tp as real
    ensures r == 1.0 <==> fp == 0
    ensures r == 0.0 <==> tp == 0 && fp > 0
  {
    if tp == 0 && fp == 0 then 1.0
    else
      RatioFacts(tp as real, (tp + fp) as real);
      (tp as real) / ((tp + fp) as real)
  }

  /** Recall: the share of true edges that were predicted. */
  function Recall(tp: nat, fn: nat): (r: real)
    ensures 0.0 <= r <= 1.0
    ensures tp == 0 && fn == 0 ==> r == 1.0
    ensures tp + fn > 0 ==> r * ((tp + fn) as real) == tp as real
    ensures r == 1.0 <==> fn == 0
    ensures r == 0.0 <==> tp == 0 && fn > 0
  {
    if tp == 0 && fn == 0 then 1.0
    else
      RatioFacts(tp as real, (tp + fn) as real);
      (tp as real) / ((tp + fn) as real)
  }

  /** Structural accuracy: the share of all decisions that were correct. */
  function StructuralAccuracy(tp: nat, tn: nat, fp: nat, fn: nat): (r: real)
    ensures 0.0 <= r <= 1.0
    ensures tp == 0 && tn == 0 && fp == 0 && fn == 0 ==> r == 1.0
    ensures tp + tn + fp + fn > 0 ==> r * ((tp + fp + fn + tn) as real) == (tp + tn) as real
    ensures r == 1.0 <==> fp == 0 && fn == 0
    ensures r == 0.0 <==> tp == 0 && tn == 0 && fp + fn > 0
  {
    if tp == 0 && tn == 0 && fp == 0 && fn == 0 then 1.0
    else
      RatioFacts((tp + tn) as real, (tp + fp + fn + tn) as real);
      ((tp + tn) as real) / ((tp + fp + fn + tn) as real)
  }

  /** For positive denominators, `a / b <= c / d` follows from `a * d <= c * b`. */
  lemma DivLe(a: real, b: real, c: real, d: real)
    requires 0.0 < b && 0.0 < d
    requires a * d <= c * b
    ensures a / b <= c / d
  {
    var x, y := a / b, c / d;
    assert x * b == a;
    assert y * d == c;
    assert x * (b * d) == a * d;
    assert y * (b * d) == c * b;
    assert 0.0 < b * d;
  }

  /** Raising both factors of a product of non-negative reals does not lower it. */
  lemma ProductMonotone(x: real, y: real, x': real, y': real)
    requires 0.0 <= x <= x' && 0.0 <= y <= y'
    ensures x * y <= x' * y'
  {
    assert x * y <= x' * y by {
      assert 0.0 <= (x' - x) * y;
    }
    assert x' * y <= x' * y' by {
      assert 0.0 <= x' * (y' - y);
    }
  }

  /** More false positives never raise precision; more true positives never lower it. */
  lemma PrecisionMonotone(tp: nat, fp: nat, tp': nat, fp': nat)
    requires tp <= tp' && fp' <= fp
    ensures Precision(tp, fp) <= Precision(tp', fp')
  {
    if tp + fp > 0 && tp' + fp' > 0 {
      var a, b, c, d := tp as real, (tp + fp) as real, tp' as real, (tp' + fp') as real;
      ProductMonotone(a, fp' as real, c, fp as real);
      assert a * d == a * c + a * (fp' as real);
      assert c * b == c * a + c * (fp as real);
      DivLe(a, b, c, d);
    }
  }

  /** More false negatives never raise recall; more true positives never lower it. */
  lemma RecallMonotone(tp: nat, fn: nat, tp': nat, fn': nat)
    requires tp <= tp' && fn' <= fn
    ensures Recall(tp, fn) <= Recall(tp', fn')
  {
    RecallIsPrecisionOfNegatives(tp, fn);
    RecallIsPrecisionOfNegatives(tp', fn');
    PrecisionMonotone(tp, fn, tp', fn');
  }

  /** Recall is fully determined by the same ratio as precision, with false
      negatives in place of false positives. */
  lemma RecallIsPrecisionOfNegatives(tp: nat, fn: nat)
    ensures Recall(tp, fn) == Precision(tp, fn)
  {
  }

  /** Structural accuracy is symmetric in the roles of positives and negatives. */
  lemma StructuralAccuracySymmetric(tp: nat, tn: nat, fp: nat, fn: nat)
    ensures StructuralAccuracy(tp, tn, fp, fn) == StructuralAccuracy(tn, tp, fn, fp)
  {
  }

  /** The unit-test cases of precision. */
  lemma PrecisionExamples()
    ensures Precision(0, 0) == 1.0 && Precision(5, 5) == 0.5
    ensures Precision(15, 5) == 0.75 && Precision(10, 0) == 1.0
  {
  }

  /** The unit-test cases of recall. */
  lemma RecallExamples()
    ensures Recall(0, 0) == 1.0 && Recall(5, 5) == 0.5
    ensures Recall(15, 5) == 0.75 && Recall(10, 0) == 1.0
  {
  }

  /** The unit-test cases of structural accuracy. */
  lemma StructuralAccuracyExamples()
    ensures StructuralAccuracy(0, 0, 0, 0) == 1.0 && StructuralAccuracy(5, 5, 5, 5) == 0.5
    ensures StructuralAccuracy(15, 15, 5, 5) == 0.75 && StructuralAccuracy(15, 15, 0, 0) == 1.0
  {
  }
}
