/** Per-class scores computed from confusion counts: the masked F-measure of
    `macro_f_measure` (and of the same formula inlined at the end of
    `get_f_measure_by_class`), the unguarded precision and recall of
    `audio_tagging_results`, and the column mean of its "avg" row.
    Scores are exact rationals (`real`); a NaN is `None`. */
module Scores {
  import opened Wrappers

  /** F-measure of one class, forced to 0 where 2tp + fp + fn is 0. */
  function ClassF(tp: int, fp: int, fn: int): (f: real)
    ensures tp >= 0 && fp >= 0 && fn >= 0 ==> 0.0 <= f <= 1.0
  {
    if 2 * tp + fp + fn == 0 then 0.0
    else
      var num, den := (2 * tp) as real, (2 * tp + fp + fn) as real;
      assert tp >= 0 && fp >= 0 && fn >= 0 ==> 0.0 <= num / den <= 1.0 by {
        if tp >= 0 && fp >= 0 && fn >= 0 {
          RatioInUnitInterval(num, den);
        }
      }
      num / den
  }

  /** `macro_f_measure(tp, fp, fn)`: one F-measure per class (not yet
      averaged), each in [0, 1] when the counts are counts. */
  function MacroFMeasure(tp: seq<int>, fp: seq<int>, fn: seq<int>): (f: seq<real>)
    requires |fp| == |tp| && |fn| == |tp|
    ensures |f| == |tp|
    ensures forall c :: 0 <= c < |tp| && tp[c] >= 0 && fp[c] >= 0 && fn[c] >= 0 ==> 0.0 <= f[c] <= 1.0
  {
    seq(|tp|, c requires 0 <= c < |tp| => ClassF(tp[c], fp[c], fn[c]))
  }

  /** `tp / (tp + fp)` of one class; `None` where NumPy divides by zero. */
  function Precision(tp: int, fp: int): (p: Option<real>)
    ensures p.None? <==> tp + fp == 0
    ensures tp >= 0 && fp >= 0 && p.Some? ==> 0.0 <= p.value <= 1.0
  {
    if tp + fp == 0 then None
    else
      var num, den := tp as real, (tp + fp) as real;
      assert tp >= 0 && fp >= 0 ==> 0.0 <= num / den <= 1.0 by {
        if tp >= 0 && fp >= 0 {
          RatioInUnitInterval(num, den);
        }
      }
      Some(num / den)
  }

  /** `tp / (tp + fn)` of one class; `None` where NumPy divides by zero. */
  function Recall(tp: int, fn: int): (r: Option<real>)
    ensures r.None? <==> tp + fn == 0
    ensures tp >= 0 && fn >= 0 && r.Some? ==> 0.0 <= r.value <= 1.0
  {
    Precision(tp, fn)
  }

  /** Precision of every class. */
  function PrecisionVector(tp: seq<int>, fp: seq<int>): (p: seq<Option<real>>)
    requires |fp| == |tp|
    ensures |p| == |tp|
    ensures forall c :: 0 <= c < |tp| ==> (p[c].None? <==> tp[c] + fp[c] == 0)
  {
    seq(|tp|, c requires 0 <= c < |tp| => Precision(tp[c], fp[c]))
  }

  /** Recall of every class. */
  function RecallVector(tp: seq<int>, fn: seq<int>): (r: seq<Option<real>>)
    requires |fn| == |tp|
    ensures |r| == |tp|
    ensures forall c :: 0 <= c < |tp| ==> (r[c].None? <==> tp[c] + fn[c] == 0)
  {
    seq(|tp|, c requires 0 <= c < |tp| => Recall(tp[c], fn[c]))
  }

  lemma RatioInUnitInterval(num: real, den: real)
    requires 0.0 <= num <= den && den != 0.0
    ensures 0.0 <= num / den <= 1.0
  {
    assert num / den * den == num;
  }

  // ---------------------------------------------------------------------
  // What the F-measure means
  // ---------------------------------------------------------------------

  /** For counts, the F-measure is 1 exactly when the class has true
      positives and neither false positives nor false negatives, and 0
      exactly when it has no true positives (whether or not the mask
      applied). */
  lemma ClassFExtremes(tp: int, fp: int, fn: int)
    requires tp >= 0 && fp >= 0 && fn >= 0
    ensures ClassF(tp, fp, fn) == 1.0 <==> tp > 0 && fp == 0 && fn == 0
    ensures ClassF(tp, fp, fn) == 0.0 <==> tp == 0
  {
    if 2 * tp + fp + fn != 0 {
      var num, den := (2 * tp) as real, (2 * tp + fp + fn) as real;
      assert ClassF(tp, fp, fn) * den == num;
    }
  }

  /** Where precision and recall are both defined and positive, the masked
      F-measure is their harmonic mean 2PR / (P + R). */
  lemma ClassFIsHarmonicMean(tp: int, fp: int, fn: int)
    requires tp > 0 && fp >= 0 && fn >= 0
    ensures Precision(tp, fp).Some? && Recall(tp, fn).Some?
    ensures var p, r := Precision(tp, fp).value, Recall(tp, fn).value;
      p + r > 0.0 && ClassF(tp, fp, fn) == 2.0 * p * r / (p + r)
  {
    var t, d1, d2 := tp as real, (tp + fp) as real, (tp + fn) as real;
    var p, r := Precision(tp, fp).value, Recall(tp, fn).value;
    assert p == t / d1 && r == t / d2;
    assert p * d1 == t;
    assert r * d2 == t;
    assert p > 0.0 by { assert p * d1 > 0.0; }
    assert r > 0.0 by { assert r * d2 > 0.0; }
    var f := ClassF(tp, fp, fn);
    assert f * (d1 + d2) == 2.0 * t;
    calc {
      p * r * (d1 + d2);
      (p * d1) * r + (r * d2) * p;
      t * r + t * p;
      t * (p + r);
    }
    assert f * (p + r) == 2.0 * p * r by {
      assert f * (p + r) * (d1 + d2) == 2.0 * t * (p + r);
      assert 2.0 * p * r * (d1 + d2) == 2.0 * t * (p + r);
    }
    var h := 2.0 * p * r / (p + r);
    assert h * (p + r) == 2.0 * p * r;
    assert (f - h) * (p + r) == 0.0;
  }

  // ---------------------------------------------------------------------
  // Column mean with NaN propagation
  // ---------------------------------------------------------------------

  /** No entry is NaN. */
  predicate AllDefined(xs: seq<Option<real>>)
  {
    forall i :: 0 <= i < |xs| ==> xs[i].Some?
  }

  /** Sum of the entries, all defined. */
  function Sum(xs: seq<Option<real>>): real
    requires AllDefined(xs)
  {
    if xs == [] then 0.0 else Sum(xs[..|xs| - 1]) + xs[|xs| - 1].value
  }

  /** `data.mean(0)` on one column: NaN when the column is empty or holds a
      NaN, the arithmetic mean otherwise. */
  function Mean(xs: seq<Option<real>>): (m: Option<real>)
    ensures m.Some? <==> |xs| > 0 && AllDefined(xs)
  {
    if |xs| > 0 && AllDefined(xs) then Some(Sum(xs) / |xs| as real) else None
  }

  lemma {:induction false} SumBounds(xs: seq<Option<real>>, lo: real, hi: real)
    requires AllDefined(xs)
    requires forall i :: 0 <= i < |xs| ==> lo <= xs[i].value <= hi
    ensures |xs| as real * lo <= Sum(xs) <= |xs| as real * hi
  {
    if xs != [] {
      var init := xs[..|xs| - 1];
      var n := |init| as real;
      SumBounds(init, lo, hi);
      assert Sum(xs) == Sum(init) + xs[|xs| - 1].value;
      assert |xs| as real * lo == n * lo + lo;
      assert |xs| as real * hi == n * hi + hi;
    }
  }

  /** The mean of defined values lies between their bounds. */
  lemma MeanBounds(xs: seq<Option<real>>, lo: real, hi: real)
    requires |xs| > 0 && AllDefined(xs)
    requires forall i :: 0 <= i < |xs| ==> lo <= xs[i].value <= hi
    ensures lo <= Mean(xs).value <= hi
  {
    var n := |xs| as real;
    SumBounds(xs, lo, hi);
    var m := Mean(xs).value;
    assert m * n == Sum(xs);
    CancelPositive(lo, m, n);
    CancelPositive(m, hi, n);
  }

  lemma CancelPositive(a: real, b: real, n: real)
    requires n > 0.0 && a * n <= b * n
    ensures a <= b
  {
  }

  lemma {:induction false} SumOfConstant(xs: seq<Option<real>>, a: real)
    requires forall i :: 0 <= i < |xs| ==> xs[i] == Some(a)
    ensures AllDefined(xs) && Sum(xs) == |xs| as real * a
  {
    if xs != [] {
      SumOfConstant(xs[..|xs| - 1], a);
    }
  }

  /** The mean of a column whose entries all equal `a` is `a`. */
  lemma MeanOfConstant(xs: seq<Option<real>>, a: real)
    requires |xs| > 0
    requires forall i :: 0 <= i < |xs| ==> xs[i] == Some(a)
    ensures Mean(xs) == Some(a)
  {
    var n := |xs| as real;
    SumOfConstant(xs, a);
    assert Sum(xs) / n * n == n * a;
  }
}
