/** Per-class confusion counts of a reference and an estimated multi-hot
    matrix: `intermediate_at_measures` of evaluation_measures.py. */
module Confusion {

  /** A multi-hot matrix: rows are clips, columns are classes. */
  type Matrix = seq<seq<int>>

  /** The four outcomes counted for every class. */
  datatype Outcome = TruePositive | FalsePositive | FalseNegative | TrueNegative

  /** The four per-class count vectors, in the order the source returns them. */
  datatype Counts = Counts(tp: seq<int>, fp: seq<int>, fn: seq<int>, tn: seq<int>)

  /** Every row of `m` has exactly `classes` columns. */
  predicate Shaped(m: Matrix, classes: nat)
  {
    forall i :: 0 <= i < |m| ==> |m[i]| == classes
  }

  /** The reference and the estimate have the same shape, rows x classes. */
  predicate SameShape(ref: Matrix, est: Matrix, classes: nat)
  {
    |ref| == |est| && Shaped(ref, classes) && Shaped(est, classes)
  }

  /** Every entry is 0 or 1. */
  predicate Binary(m: Matrix)
  {
    forall i, j :: 0 <= i < |m| && 0 <= j < |m[i]| ==> m[i][j] == 0 || m[i][j] == 1
  }

  /** Column `c` exists in every row of both matrices, which have as many rows. */
  predicate HasColumn(ref: Matrix, est: Matrix, c: nat)
  {
    |ref| == |est| && forall i :: 0 <= i < |ref| ==> c < |ref[i]| && c < |est[i]|
  }

  /** The element-wise test the source applies for outcome `k` to a reference
      value `r` and an estimated value `e`; these are arithmetic tests, so
      they are defined for any integers, not only for 0 and 1. */
  predicate Matches(k: Outcome, r: int, e: int)
  {
    match k
    case TruePositive => e + r == 2
    case FalsePositive => e - r == 1
    case FalseNegative => r - e == 1
    case TrueNegative => e + r == 0
  }

  /** The outcome that `k` becomes when reference and estimate trade places. */
  function Mirror(k: Outcome): Outcome
  {
    match k
    case FalsePositive => FalseNegative
    case FalseNegative => FalsePositive
    case _ => k
  }

  /** Number of rows whose column `c` passes the test for `k` (the `.sum(axis=0)`
      of one boolean column). */
  function ColumnCount(ref: Matrix, est: Matrix, c: nat, k: Outcome): (n: nat)
    requires HasColumn(ref, est, c)
    ensures n <= |ref|
    decreases |ref|
  {
    if |ref| == 0 then 0
    else
      var last := |ref| - 1;
      ColumnCount(ref[..last], est[..last], c, k) + (if Matches(k, ref[last][c], est[last][c]) then 1 else 0)
  }

  /** The count of `k` for every class. */
  function CountVector(ref: Matrix, est: Matrix, classes: nat, k: Outcome): (v: seq<int>)
    requires SameShape(ref, est, classes)
    ensures |v| == classes
    ensures forall c :: 0 <= c < classes ==> 0 <= v[c] <= |ref|
  {
    seq(classes, c requires 0 <= c < classes => ColumnCount(ref, est, c, k))
  }

  /** `intermediate_at_measures(encoded_ref, encoded_est)`: the vectors
      (tp, fp, fn, tn), one count per class, each between 0 and the number
      of rows. */
  function IntermediateAtMeasures(ref: Matrix, est: Matrix, classes: nat): (r: Counts)
    requires SameShape(ref, est, classes)
    ensures |r.tp| == |r.fp| == |r.fn| == |r.tn| == classes
    ensures forall c :: 0 <= c < classes ==>
      0 <= r.tp[c] <= |ref| && 0 <= r.fp[c] <= |ref| && 0 <= r.fn[c] <= |ref| && 0 <= r.tn[c] <= |ref|
  {
    Counts(CountVector(ref, est, classes, TruePositive), CountVector(ref, est, classes, FalsePositive),
           CountVector(ref, est, classes, FalseNegative), CountVector(ref, est, classes, TrueNegative))
  }

  /** Element-wise sum of two vectors of the same length. */
  function VecAdd(u: seq<int>, v: seq<int>): (w: seq<int>)
    requires |u| == |v|
    ensures |w| == |u| && forall i :: 0 <= i < |u| ==> w[i] == u[i] + v[i]
  {
    seq(|u|, i requires 0 <= i < |u| => u[i] + v[i])
  }

  /** The `tp += tp_` ... `tn += tn_` step, on all four vectors at once:
      each count of each class is the sum of the two. */
  function AddCounts(x: Counts, y: Counts): (s: Counts)
    requires |x.tp| == |y.tp| && |x.fp| == |y.fp| && |x.fn| == |y.fn| && |x.tn| == |y.tn|
    ensures |s.tp| == |x.tp| && |s.fp| == |x.fp| && |s.fn| == |x.fn| && |s.tn| == |x.tn|
    ensures forall c :: 0 <= c < |x.tp| ==> s.tp[c] == x.tp[c] + y.tp[c]
    ensures forall c :: 0 <= c < |x.fp| ==> s.fp[c] == x.fp[c] + y.fp[c]
    ensures forall c :: 0 <= c < |x.fn| ==> s.fn[c] == x.fn[c] + y.fn[c]
    ensures forall c :: 0 <= c < |x.tn| ==> s.tn[c] == x.tn[c] + y.tn[c]
  {
    Counts(VecAdd(x.tp, y.tp), VecAdd(x.fp, y.fp), VecAdd(x.fn, y.fn), VecAdd(x.tn, y.tn))
  }

  /** The all-zero vector of the given length (`np.zeros`). */
  function Zeros(n: nat): (z: seq<int>)
    ensures |z| == n && forall i :: 0 <= i < n ==> z[i] == 0
  {
    seq(n, _ => 0)
  }

  // ---------------------------------------------------------------------
  // Meaning of the arithmetic tests on 0/1 entries
  // ---------------------------------------------------------------------

  /** On 0/1 values the four tests are the four cells of the confusion
      table, and exactly one of them holds. */
  lemma MatchesOnBits(r: int, e: int)
    requires (r == 0 || r == 1) && (e == 0 || e == 1)
    ensures Matches(TruePositive, r, e) <==> r == 1 && e == 1
    ensures Matches(FalsePositive, r, e) <==> r == 0 && e == 1
    ensures Matches(FalseNegative, r, e) <==> r == 1 && e == 0
    ensures Matches(TrueNegative, r, e) <==> r == 0 && e == 0
    ensures (if Matches(TruePositive, r, e) then 1 else 0) + (if Matches(FalsePositive, r, e) then 1 else 0)
          + (if Matches(FalseNegative, r, e) then 1 else 0) + (if Matches(TrueNegative, r, e) then 1 else 0) == 1
  {
  }

  // ---------------------------------------------------------------------
  // A count is the size of the set of rows that pass the test
  // ---------------------------------------------------------------------

  /** The indices of the rows whose column `c` passes the test for `k`. */
  function RowsWhere(ref: Matrix, est: Matrix, c: nat, k: Outcome): set<nat>
    requires HasColumn(ref, est, c)
  {
    set i: nat | i < |ref| && Matches(k, ref[i][c], est[i][c])
  }

  /** The recursive count agrees with the set-of-rows definition. */
  lemma {:induction false} ColumnCountIsCardinality(ref: Matrix, est: Matrix, c: nat, k: Outcome)
    requires HasColumn(ref, est, c)
    ensures ColumnCount(ref, est, c, k) == |RowsWhere(ref, est, c, k)|
    decreases |ref|
  {
    if |ref| > 0 {
      var last := |ref| - 1;
      ColumnCountIsCardinality(ref[..last], est[..last], c, k);
      RowsWhereStep(ref, est, c, k);
    }
  }

  /** Adding the last row adds its index to the set exactly when it passes. */
  lemma RowsWhereStep(ref: Matrix, est: Matrix, c: nat, k: Outcome)
    requires HasColumn(ref, est, c) && |ref| > 0
    ensures HasColumn(ref[..|ref| - 1], est[..|ref| - 1], c)
    ensures |RowsWhere(ref, est, c, k)|
         == |RowsWhere(ref[..|ref| - 1], est[..|ref| - 1], c, k)|
            + (if Matches(k, ref[|ref| - 1][c], est[|ref| - 1][c]) then 1 else 0)
  {
    var last := |ref| - 1;
    var pr, pe := ref[..last], est[..last];
    var prefix := RowsWhere(pr, pe, c, k);
    var all := RowsWhere(ref, est, c, k);
    var extra: set<nat> := if Matches(k, ref[last][c], est[last][c]) then {last} else {};
    forall i: nat ensures i in all <==> i in prefix + extra {
      if i < last {
        assert pr[i] == ref[i] && pe[i] == est[i];
      }
    }
    assert all == prefix + extra;
    assert prefix !! extra;
  }

  // ---------------------------------------------------------------------
  // tp + fp + fn + tn = number of rows
  // ---------------------------------------------------------------------

  lemma {:induction false} ColumnPartition(ref: Matrix, est: Matrix, c: nat)
    requires HasColumn(ref, est, c) && Binary(ref) && Binary(est)
    ensures ColumnCount(ref, est, c, TruePositive) + ColumnCount(ref, est, c, FalsePositive)
          + ColumnCount(ref, est, c, FalseNegative) + ColumnCount(ref, est, c, TrueNegative) == |ref|
    decreases |ref|
  {
    if |ref| > 0 {
      var last := |ref| - 1;
      ColumnPartition(ref[..last], est[..last], c);
      MatchesOnBits(ref[last][c], est[last][c]);
    }
  }

  /** For 0/1 matrices of the same shape, every class's four counts add up
      to the number of rows: each row is counted in exactly one cell. */
  lemma CountsPartitionRows(ref: Matrix, est: Matrix, classes: nat)
    requires SameShape(ref, est, classes) && Binary(ref) && Binary(est)
    ensures var r := IntermediateAtMeasures(ref, est, classes);
      forall c :: 0 <= c < classes ==> r.tp[c] + r.fp[c] + r.fn[c] + r.tn[c] == |ref|
  {
    forall c | 0 <= c < classes
      ensures ColumnCount(ref, est, c, TruePositive) + ColumnCount(ref, est, c, FalsePositive)
            + ColumnCount(ref, est, c, FalseNegative) + ColumnCount(ref, est, c, TrueNegative) == |ref|
    {
      ColumnPartition(ref, est, c);
    }
  }

  // ---------------------------------------------------------------------
  // Swapping reference and estimate
  // ---------------------------------------------------------------------

  lemma {:induction false} ColumnSwap(ref: Matrix, est: Matrix, c: nat, k: Outcome)
    requires HasColumn(ref, est, c)
    ensures HasColumn(est, ref, c)
    ensures ColumnCount(est, ref, c, k) == ColumnCount(ref, est, c, Mirror(k))
    decreases |ref|
  {
    if |ref| > 0 {
      var last := |ref| - 1;
      ColumnSwap(ref[..last], est[..last], c, k);
    }
  }

  /** Exchanging the reference and the estimate exchanges fp and fn and
      leaves tp and tn as they were (for any integer matrices). */
  lemma SwapExchangesFpFn(ref: Matrix, est: Matrix, classes: nat)
    requires SameShape(ref, est, classes)
    ensures SameShape(est, ref, classes)
    ensures var r := IntermediateAtMeasures(ref, est, classes);
      IntermediateAtMeasures(est, ref, classes) == Counts(r.tp, r.fn, r.fp, r.tn)
  {
    var r := IntermediateAtMeasures(ref, est, classes);
    var s := IntermediateAtMeasures(est, ref, classes);
    forall c, k | 0 <= c < classes
      ensures ColumnCount(est, ref, c, k) == ColumnCount(ref, est, c, Mirror(k))
    {
      ColumnSwap(ref, est, c, k);
    }
    assert s.tp == r.tp;
    assert s.fp == r.fn;
    assert s.fn == r.fp;
    assert s.tn == r.tn;
  }

  // ---------------------------------------------------------------------
  // Counting over stacked rows
  // ---------------------------------------------------------------------

  lemma {:induction false} ColumnConcat(ref: Matrix, est: Matrix, ref2: Matrix, est2: Matrix, c: nat, k: Outcome)
    requires HasColumn(ref, est, c) && HasColumn(ref2, est2, c)
    ensures HasColumn(ref + ref2, est + est2, c)
    ensures ColumnCount(ref + ref2, est + est2, c, k) == ColumnCount(ref, est, c, k) + ColumnCount(ref2, est2, c, k)
    decreases |ref2|
  {
    HasColumnConcat(ref, est, ref2, est2, c);
    if |ref2| == 0 {
      assert ref + ref2 == ref && est + est2 == est;
    } else {
      var last := |ref2| - 1;
      var r, e := ref + ref2, est + est2;
      HasColumnConcat(ref, est, ref2[..last], est2[..last], c);
      ColumnConcat(ref, est, ref2[..last], est2[..last], c, k);
      assert r[..|r| - 1] == ref + ref2[..last];
      assert e[..|e| - 1] == est + est2[..last];
      assert r[|r| - 1] == ref2[last] && e[|e| - 1] == est2[last];
      ColumnCountLast(r, e, c, k);
      ColumnCountLast(ref2, est2, c, k);
    }
  }

  lemma HasColumnConcat(ref: Matrix, est: Matrix, ref2: Matrix, est2: Matrix, c: nat)
    requires HasColumn(ref, est, c) && HasColumn(ref2, est2, c)
    ensures HasColumn(ref + ref2, est + est2, c)
    ensures |ref2| > 0 ==> HasColumn(ref2[..|ref2| - 1], est2[..|ref2| - 1], c)
  {
    forall i | 0 <= i < |ref + ref2| ensures c < |(ref + ref2)[i]| && c < |(est + est2)[i]| {
      if i >= |ref| {
        assert (ref + ref2)[i] == ref2[i - |ref|] && (est + est2)[i] == est2[i - |ref|];
      }
    }
  }

  /** One unfolding of the count: the rows before the last, plus the last. */
  lemma ColumnCountLast(ref: Matrix, est: Matrix, c: nat, k: Outcome)
    requires HasColumn(ref, est, c) && |ref| > 0
    ensures HasColumn(ref[..|ref| - 1], est[..|ref| - 1], c)
    ensures ColumnCount(ref, est, c, k)
         == ColumnCount(ref[..|ref| - 1], est[..|ref| - 1], c, k)
            + (if Matches(k, ref[|ref| - 1][c], est[|ref| - 1][c]) then 1 else 0)
  {
  }

  /** Counting the rows of two stacked pairs of matrices gives the
      element-wise sum of the counts of each pair. */
  lemma CountsOfConcat(ref: Matrix, est: Matrix, ref2: Matrix, est2: Matrix, classes: nat)
    requires SameShape(ref, est, classes) && SameShape(ref2, est2, classes)
    ensures SameShape(ref + ref2, est + est2, classes)
    ensures IntermediateAtMeasures(ref + ref2, est + est2, classes)
         == AddCounts(IntermediateAtMeasures(ref, est, classes), IntermediateAtMeasures(ref2, est2, classes))
  {
    forall c, k | 0 <= c < classes
      ensures ColumnCount(ref + ref2, est + est2, c, k) == ColumnCount(ref, est, c, k) + ColumnCount(ref2, est2, c, k)
    {
      ColumnConcat(ref, est, ref2, est2, c, k);
    }
  }

  /** A row whose estimate is all zeros (a clip the system tagged with
      nothing) never adds to tp or fp: for each class it adds one to fn if
      the reference has the class and one to tn otherwise. */
  lemma ZeroEstimateRowAddsOnlyNegatives(ref: Matrix, est: Matrix, row: seq<int>, classes: nat)
    requires SameShape(ref, est, classes) && |row| == classes
    requires forall c :: 0 <= c < classes ==> row[c] == 0 || row[c] == 1
    ensures SameShape(ref + [row], est + [Zeros(classes)], classes)
    ensures var before := IntermediateAtMeasures(ref, est, classes);
      var after := IntermediateAtMeasures(ref + [row], est + [Zeros(classes)], classes);
      && after.tp == before.tp
      && after.fp == before.fp
      && (forall c :: 0 <= c < classes ==> after.fn[c] == before.fn[c] + row[c])
      && (forall c :: 0 <= c < classes ==> after.tn[c] == before.tn[c] + 1 - row[c])
  {
    CountsOfConcat(ref, est, [row], [Zeros(classes)], classes);
  }

  /** Symmetrically, a row whose reference is all zeros (a clip with no
      ground-truth tag) never adds to tp or fn. */
  lemma ZeroReferenceRowAddsOnlyFalsePositives(ref: Matrix, est: Matrix, row: seq<int>, classes: nat)
    requires SameShape(ref, est, classes) && |row| == classes
    requires forall c :: 0 <= c < classes ==> row[c] == 0 || row[c] == 1
    ensures SameShape(ref + [Zeros(classes)], est + [row], classes)
    ensures var before := IntermediateAtMeasures(ref, est, classes);
      var after := IntermediateAtMeasures(ref + [Zeros(classes)], est + [row], classes);
      && after.tp == before.tp
      && after.fn == before.fn
      && (forall c :: 0 <= c < classes ==> after.fp[c] == before.fp[c] + row[c])
      && (forall c :: 0 <= c < classes ==> after.tn[c] == before.tn[c] + 1 - row[c])
  {
    ZeroEstimateRowAddsOnlyNegatives(est, ref, row, classes);
    SwapExchangesFpFn(ref, est, classes);
    SwapExchangesFpFn(ref + [Zeros(classes)], est + [row], classes);
  }

  /** The single-class example: reference 1,0,1,1 against estimate 1,1,0,1
      gives tp = 2, fp = 1, fn = 1, tn = 0. */
  lemma SingleClassExample()
    ensures IntermediateAtMeasures([[1], [0], [1], [1]], [[1], [1], [0], [1]], 1)
         == Counts([2], [1], [1], [0])
  {
    var ref1: Matrix, est1: Matrix := [[1]], [[1]];
    var ref2: Matrix, est2: Matrix := ref1 + [[0]], est1 + [[1]];
    var ref3: Matrix, est3: Matrix := ref2 + [[1]], est2 + [[0]];
    var ref4: Matrix, est4: Matrix := ref3 + [[1]], est3 + [[1]];
    assert ref1[..0] == [] && est1[..0] == [];
    assert ref2[..1] == ref1 && est2[..1] == est1;
    assert ref3[..2] == ref2 && est3[..2] == est2;
    assert ref4[..3] == ref3 && est4[..3] == est3;
    assert ColumnCount(ref1, est1, 0, TruePositive) == 1;
    assert ColumnCount(ref2, est2, 0, TruePositive) == 1;
    assert ColumnCount(ref3, est3, 0, TruePositive) == 1;
    assert ColumnCount(ref4, est4, 0, TruePositive) == 2;
    assert ColumnCount(ref1, est1, 0, FalsePositive) == 0;
    assert ColumnCount(ref2, est2, 0, FalsePositive) == 1;
    assert ColumnCount(ref3, est3, 0, FalsePositive) == 1;
    assert ColumnCount(ref4, est4, 0, FalsePositive) == 1;
    assert ColumnCount(ref1, est1, 0, FalseNegative) == 0;
    assert ColumnCount(ref2, est2, 0, FalseNegative) == 0;
    assert ColumnCount(ref3, est3, 0, FalseNegative) == 1;
    assert ColumnCount(ref4, est4, 0, FalseNegative) == 1;
    assert ColumnCount(ref1, est1, 0, TrueNegative) == 0;
    assert ColumnCount(ref2, est2, 0, TrueNegative) == 0;
    assert ColumnCount(ref3, est3, 0, TrueNegative) == 0;
    assert ColumnCount(ref4, est4, 0, TrueNegative) == 0;
    assert ref4 == [[1], [0], [1], [1]] && est4 == [[1], [1], [0], [1]];
    var r := IntermediateAtMeasures(ref4, est4, 1);
    assert r.tp == [2] && r.fp == [1] && r.fn == [1] && r.tn == [0];
  }
}
