/** The counting loop of `get_f_measure_by_class`: per-batch confusion
    counts are added into running tp/fp/fn/tn arrays, and the masked
    F-measure of the totals is returned. Batches arrive already binarised
    (the model's forward pass and the thresholding are not part of this
    model). */
module Accumulation {
  import opened Confusion
  import opened Scores

  /** One batch of clips: the ground-truth labels and the binarised
      predictions, both rows x classes. */
  datatype Batch = Batch(labels: Matrix, predictions: Matrix)

  /** Every batch has labels and predictions of shape rows x `nbTags`. */
  predicate WellShaped(batches: seq<Batch>, nbTags: nat)
  {
    forall b :: b in batches ==> SameShape(b.labels, b.predictions, nbTags)
  }

  /** Every batch holds only 0/1 entries. */
  predicate AllBinary(batches: seq<Batch>)
  {
    forall b :: b in batches ==> Binary(b.labels) && Binary(b.predictions)
  }

  /** All the batches' rows stacked into one batch, in order. */
  function Stack(batches: seq<Batch>, nbTags: nat): (s: Batch)
    requires WellShaped(batches, nbTags)
    ensures SameShape(s.labels, s.predictions, nbTags)
    ensures AllBinary(batches) ==> Binary(s.labels) && Binary(s.predictions)
  {
    if batches == [] then Batch([], [])
    else
      var init := batches[..|batches| - 1];
      var last := batches[|batches| - 1];
      assert forall b :: b in init ==> b in batches;
      var s := Stack(init, nbTags);
      StackBinary(s.labels, last.labels);
      StackBinary(s.predictions, last.predictions);
      Batch(s.labels + last.labels, s.predictions + last.predictions)
  }

  lemma StackBinary(m: Matrix, m2: Matrix)
    ensures Binary(m) && Binary(m2) ==> Binary(m + m2)
  {
    if Binary(m) && Binary(m2) {
      forall i, j | 0 <= i < |m + m2| && 0 <= j < |(m + m2)[i]|
        ensures (m + m2)[i][j] == 0 || (m + m2)[i][j] == 1
      {
        if i >= |m| {
          assert (m + m2)[i] == m2[i - |m|];
        }
      }
    }
  }

  /** The counts of the rows of the first `k` batches. */
  function CountsSoFar(batches: seq<Batch>, k: nat, nbTags: nat): (sofar: Counts)
    requires WellShaped(batches, nbTags) && k <= |batches|
    ensures |sofar.tp| == |sofar.fp| == |sofar.fn| == |sofar.tn| == nbTags
  {
    assert forall x :: x in batches[..k] ==> x in batches;
    var seen := Stack(batches[..k], nbTags);
    IntermediateAtMeasures(seen.labels, seen.predictions, nbTags)
  }

  /** The counts of the first k + 1 batches are those of the first k plus
      those of batch k. */
  lemma CountsStep(batches: seq<Batch>, k: nat, nbTags: nat)
    requires WellShaped(batches, nbTags) && k < |batches|
    ensures SameShape(batches[k].labels, batches[k].predictions, nbTags)
    ensures CountsSoFar(batches, k + 1, nbTags)
         == AddCounts(CountsSoFar(batches, k, nbTags),
                      IntermediateAtMeasures(batches[k].labels, batches[k].predictions, nbTags))
  {
    assert forall x :: x in batches[..k + 1] ==> x in batches;
    assert forall x :: x in batches[..k] ==> x in batches;
    assert batches[..k + 1][..k] == batches[..k];
    var seen := Stack(batches[..k], nbTags);
    var b := batches[k];
    assert b in batches;
    CountsOfConcat(seen.labels, seen.predictions, b.labels, b.predictions, nbTags);
  }

  /** No batch seen yet: all counts are zero; all seen: the counts of the
      whole stack. */
  lemma CountsSoFarEnds(batches: seq<Batch>, nbTags: nat)
    requires WellShaped(batches, nbTags)
    ensures var none := CountsSoFar(batches, 0, nbTags);
      none.tp == Zeros(nbTags) && none.fp == Zeros(nbTags) && none.fn == Zeros(nbTags) && none.tn == Zeros(nbTags)
    ensures var all := Stack(batches, nbTags);
      CountsSoFar(batches, |batches|, nbTags) == IntermediateAtMeasures(all.labels, all.predictions, nbTags)
  {
    assert batches[..0] == [];
    assert batches[..|batches|] == batches;
  }

  /** `acc += delta` on a NumPy vector, in place. */
  method AddInto(acc: array<int>, delta: seq<int>)
    requires acc.Length == |delta|
    modifies acc
    ensures acc[..] == VecAdd(old(acc[..]), delta)
  {
    forall i | 0 <= i < acc.Length {
      acc[i] := acc[i] + delta[i];
    }
  }

  /** The four `+=` lines of one loop iteration. */
  method AddCountsInto(tp: array<int>, fp: array<int>, fn: array<int>, tn: array<int>, delta: Counts)
    requires tp.Length == |delta.tp| && fp.Length == |delta.fp| && fn.Length == |delta.fn| && tn.Length == |delta.tn|
    requires tp != fp && tp != fn && tp != tn && fp != fn && fp != tn && fn != tn
    modifies tp, fp, fn, tn
    ensures Counts(tp[..], fp[..], fn[..], tn[..])
         == AddCounts(Counts(old(tp[..]), old(fp[..]), old(fn[..]), old(tn[..])), delta)
  {
    AddInto(tp, delta.tp);
    AddInto(fp, delta.fp);
    AddInto(fn, delta.fn);
    AddInto(tn, delta.tn);
  }

  /** The loop over the batches: four zero-initialised arrays, each batch's
      counts added in. The totals are the counts of all the batches' rows
      taken together. */
  method AccumulateCounts(nbTags: nat, batches: seq<Batch>) returns (total: Counts)
    requires WellShaped(batches, nbTags)
    ensures var all := Stack(batches, nbTags);
      total == IntermediateAtMeasures(all.labels, all.predictions, nbTags)
  {
    var tp := new int[nbTags](_ => 0);
    var tn := new int[nbTags](_ => 0);
    var fp := new int[nbTags](_ => 0);
    var fn := new int[nbTags](_ => 0);
    CountsSoFarEnds(batches, nbTags);
    assert Counts(tp[..], fp[..], fn[..], tn[..]) == CountsSoFar(batches, 0, nbTags);
    for k := 0 to |batches|
      invariant Counts(tp[..], fp[..], fn[..], tn[..]) == CountsSoFar(batches, k, nbTags)
    {
      CountsStep(batches, k, nbTags);
      AddCountsInto(tp, fp, fn, tn, IntermediateAtMeasures(batches[k].labels, batches[k].predictions, nbTags));
    }
    total := Counts(tp[..], fp[..], fn[..], tn[..]);
  }

  /** For 0/1 batches every class's four accumulated totals add up to the
      number of clips seen. */
  lemma AccumulatedPartition(nbTags: nat, batches: seq<Batch>)
    requires WellShaped(batches, nbTags) && AllBinary(batches)
    ensures var all := Stack(batches, nbTags);
      var total := IntermediateAtMeasures(all.labels, all.predictions, nbTags);
      forall c :: 0 <= c < nbTags ==> total.tp[c] + total.fp[c] + total.fn[c] + total.tn[c] == |all.labels|
  {
    var all := Stack(batches, nbTags);
    CountsPartitionRows(all.labels, all.predictions, nbTags);
  }

  /** `get_f_measure_by_class` from the binarised batches on: the masked
      F-measure of the accumulated counts, one value in [0, 1] per class. */
  method GetFMeasureByClass(nbTags: nat, batches: seq<Batch>) returns (f: array<real>)
    requires WellShaped(batches, nbTags)
    ensures fresh(f)
    ensures var all := Stack(batches, nbTags);
      var t := IntermediateAtMeasures(all.labels, all.predictions, nbTags);
      f[..] == MacroFMeasure(t.tp, t.fp, t.fn)
    ensures forall c :: 0 <= c < f.Length ==> 0.0 <= f[c] <= 1.0
  {
    var t := AccumulateCounts(nbTags, batches);
    f := new real[nbTags](_ => 0.0);
    forall c | 0 <= c < nbTags && 2 * t.tp[c] + t.fp[c] + t.fn[c] != 0 {
      f[c] := (2 * t.tp[c]) as real / (2 * t.tp[c] + t.fp[c] + t.fn[c]) as real;
    }
    assert f[..] == MacroFMeasure(t.tp, t.fp, t.fn);
  }
}
