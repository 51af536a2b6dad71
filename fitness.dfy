/**
  The relevance - redundancy - size-penalty fitness of a feature subset,
  floored at zero (`calculate_fitness`).
 */
module Fitness {
  import opened Frames

  /** |corr(f, y)| for each selected feature, in selection order. */
  function Relevances(ds: Dataset, sel: seq<string>): (r: seq<Float>)
    ensures |r| == |sel|
    ensures forall i :: 0 <= i < |sel| ==> r[i] == AbsF(ds.targetCorr(sel[i]))
  {
    seq(|sel|, i requires 0 <= i < |sel| => AbsF(ds.targetCorr(sel[i])))
  }

  /** np.mean of the target correlations: one NaN makes it NaN. */
  function Relevance(ds: Dataset, sel: seq<string>): (r: Float)
    requires |sel| > 0
    ensures r.Num? <==> forall i :: 0 <= i < |sel| ==> ds.targetCorr(sel[i]).Num?
  {
    MeanF(Relevances(ds, sel))
  }

  /**
    Sum of the off-diagonal |corr| entries divided by k*(k-1): the mean over
    ordered pairs of distinct positions; 0 for a single feature; NaN as soon
    as one pair's correlation is NaN.
   */
  function Redundancy(ds: Dataset, sel: seq<string>): (r: Float)
    requires |sel| > 0
    ensures |sel| == 1 ==> r == Num(0.0)
    ensures |sel| > 1 ==> (r.Num? <==> AllNum(OffDiagonal(ds, sel, |sel|)))
    ensures |sel| > 1 && r.Num? ==> r.value == Mean(Values(OffDiagonal(ds, sel, |sel|)))
    ensures r.Num? ==> r.value >= 0.0
  {
    var k := |sel|;
    if k == 1 then Num(0.0)
    else
      var entries := OffDiagonal(ds, sel, k);
      match SumF(entries)
      case NaN => NaN
      case Num(s) =>
        NonNegativeSum(entries);
        Num(s / (k * (k - 1)) as real)
  }

  /** (k / total) * 0.1 */
  function SizePenalty(k: nat, total: nat): (r: real)
    requires total > 0
    ensures r >= 0.0
    ensures k <= total ==> r <= 0.1
  {
    (k as real / total as real) * 0.1
  }

  /** `calculate_fitness(selected_features, X, y)`. */
  function CalculateFitness(ds: Dataset, sel: seq<string>): (r: real)
    requires ds.Covers(sel)
    ensures r >= 0.0
    ensures sel == [] ==> r == 0.0
  {
    if sel == [] then 0.0
    else
      assert sel[0] in ds.columns;
      var score := Minus(Minus(Relevance(ds, sel), Redundancy(ds, sel)), Num(SizePenalty(|sel|, |ds.columns|)));
      MaxZero(score)
  }

  /** A NaN correlation with the target makes the mean NaN, and max(0.0, NaN) is 0.0. */
  lemma UndefinedRelevanceScoresZero(ds: Dataset, sel: seq<string>, i: nat)
    requires ds.Covers(sel) && i < |sel| && ds.targetCorr(sel[i]).NaN?
    ensures CalculateFitness(ds, sel) == 0.0
  {
  }

  /** A NaN correlation between two distinct selected positions also gives 0.0. */
  lemma UndefinedPairScoresZero(ds: Dataset, sel: seq<string>, i: nat, j: nat)
    requires ds.Covers(sel) && i < |sel| && j < |sel| && i != j
    requires ds.featureCorr(sel[i], sel[j]).NaN?
    ensures CalculateFitness(ds, sel) == 0.0
  {
    UndefinedPairRedundancy(ds, sel, i, j);
  }

  /** One NaN pair correlation makes the whole redundancy NaN. */
  lemma UndefinedPairRedundancy(ds: Dataset, sel: seq<string>, i: nat, j: nat)
    requires i < |sel| && j < |sel| && i != j
    requires ds.featureCorr(sel[i], sel[j]).NaN?
    ensures Redundancy(ds, sel).NaN?
  {
    OffDiagonalEntries(ds, sel, |sel|);
    var entries := OffDiagonal(ds, sel, |sel|);
    assert AbsCorrAt(ds, sel, i, j) in entries;
    assert !AllNum(entries);
  }

  /** One feature: no redundancy, so the score is |corr| minus the penalty 0.1 / total. */
  lemma SingleFeatureFitness(ds: Dataset, f: string)
    requires f in ds.columns && ds.targetCorr(f).Num?
    ensures CalculateFitness(ds, [f]) == MaxZero(Num(Abs(ds.targetCorr(f).value) - 0.1 / |ds.columns| as real))
  {
    var sel := [f];
    var a := Abs(ds.targetCorr(f).value);
    assert ds.Covers(sel);
    assert Values(Relevances(ds, sel)) == [a];
    assert [a][..0] == [];
    assert Sum([a]) == a;
    assert Relevance(ds, sel) == Num(a);
    assert Redundancy(ds, sel) == Num(0.0);
    assert SizePenalty(1, |ds.columns|) == 0.1 / |ds.columns| as real;
  }

  /** When every selected |corr(f, y)| is at most 1, the fitness is at most 1. */
  lemma FitnessAtMostOne(ds: Dataset, sel: seq<string>)
    requires ds.Covers(sel)
    requires forall i :: 0 <= i < |sel| ==> ds.targetCorr(sel[i]).Num? && Abs(ds.targetCorr(sel[i]).value) <= 1.0
    ensures CalculateFitness(ds, sel) <= 1.0
  {
    if sel != [] {
      var rel := Relevances(ds, sel);
      assert AllNum(rel);
      MeanBounds(Values(rel), 0.0, 1.0);
    }
  }
}
