/**
  Quality metrics of any feature subset: redundancy rate, representation
  entropy and the diversity score built from them.
 */
module Metrics {
  import opened Wrappers
  import opened Frames
  import Fitness

  /** `X[selected]` raised KeyError: some selected name is not a column. */
  datatype MetricError = KeyError

  /** 1e-8, added inside the logarithm to keep log(0) away. */
  const Eps: real := 0.00000001

  /** What the model relies on about np.log. */
  ghost predicate LogLaws(ln: real -> real) {
    ln(1.0) == 0.0 && forall x :: x > 1.0 ==> ln(x) > 0.0
  }

  /**
    `calculate_redundancy_rate`: 0.0 for at most one feature; otherwise the
    mean of the strictly upper-triangular |corr| entries that are not NaN
    (stack() drops NaN), and 0.0 when every one of them is NaN.
   */
  function RedundancyRate(ds: Dataset, sel: seq<string>): (r: Result<real, MetricError>)
    ensures |sel| <= 1 ==> r == Success(0.0)
    ensures |sel| > 1 ==> (r.Failure? <==> !ds.Covers(sel))
    ensures r.Success? ==> r.value >= 0.0
    ensures r.Success? && ds.CorrelationsInRange() ==> r.value <= 1.0
  {
    if |sel| <= 1 then Success(0.0)
    else if !ds.Covers(sel) then Failure(KeyError)
    else
      var defined := DropNaN(UpperTriangle(ds, sel, |sel|));
      UpperTriangleAtMostOne(ds, sel, |sel|);
      DropNaNKeeps(UpperTriangle(ds, sel, |sel|));
      if defined == [] then Success(0.0)
      else
        MeanOfFractions(defined);
        Success(Mean(defined))
  }

  /**
    The rate is the mean of the defined pairwise |corr| values: the numbers
    kept are exactly the defined entries (i, j), i < j, of the selection,
    each pair once (Frames.UpperTriangleLayout); when some pair is defined
    the rate is their mean, and when none is the rate is 0.0.
   */
  lemma RedundancyRateIsMeanOfDefinedPairs(ds: Dataset, sel: seq<string>)
    requires |sel| > 1 && ds.Covers(sel)
    ensures var defined := DropNaN(UpperTriangle(ds, sel, |sel|));
      && (forall v :: v in defined <==> exists i, j :: 0 <= i < j < |sel| && AbsCorrAt(ds, sel, i, j) == Num(v))
      && (defined == [] <==> forall i, j :: 0 <= i < j < |sel| ==> AbsCorrAt(ds, sel, i, j).NaN?)
      && (defined != [] ==> RedundancyRate(ds, sel) == Success(Sum(defined) / |defined| as real))
      && (defined == [] ==> RedundancyRate(ds, sel) == Success(0.0))
  {
    var k := |sel|;
    var up := UpperTriangle(ds, sel, k);
    var defined := DropNaN(up);
    DropNaNContent(up);
    UpperTriangleEntries(ds, sel, k);
    UpperTriangleOnlyEntries(ds, sel, k);
    forall v ensures v in defined <==> exists i, j :: 0 <= i < j < k && AbsCorrAt(ds, sel, i, j) == Num(v) {
      if v in defined {
        var i, j :| 0 <= i < j < k && Num(v) == AbsCorrAt(ds, sel, i, j);
      }
    }
    if defined == [] {
      forall i, j | 0 <= i < j < k ensures AbsCorrAt(ds, sel, i, j).NaN? {
        assert AbsCorrAt(ds, sel, i, j) in up;
      }
    } else {
      var n :| 0 <= n < |up| && up[n].Num?;
      var i, j :| 0 <= i < j < k && up[n] == AbsCorrAt(ds, sel, i, j);
    }
  }

  /** When every pair's correlation is NaN, stack() keeps nothing and the rate is 0.0. */
  lemma UndefinedPairsRateZero(ds: Dataset, sel: seq<string>)
    requires |sel| > 1 && ds.Covers(sel)
    requires forall i, j :: 0 <= i < j < |sel| ==> ds.featureCorr(sel[i], sel[j]).NaN?
    ensures RedundancyRate(ds, sel) == Success(0.0)
  {
    RedundancyRateIsMeanOfDefinedPairs(ds, sel);
    forall i, j | 0 <= i < j < |sel| ensures AbsCorrAt(ds, sel, i, j).NaN? {
      assert ds.featureCorr(sel[i], sel[j]).NaN?;
    }
  }

  /** `X[selected].var()`, in selection order. */
  function Variances(ds: Dataset, sel: seq<string>): (r: seq<real>)
    ensures |r| == |sel| && forall i :: 0 <= i < |sel| ==> r[i] == ds.variance(sel[i])
  {
    seq(|sel|, i requires 0 <= i < |sel| => ds.variance(sel[i]))
  }

  /** The terms p_i * log(p_i + 1e-8) of the Shannon sum, p_i = v_i / total. */
  function EntropyTerms(vars: seq<real>, total: real, ln: real -> real): (r: seq<real>)
    requires total != 0.0
    ensures |r| == |vars|
    ensures forall i :: 0 <= i < |vars| ==> r[i] == (vars[i] / total) * ln(vars[i] / total + Eps)
  {
    seq(|vars|, i requires 0 <= i < |vars| => (vars[i] / total) * ln(vars[i] / total + Eps))
  }

  /**
    `calculate_representation_entropy`: the Shannon entropy of the variance
    shares, divided by log(k) when that is positive and 0 otherwise.
   */
  function RepresentationEntropy(ds: Dataset, sel: seq<string>, ln: real -> real): (r: Result<real, MetricError>)
    ensures sel == [] ==> r == Success(0.0)
    ensures sel != [] ==> (r.Failure? <==> !ds.Covers(sel))
    ensures r.Success? && Sum(Variances(ds, sel)) == 0.0 ==> r.value == 0.0
    ensures r.Success? && ln(|sel| as real) <= 0.0 ==> r.value == 0.0
  {
    if |sel| == 0 then Success(0.0)
    else if !ds.Covers(sel) then Failure(KeyError)
    else
      var vars := Variances(ds, sel);
      var total := Sum(vars);
      if total == 0.0 then Success(0.0)
      else
        var entropy := -Sum(EntropyTerms(vars, total, ln));
        var maxEntropy := ln(|sel| as real);
        Success(if maxEntropy > 0.0 then entropy / maxEntropy else 0.0)
  }

  /** `_safe_calculate_metrics`: a failing metric is replaced by its default. */
  function SafeCalculateMetrics(metric: (Dataset, seq<string>) -> Result<real, MetricError>,
                                ds: Dataset, sel: seq<string>, default: real): (r: real)
    ensures metric(ds, sel).Success? ==> r == metric(ds, sel).value
    ensures metric(ds, sel).Failure? ==> r == default
  {
    match metric(ds, sel)
    case Success(v) => v
    case Failure(_) => default
  }

  datatype QualityMetrics = QualityMetrics(redundancyRate: real, representationEntropy: real, diversityScore: real)

  /** The metrics reported for an empty subset and for a failed computation. */
  const DefaultQuality := QualityMetrics(1.0, 0.0, 0.0)

  /** `calculate_feature_quality_metrics`. */
  function FeatureQualityMetrics(ds: Dataset, sel: seq<string>, ln: real -> real): (r: QualityMetrics)
    ensures sel == [] ==> r == DefaultQuality
    ensures r.diversityScore == (1.0 - r.redundancyRate) * r.representationEntropy
    ensures sel != [] && ds.Covers(sel) ==>
      r.redundancyRate == RedundancyRate(ds, sel).value && r.representationEntropy == RepresentationEntropy(ds, sel, ln).value
    ensures !ds.Covers(sel) && |sel| > 1 ==> r == DefaultQuality
  {
    if |sel| == 0 then DefaultQuality
    else
      var redundancy := SafeCalculateMetrics(RedundancyRate, ds, sel, 1.0);
      var entropy := SafeCalculateMetrics((d, s) => RepresentationEntropy(d, s, ln), ds, sel, 0.0);
      QualityMetrics(redundancy, entropy, (1.0 - redundancy) * entropy)
  }

  /** A single feature: log(1) = 0 is not positive, so the entropy is 0. */
  lemma SingleFeatureEntropyIsZero(ds: Dataset, f: string, ln: real -> real)
    requires LogLaws(ln) && f in ds.columns
    ensures RepresentationEntropy(ds, [f], ln) == Success(0.0)
  {
  }

  lemma LogAboveOne(ln: real -> real, x: real)
    requires LogLaws(ln) && x > 1.0
    ensures ln(x) > 0.0
  {
  }

  lemma NegativeOverPositive(a: real, b: real)
    requires a < 0.0 && b > 0.0
    ensures a / b < 0.0
  {
  }

  /** The shares of two features whose variances are v > 0 and 0: the terms are log(1 + 1e-8) and 0. */
  lemma TermsOfOneSidedPair(v: real, ln: real -> real)
    requires v > 0.0
    ensures Sum([v, 0.0]) == v
    ensures Sum(EntropyTerms([v, 0.0], v, ln)) == ln(1.0 + Eps)
  {
    SumOfTwo(v, 0.0);
    var terms := EntropyTerms([v, 0.0], v, ln);
    assert terms[0] == (v / v) * ln(v / v + Eps);
    assert v / v == 1.0;
    assert terms == [ln(1.0 + Eps), 0.0];
    SumOfTwo(ln(1.0 + Eps), 0.0);
  }

  /**
    The 1e-8 inside the logarithm makes the entropy negative when one of two
    features carries all the variance: -(1 * log(1 + 1e-8)) / log(2) < 0.
   */
  lemma EntropyCanBeNegative(ds: Dataset, f: string, g: string, ln: real -> real)
    requires LogLaws(ln) && f in ds.columns && g in ds.columns
    requires ds.variance(f) > 0.0 && ds.variance(g) == 0.0
    ensures RepresentationEntropy(ds, [f, g], ln).Success?
    ensures RepresentationEntropy(ds, [f, g], ln).value < 0.0
  {
    var v := ds.variance(f);
    assert Variances(ds, [f, g]) == [v, 0.0];
    TermsOfOneSidedPair(v, ln);
    LogAboveOne(ln, 1.0 + Eps);
    LogAboveOne(ln, 2.0);
    NegativeOverPositive(-ln(1.0 + Eps), ln(2.0));
    assert RepresentationEntropy(ds, [f, g], ln) == Success(-ln(1.0 + Eps) / ln(2.0));
  }

  /**
    The entropy depends only on the variance shares: multiplying every
    selected column's variance by the same c > 0 (a change of unit) leaves
    it unchanged.
   */
  lemma {:induction false} EntropyIgnoresScale(ds: Dataset, scaled: Dataset, sel: seq<string>, c: real, ln: real -> real)
    requires c > 0.0 && scaled.columns == ds.columns
    requires forall f :: f in sel ==> scaled.variance(f) == c * ds.variance(f)
    ensures RepresentationEntropy(scaled, sel, ln) == RepresentationEntropy(ds, sel, ln)
  {
    if sel != [] && ds.Covers(sel) {
      var vars := Variances(ds, sel);
      var vars2 := Variances(scaled, sel);
      forall i | 0 <= i < |vars| ensures vars2[i] == c * vars[i] {
        assert sel[i] in sel;
      }
      SumScaled(vars, vars2, c);
      var total := Sum(vars);
      assert Sum(vars2) == c * total;
      if total != 0.0 {
        assert Sum(vars2) != 0.0;
        TermsIgnoreScale(vars, vars2, total, c, ln);
      }
    }
  }

  lemma TermsIgnoreScale(vars: seq<real>, vars2: seq<real>, total: real, c: real, ln: real -> real)
    requires c > 0.0 && total != 0.0
    requires |vars2| == |vars| && forall i :: 0 <= i < |vars| ==> vars2[i] == c * vars[i]
    ensures EntropyTerms(vars2, c * total, ln) == EntropyTerms(vars, total, ln)
  {
    var a := EntropyTerms(vars2, c * total, ln);
    var b := EntropyTerms(vars, total, ln);
    forall i | 0 <= i < |vars| ensures a[i] == b[i] {
      var share := vars[i] / total;
      SharesCancel(vars[i], total, c);
      assert vars2[i] / (c * total) == share;
      assert a[i] == share * ln(share + Eps);
    }
  }

  lemma SharesCancel(v: real, total: real, c: real)
    requires c > 0.0 && total != 0.0
    ensures (c * v) / (c * total) == v / total
  {
  }

  /** Every selected name missing from the frame: both metrics fall back to their defaults. */
  lemma MissingColumnGivesDefaults(ds: Dataset, sel: seq<string>, ln: real -> real)
    requires |sel| > 1 && !ds.Covers(sel)
    ensures FeatureQualityMetrics(ds, sel, ln) == QualityMetrics(1.0, 0.0, 0.0)
  {
  }

  /**
    The fitness' redundancy (mean over ordered pairs, off-diagonal sum over
    k*(k-1)) equals the redundancy rate (mean over the upper triangle) when
    the correlation is symmetric and never NaN.
   */
  lemma FitnessRedundancyIsRedundancyRate(ds: Dataset, sel: seq<string>)
    requires ds.Covers(sel) && |sel| > 1 && ds.SymmetricCorr()
    requires AllNum(OffDiagonal(ds, sel, |sel|))
    ensures RedundancyRate(ds, sel).Success?
    ensures Fitness.Redundancy(ds, sel) == Num(RedundancyRate(ds, sel).value)
  {
    var k := |sel|;
    var up := UpperTriangle(ds, sel, k);
    OffDiagonalIsTwiceUpper(ds, sel, k);
    var n := |up|;
    assert 2 * n == k * (k - 1);
    PairCountPositive(k, n);
    var s := Sum(Values(up));
    assert RedundancyRate(ds, sel) == Success(s / n as real) by {
      DropNaNKeeps(up);
    }
    var m := k * (k - 1);
    var t := Sum(Values(OffDiagonal(ds, sel, k)));
    assert Fitness.Redundancy(ds, sel) == Num(t / m as real);
    HalveBoth(t, s, n, m);
  }

  lemma PairCountPositive(k: nat, n: nat)
    requires k > 1 && 2 * n == k * (k - 1)
    ensures n > 0
  {
    assert k * (k - 1) >= 2 * 1;
  }

  lemma HalveBoth(t: real, s: real, n: nat, m: nat)
    requires n > 0 && m == 2 * n && t == 2.0 * s
    ensures t / m as real == s / n as real
  {
  }
}
