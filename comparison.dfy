/**
  `compare_methods_results`: the GA result against the traditional one,
  metric by metric, with the overlap of the two feature sets and a
  recommendation. A result dict is a record whose missing keys are None.
 */
module Comparison {
  import opened Wrappers
  import Frames

  /** The `feature_quality` dict of a result. */
  datatype Quality = Quality(
    redundancyRate: Option<real>,
    representationEntropy: Option<real>,
    featureDiversityScore: Option<real>)

  /** The keys of a selection result that the comparison reads. */
  datatype MethodResults = MethodResults(
    selectedFeatures: Option<seq<string>>,
    featureQuality: Option<Quality>,
    executionTime: Option<real>,
    numFeatures: Option<int>,
    featureReduction: Option<string>)

  /** `d.get(key, default)` */
  function GetOr<T>(o: Option<T>, default: T): (r: T)
    ensures o.Some? ==> r == o.value
    ensures o.None? ==> r == default
  {
    match o
    case Some(v) => v
    case None => default
  }

  /** What `_extract_comparison_metrics` reads from one result. */
  datatype Side = Side(redundancy: real, entropy: real, diversity: real, time: real, featureCount: int)

  datatype Improvements = Improvements(redundancy: real, entropy: real, diversity: real)

  datatype ExtractedMetrics = ExtractedMetrics(ga: Side, trad: Side, improvements: Improvements, timeRatio: real, featureCountRatio: real)

  function Max(a: real, b: real): real {
    if a >= b then a else b
  }

  /**
    One side: each value read from its key, with the defaults redundancy
    1.0, entropy 0.0, diversity 0.0, time 0 and count 0 for a missing key; a
    missing `feature_quality` dict counts as an empty one.
   */
  function SideOf(r: MethodResults): (s: Side)
    ensures r.featureQuality.None? ==> s.redundancy == 1.0 && s.entropy == 0.0 && s.diversity == 0.0
    ensures r.featureQuality.Some? ==>
      && s.redundancy == (if r.featureQuality.value.redundancyRate.Some? then r.featureQuality.value.redundancyRate.value else 1.0)
      && s.entropy == (if r.featureQuality.value.representationEntropy.Some? then r.featureQuality.value.representationEntropy.value else 0.0)
      && s.diversity == (if r.featureQuality.value.featureDiversityScore.Some? then r.featureQuality.value.featureDiversityScore.value else 0.0)
    ensures s.time == (if r.executionTime.Some? then r.executionTime.value else 0.0)
    ensures s.featureCount == (if r.numFeatures.Some? then r.numFeatures.value else 0)
  {
    var q := GetOr(r.featureQuality, Quality(None, None, None));
    Side(GetOr(q.redundancyRate, 1.0), GetOr(q.representationEntropy, 0.0), GetOr(q.featureDiversityScore, 0.0),
         GetOr(r.executionTime, 0.0), GetOr(r.numFeatures, 0))
  }

  /**
    `_extract_comparison_metrics`: an improvement is positive exactly when
    GA does better (lower redundancy, higher entropy and diversity); the
    time ratio divides by max(traditional time, 0.1) and the count ratio by
    max(traditional count, 1), so neither divides by zero.
   */
  function ExtractComparisonMetrics(ga: MethodResults, trad: MethodResults): (m: ExtractedMetrics)
    ensures m.ga == SideOf(ga) && m.trad == SideOf(trad)
    ensures m.improvements == Improvements(m.trad.redundancy - m.ga.redundancy, m.ga.entropy - m.trad.entropy,
                                           m.ga.diversity - m.trad.diversity)
    ensures m.improvements.redundancy > 0.0 <==> m.ga.redundancy < m.trad.redundancy
    ensures m.improvements.entropy > 0.0 <==> m.ga.entropy > m.trad.entropy
    ensures m.improvements.diversity > 0.0 <==> m.ga.diversity > m.trad.diversity
    ensures m.timeRatio * Max(m.trad.time, 0.1) == m.ga.time
    ensures m.timeRatio == 0.0 <==> m.ga.time == 0.0
    ensures m.featureCountRatio * (if m.trad.featureCount > 1 then m.trad.featureCount else 1) as real == m.ga.featureCount as real
  {
    var g := SideOf(ga);
    var t := SideOf(trad);
    var denominator := if t.featureCount > 1 then t.featureCount else 1;
    ExtractedMetrics(g, t,
            Improvements(t.redundancy - g.redundancy, g.entropy - t.entropy, g.diversity - t.diversity),
            g.time / Max(t.time, 0.1),
            g.featureCount as real / denominator as real)
  }

  // ------------------------------------------------------------ recommendation

  const ImprovementThreshold: real := 0.1

  /** One entry of `reason_parts`. */
  datatype Reason = BetterDiversity(diversity: real) | LowerRedundancy(redundancy: real) | HigherEntropy(entropy: real)

  /** The recommendation texts, with the numbers they quote. */
  datatype Recommendation =
    | GaSuperior(diversity: real, redundancy: real, entropy: real)
    | GaSlower(timeRatio: real)
    | TraditionalOnAllMetrics
    | GaOnScore(reasons: seq<Reason>, gaScore: real, tradScore: real)
    | TraditionalOnScore(tradScore: real, gaScore: real)
    | Unavailable

  datatype ComparisonError = ZeroDivisionError

  predicate GaBetterEverywhere(imp: Improvements) {
    imp.diversity > ImprovementThreshold && imp.redundancy > 0.0 && imp.entropy > 0.0
  }

  predicate TraditionalBetterEverywhere(imp: Improvements) {
    imp.diversity < -ImprovementThreshold && imp.redundancy < 0.0 && imp.entropy < 0.0
  }

  /** `abs(1 - feature_count_ratio) * 0.1`, subtracted from both scores. */
  function CountPenalty(m: ExtractedMetrics): (r: real)
    ensures r >= 0.0
    ensures r == 0.0 <==> m.featureCountRatio == 1.0
  {
    Frames.Abs(1.0 - m.featureCountRatio) * 0.1
  }

  /**
    `ga_score`: the weighted GA metrics, a bonus for speed and the count
    penalty. With the same metrics on both sides and equal times it is
    the Traditional score.
   */
  function GaScore(m: ExtractedMetrics): (r: real)
    requires m.timeRatio != 0.0
    ensures (m.ga.diversity == m.trad.diversity && m.ga.redundancy == m.trad.redundancy
             && m.ga.entropy == m.trad.entropy && m.timeRatio == 1.0) ==> r == TradScore(m)
    ensures m.timeRatio > 0.0 ==> r <= m.ga.diversity * 0.4 + (1.0 - m.ga.redundancy) * 0.3 + m.ga.entropy * 0.2 + 0.1 / m.timeRatio
  {
    m.ga.diversity * 0.4 + (1.0 - m.ga.redundancy) * 0.3 + m.ga.entropy * 0.2 + (1.0 / m.timeRatio) * 0.1 - CountPenalty(m)
  }

  /** `trad_score`: the weighted Traditional metrics, the fixed time term 0.1 and the count penalty. */
  function TradScore(m: ExtractedMetrics): (r: real)
    ensures r <= m.trad.diversity * 0.4 + (1.0 - m.trad.redundancy) * 0.3 + m.trad.entropy * 0.2 + 0.1
    ensures r == m.trad.diversity * 0.4 + (1.0 - m.trad.redundancy) * 0.3 + m.trad.entropy * 0.2 + 0.1
            <==> m.featureCountRatio == 1.0
  {
    m.trad.diversity * 0.4 + (1.0 - m.trad.redundancy) * 0.3 + m.trad.entropy * 0.2 + 1.0 * 0.1 - CountPenalty(m)
  }

  /** `reason_parts`: the metrics GA improves, in the order diversity, redundancy, entropy. */
  function Reasons(imp: Improvements): (r: seq<Reason>)
    ensures r == [] <==> imp.diversity <= 0.0 && imp.redundancy <= 0.0 && imp.entropy <= 0.0
  {
    (if imp.diversity > 0.0 then [BetterDiversity(imp.diversity)] else [])
    + (if imp.redundancy > 0.0 then [LowerRedundancy(imp.redundancy)] else [])
    + (if imp.entropy > 0.0 then [HigherEntropy(imp.entropy)] else [])
  }

  /**
    `_generate_recommendation_from_metrics`. Only the weighted branch
    divides by the time ratio, so only there a zero ratio raises.
   */
  function RecommendationFor(m: ExtractedMetrics): (r: Result<Recommendation, ComparisonError>)
    ensures r.Failure? <==> !GaBetterEverywhere(m.improvements) && !TraditionalBetterEverywhere(m.improvements) && m.timeRatio == 0.0
    ensures r.Success? ==> !r.value.Unavailable?
  {
    var imp := m.improvements;
    if GaBetterEverywhere(imp) then
      if m.timeRatio < 3.0 then Success(GaSuperior(imp.diversity, imp.redundancy, imp.entropy))
      else Success(GaSlower(m.timeRatio))
    else if TraditionalBetterEverywhere(imp) then Success(TraditionalOnAllMetrics)
    else if m.timeRatio == 0.0 then Failure(ZeroDivisionError)
    else
      var ga := GaScore(m);
      var trad := TradScore(m);
      if ga > trad then Success(GaOnScore(Reasons(imp), ga, trad))
      else Success(TraditionalOnScore(trad, ga))
  }

  /**
    Which text is chosen: "GA recommended - superior" needs diversity up by
    more than 0.1, the other two improvements positive and GA less than 3x
    slower; "Traditional ... across all metrics" the mirrored strict
    conditions; otherwise the weighted scores decide.
   */
  lemma RecommendationCases(m: ExtractedMetrics)
    requires m.timeRatio != 0.0
    ensures RecommendationFor(m).Success?
    ensures RecommendationFor(m).value.GaSuperior? <==> GaBetterEverywhere(m.improvements) && m.timeRatio < 3.0
    ensures RecommendationFor(m).value.GaSlower? <==> GaBetterEverywhere(m.improvements) && m.timeRatio >= 3.0
    ensures RecommendationFor(m).value.TraditionalOnAllMetrics? <==> TraditionalBetterEverywhere(m.improvements)
    ensures RecommendationFor(m).value.GaOnScore? <==>
      !GaBetterEverywhere(m.improvements) && !TraditionalBetterEverywhere(m.improvements) && GaScore(m) > TradScore(m)
  {
  }

  /**
    In the weighted branch the count penalty cancels: GA wins exactly when
    its weighted improvements, speed included, are positive, whatever the
    two feature counts are. Equal scores go to Traditional.
   */
  lemma ScoreGap(ga: MethodResults, trad: MethodResults)
    requires ExtractComparisonMetrics(ga, trad).timeRatio != 0.0
    ensures var m := ExtractComparisonMetrics(ga, trad);
      var imp := m.improvements;
      GaScore(m) - TradScore(m)
        == imp.diversity * 0.4 + imp.redundancy * 0.3 + imp.entropy * 0.2 + (1.0 / m.timeRatio - 1.0) * 0.1
  {
  }

  /** When GA improves no metric, the weighted branch picks it only for being faster. */
  lemma GaWinsOnScoreOnlyOnSpeed(ga: MethodResults, trad: MethodResults)
    requires var m := ExtractComparisonMetrics(ga, trad);
      RecommendationFor(m).Success? && RecommendationFor(m).value.GaOnScore? && RecommendationFor(m).value.reasons == []
    ensures 0.0 < ExtractComparisonMetrics(ga, trad).timeRatio < 1.0
  {
    var m := ExtractComparisonMetrics(ga, trad);
    ScoreGap(ga, trad);
    assert 1.0 / m.timeRatio > 1.0;
  }

  // ---------------------------------------------------------------- comparison

  datatype Winner = GA | Traditional | Unknown

  datatype MetricComparison = MetricComparison(ga: real, traditional: real, winner: Winner, improvement: real)

  datatype Comparison = Comparison(
    error: Option<string>,
    redundancyRate: MetricComparison,
    representationEntropy: MetricComparison,
    featureDiversityScore: MetricComparison,
    countGa: int,
    countTraditional: int,
    countDifference: int,
    reductionGa: string,
    reductionTraditional: string,
    executionTimeGa: real,
    executionTimeTraditional: real,
    timeRatio: real,
    featureAnalysis: FeatureAnalysis,
    recommendation: Recommendation)

  /** `"GA" if improvement > 0 else "Traditional"` */
  function WinnerOf(improvement: real): (w: Winner)
    ensures w == GA <==> improvement > 0.0
    ensures w != Unknown
  {
    if improvement > 0.0 then GA else Traditional
  }

  /** `set(result.get('selected_features', []))` */
  function FeatureSet(r: MethodResults): set<string> {
    set f | f in GetOr(r.selectedFeatures, [])
  }

  /** `len(A & B) / max(len(A | B), 1) * 100` */
  function OverlapPercentage(a: set<string>, b: set<string>): (r: real)
    ensures 0.0 <= r <= 100.0
    ensures a == b && a != {} ==> r == 100.0
    ensures a == {} && b == {} ==> r == 0.0
  {
    OverlapCounts(a, b);
    var denominator := if |a + b| > 1 then |a + b| else 1;
    Share(|a * b|, denominator);
    (|a * b| as real / denominator as real) * 100.0
  }

  lemma OverlapCounts(a: set<string>, b: set<string>)
    ensures |a * b| <= |a + b|
    ensures a == b ==> |a * b| == |a + b| == |a|
  {
    assert a + b == (a * b) + (a + b - a * b);
  }

  /** `c / d` of counts with c at most d lies in [0, 1], and is 1 when they are equal. */
  lemma Share(c: nat, d: nat)
    requires 1 <= d && c <= d
    ensures 0.0 <= c as real / d as real <= 1.0
    ensures c == d ==> c as real / d as real == 1.0
  {
    var q := c as real / d as real;
    assert q * d as real == c as real;
  }

  /** The 'feature_analysis' part of a comparison. */
  datatype FeatureAnalysis = FeatureAnalysis(
    commonFeatures: set<string>,
    uniqueToGa: set<string>,
    uniqueToTraditional: set<string>,
    overlapPercentage: real)

  /**
    `common_features`, `unique_to_ga` and `unique_to_traditional` split the
    union of the two selections: they are pairwise disjoint, the common and
    GA-only features make up the GA selection, and the common and
    traditional-only ones the traditional selection.
   */
  function AnalyseFeatures(a: set<string>, b: set<string>): (f: FeatureAnalysis)
    ensures f.commonFeatures !! f.uniqueToGa && f.commonFeatures !! f.uniqueToTraditional && f.uniqueToGa !! f.uniqueToTraditional
    ensures f.commonFeatures + f.uniqueToGa == a && f.commonFeatures + f.uniqueToTraditional == b
    ensures f.commonFeatures + f.uniqueToGa + f.uniqueToTraditional == a + b
    ensures f.overlapPercentage == OverlapPercentage(a, b)
  {
    FeatureAnalysis(a * b, a - b, b - a, OverlapPercentage(a, b))
  }

  /** `_create_error_comparison(error_msg)` */
  function ErrorComparison(message: string): (c: Comparison)
    ensures c.error == Some("Comparison failed: " + message)
    ensures c.redundancyRate.winner == Unknown && c.representationEntropy.winner == Unknown && c.featureDiversityScore.winner == Unknown
  {
    Comparison(
      Some("Comparison failed: " + message),
      MetricComparison(1.0, 1.0, Unknown, 0.0),
      MetricComparison(0.0, 0.0, Unknown, 0.0),
      MetricComparison(0.0, 0.0, Unknown, 0.0),
      0, 0, 0, "0%", "0%",
      0.0, 0.0, 0.0,
      FeatureAnalysis({}, {}, {}, 0.0),
      Unavailable)
  }

  /** What `str(e)` reads for the one exception the comparison raises here. */
  const DivisionByZeroMessage: string := "float division by zero"

  /**
    `compare_methods_results`. The dict literal computes `1 / time_ratio`
    for 'performance_comparison' before the recommendation, so a GA
    execution time of 0 (a missing key included) yields the error comparison.
   */
  function CompareMethodsResults(ga: MethodResults, trad: MethodResults): (c: Comparison)
    ensures var m := ExtractComparisonMetrics(ga, trad);
      && (m.ga.time == 0.0 <==> c == ErrorComparison(DivisionByZeroMessage))
      && (m.ga.time != 0.0 ==>
            && c.error.None?
            && c.redundancyRate == MetricComparison(m.ga.redundancy, m.trad.redundancy, WinnerOf(m.improvements.redundancy), m.improvements.redundancy)
            && c.representationEntropy == MetricComparison(m.ga.entropy, m.trad.entropy, WinnerOf(m.improvements.entropy), m.improvements.entropy)
            && c.featureDiversityScore == MetricComparison(m.ga.diversity, m.trad.diversity, WinnerOf(m.improvements.diversity), m.improvements.diversity)
            && c.timeRatio == 1.0 / m.timeRatio
            && c.countDifference == m.ga.featureCount - m.trad.featureCount
            && c.featureAnalysis == AnalyseFeatures(FeatureSet(ga), FeatureSet(trad))
            && RecommendationFor(m) == Success(c.recommendation))
  {
    var a := FeatureSet(ga);
    var b := FeatureSet(trad);
    var m := ExtractComparisonMetrics(ga, trad);
    if m.timeRatio == 0.0 then ErrorComparison(DivisionByZeroMessage)
    else
      var imp := m.improvements;
      Comparison(
        None,
        MetricComparison(m.ga.redundancy, m.trad.redundancy, WinnerOf(imp.redundancy), imp.redundancy),
        MetricComparison(m.ga.entropy, m.trad.entropy, WinnerOf(imp.entropy), imp.entropy),
        MetricComparison(m.ga.diversity, m.trad.diversity, WinnerOf(imp.diversity), imp.diversity),
        m.ga.featureCount, m.trad.featureCount, m.ga.featureCount - m.trad.featureCount,
        GetOr(ga.featureReduction, "0.0%"), GetOr(trad.featureReduction, "0.0%"),
        m.ga.time, m.trad.time, 1.0 / m.timeRatio,
        AnalyseFeatures(a, b),
        RecommendationFor(m).value)
  }
}
