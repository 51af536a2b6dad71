/**
  `format_selection_results`: the result dict a selector returns, with the
  feature counts, the reduction percentage, the quality metrics and the
  parameters used.
 */
module Formatter {
  import opened Wrappers
  import opened Frames
  import Metrics
  import Serialization

  /**
    The `X` handed in: a DataFrame, an array-like with a `shape`, an object
    with only `columns`, or neither.
   */
  datatype Table = DataFrame(ds: Dataset) | Shaped(dims: seq<nat>) | ColumnsOnly(columns: seq<string>) | Bare

  /** A percentage, printed with one decimal and a "%" sign. */
  datatype Reduction = Percent(value: real)

  datatype CountInfo = CountInfo(total: nat, selected: nat, reduction: Reduction)

  /** The text of the IndexError raised by `shape[1]` on a shape of one axis. */
  const ShapeIndexMessage: string := "tuple index out of range"

  /** `X.shape[1]`, else `len(X.columns)`, else 0. */
  function FeatureTotal(x: Table): (r: Result<nat, string>)
    ensures r.Failure? <==> x.Shaped? && |x.dims| < 2
    ensures x.DataFrame? ==> r == Success(|x.ds.columns|)
    ensures x.ColumnsOnly? ==> r == Success(|x.columns|)
    ensures x.Bare? ==> r == Success(0)
  {
    match x
    case DataFrame(ds) => Success(|ds.columns|)
    case Shaped(dims) => if |dims| < 2 then Failure(ShapeIndexMessage) else Success(dims[1])
    case ColumnsOnly(columns) => Success(|columns|)
    case Bare => Success(0)
  }

  /** `_get_feature_count_info`. */
  function FeatureCountInfo(x: Table, sel: seq<string>): (r: Result<CountInfo, string>)
    ensures r.Failure? <==> FeatureTotal(x).Failure?
    ensures r.Success? ==> r.value.total == FeatureTotal(x).value && r.value.selected == |sel|
    ensures r.Success? && r.value.total > 0 ==>
      r.value.reduction.value * r.value.total as real == (r.value.total - |sel|) as real * 100.0
    ensures r.Success? && r.value.total == 0 ==> r.value.reduction == Percent(0.0)
  {
    match FeatureTotal(x)
    case Failure(e) => Failure(e)
    case Success(total) =>
      var reduction := if total > 0 then Percent((1.0 - |sel| as real / total as real) * 100.0) else Percent(0.0);
      Success(CountInfo(total, |sel|, reduction))
  }

  /**
    The reduction is a share of the original features: between 0 and 100
    when no more are selected than there are, 0 exactly when all are kept
    and 100 exactly when none are.
   */
  lemma ReductionIsAShare(x: Table, sel: seq<string>)
    requires FeatureCountInfo(x, sel).Success?
    requires |sel| <= FeatureCountInfo(x, sel).value.total
    ensures var p := FeatureCountInfo(x, sel).value.reduction.value;
      var total := FeatureCountInfo(x, sel).value.total;
      && 0.0 <= p <= 100.0
      && (total > 0 ==> (p == 0.0 <==> |sel| == total))
      && (p == 100.0 <==> total > 0 && sel == [])
  {
    var info := FeatureCountInfo(x, sel).value;
    if info.total > 0 {
      var p := info.reduction.value;
      var t := info.total as real;
      assert p * t == (t - |sel| as real) * 100.0;
      assert p * t <= 100.0 * t;
      assert p * t >= 0.0;
    }
  }

  /**
    `calculate_feature_quality_metrics` on an `X` that is not a DataFrame:
    selecting columns by name fails, so each metric falls back to its
    default, except that redundancy returns 0.0 for a single feature
    before it looks at `X`.
   */
  function QualityOf(x: Table, sel: seq<string>, ln: real -> real): (r: Metrics.QualityMetrics)
    ensures x.DataFrame? ==> r == Metrics.FeatureQualityMetrics(x.ds, sel, ln)
    ensures !x.DataFrame? && |sel| != 1 ==> r == Metrics.DefaultQuality
    ensures !x.DataFrame? && |sel| == 1 ==> r == Metrics.QualityMetrics(0.0, 0.0, 0.0)
  {
    if x.DataFrame? then Metrics.FeatureQualityMetrics(x.ds, sel, ln)
    else if |sel| == 0 then Metrics.DefaultQuality
    else
      var redundancy := if |sel| <= 1 then 0.0 else 1.0;
      Metrics.QualityMetrics(redundancy, 0.0, (1.0 - redundancy) * 0.0)
  }

  /** The result dict; `error` is present only on the fallback path. */
  datatype Formatted = Formatted(
    methodName: string,
    selectedFeatures: seq<string>,
    numFeatures: nat,
    featureReduction: Reduction,
    totalOriginalFeatures: nat,
    featureQuality: Metrics.QualityMetrics,
    parametersUsed: Option<Serialization.Value>,
    error: Option<string>)

  /** The keys of the result dict: the six base keys, then 'parameters_used' or 'error' when present. */
  function Keys(r: Formatted): (keys: set<string>)
    ensures "method" in keys && "selected_features" in keys && "num_features" in keys
    ensures "feature_reduction" in keys && "total_original_features" in keys && "feature_quality" in keys
    ensures "parameters_used" in keys <==> r.parametersUsed.Some?
    ensures "error" in keys <==> r.error.Some?
    ensures |keys| <= 8
  {
    {"method", "selected_features", "num_features", "feature_reduction", "total_original_features", "feature_quality"}
    + (if r.parametersUsed.Some? then {"parameters_used"} else {})
    + (if r.error.Some? then {"error"} else {})
  }

  /** `if additional_params:` — None and the empty dict are falsy. */
  predicate Truthy(params: Option<seq<Serialization.Entry>>) {
    params.Some? && params.value != []
  }

  /** `format_selection_results`; `ln` is the logarithm the entropy metric uses. */
  function FormatSelectionResults(methodName: string, selected: Option<seq<string>>, x: Table,
                                  params: Option<seq<Serialization.Entry>>, ln: real -> real): (r: Formatted)
    ensures r.methodName == methodName
    ensures r.selectedFeatures == (if selected.Some? then selected.value else [])
    ensures r.numFeatures == |r.selectedFeatures|
    ensures r.error.Some? <==> FeatureTotal(x).Failure?
    ensures r.error.Some? ==>
      && r.error == Some(ShapeIndexMessage) && r.totalOriginalFeatures == 0
      && r.featureReduction == Percent(0.0) && r.featureQuality == Metrics.DefaultQuality && r.parametersUsed.None?
    ensures r.error.None? ==>
      && r.totalOriginalFeatures == FeatureTotal(x).value
      && r.featureQuality == QualityOf(x, r.selectedFeatures, ln)
      && FeatureCountInfo(x, r.selectedFeatures) == Success(CountInfo(r.totalOriginalFeatures, r.numFeatures, r.featureReduction))
    ensures r.parametersUsed.Some? <==> r.error.None? && Truthy(params)
    ensures r.parametersUsed.Some? ==> r.parametersUsed.value == Serialization.Convert(Serialization.Dict(params.value))
  {
    var sel := if selected.Some? then selected.value else [];
    match FeatureCountInfo(x, sel)
    case Failure(e) =>
      Formatted(methodName, sel, |sel|, Percent(0.0), 0, Metrics.DefaultQuality, None, Some(e))
    case Success(info) =>
      var parameters := if Truthy(params) then Some(Serialization.Convert(Serialization.Dict(params.value))) else None;
      Formatted(methodName, sel, info.selected, info.reduction, info.total, QualityOf(x, sel, ln), parameters, None)
  }

  /** Parameters that can be made serializable come out serializable. */
  lemma ParametersAreSerializable(methodName: string, selected: Option<seq<string>>, x: Table,
                                  params: Option<seq<Serialization.Entry>>, ln: real -> real)
    requires params.Some? && Serialization.Convertible(Serialization.Dict(params.value))
    ensures var r := FormatSelectionResults(methodName, selected, x, params, ln);
      r.parametersUsed.Some? ==> Serialization.Serializable(r.parametersUsed.value)
  {
    Serialization.ConvertIsSerializable(Serialization.Dict(params.value));
  }
}
