/**
  `TraditionalFeatureSelector`: keep the features most correlated with the
  target and prune pairs of features that are too correlated with each
  other, or take the choice of recursive feature elimination (RFE) when it
  scores well enough under `calculate_fitness`.

  RFE with its random forest is not computed: `run` receives the support
  mask it would produce, or None when fitting it raises.
 */
module Traditional {
  import opened Wrappers
  import opened Frames
  import opened Lists
  import opened Ranking
  import Fitness
  import Text
  import Serialization
  import Formatter
  import Metrics

  /** The default `max_correlation` of `_remove_redundant_features`. */
  const MaxCorrelation: real := 0.8

  /** Below this fitness `run` replaces the RFE choice by the correlation selection. */
  const PoorFitness: real := 0.1

  /** Python's `<` on floats: False as soon as one side is NaN. */
  predicate Less(a: Float, b: Float) {
    a.Num? && b.Num? && a.value < b.value
  }

  /** `abs(X[f].corr(y))` */
  function TargetAbsCorr(ds: Dataset, f: string): Float {
    AbsF(ds.targetCorr(f))
  }

  // ------------------------------------------------------- redundancy pruning

  /** `corr_matrix.iloc[i, j] > max_correlation`; a NaN correlation is never above it. */
  predicate Redundant(ds: Dataset, sel: seq<string>, i: nat, j: nat)
    requires i < |sel| && j < |sel|
  {
    var c := AbsCorrAt(ds, sel, i, j);
    c.Num? && c.value > MaxCorrelation
  }

  /**
    The feature of pair (i, j) that goes: the first one only when it is
    strictly less correlated with the target, so ties and NaN remove the second.
   */
  function Loser(ds: Dataset, sel: seq<string>, i: nat, j: nat): (r: string)
    requires i < |sel| && j < |sel|
    ensures r == sel[i] || r == sel[j]
    ensures sel[i] != sel[j] && r == sel[i] ==> Less(TargetAbsCorr(ds, sel[i]), TargetAbsCorr(ds, sel[j]))
    ensures sel[i] != sel[j] && r == sel[j] ==> !Less(TargetAbsCorr(ds, sel[i]), TargetAbsCorr(ds, sel[j]))
  {
    if Less(TargetAbsCorr(ds, sel[i]), TargetAbsCorr(ds, sel[j])) then sel[i] else sel[j]
  }

  /** What row i of the nested loops adds to `to_remove` for the columns i+1 .. j-1. */
  function RowRemovals(ds: Dataset, sel: seq<string>, i: nat, j: nat): (r: set<string>)
    requires i < j <= |sel|
    ensures forall f :: f in r ==> f in sel
    decreases j
  {
    if j == i + 1 then {}
    else RowRemovals(ds, sel, i, j - 1) + (if Redundant(ds, sel, i, j - 1) then {Loser(ds, sel, i, j - 1)} else {})
  }

  /** `to_remove` once rows 0 .. i-1 of the nested loops are done. */
  function Removals(ds: Dataset, sel: seq<string>, i: nat): (r: set<string>)
    requires i <= |sel|
    ensures forall f :: f in r ==> f in sel
  {
    if i == 0 then {} else Removals(ds, sel, i - 1) + RowRemovals(ds, sel, i - 1, |sel|)
  }

  /** f loses some pair of `sel` that is too correlated. */
  ghost predicate Loses(ds: Dataset, sel: seq<string>, f: string) {
    exists a, b :: 0 <= a < b < |sel| && Redundant(ds, sel, a, b) && Loser(ds, sel, a, b) == f
  }

  /** `[f for f in sel if f not in removed]` */
  function Without(sel: seq<string>, removed: set<string>): seq<string> {
    Filter(sel, f => f !in removed)
  }

  /** `_remove_redundant_features(X, y, sel)` with the default threshold. */
  function NonRedundant(ds: Dataset, sel: seq<string>): (r: seq<string>)
    ensures |r| <= |sel| && forall f :: f in r ==> f in sel
    ensures |sel| > 1 ==> forall f :: f in r ==> f !in Removals(ds, sel, |sel|)
  {
    if |sel| <= 1 then sel else Without(sel, Removals(ds, sel, |sel|))
  }

  lemma {:induction false} RowRemovalsHold(ds: Dataset, sel: seq<string>, i: nat, j: nat, b: nat)
    requires i < b < j <= |sel| && Redundant(ds, sel, i, b)
    ensures Loser(ds, sel, i, b) in RowRemovals(ds, sel, i, j)
    decreases j
  {
    if b < j - 1 {
      RowRemovalsHold(ds, sel, i, j - 1, b);
    }
  }

  lemma {:induction false} RowRemovalsCome(ds: Dataset, sel: seq<string>, i: nat, j: nat, f: string)
    requires i < j <= |sel| && f in RowRemovals(ds, sel, i, j)
    ensures exists b :: i < b < j && Redundant(ds, sel, i, b) && Loser(ds, sel, i, b) == f
    decreases j
  {
    if f in RowRemovals(ds, sel, i, j - 1) {
      RowRemovalsCome(ds, sel, i, j - 1, f);
    } else {
      assert Redundant(ds, sel, i, j - 1) && Loser(ds, sel, i, j - 1) == f;
    }
  }

  lemma {:induction false} RemovalsHold(ds: Dataset, sel: seq<string>, i: nat, a: nat, b: nat)
    requires a < i <= |sel| && a < b < |sel| && Redundant(ds, sel, a, b)
    ensures Loser(ds, sel, a, b) in Removals(ds, sel, i)
  {
    if a < i - 1 {
      RemovalsHold(ds, sel, i - 1, a, b);
    } else {
      RowRemovalsHold(ds, sel, a, |sel|, b);
    }
  }

  lemma {:induction false} RemovalsCome(ds: Dataset, sel: seq<string>, i: nat, f: string)
    requires i <= |sel| && f in Removals(ds, sel, i)
    ensures Loses(ds, sel, f)
  {
    if f in Removals(ds, sel, i - 1) {
      RemovalsCome(ds, sel, i - 1, f);
    } else {
      RowRemovalsCome(ds, sel, i - 1, |sel|, f);
      var b :| i - 1 < b < |sel| && Redundant(ds, sel, i - 1, b) && Loser(ds, sel, i - 1, b) == f;
    }
  }

  /** `to_remove` holds exactly the losers of the pairs above the threshold. */
  lemma RemovedIffLoses(ds: Dataset, sel: seq<string>, f: string)
    ensures f in Removals(ds, sel, |sel|) <==> Loses(ds, sel, f)
  {
    if f in Removals(ds, sel, |sel|) {
      RemovalsCome(ds, sel, |sel|, f);
    }
    if Loses(ds, sel, f) {
      var a, b :| 0 <= a < b < |sel| && Redundant(ds, sel, a, b) && Loser(ds, sel, a, b) == f;
      RemovalsHold(ds, sel, |sel|, a, b);
    }
  }

  /**
    Pruning keeps the order of the input and changes nothing in a selection
    of at most one feature.
   */
  lemma PruneKeepsOrder(ds: Dataset, sel: seq<string>)
    ensures IsSubsequence(NonRedundant(ds, sel), sel)
    ensures |sel| <= 1 ==> NonRedundant(ds, sel) == sel
  {
    if |sel| > 1 {
      FilterIsSubsequence(sel, f => f !in Removals(ds, sel, |sel|));
    } else if |sel| == 1 {
      assert sel[1..] == [];
    }
  }

  /**
    A feature of a selection of two or more survives the pruning exactly
    when it loses no pair whose correlation is above the threshold.
   */
  lemma PrunedFeatures(ds: Dataset, sel: seq<string>, f: string)
    requires |sel| > 1
    ensures f in NonRedundant(ds, sel) <==> f in sel && !Loses(ds, sel, f)
  {
    var keep := f => f !in Removals(ds, sel, |sel|);
    RemovedIffLoses(ds, sel, f);
    if f in sel && !Loses(ds, sel, f) {
      FilterKeeps(sel, keep, f);
    }
  }

  /** The |corr(f, y)| of the features of `sel`, all of them numbers. */
  function TargetScores(ds: Dataset, sel: seq<string>): (r: seq<real>)
    requires forall k :: 0 <= k < |sel| ==> TargetAbsCorr(ds, sel[k]).Num?
    ensures |r| == |sel| && forall k :: 0 <= k < |sel| ==> TargetAbsCorr(ds, sel[k]) == Num(r[k])
  {
    seq(|sel|, k requires 0 <= k < |sel| => TargetAbsCorr(ds, sel[k]).value)
  }

  /**
    The first feature whose target correlation is the largest never loses a
    pair: it is not less correlated than any later feature, and every
    earlier feature is strictly less correlated than it.
   */
  lemma {:induction false} FirstBestSurvives(ds: Dataset, sel: seq<string>, m: nat)
    requires Distinct(sel) && forall k :: 0 <= k < |sel| ==> TargetAbsCorr(ds, sel[k]).Num?
    requires IsFirstMax(TargetScores(ds, sel), m)
    ensures sel[m] in NonRedundant(ds, sel)
  {
    var scores := TargetScores(ds, sel);
    if |sel| > 1 {
      forall b | 0 <= b < |sel| ensures !Less(TargetAbsCorr(ds, sel[m]), TargetAbsCorr(ds, sel[b])) {
        assert scores[b] <= scores[m];
      }
      forall a | 0 <= a < m ensures Less(TargetAbsCorr(ds, sel[a]), TargetAbsCorr(ds, sel[m])) {
        assert scores[a] < scores[m];
      }
      assert !Loses(ds, sel, sel[m]);
      PrunedFeatures(ds, sel, sel[m]);
    }
  }

  /** Pruning distinct features whose target correlations are numbers never empties the selection. */
  lemma PruneKeepsOne(ds: Dataset, sel: seq<string>)
    requires sel != [] && Distinct(sel) && forall k :: 0 <= k < |sel| ==> TargetAbsCorr(ds, sel[k]).Num?
    ensures NonRedundant(ds, sel) != []
  {
    var m := ArgMax(TargetScores(ds, sel));
    FirstBestSurvives(ds, sel, m);
  }

  // ---------------------------------------------------- correlation selection

  /** A column enters the `correlations` dict: it is not named "id" and its target correlation is not NaN. */
  function IsCandidate(ds: Dataset): string -> bool {
    f => f != "id" && TargetAbsCorr(ds, f).Num?
  }

  /** The keys of the `correlations` dict, in insertion order. */
  function Candidates(ds: Dataset): (r: seq<string>)
    ensures forall f :: f in r ==> f in ds.columns && f != "id" && TargetAbsCorr(ds, f).Num?
    ensures forall k :: 0 <= k < |r| ==> TargetAbsCorr(ds, r[k]).Num?
  {
    Filter(ds.columns, IsCandidate(ds))
  }

  /**
    `_select_by_correlation(X, y, n)`: the top n candidates by descending
    |corr(f, y)|, ties in column order, then pruned. It never returns "id"
    or a NaN-correlated column, and never more than n names.
   */
  function CorrelationSelection(ds: Dataset, n: int): (r: seq<string>)
    ensures forall f :: f in r ==> f in ds.columns && f != "id" && TargetAbsCorr(ds, f).Num?
    ensures n >= 0 ==> |r| <= n
  {
    var c := Candidates(ds);
    var top := TopByScore(c, TargetScores(ds, c), n);
    TopByScoreMembers(c, TargetScores(ds, c), n);
    PruneKeepsOrder(ds, top);
    SubsequenceMembers(NonRedundant(ds, top), top);
    SubsequenceLength(NonRedundant(ds, top), top);
    NonRedundant(ds, top)
  }

  /**
    With distinct column names, at least one candidate and n >= 1, the
    correlation selection is not empty.
   */
  lemma CorrelationSelectionNonEmpty(ds: Dataset, n: int, f: string)
    requires ds.Valid() && n >= 1 && f in ds.columns && IsCandidate(ds)(f)
    ensures CorrelationSelection(ds, n) != []
  {
    var c := Candidates(ds);
    FilterKeeps(ds.columns, IsCandidate(ds), f);
    FilterDistinct(ds.columns, IsCandidate(ds));
    var scores := TargetScores(ds, c);
    var top := TopByScore(c, scores, n);
    var order := Rank(scores);
    RankedIsDistinct(scores, order);
    assert Distinct(top) by {
      forall a, b | 0 <= a < b < |top| ensures top[a] != top[b] {
        assert top[a] == c[order[a]] && top[b] == c[order[b]];
      }
    }
    PruneKeepsOne(ds, top);
  }

  // ----------------------------------------------------------------------- run

  /** `max(1, min(10, n_features // 3))` with n_features the number of columns. */
  function DefaultFeatureCount(total: nat): (r: int)
    ensures 1 <= r <= 10
    ensures total >= 3 ==> r <= total / 3
    ensures total < 6 ==> r == 1
    ensures total >= 30 ==> r == 10
  {
    var third := total / 3;
    var capped := if third < 10 then third else 10;
    if capped > 1 then capped else 1
  }

  /**
    `X.columns[rfe.support_]`: the columns whose mask entry is True, in
    column order.
   */
  function Masked(columns: seq<string>, mask: seq<bool>): (r: seq<string>)
    requires |mask| == |columns|
    ensures IsSubsequence(r, columns)
    ensures forall i :: 0 <= i < |mask| && mask[i] ==> columns[i] in r
    ensures forall f :: f in r ==> exists i :: 0 <= i < |mask| && mask[i] && columns[i] == f
  {
    if columns == [] then []
    else
      var rest := Masked(columns[1..], mask[1..]);
      assert forall i :: 1 <= i < |mask| && mask[i] ==> columns[1..][i - 1] in rest;
      assert forall f :: f in rest ==> exists i :: 0 <= i < |mask| && mask[i] && columns[i] == f by {
        forall f | f in rest ensures exists i :: 0 <= i < |mask| && mask[i] && columns[i] == f {
          var k :| 0 <= k < |mask| - 1 && mask[1..][k] && columns[1..][k] == f;
          assert mask[k + 1] && columns[k + 1] == f;
        }
      }
      if mask[0] then
        assert ([columns[0]] + rest)[1..] == rest;
        [columns[0]] + rest
      else
        SubsequenceOfTail(rest, columns);
        rest
  }

  /** With distinct column names a column is kept exactly when its mask entry is True. */
  lemma MaskedIsExactlyMarked(columns: seq<string>, mask: seq<bool>)
    requires |mask| == |columns| && Distinct(columns)
    ensures forall i :: 0 <= i < |mask| ==> (columns[i] in Masked(columns, mask) <==> mask[i])
  {
    forall i | 0 <= i < |mask| && columns[i] in Masked(columns, mask) ensures mask[i] {
      var k :| 0 <= k < |mask| && mask[k] && columns[k] == columns[i];
    }
  }

  /** The support mask RFE reports for a target number of features, or None when fitting it raises. */
  type RfeSupport = int -> Option<seq<bool>>

  /** The columns RFE keeps; a mask of the wrong length makes the indexing raise. */
  function RfeChoice(ds: Dataset, n: int, rfe: RfeSupport): (r: Option<seq<string>>)
    ensures r.Some? <==> rfe(n).Some? && |rfe(n).value| == |ds.columns|
    ensures r.Some? ==> r.value == Masked(ds.columns, rfe(n).value) && ds.Covers(r.value)
  {
    match rfe(n)
    case None => None
    case Some(mask) => if |mask| == |ds.columns| then Some(Masked(ds.columns, mask)) else None
  }

  /**
    The features `run` selects once `self.n_features` is n: the correlation
    selection for method 'correlation', when RFE raises (the `except`
    branch) and when the RFE choice scores below 0.1; otherwise the RFE
    choice, which then scores at least 0.1.
   */
  function Selection(ds: Dataset, selectionMethod: string, n: int, rfe: RfeSupport): (r: seq<string>)
    ensures forall f :: f in r ==> f in ds.columns
    ensures || r == CorrelationSelection(ds, n)
            || (selectionMethod != "correlation" && RfeChoice(ds, n, rfe) == Some(r) && Fitness.CalculateFitness(ds, r) >= PoorFitness)
    ensures selectionMethod == "correlation" || RfeChoice(ds, n, rfe).None? ==> r == CorrelationSelection(ds, n)
    ensures (selectionMethod != "correlation" && RfeChoice(ds, n, rfe).Some?
             && Fitness.CalculateFitness(ds, RfeChoice(ds, n, rfe).value) >= PoorFitness)
            ==> r == RfeChoice(ds, n, rfe).value
  {
    if selectionMethod == "correlation" then CorrelationSelection(ds, n)
    else
      match RfeChoice(ds, n, rfe)
      case None => CorrelationSelection(ds, n)
      case Some(chosen) =>
        if Fitness.CalculateFitness(ds, chosen) < PoorFitness then CorrelationSelection(ds, n) else chosen
  }

  /** An RFE choice that scores below 0.1 is never what `run` returns, unless the correlation selection is the same. */
  lemma PoorRfeChoiceReplaced(ds: Dataset, selectionMethod: string, n: int, rfe: RfeSupport)
    requires RfeChoice(ds, n, rfe).Some?
    requires Fitness.CalculateFitness(ds, RfeChoice(ds, n, rfe).value) < PoorFitness
    ensures Selection(ds, selectionMethod, n, rfe) == CorrelationSelection(ds, n)
  {
  }

  // ------------------------------------------------------------ the result

  /** The label of the result: 'Traditional (' + `self.method.upper()` + ')'. */
  function Label(selectionMethod: string): string {
    "Traditional (" + Text.Upper(selectionMethod) + ")"
  }

  /** The label the `except` branch uses. */
  const CorrelationLabel: string := "Traditional (Correlation)"

  /** RFE raised, or its mask did not fit the columns: `run` goes through its `except` branch. */
  predicate RfeRaised(ds: Dataset, selectionMethod: string, n: int, rfe: RfeSupport) {
    selectionMethod != "correlation" && RfeChoice(ds, n, rfe).None?
  }

  /** The `additional_params` of the call in the `try` branch. */
  function RunParameters(n: int, randomState: int, selectionMethod: string): seq<Serialization.Entry> {
    [Serialization.Entry("n_features", Serialization.Int(n)),
     Serialization.Entry("random_state", Serialization.Int(randomState)),
     Serialization.Entry("method", Serialization.Str(selectionMethod))]
  }

  /** The exceptions inside `run`: one from RFE, a TypeError from a call, a KeyError from a subscript. */
  datatype RunError = RfeError | TypeError(message: string) | KeyError(key: string)

  /** `results[key]` on a formatted result: KeyError when the dict has no such key. */
  function Subscript(results: Formatter.Formatted, key: string): (r: Option<RunError>)
    ensures r.None? <==> key in Formatter.Keys(results)
    ensures r.Some? ==> r.value == KeyError(key)
  {
    if key in Formatter.Keys(results) then None else Some(KeyError(key))
  }

  /** The formatter never returns a 'fitness_score' key, so the log line of `run` always raises. */
  lemma NoFitnessScoreKey(results: Formatter.Formatted)
    ensures Subscript(results, "fitness_score") == Some(KeyError("fitness_score"))
  {
  }

  /** `format_selection_results` takes no `y`, so passing it raises this TypeError. */
  const UnexpectedKeywordY: string := "format_selection_results() got an unexpected keyword argument 'y'"

  /**
    A call of `format_selection_results` on the DataFrame; `passesY` says
    whether the call passes the keyword `y`.
   */
  function FormatCall(title: string, selected: seq<string>, ds: Dataset, params: Option<seq<Serialization.Entry>>,
                      passesY: bool, ln: real -> real): (r: Result<Formatter.Formatted, RunError>)
    ensures r.Failure? <==> passesY
    ensures r.Failure? ==> r.error == TypeError(UnexpectedKeywordY)
    ensures r.Success? ==> r.value.selectedFeatures == selected && r.value.error.None?
  {
    if passesY then Failure(TypeError(UnexpectedKeywordY))
    else Success(Formatter.FormatSelectionResults(title, Some(selected), Formatter.DataFrame(ds), params, ln))
  }

  /**
    `run` as written, once `n_features` is n: both calls pass `y=y`, so the
    `try` branch raises TypeError, the `except` branch selects by
    correlation and its own call raises the same TypeError, which leaves
    `run`. No input gets a result back.
   */
  function RunResultAsWritten(ds: Dataset, selectionMethod: string, randomState: int, n: int, rfe: RfeSupport,
                              ln: real -> real): (r: Result<Formatter.Formatted, RunError>)
    ensures r == Failure(TypeError(UnexpectedKeywordY))
  {
    var tried :=
      if RfeRaised(ds, selectionMethod, n, rfe) then Failure(RfeError)
      else FormatCall(Label(selectionMethod), Selection(ds, selectionMethod, n, rfe), ds,
                      Some(RunParameters(n, randomState, selectionMethod)), true, ln);
    if tried.Success? then tried
    else FormatCall(CorrelationLabel, CorrelationSelection(ds, n), ds, None, true, ln)
  }

  /**
    `run` with the `y=y` keywords removed but the log line as written: a
    successful `try` call is followed by `results['fitness_score']`, whose
    KeyError sends the run to the `except` branch too. Every run returns
    the correlation selection under 'Traditional (Correlation)' without
    parameters, whatever the method and the RFE choice.
   */
  function RunResultLogAsWritten(ds: Dataset, selectionMethod: string, randomState: int, n: int, rfe: RfeSupport,
                                 ln: real -> real): (r: Result<Formatter.Formatted, RunError>)
    ensures r == Success(Formatter.FormatSelectionResults(CorrelationLabel, Some(CorrelationSelection(ds, n)),
                                                          Formatter.DataFrame(ds), None, ln))
  {
    var fallback := FormatCall(CorrelationLabel, CorrelationSelection(ds, n), ds, None, false, ln);
    if RfeRaised(ds, selectionMethod, n, rfe) then fallback
    else
      var call := FormatCall(Label(selectionMethod), Selection(ds, selectionMethod, n, rfe), ds,
                             Some(RunParameters(n, randomState, selectionMethod)), false, ln);
      if call.Failure? then fallback
      else
        NoFitnessScoreKey(call.value);
        if Subscript(call.value, "fitness_score").Some? then fallback else call
  }

  /**
    Unless RFE raised, the log line costs the run its result: the result
    as written carries no parameters where the intended one does.
   */
  lemma LogLineLosesResult(ds: Dataset, selectionMethod: string, randomState: int, n: int, rfe: RfeSupport, ln: real -> real)
    requires !RfeRaised(ds, selectionMethod, n, rfe)
    ensures RunResultLogAsWritten(ds, selectionMethod, randomState, n, rfe, ln).value.parametersUsed.None?
    ensures RunResult(ds, selectionMethod, randomState, n, rfe, ln).parametersUsed.Some?
  {
  }

  /**
    `run` with the calls the formatter accepts and the log line reading a
    key the result has, once `n_features` is n: the selection formatted
    under the method's label with the parameters used, or, when RFE
    raised, the correlation selection under 'Traditional (Correlation)'
    without parameters.
   */
  function RunResult(ds: Dataset, selectionMethod: string, randomState: int, n: int, rfe: RfeSupport,
                     ln: real -> real): (r: Formatter.Formatted)
    ensures r.selectedFeatures == Selection(ds, selectionMethod, n, rfe)
    ensures r.error.None? && r.totalOriginalFeatures == |ds.columns| && r.numFeatures == |r.selectedFeatures|
    ensures r.featureQuality == Metrics.FeatureQualityMetrics(ds, r.selectedFeatures, ln)
    ensures r.methodName == if RfeRaised(ds, selectionMethod, n, rfe) then CorrelationLabel else Label(selectionMethod)
    ensures r.parametersUsed.Some? <==> !RfeRaised(ds, selectionMethod, n, rfe)
    ensures r.parametersUsed.Some? ==>
      r.parametersUsed.value == Serialization.Dict(RunParameters(n, randomState, selectionMethod))
  {
    if RfeRaised(ds, selectionMethod, n, rfe) then
      Formatter.FormatSelectionResults(CorrelationLabel, Some(CorrelationSelection(ds, n)), Formatter.DataFrame(ds), None, ln)
    else
      var params := RunParameters(n, randomState, selectionMethod);
      assert Serialization.Serializable(Serialization.Dict(params)) by {
        assert forall k :: 0 <= k < |params| ==> Serialization.Serializable(params[k].value);
      }
      Serialization.ConvertKeepsSerializable(Serialization.Dict(params));
      Formatter.FormatSelectionResults(Label(selectionMethod), Some(Selection(ds, selectionMethod, n, rfe)),
                                       Formatter.DataFrame(ds), Some(params), ln)
  }

  class TraditionalFeatureSelector {
    /** None until `run` fills in the default; `run` never changes it afterwards. */
    var nFeatures: Option<int>
    const randomState: int
    const selectionMethod: string

    constructor(nFeatures: Option<int>, randomState: int, selectionMethod: string)
      ensures this.nFeatures == nFeatures && this.randomState == randomState && this.selectionMethod == selectionMethod
    {
      this.nFeatures := nFeatures;
      this.randomState := randomState;
      this.selectionMethod := selectionMethod;
    }

    /** `_remove_redundant_features`: the nested loops fill `to_remove`, the comprehension drops it. */
    method RemoveRedundantFeatures(ds: Dataset, sel: seq<string>) returns (kept: seq<string>)
      ensures kept == NonRedundant(ds, sel)
    {
      if |sel| <= 1 {
        return sel;
      }
      var toRemove: set<string> := {};
      for i := 0 to |sel|
        invariant toRemove == Removals(ds, sel, i)
      {
        for j := i + 1 to |sel|
          invariant toRemove == Removals(ds, sel, i) + RowRemovals(ds, sel, i, j)
        {
          var c := AbsF(ds.featureCorr(sel[i], sel[j]));
          if c.Num? && c.value > MaxCorrelation {
            var corr1 := TargetAbsCorr(ds, sel[i]);
            var corr2 := TargetAbsCorr(ds, sel[j]);
            if Less(corr1, corr2) {
              toRemove := toRemove + {sel[i]};
            } else {
              toRemove := toRemove + {sel[j]};
            }
          }
        }
      }
      kept := Without(sel, toRemove);
    }

    /**
      `_select_by_correlation`: the loop fills the `correlations` dict in
      column order, then the items are sorted, cut to n and pruned.
     */
    method SelectByCorrelation(ds: Dataset, n: int) returns (selected: seq<string>)
      ensures selected == CorrelationSelection(ds, n)
    {
      var names: seq<string> := [];
      var scores: seq<real> := [];
      var i := 0;
      while i < |ds.columns|
        invariant 0 <= i <= |ds.columns|
        invariant names == Filter(ds.columns[..i], IsCandidate(ds))
        invariant |scores| == |names| && forall k :: 0 <= k < |names| ==> TargetAbsCorr(ds, names[k]) == Num(scores[k])
      {
        var feature := ds.columns[i];
        assert ds.columns[..i + 1] == ds.columns[..i] + [feature];
        FilterSnoc(ds.columns[..i], feature, IsCandidate(ds));
        if feature != "id" {
          var corr := TargetAbsCorr(ds, feature);
          if corr.Num? {
            names := names + [feature];
            scores := scores + [corr.value];
          }
        }
        i := i + 1;
      }
      assert ds.columns[..i] == ds.columns;
      assert scores == TargetScores(ds, names);
      var top := TopByScore(names, scores, n);
      selected := RemoveRedundantFeatures(ds, top);
    }

    /**
      `run(X, y)` with calls the formatter accepts: fill in the default
      `n_features` when it is None, then select by correlation or take the
      RFE choice, falling back to the correlation selection when it scores
      below 0.1, and format the selection; when RFE raises, the `except`
      branch formats the correlation selection instead.
     */
    method Run(ds: Dataset, rfe: RfeSupport, ln: real -> real) returns (results: Formatter.Formatted)
      modifies this`nFeatures
      ensures nFeatures == Some(if old(nFeatures).Some? then old(nFeatures).value else DefaultFeatureCount(|ds.columns|))
      ensures results == RunResult(ds, selectionMethod, randomState, nFeatures.value, rfe, ln)
    {
      if nFeatures.None? {
        nFeatures := Some(DefaultFeatureCount(|ds.columns|));
      }
      var n := nFeatures.value;
      var selected: seq<string>;
      if selectionMethod == "correlation" {
        selected := SelectByCorrelation(ds, n);
      } else {
        var choice := RfeChoice(ds, n, rfe);
        if choice.None? {
          selected := SelectByCorrelation(ds, n);
          results := Formatter.FormatSelectionResults(CorrelationLabel, Some(selected), Formatter.DataFrame(ds), None, ln);
          return;
        }
        selected := choice.value;
        var fitness := Fitness.CalculateFitness(ds, selected);
        if fitness < PoorFitness {
          selected := SelectByCorrelation(ds, n);
        }
      }
      var params := RunParameters(n, randomState, selectionMethod);
      results := Formatter.FormatSelectionResults(Label(selectionMethod), Some(selected), Formatter.DataFrame(ds), Some(params), ln);
    }
  }
}
