/**
  The older `GeneticFeatureSelector`: a uniform random initial population,
  an in-class fitness that skips NaN target correlations in the relevance
  mean, a plain bit-flip mutation, a "first five columns" fallback, and a
  result that reports the best fitness found, the average target
  correlation and redundancy of the selection and the whole
  `fitness_history` field.
 */
module LegacyGa {
  import opened Wrappers
  import opened Frames
  import opened Fitness
  import opened GaOperators
  import opened GaEvolution

  // ------------------------------------------------------------ initialisation

  /**
    `_initialize_population`: individual i takes its bits from the
    `random.randint(0, 1)` draws `bits[i]`. Nothing forces a bit to be set.
   */
  function InitialPopulation(popSize: nat, n: nat, bits: seq<seq<Bit>>): (r: seq<Individual>)
    requires |bits| >= popSize && forall i :: 0 <= i < |bits| ==> |bits[i]| >= n
    ensures |r| == popSize && SameLength(r, n)
    ensures forall i, j :: 0 <= i < popSize && 0 <= j < n ==> r[i][j] == bits[i][j]
  {
    seq(popSize, i requires 0 <= i < popSize => bits[i][..n])
  }

  /** Unlike the backend revision, an individual may select nothing. */
  lemma EmptyIndividualPossible(n: nat)
    ensures var zeros := seq(n, j => 0);
      InitialPopulation(1, n, [zeros]) == [zeros] && Ones(zeros) == 0
  {
    var zeros: seq<Bit> := seq(n, j => 0);
    assert InitialPopulation(1, n, [zeros])[0] == zeros;
  }

  // ------------------------------------------------------------------- fitness

  /** The non-NaN |corr(f, y)| of the selected features, in selection order. */
  function RelevanceScores(ds: Dataset, sel: seq<string>): (r: seq<real>)
    ensures |r| <= |sel|
    ensures forall i :: 0 <= i < |r| ==> r[i] >= 0.0
    ensures forall v :: v in r <==> exists i :: 0 <= i < |sel| && AbsF(ds.targetCorr(sel[i])) == Num(v)
    ensures r == [] <==> forall i :: 0 <= i < |sel| ==> ds.targetCorr(sel[i]).NaN?
    ensures (forall i :: 0 <= i < |sel| ==> ds.targetCorr(sel[i]).Num?) ==>
      |r| == |sel| && forall i :: 0 <= i < |sel| ==> r[i] == Abs(ds.targetCorr(sel[i]).value)
  {
    var rel := Relevances(ds, sel);
    assert NonNegative(rel);
    DropNaNKeeps(rel);
    DropNaNContent(rel);
    DropNaN(rel)
  }

  /**
    `_advanced_correlation_fitness`: 0.0 for an empty individual and when
    every selected feature has a NaN target correlation; otherwise
    max(0.0, mean relevance - redundancy - (k / n) * 0.1), where k counts
    every selected feature, NaN ones included.
   */
  function CorrelationFitness(ds: Dataset, ind: Individual): (r: real)
    requires |ind| == |ds.columns|
    ensures r >= 0.0
    ensures Ones(ind) == 0 ==> r == 0.0
    ensures RelevanceScores(ds, SelectedColumns(ds.columns, ind)) == [] ==> r == 0.0
  {
    if Ones(ind) == 0 then 0.0
    else
      var selected := SelectedColumns(ds.columns, ind);
      if selected == [] then 0.0
      else
        var scores := RelevanceScores(ds, selected);
        if scores == [] then 0.0
        else
          var k := |selected|;
          var redundancy := if k > 1 then Redundancy(ds, selected) else Num(0.0);
          Penalised(Mean(scores), redundancy, k, |ds.columns|)
  }

  /** The last line of `_advanced_correlation_fitness`: relevance minus redundancy minus the size penalty, floored at 0.0. */
  function Penalised(relevance: real, redundancy: Float, k: nat, total: nat): (r: real)
    requires total > 0
    ensures r >= 0.0
  {
    MaxZero(Minus(Minus(Num(relevance), redundancy), Num(SizePenalty(k, total))))
  }

  /**
    A positive fitness is the mean of the defined relevances minus the
    redundancy minus a penalty that counts every selected feature: a NaN
    target correlation leaves the mean but not the penalty.
   */
  lemma PositiveFitnessValue(ds: Dataset, ind: Individual)
    requires |ind| == |ds.columns| && CorrelationFitness(ds, ind) > 0.0
    ensures var selected := SelectedColumns(ds.columns, ind);
      var scores := RelevanceScores(ds, selected);
      && |selected| == Ones(ind) > 0 && scores != []
      && (|selected| > 1 ==> Redundancy(ds, selected).Num?)
      && CorrelationFitness(ds, ind)
         == Mean(scores) - (if |selected| > 1 then Redundancy(ds, selected).value else 0.0)
            - SizePenalty(Ones(ind), |ds.columns|)
  {
  }

  /** A NaN correlation between two selected features makes the fitness 0.0. */
  lemma UndefinedPairScoresZero(ds: Dataset, ind: Individual, i: nat, j: nat)
    requires |ind| == |ds.columns|
    requires var selected := SelectedColumns(ds.columns, ind);
      i < |selected| && j < |selected| && i != j && ds.featureCorr(selected[i], selected[j]).NaN?
    ensures CorrelationFitness(ds, ind) == 0.0
  {
    var selected := SelectedColumns(ds.columns, ind);
    UndefinedPairRedundancy(ds, selected, i, j);
  }

  /** The relevance loop: drops a NaN correlation, keeps a number. */
  lemma DropNaNSnoc(xs: seq<Float>, i: nat)
    requires i < |xs|
    ensures DropNaN(xs[..i + 1]) == DropNaN(xs[..i]) + (if xs[i].Num? then [xs[i].value] else [])
  {
    assert xs[..i + 1][..i] == xs[..i];
  }

  /** The relevance loop of `_advanced_correlation_fitness`: the absolute target correlations that are numbers, in order. */
  method CollectRelevance(ds: Dataset, selected: seq<string>) returns (relevanceScores: seq<real>)
    ensures relevanceScores == RelevanceScores(ds, selected)
  {
    ghost var rel := Relevances(ds, selected);
    relevanceScores := [];
    var i := 0;
    while i < |selected|
      invariant 0 <= i <= |selected|
      invariant relevanceScores == DropNaN(rel[..i])
    {
      var corr := AbsF(ds.targetCorr(selected[i]));
      DropNaNSnoc(rel, i);
      relevanceScores := relevanceScores + if corr.Num? then [corr.value] else [];
      i := i + 1;
    }
    assert rel[..i] == rel;
  }

  /** `_advanced_correlation_fitness`. */
  method AdvancedCorrelationFitness(ds: Dataset, ind: Individual) returns (fitness: real)
    requires |ind| == |ds.columns|
    ensures fitness == CorrelationFitness(ds, ind)
  {
    if Ones(ind) == 0 {
      return 0.0;
    }
    var selected := SelectedColumns(ds.columns, ind);
    if selected == [] {
      return 0.0;
    }
    var relevanceScores := CollectRelevance(ds, selected);
    if relevanceScores == [] {
      return 0.0;
    }
    var k := |selected|;
    var relevance := Mean(relevanceScores);
    var redundancy := Num(0.0);
    if k > 1 {
      redundancy := Redundancy(ds, selected);
    }
    fitness := Penalised(relevance, redundancy, k, |ds.columns|);
  }

  /** The fitness as the generation loop takes it; an individual of the wrong length never reaches it. */
  function FitnessOf(ds: Dataset, ind: Individual): real {
    if |ind| == |ds.columns| then CorrelationFitness(ds, ind) else 0.0
  }

  function FitnessFn(ds: Dataset): Individual -> real {
    ind => FitnessOf(ds, ind)
  }

  lemma FitnessIsNonNegative(ds: Dataset)
    ensures NonNegativeFitness(FitnessFn(ds))
  {
    forall ind ensures FitnessFn(ds)(ind) >= 0.0 {
      if |ind| == |ds.columns| {
        assert FitnessOf(ds, ind) == CorrelationFitness(ds, ind);
      }
    }
  }

  /** The fitness call inside `evaluate_population`, for an individual of the dataset's width. */
  method ScoreIndividual(ds: Dataset, ind: Individual) returns (fitness: real)
    requires |ind| == |ds.columns|
    ensures fitness == FitnessFn(ds)(ind) && fitness >= 0.0
  {
    fitness := AdvancedCorrelationFitness(ds, ind);
  }

  /** `_evaluate_population`: one fitness per individual, appended in order. */
  method EvaluatePopulation(ds: Dataset, population: seq<Individual>) returns (scores: seq<real>)
    requires SameLength(population, |ds.columns|)
    ensures scores == Scores(FitnessFn(ds), population)
  {
    scores := [];
    var i := 0;
    while i < |population|
      invariant 0 <= i <= |population|
      invariant scores == Scores(FitnessFn(ds), population[..i])
    {
      var fitness := ScoreIndividual(ds, population[i]);
      ScoresSnoc(FitnessFn(ds), population, i);
      scores := scores + [fitness];
      i := i + 1;
    }
    assert population[..i] == population;
  }

  // ------------------------------------------------------------------ mutation

  /** One position of `_mutate`: the bit flips exactly when its draw falls below `prob`. */
  function FlipBit(b: Bit, prob: real, d: MutationDraw): (r: Bit)
    ensures r != b <==> d.flip < prob
  {
    if d.flip < prob then 1 - b else b
  }

  function Mutation(prob: real): (Bit, MutationDraw) -> Bit {
    (b, d) => FlipBit(b, prob, d)
  }

  /** `_mutate`: a copy flipped position by position. */
  method Mutate(ind: Individual, prob: real, draws: seq<MutationDraw>) returns (mutated: Individual)
    requires |draws| >= |ind|
    ensures mutated == Mutated(ind, Mutation(prob), draws)
  {
    mutated := ind;
    var i := 0;
    while i < |mutated|
      invariant 0 <= i <= |mutated| == |ind|
      invariant forall k :: 0 <= k < i ==> mutated[k] == FlipBit(ind[k], prob, draws[k])
      invariant forall k :: i <= k < |ind| ==> mutated[k] == ind[k]
    {
      if draws[i].flip < prob {
        mutated := mutated[i := 1 - mutated[i]];
      }
      i := i + 1;
    }
  }

  /** The flip is its own inverse: mutating twice with the same draws restores the individual. */
  lemma MutationIsInvolution(ind: Individual, prob: real, draws: seq<MutationDraw>)
    requires |draws| >= |ind|
    ensures Mutated(Mutated(ind, Mutation(prob), draws), Mutation(prob), draws) == ind
  {
    var once := Mutated(ind, Mutation(prob), draws);
    var twice := Mutated(once, Mutation(prob), draws);
    forall i | 0 <= i < |ind| ensures twice[i] == ind[i] {
      assert once[i] == FlipBit(ind[i], prob, draws[i]);
      assert twice[i] == FlipBit(once[i], prob, draws[i]);
    }
  }

  // ---------------------------------------------------------------- generations

  /** A generation of this revision: `_fitness` evaluates, this revision's `_mutate` breeds. */
  function GenerationStep(ds: Dataset, cfg: Config): Stepper {
    Stepping(FitnessFn(ds), Breeding(Mutation(cfg.mutationProb), cfg, |ds.columns|))
  }

  lemma GenerationStepKeepsState(ds: Dataset, cfg: Config)
    ensures Steady(GenerationStep(ds, cfg), cfg, |ds.columns|)
    ensures Tracking(GenerationStep(ds, cfg), FitnessFn(ds), cfg, |ds.columns|)
  {
    BreedingKeepsShape(Mutation(cfg.mutationProb), cfg, |ds.columns|);
    SteppingIsSteady(FitnessFn(ds), Breeding(Mutation(cfg.mutationProb), cfg, |ds.columns|), cfg, |ds.columns|);
    FitnessIsNonNegative(ds);
    SteppingTracks(FitnessFn(ds), Breeding(Mutation(cfg.mutationProb), cfg, |ds.columns|), cfg, |ds.columns|);
  }

  /** The state of `run` after `g` generations of this revision. */
  function Generations(ds: Dataset, cfg: Config, s0: Progress, draws: seq<GenerationDraws>, g: nat): (r: Progress)
    requires Ready(cfg, |ds.columns|, s0) && |draws| >= g
    ensures BestFits(|ds.columns|, s0) ==> BestFits(|ds.columns|, r)
    ensures r.error.None? ==> |r.history| == |s0.history| + g
  {
    GenerationStepKeepsState(ds, cfg);
    Evolve(GenerationStep(ds, cfg), cfg, |ds.columns|, s0, draws, g)
  }

  /** No individual evaluated in the first `g` generations of this revision scored above 0.0. */
  ghost predicate NothingScoredIn(ds: Dataset, cfg: Config, pop: seq<Individual>, draws: seq<GenerationDraws>, g: nat)
    requires Ready(cfg, |ds.columns|, Start(pop)) && |draws| >= g
  {
    GenerationStepKeepsState(ds, cfg);
    NothingScored(GenerationStep(ds, cfg), FitnessFn(ds), cfg, |ds.columns|, pop, draws, g)
  }

  // -------------------------------------------------------------------- result

  /** `[1] * min(5, n) + [0] * (n - min(5, n))`, cut to n. */
  function FallbackIndividual(n: nat): (r: Individual)
    ensures |r| == n
    ensures forall i :: 0 <= i < n ==> r[i] == if i < 5 then 1 else 0
  {
    var m := if n < 5 then n else 5;
    var r := seq(m, i => 1) + seq(n - m, i => 0);
    r[..n]
  }

  /** The columns whose bit is set in a leading block of ones are the first columns. */
  lemma {:induction false} LeadingOnesSelectPrefix(columns: seq<string>, ind: Individual, m: nat)
    requires |columns| == |ind| && m <= |ind|
    requires forall i :: 0 <= i < |ind| ==> ind[i] == if i < m then 1 else 0
    ensures SelectedColumns(columns, ind) == columns[..m]
    decreases |ind|
  {
    if ind != [] {
      if m == 0 {
        assert Ones(ind) == 0;
      } else {
        var tail := ind[1..];
        forall i | 0 <= i < |tail| ensures tail[i] == if i < m - 1 then 1 else 0 {
          assert tail[i] == ind[i + 1];
        }
        LeadingOnesSelectPrefix(columns[1..], tail, m - 1);
        assert ind[0] == 1;
        assert SelectedColumns(columns, ind) == [columns[0]] + SelectedColumns(columns[1..], tail);
        assert columns[..m] == [columns[0]] + columns[1..][..m - 1];
      }
    }
  }

  /** The fallback individual selects exactly the first min(5, n) columns. */
  lemma FallbackSelectsFirstColumns(columns: seq<string>)
    ensures var m := if |columns| < 5 then |columns| else 5;
      SelectedColumns(columns, FallbackIndividual(|columns|)) == columns[..m]
  {
    var m := if |columns| < 5 then |columns| else 5;
    LeadingOnesSelectPrefix(columns, FallbackIndividual(|columns|), m);
  }

  /** The items of `results` that `run` returns (the fixed 'method' label aside). */
  datatype Report = Report(
    selectedFeatures: seq<string>,
    numFeatures: nat,
    fitnessScore: real,
    avgFeatureCorrelation: real,
    featureRedundancy: Float,
    fitnessHistory: seq<real>,
    featureReduction: real,
    totalOriginalFeatures: nat,
    parametersUsed: Config)

  /** `(1 - k / n) * 100`: the share of the n columns left out, in percent. */
  function Reduction(k: nat, n: nat): (r: real)
    requires 0 < n && k <= n
    ensures r * n as real == (n - k) as real * 100.0
    ensures 0.0 <= r <= 100.0
  {
    var q := k as real / n as real;
    assert q * n as real == k as real;
    (1.0 - q) * 100.0
  }

  /**
    The result dictionary of `run`: the best individual's columns (or the
    fallback's), the best fitness found, the mean non-NaN target
    correlation (0 when there is none), the redundancy of the selection
    (0 for fewer than two features), the whole history field and the
    reduction. With no columns the reduction divides by zero.
   */
  function Results(ds: Dataset, best: Option<Individual>, bestFitness: real, history: seq<real>, cfg: Config)
    : (r: Result<Report, GaError>)
    requires best.Some? ==> |best.value| == |ds.columns|
    ensures r.Failure? <==> |ds.columns| == 0
    ensures r.Success? ==>
      var chosen := if best.Some? then best.value else FallbackIndividual(|ds.columns|);
      var sel := SelectedColumns(ds.columns, chosen);
      && r.value.selectedFeatures == sel && r.value.numFeatures == |sel|
      && r.value.fitnessScore == bestFitness
      && r.value.fitnessHistory == history
      && r.value.totalOriginalFeatures == |ds.columns| && r.value.parametersUsed == cfg
      && r.value.avgFeatureCorrelation >= 0.0
      && (RelevanceScores(ds, sel) == [] ==> r.value.avgFeatureCorrelation == 0.0)
      && (RelevanceScores(ds, sel) != [] ==> r.value.avgFeatureCorrelation == Mean(RelevanceScores(ds, sel)))
      && (|sel| <= 1 ==> r.value.featureRedundancy == Num(0.0))
      && (|sel| > 1 ==> r.value.featureRedundancy == Redundancy(ds, sel))
      && r.value.featureReduction == Reduction(|sel|, |ds.columns|)
  {
    var n := |ds.columns|;
    if n == 0 then Failure(ZeroDivisionError)
    else
      var chosen := if best.Some? then best.value else FallbackIndividual(n);
      var selected := SelectedColumns(ds.columns, chosen);
      var correlations := RelevanceScores(ds, selected);
      var avg := if correlations == [] then 0.0 else (MeanOfFractions(correlations); Mean(correlations));
      var redundancy := if |selected| > 1 then Redundancy(ds, selected) else Num(0.0);
      Success(Report(selected, |selected|, bestFitness, avg, redundancy, history, Reduction(|selected|, n), n, cfg))
  }

  /**
    After any number of generations from a fresh start, the history never
    decreases and ends at `best_fitness`; `best_individual` scores
    `best_fitness`, and it is None exactly when nothing evaluated scored
    above 0.0, in which case the result selects the first min(5, n) columns.
   */
  lemma BestIsTracked(ds: Dataset, cfg: Config, pop: seq<Individual>, draws: seq<GenerationDraws>, g: nat, history: seq<real>)
    requires Ready(cfg, |ds.columns|, Start(pop))
    requires |draws| >= g
    ensures var e := Generations(ds, cfg, Start(pop), draws, g);
      && NonDecreasing(e.history)
      && (e.history != [] ==> e.history[|e.history| - 1] == e.bestFitness)
      && (e.best.Some? ==> |e.best.value| == |ds.columns| && CorrelationFitness(ds, e.best.value) == e.bestFitness > 0.0)
      && (e.best.None? <==> NothingScoredIn(ds, cfg, pop, draws, g))
      && (e.best.None? && |ds.columns| > 0 ==>
            var m := if |ds.columns| < 5 then |ds.columns| else 5;
            Results(ds, e.best, e.bestFitness, history, cfg).value.selectedFeatures == ds.columns[..m])
  {
    var n := |ds.columns|;
    GenerationStepKeepsState(ds, cfg);
    EvolveKeepsInvariant(GenerationStep(ds, cfg), FitnessFn(ds), cfg, n, Start(pop), draws, g);
    NoBestIffNothingScored(GenerationStep(ds, cfg), FitnessFn(ds), cfg, n, pop, draws, g);
    var e := Generations(ds, cfg, Start(pop), draws, g);
    if e.best.Some? {
      assert FitnessOf(ds, e.best.value) == CorrelationFitness(ds, e.best.value);
    }
    FallbackSelectsFirstColumns(ds.columns);
  }

  // ------------------------------------------------------------------ selector

  class GeneticFeatureSelector {
    const populationSize: nat
    const generations: nat
    const crossoverProb: real
    const mutationProb: real
    const tournamentSize: int
    /** Created once by the constructor: every `run` on this object appends to it. */
    var fitnessHistory: seq<real>

    constructor(populationSize: nat, generations: nat, crossoverProb: real, mutationProb: real, tournamentSize: int)
      ensures this.populationSize == populationSize && this.generations == generations
      ensures this.crossoverProb == crossoverProb && this.mutationProb == mutationProb
      ensures this.tournamentSize == tournamentSize
      ensures fitnessHistory == []
    {
      this.populationSize := populationSize;
      this.generations := generations;
      this.crossoverProb := crossoverProb;
      this.mutationProb := mutationProb;
      this.tournamentSize := tournamentSize;
      fitnessHistory := [];
    }

    function Settings(): Config {
      Config(populationSize, generations, crossoverProb, mutationProb, tournamentSize)
    }

    /**
      Generation `g` of the loop in `run`: evaluate the population, keep the
      better of the current and the previous best, append the best fitness
      to `fitnessHistory`, then select and breed. An empty population fails
      in `np.argmax` before anything is appended.
     */
    method Generation(ds: Dataset, population: seq<Individual>, best: Option<Individual>, bestFitness: real,
                      ghost history: seq<real>, ghost start: Progress, draws: seq<GenerationDraws>, g: nat)
      returns (next: Result<seq<Individual>, GaError>, newBest: Option<Individual>, newBestFitness: real, ghost logged: seq<real>)
      requires Ready(Settings(), |ds.columns|, start)
      requires g < |draws| && AllDrawsFit(draws, Settings(), |ds.columns|)
      requires Generations(ds, Settings(), start, draws, g) == Progress(population, best, bestFitness, history, None)
      modifies this`fitnessHistory
      ensures fitnessHistory == old(fitnessHistory) + logged
      ensures Generations(ds, Settings(), start, draws, g + 1)
        == Progress(if next.Success? then next.value else population, newBest, newBestFitness, history + logged,
                    if next.Success? then None else Some(next.error))
    {
      ghost var before := Progress(population, best, bestFitness, history, None);
      GenerationStepKeepsState(ds, Settings());
      assert Generations(ds, Settings(), start, draws, g + 1)
          == Step(FitnessFn(ds), Breeding(Mutation(mutationProb), Settings(), |ds.columns|), before, draws[g]);
      var fitnessScores := EvaluatePopulation(ds, population);
      if |population| == 0 {
        return Failure(ValueError), best, bestFitness, [];
      }
      ghost var recorded := Record(before, fitnessScores);
      var (currentBest, currentBestFitness) := GetBestIndividual(population, fitnessScores);
      newBest, newBestFitness := best, bestFitness;
      if currentBestFitness > bestFitness {
        newBest, newBestFitness := Some(currentBest), currentBestFitness;
      }
      fitnessHistory := fitnessHistory + [newBestFitness];
      logged := [newBestFitness];
      assert recorded == Progress(population, newBest, newBestFitness, history + logged, None);
      next := NextGeneration(population, fitnessScores, Settings(), Mutation(mutationProb), draws[g], |ds.columns|);
    }

    /**
      `run(X, y)`: appends one entry per generation to `fitnessHistory`
      (fewer if an exception ends the loop) and reports the best individual
      together with the whole history field, earlier runs included.
     */
    method Run(ds: Dataset, bits: seq<seq<Bit>>, draws: seq<GenerationDraws>) returns (r: Result<Report, GaError>)
      requires |bits| >= populationSize && forall i :: 0 <= i < |bits| ==> |bits[i]| >= |ds.columns|
      requires |draws| >= generations && AllDrawsFit(draws, Settings(), |ds.columns|)
      modifies this`fitnessHistory
      ensures var e := Generations(ds, Settings(), Start(InitialPopulation(populationSize, |ds.columns|, bits)), draws, generations);
        && fitnessHistory == old(fitnessHistory) + e.history
        && r == if e.error.Some? then Failure(e.error.value) else Results(ds, e.best, e.bestFitness, fitnessHistory, Settings())
    {
      var n := |ds.columns|;
      var population := InitialPopulation(populationSize, n, bits);
      var best: Option<Individual> := None;
      var bestFitness := 0.0;
      ghost var start := Start(population);
      ghost var history: seq<real> := [];
      var g := 0;
      while g < generations
        invariant 0 <= g <= generations
        invariant fitnessHistory == old(fitnessHistory) + history
        invariant Generations(ds, Settings(), start, draws, g) == Progress(population, best, bestFitness, history, None)
      {
        var next;
        ghost var logged;
        next, best, bestFitness, logged := Generation(ds, population, best, bestFitness, history, start, draws, g);
        AppendAssociative(old(fitnessHistory), history, logged);
        history := history + logged;
        if next.Failure? {
          GenerationStepKeepsState(ds, Settings());
          ErrorPersists(GenerationStep(ds, Settings()), Settings(), n, start, draws, g + 1, generations);
          return Failure(next.error);
        }
        population := next.value;
        g := g + 1;
      }
      r := Results(ds, best, bestFitness, fitnessHistory, Settings());
    }
  }
}
