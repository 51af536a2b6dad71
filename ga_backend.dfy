/**
  The live `GeneticFeatureSelector` of the backend: initialisation biased to
  small subsets with at least one bit set, exclusion of identifier-like
  columns, the shared `calculate_fitness`, a mutation that removes features
  with probability 0.6 and adds them otherwise, and a generation loop that
  appends the best fitness so far to the `fitness_history` field.
 */
module BackendGa {
  import opened Wrappers
  import opened Text
  import opened Lists
  import opened Frames
  import opened Fitness
  import opened Ranking
  import opened GaOperators
  import opened GaEvolution

  // ------------------------------------------------------------ feature filter

  const ExcludePatterns: seq<string> := ["id", "ID", "Id", "patient", "sample"]

  /**
    `_should_exclude_feature`: some pattern occurs in the lower-cased name.
    The patterns "ID" and "Id" hold an upper-case letter and so can never
    occur in a lower-cased name; only "id", "patient" and "sample" matter.
   */
  function ShouldExcludeFeature(name: string): (r: bool)
    ensures r <==> Contains(Lower(name), "id") || Contains(Lower(name), "patient") || Contains(Lower(name), "sample")
  {
    var lowered := Lower(name);
    PatternCases(name);
    exists k :: 0 <= k < |ExcludePatterns| && Contains(lowered, ExcludePatterns[k])
  }

  lemma PatternCases(name: string)
    ensures (exists k :: 0 <= k < |ExcludePatterns| && Contains(Lower(name), ExcludePatterns[k]))
      <==> Contains(Lower(name), "id") || Contains(Lower(name), "patient") || Contains(Lower(name), "sample")
  {
    var lowered := Lower(name);
    if exists k :: 0 <= k < |ExcludePatterns| && Contains(lowered, ExcludePatterns[k]) {
      var k :| 0 <= k < |ExcludePatterns| && Contains(lowered, ExcludePatterns[k]);
      NoUpperPatternInLowered(name, "ID", 0);
      NoUpperPatternInLowered(name, "Id", 0);
      assert k == 0 || k == 3 || k == 4;
    }
    assert Contains(lowered, "id") ==> Contains(lowered, ExcludePatterns[0]);
    assert Contains(lowered, "patient") ==> Contains(lowered, ExcludePatterns[3]);
    assert Contains(lowered, "sample") ==> Contains(lowered, ExcludePatterns[4]);
  }

  function KeepFeature(name: string): bool {
    !ShouldExcludeFeature(name)
  }

  /** The selected columns that are not excluded, in column order. */
  function UsableColumns(ds: Dataset, ind: Individual): (r: seq<string>)
    requires |ind| == |ds.columns|
    ensures ds.Covers(r) && IsSubsequence(r, ds.columns)
    ensures forall f :: f in r ==> !ShouldExcludeFeature(f)
    ensures forall i :: 0 <= i < |ind| && ind[i] == 1 && !ShouldExcludeFeature(ds.columns[i]) ==> ds.columns[i] in r
  {
    var selected := SelectedColumns(ds.columns, ind);
    var r := Filter(selected, KeepFeature);
    FilterIsSubsequence(selected, KeepFeature);
    SubsequenceTransitive(r, selected, ds.columns);
    forall i | 0 <= i < |ind| && ind[i] == 1 && !ShouldExcludeFeature(ds.columns[i])
      ensures ds.columns[i] in r
    {
      FilterKeeps(selected, KeepFeature, ds.columns[i]);
    }
    r
  }

  /**
    `_fitness`: 0.0 for an empty individual and for one whose every selected
    column is excluded; otherwise `calculate_fitness` on the usable columns.
   */
  function IndividualFitness(ds: Dataset, ind: Individual): (r: real)
    requires |ind| == |ds.columns|
    ensures r >= 0.0
    ensures Ones(ind) == 0 || UsableColumns(ds, ind) == [] ==> r == 0.0
    ensures UsableColumns(ds, ind) != [] ==> r == CalculateFitness(ds, UsableColumns(ds, ind))
  {
    if Ones(ind) == 0 then 0.0
    else
      var valid := UsableColumns(ds, ind);
      if valid == [] then 0.0 else CalculateFitness(ds, valid)
  }

  /** An individual that selects no usable column scores 0 whatever the data. */
  lemma ExcludedOnlyScoresZero(ds: Dataset, ind: Individual)
    requires |ind| == |ds.columns|
    requires forall i :: 0 <= i < |ind| && ind[i] == 1 ==> ShouldExcludeFeature(ds.columns[i])
    ensures IndividualFitness(ds, ind) == 0.0
  {
    var valid := UsableColumns(ds, ind);
    if valid != [] {
      var selected := SelectedColumns(ds.columns, ind);
      assert valid[0] in selected;
      SelectedAreMarked(ds.columns, ind, valid[0]);
      assert false;
    }
  }

  /** A selected column is a column whose bit is 1. */
  lemma {:induction false} SelectedAreMarked(columns: seq<string>, ind: Individual, f: string)
    requires |columns| == |ind| && f in SelectedColumns(columns, ind)
    ensures exists i :: 0 <= i < |ind| && ind[i] == 1 && columns[i] == f
  {
    if columns[0] == f && ind[0] == 1 {
    } else {
      SelectedAreMarked(columns[1..], ind[1..], f);
      var i :| 0 <= i < |ind[1..]| && ind[1..][i] == 1 && columns[1..][i] == f;
      assert ind[i + 1] == 1 && columns[i + 1] == f;
    }
  }

  // ------------------------------------------------------------ initialisation

  /**
    The draws of one initial individual: `random.uniform(0.1, 0.3)`, one
    `random.random()` per column and the `random.randint(0, n - 1)` used
    when no column was chosen.
   */
  datatype InitDraw = InitDraw(threshold: real, coins: seq<real>, pick: int)

  predicate InitDrawFits(d: InitDraw, n: nat) {
    && 0.1 <= d.threshold <= 0.3
    && |d.coins| >= n
    && (forall j :: 0 <= j < |d.coins| ==> 0.0 <= d.coins[j] < 1.0)
    && (n > 0 ==> 0 <= d.pick < n)
  }

  predicate InitDrawsFit(draws: seq<InitDraw>, popSize: nat, n: nat) {
    |draws| >= popSize && forall i :: 0 <= i < |draws| ==> InitDrawFits(draws[i], n)
  }

  /**
    One individual of `_initialize_population`: a column is chosen when its
    coin falls below the threshold; when none is, the picked one is set.
    With no columns at all, `randint(0, -1)` raises ValueError.
   */
  function InitialIndividual(n: nat, d: InitDraw): (r: Result<Individual, GaError>)
    requires InitDrawFits(d, n)
    ensures r.Failure? <==> n == 0
    ensures r.Success? ==> |r.value| == n && Ones(r.value) >= 1
    ensures r.Success? ==> forall j :: 0 <= j < n && d.coins[j] < d.threshold ==> r.value[j] == 1
    ensures r.Success? ==> forall j :: 0 <= j < n && d.coins[j] >= d.threshold && j != d.pick ==> r.value[j] == 0
  {
    var bits: Individual := seq(n, j requires 0 <= j < n => if d.coins[j] < d.threshold then 1 else 0);
    if Ones(bits) == 0 then
      if n == 0 then Failure(ValueError)
      else
        var r := bits[d.pick := 1];
        assert r[d.pick] == 1;
        Success(r)
    else Success(bits)
  }

  function InitialPopulation(popSize: nat, n: nat, draws: seq<InitDraw>): (r: Result<seq<Individual>, GaError>)
    requires InitDrawsFit(draws, popSize, n)
    ensures r.Failure? <==> popSize > 0 && n == 0
    ensures r.Success? ==> |r.value| == popSize && SameLength(r.value, n)
    ensures r.Success? ==> forall i :: 0 <= i < popSize ==> Ones(r.value[i]) >= 1 && r.value[i] == InitialIndividual(n, draws[i]).value
  {
    if popSize > 0 && n == 0 then Failure(ValueError)
    else Success(seq(popSize, i requires 0 <= i < popSize => InitialIndividual(n, draws[i]).value))
  }

  /** `_initialize_population` */
  method InitializePopulation(popSize: nat, n: nat, draws: seq<InitDraw>) returns (r: Result<seq<Individual>, GaError>)
    requires InitDrawsFit(draws, popSize, n)
    ensures r == InitialPopulation(popSize, n, draws)
  {
    var population: seq<Individual> := [];
    var i := 0;
    while i < popSize
      invariant 0 <= i <= popSize && |population| == i
      invariant i > 0 ==> n > 0
      invariant forall k :: 0 <= k < i ==> population[k] == InitialIndividual(n, draws[k]).value
    {
      var individual := InitialIndividual(n, draws[i]);
      if individual.Failure? {
        return Failure(individual.error);
      }
      population := population + [individual.value];
      i := i + 1;
    }
    if popSize > 0 {
      assert population == InitialPopulation(popSize, n, draws).value;
    }
    return Success(population);
  }

  // ------------------------------------------------------------------ mutation

  /**
    One position of `_mutate`: when the first draw falls below `prob`, a 1
    becomes 0 if the second draw is below 0.6, and every other case sets 1.
   */
  function MutateBit(b: Bit, prob: real, d: MutationDraw): (r: Bit)
    ensures d.flip >= prob ==> r == b
    ensures r != b <==> d.flip < prob && (b == 0 || d.clear < 0.6)
    ensures b == 0 && d.flip < prob ==> r == 1
  {
    if d.flip < prob then
      if b == 1 && d.clear < 0.6 then 0 else 1
    else b
  }

  /** The per-position rule of this revision, as the generation loop takes it. */
  function Mutation(prob: real): (Bit, MutationDraw) -> Bit {
    (b, d) => MutateBit(b, prob, d)
  }

  /** `_mutate`: a copy updated position by position. */
  method Mutate(ind: Individual, prob: real, draws: seq<MutationDraw>) returns (mutated: Individual)
    requires |draws| >= |ind|
    ensures mutated == Mutated(ind, Mutation(prob), draws)
  {
    mutated := ind;
    var i := 0;
    while i < |mutated|
      invariant 0 <= i <= |mutated| == |ind|
      invariant forall k :: 0 <= k < i ==> mutated[k] == MutateBit(ind[k], prob, draws[k])
      invariant forall k :: i <= k < |ind| ==> mutated[k] == ind[k]
    {
      if draws[i].flip < prob {
        if mutated[i] == 1 && draws[i].clear < 0.6 {
          mutated := mutated[i := 0];
        } else {
          mutated := mutated[i := 1];
        }
      }
      i := i + 1;
    }
  }

  // ---------------------------------------------------------------- generations


  /** `_fitness` as the generation loop takes it; an individual of the wrong length never reaches it. */
  function FitnessOf(ds: Dataset, ind: Individual): real {
    if |ind| == |ds.columns| then IndividualFitness(ds, ind) else 0.0
  }

  function FitnessFn(ds: Dataset): Individual -> real {
    ind => FitnessOf(ds, ind)
  }

  lemma FitnessIsNonNegative(ds: Dataset)
    ensures NonNegativeFitness(FitnessFn(ds))
  {
    forall ind ensures FitnessFn(ds)(ind) >= 0.0 {
      if |ind| == |ds.columns| {
        assert FitnessOf(ds, ind) == IndividualFitness(ds, ind);
      }
    }
  }

  /** `_evaluate_population` scores every individual with `_fitness`. */
  lemma PopulationScores(ds: Dataset, pop: seq<Individual>)
    requires SameLength(pop, |ds.columns|)
    ensures |Scores(FitnessFn(ds), pop)| == |pop|
    ensures forall i :: 0 <= i < |pop| ==> Scores(FitnessFn(ds), pop)[i] == IndividualFitness(ds, pop[i]) >= 0.0
  {
  }

  /** A generation of this revision: `_fitness` evaluates, this revision's `_mutate` breeds. */
  function GenerationStep(ds: Dataset, cfg: Config): Stepper {
    Stepping(FitnessFn(ds), Breeding(Mutation(cfg.mutationProb), cfg, |ds.columns|))
  }

  lemma GenerationStepKeepsState(ds: Dataset, cfg: Config)
    ensures Steady(GenerationStep(ds, cfg), cfg, |ds.columns|)
    ensures Tracking(GenerationStep(ds, cfg), FitnessFn(ds), cfg, |ds.columns|)
  {
    BreedingKeepsShape(Mutation(cfg.mutationProb), cfg, |ds.columns|);
    SteppingIsSteady(FitnessFn(ds), Breeding(Mutation(cfg.mutationProb), cfg, |ds.columns|), cfg, |ds.columns|);
    FitnessIsNonNegative(ds);
    SteppingTracks(FitnessFn(ds), Breeding(Mutation(cfg.mutationProb), cfg, |ds.columns|), cfg, |ds.columns|);
  }

  /** The state of `run` after `g` generations of this revision. */
  function Generations(ds: Dataset, cfg: Config, s0: Progress, draws: seq<GenerationDraws>, g: nat): (r: Progress)
    requires Ready(cfg, |ds.columns|, s0) && |draws| >= g
    ensures BestFits(|ds.columns|, s0) ==> BestFits(|ds.columns|, r)
    ensures r.error.None? ==> |r.history| == |s0.history| + g
  {
    GenerationStepKeepsState(ds, cfg);
    Evolve(GenerationStep(ds, cfg), cfg, |ds.columns|, s0, draws, g)
  }

  /** No individual evaluated in the first `g` generations of this revision scored above 0.0. */
  ghost predicate NothingScoredIn(ds: Dataset, cfg: Config, pop: seq<Individual>, draws: seq<GenerationDraws>, g: nat)
    requires Ready(cfg, |ds.columns|, Start(pop)) && |draws| >= g
  {
    GenerationStepKeepsState(ds, cfg);
    NothingScored(GenerationStep(ds, cfg), FitnessFn(ds), cfg, |ds.columns|, pop, draws, g)
  }

  /**
    After any number of generations from a fresh start, the history never
    decreases, ends at `best_fitness`, and `best_individual` is an individual
    whose `_fitness` is `best_fitness`; it is None exactly when nothing
    evaluated scored above 0.0.
   */
  lemma BestIsTracked(ds: Dataset, cfg: Config, pop: seq<Individual>, draws: seq<GenerationDraws>, g: nat)
    requires Ready(cfg, |ds.columns|, Start(pop))
    requires |draws| >= g
    ensures var e := Generations(ds, cfg, Start(pop), draws, g);
      && NonDecreasing(e.history)
      && (e.history != [] ==> e.history[|e.history| - 1] == e.bestFitness)
      && (e.best.Some? ==> |e.best.value| == |ds.columns| && IndividualFitness(ds, e.best.value) == e.bestFitness > 0.0)
      && (e.best.None? <==> e.bestFitness == 0.0)
      && (e.best.None? <==> NothingScoredIn(ds, cfg, pop, draws, g))
  {
    var n := |ds.columns|;
    GenerationStepKeepsState(ds, cfg);
    EvolveKeepsInvariant(GenerationStep(ds, cfg), FitnessFn(ds), cfg, n, Start(pop), draws, g);
    NoBestIffNothingScored(GenerationStep(ds, cfg), FitnessFn(ds), cfg, n, pop, draws, g);
    var e := Generations(ds, cfg, Start(pop), draws, g);
    if e.best.Some? {
      assert FitnessOf(ds, e.best.value) == IndividualFitness(ds, e.best.value);
    }
  }

  // -------------------------------------------------------------------- result

  /** The items of `results` that `run` returns (the fixed 'method' label aside). */
  datatype GaReport = GaReport(
    selectedFeatures: seq<string>,
    numFeatures: nat,
    fitnessScore: real,
    featureReduction: real,
    totalOriginalFeatures: nat)

  /** The sort key of the fallback: |corr(col, y)|, with an undefined correlation ranked last. */
  function FallbackScores(ds: Dataset): (r: seq<real>)
    ensures |r| == |ds.columns|
    ensures forall i :: 0 <= i < |r| ==> r[i] == match AbsF(ds.targetCorr(ds.columns[i])) case Num(v) => v case NaN => -1.0
  {
    seq(|ds.columns|, i requires 0 <= i < |ds.columns| =>
      match AbsF(ds.targetCorr(ds.columns[i])) case Num(v) => v case NaN => -1.0)
  }

  /**
    The five columns most correlated with the target, most correlated first:
    the first min(5, n) names of the stable descending sort, so by
    Ranking.TopOutranksRest every name kept ranks before every name left out.
   */
  function FallbackFeatures(ds: Dataset): (r: seq<string>)
    ensures |r| == if |ds.columns| < 5 then |ds.columns| else 5
    ensures ds.Covers(r)
    ensures r == TopByScore(ds.columns, FallbackScores(ds), 5)
  {
    var r := TopByScore(ds.columns, FallbackScores(ds), 5);
    assert forall k :: 0 <= k < |r| ==> r[k] == ds.columns[Rank(FallbackScores(ds))[k]];
    r
  }

  /** The features `run` reports: the best individual's usable columns, or the fallback when there is none. */
  function FinalSelection(ds: Dataset, best: Option<Individual>): (r: seq<string>)
    requires best.Some? ==> |best.value| == |ds.columns|
    ensures ds.Covers(r) && |r| <= |ds.columns|
    ensures best.Some? ==> IsSubsequence(r, ds.columns) && forall f :: f in r ==> !ShouldExcludeFeature(f)
    ensures best.Some? ==> r == UsableColumns(ds, best.value)
    ensures best.None? ==> r == FallbackFeatures(ds)
  {
    if best.None? then FallbackFeatures(ds)
    else
      var r := UsableColumns(ds, best.value);
      SubsequenceLength(r, ds.columns);
      r
  }

  /**
    The result dictionary: the count of the selection, its fitness under
    `calculate_fitness` and the reduction (1 - k / n) * 100. With no columns
    that division raises ZeroDivisionError.
   */
  function Report(ds: Dataset, best: Option<Individual>): (r: Result<GaReport, GaError>)
    requires best.Some? ==> |best.value| == |ds.columns|
    ensures r.Failure? <==> |ds.columns| == 0
    ensures r.Success? ==> var sel := FinalSelection(ds, best);
      && r.value.selectedFeatures == sel
      && r.value.numFeatures == |sel|
      && r.value.fitnessScore == CalculateFitness(ds, sel)
      && r.value.totalOriginalFeatures == |ds.columns|
      && r.value.featureReduction == Reduction(|sel|, |ds.columns|)
  {
    var selected := FinalSelection(ds, best);
    var n := |ds.columns|;
    if n == 0 then Failure(ZeroDivisionError)
    else
      Success(GaReport(selected, |selected|, CalculateFitness(ds, selected), Reduction(|selected|, n), n))
  }

  /** `feature_reduction`: the percentage of the n columns left out when k are kept. */
  function Reduction(k: nat, n: nat): (r: real)
    requires 0 < n && k <= n
    ensures 0.0 <= r <= 100.0
    ensures k == 0 <==> r == 100.0
    ensures k == n <==> r == 0.0
  {
    assert k as real / n as real <= 1.0;
    (1.0 - k as real / n as real) * 100.0
  }

  /** The tail of `run`: the final selection, its fitness and the result dictionary. */
  method Results(ds: Dataset, best: Option<Individual>) returns (r: Result<GaReport, GaError>)
    requires best.Some? ==> |best.value| == |ds.columns|
    ensures r == Report(ds, best)
  {
    var n := |ds.columns|;
    var selectedFeatures: seq<string>;
    if best.None? {
      selectedFeatures := FallbackFeatures(ds);
    } else {
      selectedFeatures := UsableColumns(ds, best.value);
    }
    assert selectedFeatures == FinalSelection(ds, best);
    var finalFitness := CalculateFitness(ds, selectedFeatures);
    if n == 0 {
      return Failure(ZeroDivisionError);
    }
    r := Success(GaReport(selectedFeatures, |selectedFeatures|, finalFitness,
                          (1.0 - |selectedFeatures| as real / n as real) * 100.0, n));
    assert r.value.featureReduction == Reduction(|selectedFeatures|, n);
  }

  // ------------------------------------------------------------------ selector

  class GeneticFeatureSelector {
    const populationSize: nat
    const generations: nat
    const crossoverProb: real
    const mutationProb: real
    const tournamentSize: int
    /** One entry per generation of every `run` on this object. */
    var fitnessHistory: seq<real>

    constructor(populationSize: nat, generations: nat, crossoverProb: real, mutationProb: real, tournamentSize: int)
      ensures this.populationSize == populationSize && this.generations == generations
      ensures this.crossoverProb == crossoverProb && this.mutationProb == mutationProb
      ensures this.tournamentSize == tournamentSize
      ensures fitnessHistory == []
    {
      this.populationSize := populationSize;
      this.generations := generations;
      this.crossoverProb := crossoverProb;
      this.mutationProb := mutationProb;
      this.tournamentSize := tournamentSize;
      fitnessHistory := [];
    }

    function Settings(): Config {
      Config(populationSize, generations, crossoverProb, mutationProb, tournamentSize)
    }

    /**
      `run(X, y)`: appends one entry per generation to `fitnessHistory`
      (fewer if an exception ends the loop) and returns the report of the
      best individual found.
     */
    method Run(ds: Dataset, initDraws: seq<InitDraw>, draws: seq<GenerationDraws>) returns (r: Result<GaReport, GaError>)
      requires InitDrawsFit(initDraws, populationSize, |ds.columns|)
      requires |draws| >= generations && AllDrawsFit(draws, Settings(), |ds.columns|)
      modifies this`fitnessHistory
      ensures var init := InitialPopulation(populationSize, |ds.columns|, initDraws);
        && (init.Failure? ==> r == Failure(init.error) && fitnessHistory == old(fitnessHistory))
        && (init.Success? ==>
              var e := Generations(ds, Settings(), Start(init.value), draws, generations);
              && fitnessHistory == old(fitnessHistory) + e.history
              && r == if e.error.Some? then Failure(e.error.value) else Report(ds, e.best))
    {
      var n := |ds.columns|;
      var init := InitializePopulation(populationSize, n, initDraws);
      if init.Failure? {
        return Failure(init.error);
      }
      var best, error := Evolution(ds, init.value, draws);
      if error.Some? {
        return Failure(error.value);
      }
      r := Results(ds, best);
    }

    /**
      Generation `g` of the loop in `run`: evaluate the population, keep the
      better of the current and the previous best, append the best fitness
      to `fitnessHistory`, then select and breed. An empty population fails
      in `np.argmax` before anything is appended.
     */
    method Generation(ds: Dataset, population: seq<Individual>, best: Option<Individual>, bestFitness: real,
                      ghost history: seq<real>, ghost start: Progress, draws: seq<GenerationDraws>, g: nat)
      returns (next: Result<seq<Individual>, GaError>, newBest: Option<Individual>, newBestFitness: real, ghost logged: seq<real>)
      requires Ready(Settings(), |ds.columns|, start)
      requires g < |draws| && AllDrawsFit(draws, Settings(), |ds.columns|)
      requires Generations(ds, Settings(), start, draws, g) == Progress(population, best, bestFitness, history, None)
      modifies this`fitnessHistory
      ensures fitnessHistory == old(fitnessHistory) + logged
      ensures Generations(ds, Settings(), start, draws, g + 1)
        == Progress(if next.Success? then next.value else population, newBest, newBestFitness, history + logged,
                    if next.Success? then None else Some(next.error))
    {
      ghost var before := Progress(population, best, bestFitness, history, None);
      GenerationStepKeepsState(ds, Settings());
      assert Generations(ds, Settings(), start, draws, g + 1)
          == Step(FitnessFn(ds), Breeding(Mutation(mutationProb), Settings(), |ds.columns|), before, draws[g]);
      var scores := Scores(FitnessFn(ds), population);
      if |population| == 0 {
        return Failure(ValueError), best, bestFitness, [];
      }
      ghost var recorded := Record(before, scores);
      var (current, currentFitness) := GetBestIndividual(population, scores);
      newBest, newBestFitness := best, bestFitness;
      if currentFitness > bestFitness {
        newBest, newBestFitness := Some(current), currentFitness;
      }
      fitnessHistory := fitnessHistory + [newBestFitness];
      logged := [newBestFitness];
      assert recorded == Progress(population, newBest, newBestFitness, history + logged, None);
      next := NextGeneration(population, scores, Settings(), Mutation(mutationProb), draws[g], |ds.columns|);
    }

    /**
      The generation loop of `run`, from the initial population: the best
      individual found, or the exception that ended the loop.
     */
    method Evolution(ds: Dataset, initial: seq<Individual>, draws: seq<GenerationDraws>)
      returns (best: Option<Individual>, error: Option<GaError>)
      requires Ready(Settings(), |ds.columns|, Start(initial))
      requires |draws| >= generations && AllDrawsFit(draws, Settings(), |ds.columns|)
      modifies this`fitnessHistory
      ensures var e := Generations(ds, Settings(), Start(initial), draws, generations);
        && fitnessHistory == old(fitnessHistory) + e.history
        && best == e.best && error == e.error
    {
      var n := |ds.columns|;
      var population := initial;
      best := None;
      var bestFitness := 0.0;
      ghost var start := Start(population);
      ghost var history: seq<real> := [];
      var g := 0;
      while g < generations
        invariant 0 <= g <= generations
        invariant fitnessHistory == old(fitnessHistory) + history
        invariant Generations(ds, Settings(), start, draws, g) == Progress(population, best, bestFitness, history, None)
      {
        var next;
        ghost var logged;
        next, best, bestFitness, logged := Generation(ds, population, best, bestFitness, history, start, draws, g);
        AppendAssociative(old(fitnessHistory), history, logged);
        history := history + logged;
        if next.Failure? {
          GenerationStepKeepsState(ds, Settings());
          ErrorPersists(GenerationStep(ds, Settings()), Settings(), n, start, draws, g + 1, generations);
          return best, Some(next.error);
        }
        population := next.value;
        g := g + 1;
      }
      error := None;
    }
  }
}
