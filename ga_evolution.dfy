/**
  The generation loop of `GeneticFeatureSelector.run`, common to both
  revisions: each generation evaluates the population, records the best
  individual so far, appends the best fitness to the history, and breeds the
  next population by tournament selection, shuffling, pairwise crossover and
  mutation. The revisions differ only in their fitness function and their
  per-bit mutation, which are parameters here.
 */
module GaEvolution {
  import opened Wrappers
  import opened Ranking
  import opened GaOperators

  /** The `random.random()` values a mutation draws at one position. */
  datatype MutationDraw = MutationDraw(flip: real, clear: real)

  /** Everything one generation draws after evaluating its population. */
  datatype GenerationDraws = GenerationDraws(
    samples: seq<seq<nat>>,
    perm: seq<nat>,
    crossovers: seq<CrossoverDraw>,
    mutations: seq<seq<MutationDraw>>)

  /** The draws `_create_offspring` consumes: a shuffle, one crossover per pair, one mutation per child and column. */
  predicate BreedDrawsFit(d: GenerationDraws, popSize: nat, n: nat) {
    && IsPermutation(d.perm, popSize)
    && CrossoverDrawsFit(d.crossovers, popSize / 2, n)
    && |d.mutations| >= popSize
    && (forall k :: 0 <= k < |d.mutations| ==> |d.mutations[k]| >= n)
  }

  predicate DrawsFit(d: GenerationDraws, popSize: nat, n: nat, size: int) {
    SamplesFit(d.samples, size, popSize) && BreedDrawsFit(d, popSize, n)
  }

  /** The constructor arguments of `GeneticFeatureSelector` that the generation loop reads. */
  datatype Config = Config(
    populationSize: nat,
    generations: nat,
    crossoverProb: real,
    mutationProb: real,
    tournamentSize: int)

  /**
    The state of `run` between generations: the current population, the best
    individual and fitness so far, the fitness history this run appended,
    and the exception that ended the loop, if one did.
   */
  datatype Progress = Progress(
    population: seq<Individual>,
    best: Option<Individual>,
    bestFitness: real,
    history: seq<real>,
    error: Option<GaError>)

  /** `best_individual, best_fitness = None, 0.0` before the first generation. */
  function Start(population: seq<Individual>): Progress {
    Progress(population, None, 0.0, [], None)
  }

  predicate NonDecreasing(xs: seq<real>) {
    forall i, j :: 0 <= i <= j < |xs| ==> xs[i] <= xs[j]
  }

  /**
    What the best-so-far bookkeeping keeps true: the history is
    non-decreasing, never negative and ends with the best fitness, and there
    is a best individual exactly when the best fitness rose above 0.0.
   */
  predicate Tracks(s: Progress) {
    && NonDecreasing(s.history)
    && s.bestFitness >= 0.0
    && (forall k :: 0 <= k < |s.history| ==> 0.0 <= s.history[k] <= s.bestFitness)
    && (s.history != [] ==> s.history[|s.history| - 1] == s.bestFitness)
    && (s.best.None? <==> s.bestFitness == 0.0)
  }

  /**
    The start of each generation in `run`: take the fittest individual of
    the population (`_get_best_individual`), adopt it if it beats the best
    so far, and append the best fitness to the history.
   */
  function Record(s: Progress, scores: seq<real>): (r: Progress)
    requires |scores| == |s.population| > 0
    ensures r.population == s.population && r.error == s.error
    ensures r.history == s.history + [r.bestFitness]
    ensures r.bestFitness >= s.bestFitness
    ensures || (r.best == s.best && r.bestFitness == s.bestFitness)
            || (r.best == Some(s.population[ArgMax(scores)]) && r.bestFitness == scores[ArgMax(scores)] > s.bestFitness)
  {
    var (current, currentFitness) := GetBestIndividual(s.population, scores);
    if currentFitness > s.bestFitness then
      s.(best := Some(current), bestFitness := currentFitness, history := s.history + [currentFitness])
    else
      s.(history := s.history + [s.bestFitness])
  }

  /** The recorded best is at least every score of the generation, and the bookkeeping holds on. */
  lemma RecordKeepsTracks(s: Progress, scores: seq<real>)
    requires |scores| == |s.population| > 0
    ensures forall i :: 0 <= i < |scores| ==> scores[i] <= Record(s, scores).bestFitness
    ensures Tracks(s) && (forall i :: 0 <= i < |scores| ==> scores[i] >= 0.0) ==> Tracks(Record(s, scores))
  {
  }

  // ----------------------------------------------------------------- offspring

  /** `_mutate` with the per-position rule of a revision. */
  function Mutated(ind: Individual, mutateBit: (Bit, MutationDraw) -> Bit, draws: seq<MutationDraw>): (r: Individual)
    requires |draws| >= |ind|
    ensures |r| == |ind| && forall i :: 0 <= i < |ind| ==> r[i] == mutateBit(ind[i], draws[i])
  {
    seq(|ind|, i requires 0 <= i < |ind| => mutateBit(ind[i], draws[i]))
  }

  /** `_create_offspring`: shuffle, pair and cross over, then mutate every child. */
  function Offspring(selected: seq<Individual>, crossoverProb: real, mutateBit: (Bit, MutationDraw) -> Bit, d: GenerationDraws, n: nat)
    : (r: Result<seq<Individual>, GaError>)
    requires SameLength(selected, n) && BreedDrawsFit(d, |selected|, n)
    ensures r.Failure? <==> n == 2 && exists k :: 0 <= k < |selected| / 2 && Fires(d.crossovers[k], crossoverProb, n)
    ensures r.Success? ==> |r.value| == |selected| && SameLength(r.value, n)
  {
    var shuffled := Shuffled(selected, d.perm);
    RecombinedFails(shuffled, crossoverProb, d.crossovers, n);
    match Recombined(shuffled, crossoverProb, d.crossovers, n)
    case Failure(e) => Failure(e)
    case Success(children) =>
      Success(seq(|children|, i requires 0 <= i < |children| => Mutated(children[i], mutateBit, d.mutations[i])))
  }

  /** Every child of a pair is its crossover result after mutation. */
  lemma OffspringOfPair(selected: seq<Individual>, crossoverProb: real, mutateBit: (Bit, MutationDraw) -> Bit, d: GenerationDraws, n: nat, k: nat)
    requires SameLength(selected, n) && BreedDrawsFit(d, |selected|, n)
    requires Offspring(selected, crossoverProb, mutateBit, d, n).Success? && k < |selected| / 2
    ensures var shuffled := Shuffled(selected, d.perm);
      var children := Recombined(shuffled, crossoverProb, d.crossovers, n).value;
      && Crossover(shuffled[2 * k], shuffled[2 * k + 1], crossoverProb, d.crossovers[k]) == Success((children[2 * k], children[2 * k + 1]))
      && Offspring(selected, crossoverProb, mutateBit, d, n).value[2 * k] == Mutated(children[2 * k], mutateBit, d.mutations[2 * k])
      && Offspring(selected, crossoverProb, mutateBit, d, n).value[2 * k + 1] == Mutated(children[2 * k + 1], mutateBit, d.mutations[2 * k + 1])
  {
    var shuffled := Shuffled(selected, d.perm);
    RecombinedFails(shuffled, crossoverProb, d.crossovers, n);
    RecombinedPairs(shuffled, crossoverProb, d.crossovers, n, k);
  }

  /**
    `_create_offspring` as a loop: recombine the shuffled pairs, then mutate
    each child in turn with the revision's `_mutate`.
   */
  method CreateOffspring(selected: seq<Individual>, crossoverProb: real, mutateBit: (Bit, MutationDraw) -> Bit,
                         d: GenerationDraws, n: nat)
    returns (r: Result<seq<Individual>, GaError>)
    requires SameLength(selected, n) && BreedDrawsFit(d, |selected|, n)
    ensures r == Offspring(selected, crossoverProb, mutateBit, d, n)
  {
    var shuffled := Shuffled(selected, d.perm);
    var children := Recombine(shuffled, crossoverProb, d.crossovers, n);
    if children.Failure? {
      return Failure(children.error);
    }
    var offspring: seq<Individual> := [];
    var i := 0;
    while i < |children.value|
      invariant 0 <= i <= |children.value| && |offspring| == i
      invariant forall k :: 0 <= k < i ==> offspring[k] == Mutated(children.value[k], mutateBit, d.mutations[k])
    {
      offspring := offspring + [Mutated(children.value[i], mutateBit, d.mutations[i])];
      i := i + 1;
    }
    assert offspring == Offspring(selected, crossoverProb, mutateBit, d, n).value;
    return Success(offspring);
  }

  // ---------------------------------------------------------------- generations

  /** `_evaluate_population` */
  function Scores(fit: Individual -> real, pop: seq<Individual>): (r: seq<real>)
    ensures |r| == |pop| && forall i :: 0 <= i < |pop| ==> r[i] == fit(pop[i])
  {
    seq(|pop|, i requires 0 <= i < |pop| => fit(pop[i]))
  }

  /** Fitness histories grow by concatenation; the loops that extend them need this step spelled out. */
  lemma AppendAssociative(a: seq<real>, b: seq<real>, c: seq<real>)
    ensures (a + b) + c == a + (b + c)
  {
  }

  /** Being a leading part of is transitive. */
  lemma PrefixChain(a: seq<real>, b: seq<real>, c: seq<real>)
    requires |a| <= |b| <= |c| && b[..|a|] == a && c[..|b|] == b
    ensures c[..|a|] == a
  {
    assert c[..|a|] == c[..|b|][..|a|];
  }

  /** Scoring one more individual appends its fitness. */
  lemma ScoresSnoc(fit: Individual -> real, pop: seq<Individual>, i: nat)
    requires i < |pop|
    ensures Scores(fit, pop[..i + 1]) == Scores(fit, pop[..i]) + [fit(pop[i])]
  {
  }

  ghost predicate NonNegativeFitness(fit: Individual -> real) {
    forall ind :: fit(ind) >= 0.0
  }

  /** The population has the configured size and every individual covers the n columns. */
  predicate Ready(cfg: Config, n: nat, s: Progress) {
    s.error.None? && |s.population| == cfg.populationSize && SameLength(s.population, n)
  }

  predicate BestFits(n: nat, s: Progress) {
    s.best.Some? ==> |s.best.value| == n
  }

  /** The best-so-far bookkeeping, with the best individual scoring the best fitness. */
  predicate Invariant(fit: Individual -> real, n: nat, s: Progress) {
    && Tracks(s)
    && BestFits(n, s)
    && (s.best.Some? ==> fit(s.best.value) == s.bestFitness)
  }

  predicate AllDrawsFit(draws: seq<GenerationDraws>, cfg: Config, n: nat) {
    forall k :: 0 <= k < |draws| ==> DrawsFit(draws[k], cfg.populationSize, n, cfg.tournamentSize)
  }

  /**
    Tournament selection followed by `_create_offspring`: the next
    population, or the exception that ends the loop.
   */
  function NextPopulation(mutateBit: (Bit, MutationDraw) -> Bit, cfg: Config, n: nat,
                          pop: seq<Individual>, scores: seq<real>, d: GenerationDraws): (r: Result<seq<Individual>, GaError>)
    requires SameLength(pop, n) && |scores| == |pop| && DrawsFit(d, |pop|, n, cfg.tournamentSize)
    ensures r.Success? ==> |r.value| == |pop| && SameLength(r.value, n)
  {
    match TournamentWinners(pop, scores, cfg.tournamentSize, d.samples)
    case Failure(e) => Failure(e)
    case Success(selected) => Offspring(selected, cfg.crossoverProb, mutateBit, d, n)
  }

  /**
    A generation's breeding fails with ValueError when the tournament size
    does not fit the population, and otherwise exactly when a crossover
    fires on individuals of length 2 (`random.randint(1, 0)`).
   */
  lemma NextPopulationFails(mutateBit: (Bit, MutationDraw) -> Bit, cfg: Config, n: nat,
                            pop: seq<Individual>, scores: seq<real>, d: GenerationDraws)
    requires SameLength(pop, n) && |scores| == |pop| && DrawsFit(d, |pop|, n, cfg.tournamentSize)
    ensures var r := NextPopulation(mutateBit, cfg, n, pop, scores, d);
      && (|pop| > 0 && (cfg.tournamentSize <= 0 || cfg.tournamentSize > |pop|) ==> r == Failure(ValueError))
      && (0 < cfg.tournamentSize <= |pop| ==>
           (r.Failure? <==> n == 2 && exists k :: 0 <= k < |pop| / 2 && Fires(d.crossovers[k], cfg.crossoverProb, n)))
  {
  }

  /** The end of a generation in `run`: tournament selection, then `_create_offspring`. */
  method NextGeneration(population: seq<Individual>, scores: seq<real>, cfg: Config, mutateBit: (Bit, MutationDraw) -> Bit,
                        d: GenerationDraws, n: nat)
    returns (r: Result<seq<Individual>, GaError>)
    requires SameLength(population, n) && |scores| == |population| && DrawsFit(d, |population|, n, cfg.tournamentSize)
    ensures r == NextPopulation(mutateBit, cfg, n, population, scores, d)
  {
    var selected := TournamentSelection(population, scores, cfg.tournamentSize, d.samples);
    if selected.Failure? {
      return Failure(selected.error);
    }
    r := CreateOffspring(selected.value, cfg.crossoverProb, mutateBit, d, n);
  }

  /**
    The breeding half of a generation, handed to the loop as a value:
    tournament selection followed by `_create_offspring`.
   */
  type Breeder = (seq<Individual>, seq<real>, GenerationDraws) -> Result<seq<Individual>, GaError>

  /** `NextPopulation` wherever its draws fit; the random draws of a run always do (see `AllDrawsFit`). */
  function Breed(mutateBit: (Bit, MutationDraw) -> Bit, cfg: Config, n: nat,
                 pop: seq<Individual>, scores: seq<real>, d: GenerationDraws): (r: Result<seq<Individual>, GaError>)
    ensures r.Success? ==> |r.value| == |pop| && SameLength(r.value, n)
    ensures !(SameLength(pop, n) && |scores| == |pop| && DrawsFit(d, |pop|, n, cfg.tournamentSize)) ==> r == Failure(ValueError)
  {
    if SameLength(pop, n) && |scores| == |pop| && DrawsFit(d, |pop|, n, cfg.tournamentSize)
    then NextPopulation(mutateBit, cfg, n, pop, scores, d)
    else Failure(ValueError)
  }

  function Breeding(mutateBit: (Bit, MutationDraw) -> Bit, cfg: Config, n: nat): Breeder {
    (pop, scores, d) => Breed(mutateBit, cfg, n, pop, scores, d)
  }

  /** Bred populations have the size of their parents and individuals of n bits. */
  ghost predicate KeepsShape(breed: Breeder, n: nat) {
    forall pop, scores, d :: SameLength(pop, n) && breed(pop, scores, d).Success? ==>
      |breed(pop, scores, d).value| == |pop| && SameLength(breed(pop, scores, d).value, n)
  }

  lemma BreedingKeepsShape(mutateBit: (Bit, MutationDraw) -> Bit, cfg: Config, n: nat)
    ensures KeepsShape(Breeding(mutateBit, cfg, n), n)
  {
  }

  /**
    One pass of the loop in `run`: evaluate, record the best, append to the
    history, then select and breed the next population. An empty population
    fails in `np.argmax` before anything is recorded.
   */
  function Step(fit: Individual -> real, breed: Breeder, s: Progress, d: GenerationDraws): (r: Progress)
    ensures |s.population| == 0 <==> r == s.(error := Some(ValueError))
    ensures |s.population| > 0 ==> r.history == s.history + [r.bestFitness]
  {
    if |s.population| == 0 then s.(error := Some(ValueError))
    else
      var scores := Scores(fit, s.population);
      var logged := Record(s, scores);
      match breed(s.population, scores, d)
      case Failure(e) => logged.(error := Some(e))
      case Success(next) => logged.(population := next)
  }

  /**
    A generation from a well-formed state: one the loop goes on from is
    well-formed again, the best individual keeps its length, and the
    history gains at most one entry, at its end.
   */
  lemma StepIsSteady(fit: Individual -> real, breed: Breeder, cfg: Config, n: nat, s: Progress, d: GenerationDraws)
    requires Ready(cfg, n, s) && KeepsShape(breed, n)
    ensures var r := Step(fit, breed, s, d);
      && (r.error.None? ==> Ready(cfg, n, r) && |r.history| == |s.history| + 1)
      && (BestFits(n, s) ==> BestFits(n, r))
      && |s.history| <= |r.history| <= |s.history| + 1
      && r.history[..|s.history|] == s.history
  {
    var r := Step(fit, breed, s, d);
    if |s.population| > 0 {
      assert r.history[..|s.history|] == (s.history + [r.bestFitness])[..|s.history|];
    }
  }

  /** A generation keeps the bookkeeping, and finds a best individual exactly when one scored above 0.0. */
  lemma StepKeepsInvariant(fit: Individual -> real, breed: Breeder, cfg: Config, n: nat, s: Progress, d: GenerationDraws)
    requires Ready(cfg, n, s) && KeepsShape(breed, n)
    requires NonNegativeFitness(fit) && Invariant(fit, n, s)
    ensures Invariant(fit, n, Step(fit, breed, s, d))
    ensures Step(fit, breed, s, d).best.None? <==>
      s.best.None? && forall i :: 0 <= i < |s.population| ==> fit(s.population[i]) == 0.0
  {
    if |s.population| > 0 {
      var scores := Scores(fit, s.population);
      var logged := Record(s, scores);
      RecordKeepsTracks(s, scores);
      assert Invariant(fit, n, logged);
    }
  }

  /** A generation of the loop, handed to it as a value. */
  type Stepper = (Progress, GenerationDraws) -> Progress

  function Stepping(fit: Individual -> real, breed: Breeder): Stepper {
    (s, d) => Step(fit, breed, s, d)
  }

  /** What `StepIsSteady` states of every generation. */
  ghost predicate Steady(step: Stepper, cfg: Config, n: nat) {
    forall s, d :: Ready(cfg, n, s) ==>
      && (step(s, d).error.None? ==> Ready(cfg, n, step(s, d)) && |step(s, d).history| == |s.history| + 1)
      && (BestFits(n, s) ==> BestFits(n, step(s, d)))
      && |s.history| <= |step(s, d).history| <= |s.history| + 1
      && step(s, d).history[..|s.history|] == s.history
  }

  /** What `StepKeepsInvariant` states of every generation. */
  ghost predicate Tracking(step: Stepper, fit: Individual -> real, cfg: Config, n: nat) {
    forall s, d :: Ready(cfg, n, s) && Invariant(fit, n, s) ==>
      && Invariant(fit, n, step(s, d))
      && (step(s, d).best.None? <==> s.best.None? && forall i :: 0 <= i < |s.population| ==> fit(s.population[i]) == 0.0)
  }

  lemma SteppingIsSteady(fit: Individual -> real, breed: Breeder, cfg: Config, n: nat)
    requires KeepsShape(breed, n)
    ensures Steady(Stepping(fit, breed), cfg, n)
  {
    forall s, d | Ready(cfg, n, s) {
      StepIsSteady(fit, breed, cfg, n, s, d);
    }
  }

  lemma SteppingTracks(fit: Individual -> real, breed: Breeder, cfg: Config, n: nat)
    requires KeepsShape(breed, n) && NonNegativeFitness(fit)
    ensures Tracking(Stepping(fit, breed), fit, cfg, n)
  {
    forall s, d | Ready(cfg, n, s) && Invariant(fit, n, s) {
      StepKeepsInvariant(fit, breed, cfg, n, s, d);
    }
  }

  /**
    The state after `g` generations. The loop stops at the first exception,
    keeping the history appended before it.
   */
  function Evolve(step: Stepper, cfg: Config, n: nat, s0: Progress, draws: seq<GenerationDraws>, g: nat): (r: Progress)
    requires Ready(cfg, n, s0) && |draws| >= g && Steady(step, cfg, n)
    ensures BestFits(n, s0) ==> BestFits(n, r)
    ensures r.error.None? ==> Ready(cfg, n, r) && |r.history| == |s0.history| + g
    decreases g
  {
    if g == 0 then s0
    else
      var prev := Evolve(step, cfg, n, s0, draws, g - 1);
      if prev.error.Some? then prev else step(prev, draws[g - 1])
  }

  /**
    The history only grows: each generation before an exception appends one
    entry, so after `g` generations it extends the starting history by at
    most `g` entries.
   */
  lemma {:induction false} HistoryGrows(step: Stepper, cfg: Config, n: nat, s0: Progress, draws: seq<GenerationDraws>, g: nat)
    requires Ready(cfg, n, s0) && |draws| >= g && Steady(step, cfg, n)
    ensures var h := Evolve(step, cfg, n, s0, draws, g).history;
      |s0.history| <= |h| <= |s0.history| + g && h[..|s0.history|] == s0.history
  {
    if g > 0 {
      HistoryGrows(step, cfg, n, s0, draws, g - 1);
      var prev := Evolve(step, cfg, n, s0, draws, g - 1);
      if prev.error.None? {
        var r := step(prev, draws[g - 1]);
        assert Evolve(step, cfg, n, s0, draws, g) == r;
        PrefixChain(s0.history, prev.history, r.history);
      }
    }
  }

  /** Every generation keeps the best-so-far bookkeeping. */
  lemma {:induction false} EvolveKeepsInvariant(step: Stepper, fit: Individual -> real, cfg: Config, n: nat,
                                                s0: Progress, draws: seq<GenerationDraws>, g: nat)
    requires Ready(cfg, n, s0) && |draws| >= g && Steady(step, cfg, n)
    requires Tracking(step, fit, cfg, n) && Invariant(fit, n, s0)
    ensures Invariant(fit, n, Evolve(step, cfg, n, s0, draws, g))
  {
    if g > 0 {
      EvolveKeepsInvariant(step, fit, cfg, n, s0, draws, g - 1);
    }
  }

  /** Once the loop has stopped on an exception, later generations change nothing. */
  lemma {:induction false} ErrorPersists(step: Stepper, cfg: Config, n: nat,
                                         s0: Progress, draws: seq<GenerationDraws>, g: nat, h: nat)
    requires Ready(cfg, n, s0) && g <= h && |draws| >= h && Steady(step, cfg, n)
    requires Evolve(step, cfg, n, s0, draws, g).error.Some?
    ensures Evolve(step, cfg, n, s0, draws, h) == Evolve(step, cfg, n, s0, draws, g)
    decreases h
  {
    if h > g {
      ErrorPersists(step, cfg, n, s0, draws, g, h - 1);
    }
  }

  /** The population of `s`, if it was evaluated, scored 0.0 throughout. */
  predicate ScoredNothing(fit: Individual -> real, s: Progress) {
    s.error.None? ==> forall i :: 0 <= i < |s.population| ==> fit(s.population[i]) == 0.0
  }

  /** No individual of the populations evaluated in the first `g` generations scored above 0.0. */
  ghost predicate NothingScored(step: Stepper, fit: Individual -> real, cfg: Config, n: nat,
                                pop: seq<Individual>, draws: seq<GenerationDraws>, g: nat)
    requires Ready(cfg, n, Start(pop)) && |draws| >= g && Steady(step, cfg, n)
    decreases g
  {
    g == 0 ||
    (NothingScored(step, fit, cfg, n, pop, draws, g - 1)
     && ScoredNothing(fit, Evolve(step, cfg, n, Start(pop), draws, g - 1)))
  }

  /**
    `best_individual` is still None after `g` generations exactly when no
    individual of any evaluated population scored above 0.0.
   */
  lemma {:induction false} NoBestIffNothingScored(step: Stepper, fit: Individual -> real, cfg: Config, n: nat,
                                                  pop: seq<Individual>, draws: seq<GenerationDraws>, g: nat)
    requires Ready(cfg, n, Start(pop)) && |draws| >= g && Steady(step, cfg, n) && Tracking(step, fit, cfg, n)
    ensures Evolve(step, cfg, n, Start(pop), draws, g).best.None? <==> NothingScored(step, fit, cfg, n, pop, draws, g)
  {
    if g > 0 {
      NoBestIffNothingScored(step, fit, cfg, n, pop, draws, g - 1);
      EvolveKeepsInvariant(step, fit, cfg, n, Start(pop), draws, g - 1);
    }
  }
}
