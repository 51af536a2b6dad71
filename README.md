# Feature selection: genetic algorithm against a traditional selector

This project models the core of a small feature-selection service. A user
uploads a dataset, and the service picks a subset of its feature columns in
two ways:

- a **genetic algorithm** (GA), in two revisions, which evolves bit masks
  over the columns;
- a **traditional selector**, which ranks the columns by their correlation
  with the target and prunes redundant pairs, or takes the choice of
  recursive feature elimination (RFE).

The service then scores both selections with the same quality metrics,
formats each as a result dictionary, makes that dictionary
JSON-serializable, and compares the two results.

The model states and proves what each piece promises:

- **Fitness** (`calculate_fitness`): the mean absolute target correlation
  of the selection, minus the mean absolute correlation between the
  selected features, minus a size penalty, clamped at 0. The model proves
  it lies in [0, 1]. It also proves that an undefined (NaN) correlation
  scores 0, because `max(0.0, nan)` is `0.0` in Python.
- **Quality metrics**:
  - the redundancy rate is the mean of the defined (non-NaN) entries of
    the upper triangle of the |correlation| matrix, and 0 when none is
    defined; for a symmetric matrix with every pair defined it is proved
    equal to the fitness's full-matrix redundancy;
  - the representation entropy is normalised by log k, and does not
    change when every variance is scaled by the same positive factor;
  - the diversity score combines the two;
  - each metric falls back to its default when it raises.
- **GA operators**:
  - initialisation, mutation, and two-point crossover, which raises
    `ValueError` on individuals of length 2;
  - tournament selection, which raises when the tournament is larger than
    the population;
  - shuffling and pairing, and arg-max.
  All randomness is given as explicit draws, so every run is a function of
  the dataset and the draws.
- **The generation loop** (shared by both revisions): `fitness_history`
  never decreases and ends at `best_fitness`. `best_individual` scores
  `best_fitness`. It stays `None` exactly when nothing evaluated scored
  above 0, and then the fallback selection is used. An exception ends the
  loop for good.
- **The traditional selector**:
  - the nested-loop pruning removes exactly the features that lose some
    redundant pair, and keeps the order of the rest;
  - the first best-correlated feature always survives the pruning;
  - the selection is a stable descending sort cut to n;
  - a poor RFE choice is replaced by the correlation selection.
- **The result formatter and `convert_to_serializable`**: the reduction is
  a share between 0 and 100. Conversion makes convertible values
  serializable, leaves serializable values unchanged, and is idempotent.
- **The comparison engine**:
  - the metric extraction with its defaults;
  - the three-way recommendation;
  - the feature overlap and partition;
  - the error path taken when the GA execution time is 0.
- **The upload validators**: the extension check, and the ordered checks of
  a loaded table.

Numbers are modelled as Dafny reals. Correlations that can be undefined are
a `Float` (`Num(v)` or `NaN`). A DataFrame is a `Dataset` value: its column
names, and for each column its target correlation, its correlations with
the other columns and its variance. The natural logarithm is a parameter
`ln`, and the lemmas that need its laws assume them through the predicate
`Metrics.LogLaws`.

The modules are:

- `Wrappers`: Option and Result;
- `Text`: ASCII case mapping and substring search;
- `Lists`: filter and subsequence;
- `Frames`: the dataset, means, and the correlation-matrix views;
- `Fitness`, `Metrics`, `Ranking`: fitness, quality metrics, and sorting
  and arg-max;
- `GaOperators`: the operators both GA revisions share;
- `GaEvolution`: the generation loop, generic in the fitness and the
  mutation rule;
- `BackendGa` and `LegacyGa`: the two revisions of
  `GeneticFeatureSelector`;
- `Traditional`, `Formatter`, `Serialization`, `Comparison`, `Validators`:
  the remaining core files.

## Model

| member | source | states |
|---|---|---|
| Fitness.Relevances | backend/app/utils/fitness.py:16 | one absolute target correlation per selected feature, in selection order |
| Fitness.Relevance | backend/app/utils/fitness.py:16-17 | the mean relevance is defined exactly when every selected feature's target correlation is (NaN propagates through `np.mean`) |
| Fitness.Redundancy | backend/app/utils/fitness.py:20-24 | 0 for one feature; for more it is defined exactly when every off-diagonal entry is, and is then the mean of the k(k-1) off-diagonal absolute correlations; never negative |
| Fitness.SizePenalty | backend/app/utils/fitness.py:27 | the penalty (k / n) * 0.1 is never negative and at most 0.1 when k <= n |
| Fitness.CalculateFitness | backend/app/utils/fitness.py:6-28 | fitness is never negative and is 0.0 for an empty selection |
| Fitness.UndefinedRelevanceScoresZero | backend/app/utils/fitness.py:16-28 | a selected feature with an undefined target correlation makes the fitness 0.0 |
| Fitness.UndefinedPairScoresZero | backend/app/utils/fitness.py:20-28 | an undefined correlation between two selected features makes the fitness 0.0 |
| Fitness.UndefinedPairRedundancy | backend/app/utils/fitness.py:20-24 | an undefined pair makes the redundancy undefined |
| Fitness.SingleFeatureFitness | backend/app/utils/fitness.py:13-28 | a single feature f scores max(0, abs(corr(f, y)) - 0.1 / n) |
| Fitness.FitnessAtMostOne | backend/app/utils/fitness.py:13-28 | with target correlations in [-1, 1] the fitness is at most 1 |
| Metrics.RedundancyRate | backend/app/utils/metrics_calculator.py:15-29 | 0 for at most one feature; otherwise fails (KeyError) exactly when a selected column is missing; the rate is never negative and at most 1 when correlations lie in [-1, 1]; its value is stated by `RedundancyRateIsMeanOfDefinedPairs` |
| Metrics.Variances | backend/app/utils/metrics_calculator.py:37 | the variance of each selected column, in order |
| Metrics.EntropyTerms | backend/app/utils/metrics_calculator.py:44-47 | the term p_i * ln(p_i + 1e-8) for each feature, with p_i its share of the total variance |
| Metrics.RepresentationEntropy | backend/app/utils/metrics_calculator.py:31-51 | 0 for no features; otherwise fails exactly when a selected column is missing; 0 when the total variance is 0 or ln k is not positive |
| Metrics.SafeCalculateMetrics | backend/app/utils/metrics_calculator.py:7-13 | the metric's value, or the default when the metric raises |
| Metrics.FeatureQualityMetrics | backend/app/utils/metrics_calculator.py:53-73 | the defaults (1.0, 0.0, 0.0) for no features; diversity is (1 - redundancy) * entropy; the two computed metrics when all columns exist; the defaults when a column of two or more is missing |
| Metrics.SingleFeatureEntropyIsZero | backend/app/utils/metrics_calculator.py:49-51 | one feature has entropy 0, since log 1 is not positive |
| Metrics.EntropyCanBeNegative | backend/app/utils/metrics_calculator.py:40-51 | two features, one with zero variance, give a (slightly) negative normalised entropy, because of the 1e-8 inside the logarithm |
| Metrics.MissingColumnGivesDefaults | backend/app/utils/metrics_calculator.py:63-67 | two or more features with a missing column give (1.0, 0.0, 0.0) |
| Metrics.FitnessRedundancyIsRedundancyRate | backend/app/utils/metrics_calculator.py:21-28 | for a symmetric matrix with all pairs defined, fitness.py's full-matrix redundancy equals the upper-triangle redundancy rate |
| Metrics.RedundancyRateIsMeanOfDefinedPairs | backend/app/utils/metrics_calculator.py:21-29 | for every input with two or more present features: the values kept by `stack()` are exactly the defined pair correlations i < j; the rate is their mean, and 0.0 exactly when every pair is undefined |
| Metrics.UndefinedPairsRateZero | backend/app/utils/metrics_calculator.py:27-29 | when every pair correlation is undefined the rate is 0.0 (the NaN mean is replaced) |
| Metrics.EntropyIgnoresScale | backend/app/utils/metrics_calculator.py:36-51 | scaling every selected variance by the same c > 0 leaves the entropy unchanged, since the shares p_i do not change |
| Frames.MaxZero | backend/app/utils/fitness.py:28 | `max(0.0, x)`: never negative, 0.0 for NaN and for x <= 0, x itself when positive |
| Frames.DropNaN | backend/app/utils/metrics_calculator.py:28 | `stack()` drops the NaN entries: never longer than its input |
| Frames.DropNaNAppend | backend/app/utils/metrics_calculator.py:28 | dropping NaN distributes over concatenation, keeps a number and drops a NaN, so the kept numbers stay in order |
| Frames.DropNaNContent | backend/app/utils/metrics_calculator.py:28 | the kept values are exactly the numbers among the entries; nothing is kept exactly when every entry is NaN |
| Frames.OffDiagonal | backend/app/utils/fitness.py:22-24 | the k(k-1) off-diagonal absolute correlations, never negative |
| Frames.UpperTriangle | backend/app/utils/metrics_calculator.py:24-25 | the k(k-1)/2 strict upper-triangle absolute correlations, never negative |
| Frames.UpperTriangleLayout | backend/app/utils/metrics_calculator.py:24-25 | entry `Slot(i, j)` of the upper triangle is the absolute correlation of features i < j, for every such pair |
| Frames.UpperTriangleOnlyEntries | backend/app/utils/metrics_calculator.py:24-25 | every entry of the upper triangle is the absolute correlation of some pair i < j |
| Text.Lower | backend/app/ga_feature_selection.py:41 | `str.lower()` on ASCII: same length, no upper-case letter left, other characters unchanged |
| Text.NoUpperPatternInLowered | backend/app/ga_feature_selection.py:40-41 | a pattern with an upper-case letter ('ID', 'Id') never occurs in lowered text |
| Text.LastIndexOf | backend/app/utils/validators.py:11 | the position of the last occurrence of a character, None exactly when it does not occur |
| Ranking.Insert | backend/app/TraditionalFeatureSelector.py:56 | inserting into a ranked list keeps it ranked (descending score, ties in original order) and adds exactly the element |
| Ranking.Sort | backend/app/TraditionalFeatureSelector.py:56 | the stable descending sort: ranked and a permutation of its input |
| Ranking.Rank | backend/app/TraditionalFeatureSelector.py:56 | the positions of all scores in stable descending order, as a permutation |
| Ranking.RankedIsUnique | backend/app/TraditionalFeatureSelector.py:56 | two ranked permutations of the same positions are equal, so the sorted order is determined |
| Ranking.PrefixSlice | backend/app/TraditionalFeatureSelector.py:57 | Python's `s[:n]`, negative n included |
| Ranking.TopByScore | backend/app/TraditionalFeatureSelector.py:56-57 | the first n names of the stable descending sort by score |
| Ranking.TopByScoreMembers | backend/app/TraditionalFeatureSelector.py:56-57 | every top name is one of the names |
| Ranking.TopOutranksRest | backend/app/TraditionalFeatureSelector.py:56-57 | every kept name ranks before every dropped one |
| Ranking.ArgMax | backend/app/ga_feature_selection.py:108 | `np.argmax`: the first position of the maximum |
| Ranking.FirstMaxIsArgMax | backend/app/ga_feature_selection.py:108 | the first maximum is the only position `ArgMax` can return |
| GaOperators.Ones | backend/app/ga_feature_selection.py:45 | `sum(individual)`: at most the length, 0 exactly when no gene is set |
| GaOperators.SelectedColumns | backend/app/ga_feature_selection.py:48-49 | `X.columns[mask]`: the marked columns in column order, as many as there are ones |
| GaOperators.GetBestIndividual | backend/app/ga_feature_selection.py:107-109 | the first individual with the highest score, and that score, which no score exceeds |
| GaOperators.Crossover | backend/app/ga_feature_selection.py:84-91 | raises exactly when it fires on individuals of length 2 (`randint(1, 0)`); unchanged copies when it does not fire; otherwise children of the parents' length that swap the middle segment |
| GaOperators.CrossoverKeepsGenesInPlace | backend/app/ga_feature_selection.py:88-89 | at every position the two children hold the parents' two genes |
| GaOperators.CrossoverIsInvolution | backend/app/ga_feature_selection.py:84-91 | crossing the children over at the same points gives back the parents |
| GaOperators.SampleScores | backend/app/ga_feature_selection.py:79 | the scores of the sampled individuals, in sample order |
| GaOperators.Winner | backend/app/ga_feature_selection.py:78-80 | the winner is sampled and at least as fit as every sampled individual |
| GaOperators.TournamentWinners | backend/app/ga_feature_selection.py:75-82 | raises (`random.sample`) exactly when a non-empty population meets a tournament size outside 1..len; otherwise one winner per slot |
| GaOperators.WinnerIsFittestSampled | backend/app/ga_feature_selection.py:78-81 | each selected individual is a sampled one at least as fit as every other sampled one |
| GaOperators.TournamentSelection | backend/app/ga_feature_selection.py:75-82 | the loop yields the tournament winners, or the error |
| GaOperators.Shuffled | backend/app/ga_feature_selection.py:94-95 | `random.shuffle` as a given permutation |
| GaOperators.Recombined | backend/app/ga_feature_selection.py:96-103 | recombination of shuffled pairs keeps the population size and every length |
| GaOperators.RecombinedFails | backend/app/ga_feature_selection.py:98-100 | recombination raises exactly when some pair's crossover fires on length 2 |
| GaOperators.RecombinedPairs | backend/app/ga_feature_selection.py:98-100 | children 2k and 2k+1 are the crossover of shuffled parents 2k and 2k+1 |
| GaOperators.RecombinedKeepsOddOneOut | backend/app/ga_feature_selection.py:102-103 | with an odd count the last shuffled individual passes unchanged |
| GaOperators.Recombine | backend/app/ga_feature_selection.py:96-103 | the pairing loop computes the recombination |
| GaEvolution.Record | backend/app/ga_feature_selection.py:120-125 | the history gains `best_fitness`, which never decreases and changes only on a strict improvement |
| GaEvolution.RecordKeepsTracks | backend/app/ga_feature_selection.py:120-125 | no score of the generation exceeds the new best, and the best-so-far bookkeeping is kept |
| GaEvolution.Mutated | backend/app/ga_feature_selection.py:59-69 | per-position mutation of a copy |
| GaEvolution.Offspring | backend/app/ga_feature_selection.py:93-105 | `_create_offspring` raises exactly when a crossover fires on length 2; otherwise as many children as parents, each of the same length |
| GaEvolution.OffspringOfPair | backend/app/ga_feature_selection.py:98-105 | every child of a pair is its crossover result after mutation |
| GaEvolution.CreateOffspring | backend/app/ga_feature_selection.py:93-105 | the loops compute `Offspring` |
| GaEvolution.Scores | backend/app/ga_feature_selection.py:72-73 | one fitness per individual, in order |
| GaEvolution.NextPopulation | backend/app/ga_feature_selection.py:127-128 | selection then offspring keep the population size and every length |
| GaEvolution.NextPopulationFails | backend/app/ga_feature_selection.py:127-128 | the next population fails for a tournament size outside 1..len and otherwise exactly when a crossover fires on length 2 |
| GaEvolution.NextGeneration | backend/app/ga_feature_selection.py:127-128 | the method computes `NextPopulation` |
| GaEvolution.BreedingKeepsShape | backend/app/ga_feature_selection.py:127-128 | breeding keeps the population size and the individuals' length |
| GaEvolution.Breed | backend/app/ga_feature_selection.py:127-128 | a bred population has its parents' size and length n; draws that do not fit give ValueError |
| GaEvolution.Step | backend/app/ga_feature_selection.py:118-128 | an empty population raises (arg-max of nothing); otherwise the history gains one entry |
| GaEvolution.StepIsSteady | backend/app/ga_feature_selection.py:118-128 | a generation keeps the state well-formed and extends the history by at most one entry |
| GaEvolution.StepKeepsInvariant | backend/app/ga_feature_selection.py:119-125 | a generation keeps the best-so-far bookkeeping and finds a best exactly when something scored above 0 |
| GaEvolution.Evolve | backend/app/ga_feature_selection.py:118-131 | g generations keep the best's length and, without an exception, add g history entries |
| GaEvolution.HistoryGrows | backend/app/ga_feature_selection.py:118-125 | the history only grows at its end, by at most g entries |
| GaEvolution.EvolveKeepsInvariant | backend/app/ga_feature_selection.py:118-125 | the history never decreases, ends at `best_fitness`, and the best individual scores `best_fitness` |
| GaEvolution.ErrorPersists | backend/app/ga_feature_selection.py:118-131 | once an exception has stopped the loop, later generations change nothing |
| GaEvolution.NoBestIffNothingScored | backend/app/ga_feature_selection.py:116-123 | `best_individual` is None exactly when no evaluated individual scored above 0 |
| BackendGa.ShouldExcludeFeature | backend/app/ga_feature_selection.py:38-41 | excluded exactly when the lowered name contains 'id', 'patient' or 'sample' |
| BackendGa.PatternCases | backend/app/ga_feature_selection.py:40-41 | the five patterns reduce to the three lower-case ones |
| BackendGa.UsableColumns | backend/app/ga_feature_selection.py:48-52 | the selected, non-excluded columns, in column order; every selected non-excluded column is there |
| BackendGa.IndividualFitness | backend/app/ga_feature_selection.py:43-57 | 0 for an empty individual or when every selected column is excluded, otherwise `calculate_fitness` of the usable columns; never negative |
| BackendGa.ExcludedOnlyScoresZero | backend/app/ga_feature_selection.py:51-55 | an individual that selects only excluded columns scores 0 |
| BackendGa.SelectedAreMarked | backend/app/ga_feature_selection.py:48-49 | every selected column comes from a set gene |
| BackendGa.InitialIndividual | backend/app/ga_feature_selection.py:26-34 | raises for no columns (`randint(0, -1)`); otherwise selects every column whose draw is below the threshold, and at least one column |
| BackendGa.InitialPopulation | backend/app/ga_feature_selection.py:23-36 | `population_size` individuals of length n, each selecting at least one column; raises when n is 0 |
| BackendGa.InitializePopulation | backend/app/ga_feature_selection.py:23-36 | the loop computes `InitialPopulation` |
| BackendGa.MutateBit | backend/app/ga_feature_selection.py:62-68 | a gene changes only when its draw is below `mutation_prob`; a 0 then always becomes 1, a 1 becomes 0 only with the 60% draw |
| BackendGa.Mutate | backend/app/ga_feature_selection.py:59-69 | the loop applies `MutateBit` to every position |
| BackendGa.FitnessIsNonNegative | backend/app/ga_feature_selection.py:43-57 | `_fitness` is never negative |
| BackendGa.PopulationScores | backend/app/ga_feature_selection.py:72-73 | `_evaluate_population` gives each individual's `_fitness` |
| BackendGa.GenerationStepKeepsState | backend/app/ga_feature_selection.py:118-128 | this revision's generation keeps the loop's state and bookkeeping |
| BackendGa.GenerationStep | backend/app/ga_feature_selection.py:118-128 | this revision's generation: its fitness and its mutation in the shared step, of which `GenerationStepKeepsState` states the preserved state |
| BackendGa.Generations | backend/app/ga_feature_selection.py:118-131 | g generations keep the best's length and add g history entries without an exception |
| BackendGa.BestIsTracked | backend/app/ga_feature_selection.py:116-125 | from a fresh start the history never decreases and ends at `best_fitness`; the best individual's `_fitness` is `best_fitness` > 0; it is None exactly when `best_fitness` is 0, and exactly when nothing scored |
| BackendGa.FallbackScores | backend/app/ga_feature_selection.py:136 | the absolute target correlation of each column |
| BackendGa.FallbackFeatures | backend/app/ga_feature_selection.py:134-138 | the first min(5, n) names of the stable descending sort by absolute target correlation, so `TopOutranksRest` applies |
| BackendGa.FinalSelection | backend/app/ga_feature_selection.py:133-143 | with a best individual, exactly its usable columns (selected, not excluded, in column order); otherwise the fallback |
| BackendGa.Report | backend/app/ga_feature_selection.py:145-156 | the result: the selection, its count, its `calculate_fitness` and the reduction; raises ZeroDivisionError exactly when there are no columns |
| BackendGa.Reduction | backend/app/ga_feature_selection.py:154 | (1 - k / n) * 100 lies in [0, 100]; it is 100 exactly when k is 0 and 0 exactly when k is n |
| BackendGa.Results | backend/app/ga_feature_selection.py:145-156 | the method computes `Report` |
| BackendGa.GeneticFeatureSelector.constructor | backend/app/ga_feature_selection.py:10-21 | stores the parameters and starts with an empty history |
| BackendGa.GeneticFeatureSelector.Run | backend/app/ga_feature_selection.py:111-161 | `run` initialises, evolves and reports; `fitness_history` grows by the run's history |
| BackendGa.GeneticFeatureSelector.Generation | backend/app/ga_feature_selection.py:118-131 | one pass of the loop advances the state to generation g + 1 and appends to the history |
| BackendGa.GeneticFeatureSelector.Evolution | backend/app/ga_feature_selection.py:118-131 | the loop computes `Generations` and appends its history |
| LegacyGa.InitialPopulation | app/ga_feature_selection.py:21-23 | `population_size` individuals of n drawn bits |
| LegacyGa.EmptyIndividualPossible | app/ga_feature_selection.py:21-23 | unlike the backend revision, an individual may select nothing |
| LegacyGa.RelevanceScores | app/ga_feature_selection.py:47-54 | the kept values are exactly the defined absolute target correlations of the selection, never negative; empty exactly when every one is NaN; all of them, in selection order, when none is |
| LegacyGa.CorrelationFitness | app/ga_feature_selection.py:25-80 | `_advanced_correlation_fitness` is never negative; it is 0 for an empty individual and when no relevance is defined |
| LegacyGa.Penalised | app/ga_feature_selection.py:70-76 | relevance minus redundancy minus penalty, clamped at 0 |
| LegacyGa.PositiveFitnessValue | app/ga_feature_selection.py:56-76 | a positive fitness is the mean relevance minus the redundancy minus the penalty |
| LegacyGa.UndefinedPairScoresZero | app/ga_feature_selection.py:61-76 | an undefined correlation between two selected features makes the fitness 0 |
| LegacyGa.DropNaNSnoc | app/ga_feature_selection.py:53-54 | appending a correlation keeps it only when it is defined |
| LegacyGa.CollectRelevance | app/ga_feature_selection.py:47-54 | the loop collects `RelevanceScores` |
| LegacyGa.AdvancedCorrelationFitness | app/ga_feature_selection.py:25-80 | the method computes `CorrelationFitness` |
| LegacyGa.FitnessIsNonNegative | app/ga_feature_selection.py:25-80 | the fitness is never negative |
| LegacyGa.ScoreIndividual | app/ga_feature_selection.py:86 | one individual's fitness, never negative |
| LegacyGa.EvaluatePopulation | app/ga_feature_selection.py:82-88 | the loop gives each individual's fitness |
| LegacyGa.FlipBit | app/ga_feature_selection.py:123-124 | a gene flips exactly when its draw is below `mutation_prob` |
| LegacyGa.Mutate | app/ga_feature_selection.py:119-125 | the loop applies `FlipBit` to every position |
| LegacyGa.MutationIsInvolution | app/ga_feature_selection.py:119-125 | mutating twice with the same draws gives back the individual |
| LegacyGa.GenerationStepKeepsState | app/ga_feature_selection.py:179-199 | this revision's generation keeps the loop's state and bookkeeping |
| LegacyGa.GenerationStep | app/ga_feature_selection.py:179-199 | this revision's generation: its fitness and its bit-flip mutation in the shared step, of which `GenerationStepKeepsState` states the preserved state |
| LegacyGa.Generations | app/ga_feature_selection.py:179-202 | g generations keep the best's length and add g history entries without an exception |
| LegacyGa.FallbackIndividual | app/ga_feature_selection.py:205-208 | the first min(5, n) genes are set, the rest clear |
| LegacyGa.LeadingOnesSelectPrefix | app/ga_feature_selection.py:211-212 | leading ones select a prefix of the columns |
| LegacyGa.FallbackSelectsFirstColumns | app/ga_feature_selection.py:205-212 | the fallback selects exactly the first min(5, n) columns |
| LegacyGa.Results | app/ga_feature_selection.py:204-251 | the result dictionary: the selection, its count, the best fitness, the history, the parameters; the mean of the defined relevances (0 when none), the redundancy for two or more features (0 below) and the reduction; raises exactly when there are no columns |
| LegacyGa.Reduction | app/ga_feature_selection.py:241 | (1 - k / n) * 100 is the share of the columns left out: r * n = (n - k) * 100, within [0, 100] |
| LegacyGa.BestIsTracked | app/ga_feature_selection.py:173-212 | the history never decreases and ends at `best_fitness`; the best individual scores it; None exactly when nothing scored, and then the result selects the first min(5, n) columns |
| LegacyGa.GeneticFeatureSelector.constructor | app/ga_feature_selection.py:9-19 | stores the parameters and starts with an empty history |
| LegacyGa.GeneticFeatureSelector.Generation | app/ga_feature_selection.py:179-202 | one pass of the loop advances the state to generation g + 1 and appends to the history |
| LegacyGa.GeneticFeatureSelector.Run | app/ga_feature_selection.py:160-256 | `run` evolves from the drawn population and reports, with `fitness_history` grown by the run's history |
| Traditional.Loser | backend/app/TraditionalFeatureSelector.py:33-40 | the loser of a pair is one of the two; the first one only when its target correlation is lower, the second otherwise (ties included) |
| Traditional.RowRemovals | backend/app/TraditionalFeatureSelector.py:30-40 | one row of the nested loop adds only selected features to `to_remove` |
| Traditional.Removals | backend/app/TraditionalFeatureSelector.py:29-40 | `to_remove` holds only selected features |
| Traditional.NonRedundant | backend/app/TraditionalFeatureSelector.py:21-43 | at most the selection, only selected features, and none of `to_remove` |
| Traditional.RowRemovalsHold | backend/app/TraditionalFeatureSelector.py:30-40 | every redundant pair of a row puts its loser in `to_remove` |
| Traditional.RowRemovalsCome | backend/app/TraditionalFeatureSelector.py:30-40 | everything a row adds is the loser of a redundant pair |
| Traditional.RemovalsHold | backend/app/TraditionalFeatureSelector.py:29-40 | the loser of every redundant pair of the finished rows is in `to_remove` |
| Traditional.RemovalsCome | backend/app/TraditionalFeatureSelector.py:29-40 | everything in `to_remove` loses some redundant pair |
| Traditional.RemovedIffLoses | backend/app/TraditionalFeatureSelector.py:28-40 | a feature is removed exactly when it loses some pair with correlation above 0.8 |
| Traditional.PruneKeepsOrder | backend/app/TraditionalFeatureSelector.py:21-43 | pruning keeps a subsequence of the selection, and changes nothing for one feature or none |
| Traditional.PrunedFeatures | backend/app/TraditionalFeatureSelector.py:28-43 | a feature is kept exactly when it was selected and loses no redundant pair |
| Traditional.TargetScores | backend/app/TraditionalFeatureSelector.py:51 | the defined absolute target correlations of the names |
| Traditional.FirstBestSurvives | backend/app/TraditionalFeatureSelector.py:28-43 | the first feature with the highest target correlation is never removed |
| Traditional.PruneKeepsOne | backend/app/TraditionalFeatureSelector.py:19-43 | pruning a non-empty selection of distinct, defined features leaves at least one |
| Traditional.Candidates | backend/app/TraditionalFeatureSelector.py:47-53 | the columns other than 'id' whose target correlation is defined |
| Traditional.CorrelationSelection | backend/app/TraditionalFeatureSelector.py:45-60 | at most n candidate columns |
| Traditional.CorrelationSelectionNonEmpty | backend/app/TraditionalFeatureSelector.py:45-60 | with one candidate and n >= 1 the selection is not empty |
| Traditional.DefaultFeatureCount | backend/app/TraditionalFeatureSelector.py:69-70 | max(1, min(10, n // 3)): between 1 and 10, at most n / 3 when n >= 3, 1 below 6 columns and 10 from 30 on |
| Traditional.Masked | backend/app/TraditionalFeatureSelector.py:89 | `X.columns[support]`: a subsequence of the columns that holds every marked column and only marked ones |
| Traditional.MaskedIsExactlyMarked | backend/app/TraditionalFeatureSelector.py:89 | for distinct columns, a column is kept exactly when its mask entry is set |
| Traditional.RfeChoice | backend/app/TraditionalFeatureSelector.py:86-89 | a choice exactly when RFE fits and its mask fits the columns; it is then the masked columns |
| Traditional.Selection | backend/app/TraditionalFeatureSelector.py:72-95 | only columns; the correlation selection for method 'correlation' or when RFE raises; the RFE choice exactly kept when it scores at least 0.1 |
| Traditional.PoorRfeChoiceReplaced | backend/app/TraditionalFeatureSelector.py:91-95 | an RFE choice scoring below 0.1 is replaced by the correlation selection |
| Traditional.FormatCall | backend/app/TraditionalFeatureSelector.py:98-108 | a call that passes `y` raises TypeError; otherwise it returns the formatted selection |
| Traditional.Subscript | backend/app/TraditionalFeatureSelector.py:111 | `results[key]` raises KeyError exactly when the formatted dictionary has no such key |
| Traditional.NoFitnessScoreKey | backend/app/utils/results_formatter.py:47-58 | the formatter never produces 'fitness_score', so reading it always raises KeyError |
| Traditional.RunResultAsWritten | backend/app/TraditionalFeatureSelector.py:72-124 | as written, `run` ends in TypeError on every input |
| Traditional.RunResultLogAsWritten | backend/app/TraditionalFeatureSelector.py:98-124 | with `y=y` removed but the log line at 111 kept, every run returns the correlation selection labelled 'Traditional (Correlation)' without parameters |
| Traditional.LogLineLosesResult | backend/app/TraditionalFeatureSelector.py:98-124 | unless RFE raised, the run as written loses `parameters_used`, which the corrected run keeps |
| Traditional.RunResult | backend/app/TraditionalFeatureSelector.py:72-124 | with both the `y=y` keywords and the log line fixed: the formatted selection, its features, count, total and quality; labelled with the method and carrying the parameters, or, when RFE raised, labelled 'Traditional (Correlation)' without parameters |
| Traditional.TraditionalFeatureSelector.constructor | backend/app/TraditionalFeatureSelector.py:13-17 | stores the settings |
| Traditional.TraditionalFeatureSelector.RemoveRedundantFeatures | backend/app/TraditionalFeatureSelector.py:19-43 | the nested loops compute the pruned selection |
| Traditional.TraditionalFeatureSelector.SelectByCorrelation | backend/app/TraditionalFeatureSelector.py:45-60 | the loop, sort and cut compute the correlation selection |
| Traditional.TraditionalFeatureSelector.Run | backend/app/TraditionalFeatureSelector.py:62-124 | fills in the default `n_features` once and returns `RunResult` |
| Formatter.FeatureTotal | backend/app/utils/results_formatter.py:9-14 | `X.shape[1]`, else `len(X.columns)`, else 0; raises exactly for a shape of one axis |
| Formatter.FeatureCountInfo | backend/app/utils/results_formatter.py:7-25 | the total and the count; the reduction r satisfies r * n = (n - k) * 100, and is 0 when n is 0 |
| Formatter.ReductionIsAShare | backend/app/utils/results_formatter.py:19-23 | the reduction lies in [0, 100]; it is 0 exactly when every feature is kept and 100 exactly when none is |
| Formatter.QualityOf | backend/app/utils/results_formatter.py:44 | the quality metrics of a DataFrame; the defaults for other inputs, except (0, 0, 0) for one feature |
| Formatter.FormatSelectionResults | backend/app/utils/results_formatter.py:27-72 | a missing selection becomes [] and the count matches it; the error path gives the defaults exactly when the feature count raises; otherwise the counts, reduction and quality; parameters present exactly when given and non-empty, converted |
| Formatter.Keys | backend/app/utils/results_formatter.py:47-58 | the keys of the result dictionary: the six fixed ones, 'parameters_used' exactly when parameters are present, 'error' exactly on the error path |
| Formatter.ParametersAreSerializable | backend/app/utils/results_formatter.py:57-58 | convertible parameters come out serializable |
| Serialization.ToList | backend/app/utils/serialization.py:13-14 | `ndarray.tolist()` leaves no numpy value and keeps the array's length |
| Serialization.Convert | backend/app/utils/serialization.py:5-27 | numpy scalars become Python scalars and arrays lists; dicts and lists are converted element-wise with keys kept in order; objects with `item()` give its result or `str`; everything else is unchanged |
| Serialization.ToListIsSerializable | backend/app/utils/serialization.py:13-14 | a numeric array converts to a serializable list |
| Serialization.ConvertIsSerializable | backend/app/utils/serialization.py:5-27 | a convertible value converts to a serializable one |
| Serialization.ConvertKeepsSerializable | backend/app/utils/serialization.py:5-27 | a serializable value is returned unchanged |
| Serialization.ConvertIdempotent | backend/app/utils/serialization.py:5-27 | converting twice is converting once |
| Serialization.TupleKeepsNumpy | backend/app/utils/serialization.py:19-27 | a tuple is not looked into, so a numpy value inside it stays unserializable |
| Validators.Extension | backend/app/utils/validators.py:11 | empty without a dot; otherwise the lowered text after the last dot |
| Validators.ExtensionIsLowerSuffix | backend/app/utils/validators.py:11 | the extension holds no dot and is already lower case |
| Validators.LastDotBeforeSuffix | backend/app/utils/validators.py:11 | the last dot of `base.ext` is the one before `ext` when `ext` has none |
| Validators.ValidateFile | backend/app/utils/validators.py:5-16 | "No file provided" for no upload or an empty name; success exactly for an allowed extension, which is returned; "Invalid file type" otherwise |
| Validators.UploadNamedByExtension | backend/app/utils/validators.py:10-16 | `base.ext` is accepted exactly when the lowered `ext` is allowed, and then that is the result |
| Validators.NoDotIsRejected | backend/app/utils/validators.py:11-14 | a name without a dot is rejected as an invalid type |
| Validators.ReaderFor | backend/app/utils/validators.py:22-27 | 'csv' and 'json' have their readers; every other extension is read as Excel |
| Validators.ContentCheck | backend/app/utils/validators.py:29-42 | the first failing check in order (empty, fewer than 2 columns, fewer than 10 rows, missing target); none exactly when the table passes all |
| Validators.ListRepr | backend/app/utils/validators.py:41-42 | `str(list)`: the quoted names between brackets, "[]" exactly for no names |
| Validators.JoinQuoted | backend/app/utils/validators.py:41-42 | the names, each in single quotes, joined by ", "; empty exactly for no names |
| Validators.ContentMessage | backend/app/utils/validators.py:31-42 | each check's message is non-empty, and a missing target is named in it |
| Validators.ApiErrorText | backend/app/utils/error_handlers.py:8-9 | `str(e)` of an `APIError` is empty, whatever its message |
| Validators.ValidateDatasetContentAsWritten | backend/app/utils/validators.py:18-47 | as written: accepts exactly the tables that load and pass every check; every failure message starts with the prefix |
| Validators.ReasonIsLost | backend/app/utils/validators.py:36-47 | a 5-row table fails with the bare prefix as written, and with the reason after the correction |
| Validators.ValidateDatasetContent | backend/app/utils/validators.py:18-47 | accepted tables have at least 10 rows, 2 columns and the target; a reader error or a failed check is re-raised with the prefix and its own message |
| Validators.SameVerdicts | backend/app/utils/validators.py:18-47 | the corrected check accepts and rejects exactly the tables the code as written does |
| Validators.MessagesNameTheCheck | backend/app/utils/validators.py:30-42 | equal messages come from the same check |
| Comparison.GetOr | backend/app/utils/comparison_engine.py:7-22 | `dict.get` with a default |
| Comparison.SideOf | backend/app/utils/comparison_engine.py:7-22 | each present value is read through; a missing `feature_quality` or a missing key gives its default: redundancy 1.0, entropy and diversity 0.0, time 0, count 0 |
| Comparison.ExtractComparisonMetrics | backend/app/utils/comparison_engine.py:5-49 | the improvements are trad - ga for redundancy and ga - trad for entropy and diversity; time ratio * max(trad time, 0.1) is the GA time, so the ratio is 0 exactly when the GA time is; the count ratio likewise |
| Comparison.Reasons | backend/app/utils/comparison_engine.py:106-114 | no reason exactly when GA improves no metric |
| Comparison.RecommendationFor | backend/app/utils/comparison_engine.py:51-119 | raises ZeroDivisionError exactly in the weighted branch with a zero time ratio |
| Comparison.CountPenalty | backend/app/utils/comparison_engine.py:87 | `abs(1 - count ratio) * 0.1`: never negative, 0 exactly when the counts are equal |
| Comparison.GaScore | backend/app/utils/comparison_engine.py:89-95 | the count penalty only lowers it; with the same metrics on both sides and equal times it is the Traditional score |
| Comparison.TradScore | backend/app/utils/comparison_engine.py:97-103 | the count penalty lowers it exactly when the counts differ |
| Comparison.RecommendationCases | backend/app/utils/comparison_engine.py:58-119 | which recommendation each combination of improvements, time ratio and weighted scores gives |
| Comparison.ScoreGap | backend/app/utils/comparison_engine.py:82-103 | the count penalty cancels: the score gap is 0.4 div + 0.3 red + 0.2 ent + 0.1 (1 / ratio - 1) |
| Comparison.GaWinsOnScoreOnlyOnSpeed | backend/app/utils/comparison_engine.py:89-117 | GA wins on score with no reason only when it is faster (0 < ratio < 1) |
| Comparison.WinnerOf | backend/app/utils/comparison_engine.py:137-139 | "GA" exactly for a positive improvement, never "Unknown" |
| Comparison.OverlapPercentage | backend/app/utils/comparison_engine.py:132-134 | the overlap lies in [0, 100]; it is 100 for equal non-empty sets and 0 for two empty ones |
| Comparison.AnalyseFeatures | backend/app/utils/comparison_engine.py:125-134 | common, GA-only and traditional-only are disjoint; common plus each side's own is that side; all three make the union |
| Comparison.ErrorComparison | backend/app/utils/comparison_engine.py:189-210 | the "Comparison failed: " message with every winner "Unknown" |
| Comparison.CompareMethodsResults | backend/app/utils/comparison_engine.py:121-187 | the error comparison exactly when the GA time is 0; otherwise the three metric comparisons, the inverted time ratio, the count difference, the feature analysis and the recommendation |

## Left out

- Reading files, Flask routes, HTTP status codes, logging and `print` are
  not modelled. The pandas reader in `validate_dataset_content` is the
  parameter `read`.
- The random generators and their seeding (`random_state`) are left out.
  Every random choice is an explicit draw passed in: the threshold and
  coins of initialisation, the mutation draws, the crossover draws, the
  tournament samples and the shuffle permutation. The preconditions that
  the draws fit state what Python's `random` guarantees.
- Floating-point rounding, overflow and the IEEE special values other
  than NaN are left out. Numbers are exact reals.
- Correlations, variances and `np.log` are not computed from data. They
  are the `Dataset`'s functions and the `ln` parameter.
- Pandas' `corr()` is taken as symmetric only where a lemma states it.
- RFE with its random forest is not computed. It is the parameter `rfe`:
  the support mask, or None when fitting raises. A mask of the wrong
  length counts as raising.
- f-string number formatting is not modelled. The reduction is kept as
  the real percentage rather than the one-decimal text. The
  recommendation texts are the `Recommendation` datatype with the numbers
  they quote.
- `str.lower()` and `str.upper()` are modelled for ASCII letters only.
- Python's `repr` of column names that contain quotes is not modelled.
  `Validators.ListRepr` always uses single quotes.
- The comparison's feature lists come from sets, whose iteration order
  Python does not fix. They are modelled as sets.
- Formatter.QualityOf: for an `X` that is not a DataFrame it assumes that
  selecting columns by name raises, whatever the object is.
- Formatter.FormatSelectionResults: only the error raised by the feature
  count is modelled. The metrics cannot raise out of it, because they
  catch their own errors.
- BackendGa.FallbackScores: ranks an undefined (NaN) correlation below
  every defined one. Python's `sorted` gives NaN no defined place.
- GaEvolution.Breed: returns `ValueError` when the draws do not fit the
  population. No run reaches this, because `Run` requires the draws to
  fit.
- Metrics.RepresentationEntropy: its contract gives the special cases and
  the error path. The general value is -Σ p·ln(p + 1e-8) / ln k by
  definition, and is not restated as a formula; `EntropyIgnoresScale`
  states its invariance under scaling the variances.
- LegacyGa.CorrelationFitness: the `try/except` that turns any exception
  into 0.0 has nothing to catch in the model.
- Traditional.TraditionalFeatureSelector.Run: exceptions raised by
  `_select_by_correlation` itself are not modelled. It returns
  `RunResult`, which assumes both defects under "## Findings" are fixed:
  the `y=y` keywords and the log line that reads
  `results['fitness_score']`.
- The fixed `'method': 'Genetic Algorithm'` entry of both GA result
  dictionaries is not a field of their reports.

## Findings

| source | as written | input that shows it | evidently intended | confidence | as-written member | corrected member |
|---|---|---|---|---|---|---|
| backend/app/utils/validators.py:46-47 | every exception is re-raised as `APIError(f"Invalid dataset file: {str(e)}")`; for the checks' own `APIError`s `str(e)` is empty, because `APIError.__init__` calls `super().__init__()` without the message (backend/app/utils/error_handlers.py:8-9), so the reason is dropped | a CSV with 5 rows and the columns `x`, `target` | "Invalid dataset file: Dataset must have at least 10 rows" | not executed | Validators.ValidateDatasetContentAsWritten, Validators.ReasonIsLost | Validators.ValidateDatasetContent |
| backend/app/TraditionalFeatureSelector.py:98-108 | both calls of `format_selection_results` pass `y=y`, which its signature (backend/app/utils/results_formatter.py:27-32) does not take; the call in `try` raises TypeError, and the call in `except` (lines 119-124) raises it again, so `run` never returns a result | any call of `run`, e.g. with `method='correlation'` on any DataFrame | `run` returns the formatted selection with its `parameters_used` | not executed | Traditional.RunResultAsWritten | Traditional.RunResult |
| backend/app/TraditionalFeatureSelector.py:111 | the log line reads `results['fitness_score']`, a key `format_selection_results` never produces (backend/app/utils/results_formatter.py:47-58); once `y=y` is removed, every result of the `try` branch raises KeyError and the `except` branch (lines 115-124) returns the correlation selection without `parameters_used` | `run` with `method='rfe'` and an RFE choice scoring at least 0.1 | the RFE choice labelled 'Traditional (RFE)' with its `parameters_used` | not executed | Traditional.RunResultLogAsWritten, Traditional.LogLineLosesResult | Traditional.RunResult |
