/**
  The operators both revisions of `GeneticFeatureSelector` share: the bit
  vectors, tournament selection, two-point crossover and the
  shuffle-and-pair step of `_create_offspring`.

  Every random number the Python code draws is a parameter here: a tournament
  receives the index samples `random.sample` would return, a crossover the
  values of `random.random()` and the two `random.randint` calls, a shuffle
  the permutation `random.shuffle` applies.
 */
module GaOperators {
  import opened Wrappers
  import opened Lists
  import opened Ranking

  type Bit = b: int | 0 <= b <= 1

  /** One candidate subset: bit i selects column i. */
  type Individual = seq<Bit>

  /**
    The exceptions the operators raise: `random.randint` on an empty range,
    `random.sample` with a negative or too large size and `np.argmax` of an
    empty list raise ValueError; `/` by zero raises ZeroDivisionError.
   */
  datatype GaError = ValueError | ZeroDivisionError

  /** `sum(individual)` */
  function Ones(ind: Individual): (r: nat)
    ensures r <= |ind|
    ensures r == 0 <==> forall i :: 0 <= i < |ind| ==> ind[i] == 0
  {
    if ind == [] then 0 else ind[0] + Ones(ind[1..])
  }

  /** `X.columns[np.array(individual, dtype=bool)]`: the columns whose bit is 1. */
  function SelectedColumns(columns: seq<string>, ind: Individual): (r: seq<string>)
    requires |columns| == |ind|
    ensures |r| == Ones(ind)
    ensures forall x :: x in r ==> x in columns
    ensures forall i :: 0 <= i < |ind| && ind[i] == 1 ==> columns[i] in r
    ensures IsSubsequence(r, columns)
  {
    if ind == [] then []
    else
      var rest := SelectedColumns(columns[1..], ind[1..]);
      assert forall i :: 1 <= i < |ind| && ind[i] == 1 ==> columns[1..][i - 1] in rest;
      if ind[0] == 1 then
        assert ([columns[0]] + rest)[1..] == rest;
        [columns[0]] + rest
      else
        SubsequenceOfTail(rest, columns);
        rest
  }

  /** `(population[best_idx][:], fitness_scores[best_idx])` with `best_idx = np.argmax(fitness_scores)`. */
  function GetBestIndividual(pop: seq<Individual>, scores: seq<real>): (r: (Individual, real))
    requires |pop| == |scores| > 0
    ensures r.1 in scores && forall k :: 0 <= k < |scores| ==> scores[k] <= r.1
    ensures r.0 == pop[ArgMax(scores)]
  {
    var best := ArgMax(scores);
    (pop[best], scores[best])
  }

  // ---------------------------------------------------------------- crossover

  /** `random.random()` then, when the crossover fires, the two `random.randint` draws. */
  datatype CrossoverDraw = CrossoverDraw(chance: real, point1: int, point2: int)

  /** What `randint(1, n - 2)` and `randint(point1, n - 1)` can return, when those ranges are not empty. */
  predicate CrossoverDrawFits(d: CrossoverDraw, n: nat) {
    n >= 3 ==> 1 <= d.point1 <= n - 2 && d.point1 <= d.point2 <= n - 1
  }

  predicate Fires(d: CrossoverDraw, prob: real, n: nat) {
    d.chance < prob && n > 1
  }

  /**
    `_crossover(parent1, parent2)`: when it fires, each child takes the other
    parent's genes in [point1, point2); otherwise the children are copies.
    At length 2 the first `randint(1, 0)` raises ValueError.
   */
  function Crossover(p1: Individual, p2: Individual, prob: real, d: CrossoverDraw): (r: Result<(Individual, Individual), GaError>)
    requires |p1| == |p2| && CrossoverDrawFits(d, |p1|)
    ensures r.Failure? <==> Fires(d, prob, |p1|) && |p1| == 2
    ensures r.Success? ==> |r.value.0| == |p1| && |r.value.1| == |p1|
    ensures r.Success? && !Fires(d, prob, |p1|) ==> r.value == (p1, p2)
    ensures r.Success? && Fires(d, prob, |p1|) ==> forall i :: 0 <= i < |p1| ==>
      if d.point1 <= i < d.point2 then r.value.0[i] == p2[i] && r.value.1[i] == p1[i]
      else r.value.0[i] == p1[i] && r.value.1[i] == p2[i]
  {
    if Fires(d, prob, |p1|) then
      if |p1| == 2 then Failure(ValueError)
      else
        var c1 := p1[..d.point1] + p2[d.point1..d.point2] + p1[d.point2..];
        var c2 := p2[..d.point1] + p1[d.point1..d.point2] + p2[d.point2..];
        Success((c1, c2))
    else
      Success((p1, p2))
  }

  /** At every position the two children hold the two parents' genes, in one order or the other. */
  lemma CrossoverKeepsGenesInPlace(p1: Individual, p2: Individual, prob: real, d: CrossoverDraw, i: nat)
    requires |p1| == |p2| && CrossoverDrawFits(d, |p1|) && i < |p1|
    requires Crossover(p1, p2, prob, d).Success?
    ensures var (c1, c2) := Crossover(p1, p2, prob, d).value;
      multiset{c1[i], c2[i]} == multiset{p1[i], p2[i]}
  {
  }

  /** Crossing the two children over again at the same points gives back the parents. */
  lemma CrossoverIsInvolution(p1: Individual, p2: Individual, prob: real, d: CrossoverDraw)
    requires |p1| == |p2| && CrossoverDrawFits(d, |p1|)
    requires Crossover(p1, p2, prob, d).Success?
    ensures var (c1, c2) := Crossover(p1, p2, prob, d).value;
      Crossover(c1, c2, prob, d) == Success((p1, p2))
  {
    var (c1, c2) := Crossover(p1, p2, prob, d).value;
    if Fires(d, prob, |p1|) {
      assert |c1| == |p1| > 2;
      var (e1, e2) := Crossover(c1, c2, prob, d).value;
      assert e1 == p1 by {
        assert forall i :: 0 <= i < |p1| ==> e1[i] == p1[i];
      }
      assert e2 == p2 by {
        assert forall i :: 0 <= i < |p1| ==> e2[i] == p2[i];
      }
    }
  }

  // --------------------------------------------------------------- tournament

  /**
    What `random.sample(range(pop_size), size)` returns, one sample per
    tournament: positions of the population, `size` of them whenever that
    size is a valid sample size.
   */
  predicate SamplesFit(samples: seq<seq<nat>>, size: int, popSize: nat) {
    && |samples| >= popSize
    && (forall t, k :: 0 <= t < |samples| && 0 <= k < |samples[t]| ==> samples[t][k] < popSize)
    && (0 < size <= popSize ==> forall t :: 0 <= t < |samples| ==> |samples[t]| == size)
  }

  /** `[fitness_scores[i] for i in tournament_indices]` */
  function SampleScores(scores: seq<real>, sample: seq<nat>): (r: seq<real>)
    requires forall k :: 0 <= k < |sample| ==> sample[k] < |scores|
    ensures |r| == |sample| && forall k :: 0 <= k < |sample| ==> r[k] == scores[sample[k]]
  {
    seq(|sample|, k requires 0 <= k < |sample| => scores[sample[k]])
  }

  /** The population position that wins the tournament over `sample`: its first fittest member. */
  function Winner(scores: seq<real>, sample: seq<nat>): (r: nat)
    requires |sample| > 0 && forall k :: 0 <= k < |sample| ==> sample[k] < |scores|
    ensures r < |scores| && r in sample
    ensures forall k :: 0 <= k < |sample| ==> scores[sample[k]] <= scores[r]
  {
    sample[ArgMax(SampleScores(scores, sample))]
  }

  /**
    `_tournament_selection`: one winner per population member. `random.sample`
    rejects a size above the population or below zero, and a size of 0 makes
    `np.argmax([])` fail; both are ValueError. An empty population holds no
    tournament at all.
   */
  function TournamentWinners(pop: seq<Individual>, scores: seq<real>, size: int, samples: seq<seq<nat>>): (r: Result<seq<Individual>, GaError>)
    requires |scores| == |pop| && SamplesFit(samples, size, |pop|)
    ensures r.Failure? <==> |pop| > 0 && (size <= 0 || size > |pop|)
    ensures r.Success? ==> |r.value| == |pop|
    ensures r.Success? ==> forall t :: 0 <= t < |pop| ==> r.value[t] == pop[Winner(scores, samples[t])]
  {
    if |pop| == 0 then Success([])
    else if size <= 0 || size > |pop| then Failure(ValueError)
    else Success(seq(|pop|, t requires 0 <= t < |pop| => pop[Winner(scores, samples[t])]))
  }

  /** Each tournament winner is at least as fit as every individual sampled with it. */
  lemma WinnerIsFittestSampled(pop: seq<Individual>, scores: seq<real>, size: int, samples: seq<seq<nat>>, t: nat, k: nat)
    requires |scores| == |pop| && SamplesFit(samples, size, |pop|)
    requires TournamentWinners(pop, scores, size, samples).Success?
    requires t < |pop| && k < |samples[t]|
    ensures exists w :: && w in samples[t]
                        && TournamentWinners(pop, scores, size, samples).value[t] == pop[w]
                        && scores[samples[t][k]] <= scores[w]
  {
    var w := Winner(scores, samples[t]);
    assert w in samples[t];
  }

  method TournamentSelection(pop: seq<Individual>, scores: seq<real>, size: int, samples: seq<seq<nat>>)
    returns (r: Result<seq<Individual>, GaError>)
    requires |scores| == |pop| && SamplesFit(samples, size, |pop|)
    ensures r == TournamentWinners(pop, scores, size, samples)
  {
    var selected: seq<Individual> := [];
    var t := 0;
    while t < |pop|
      invariant 0 <= t <= |pop| && |selected| == t
      invariant t > 0 ==> 0 < size <= |pop|
      invariant forall u :: 0 <= u < t ==> selected[u] == pop[Winner(scores, samples[u])]
    {
      if size <= 0 || size > |pop| {
        return Failure(ValueError);
      }
      var sample := samples[t];
      var fitness := SampleScores(scores, sample);
      var winner := sample[ArgMax(fitness)];
      selected := selected + [pop[winner]];
      t := t + 1;
    }
    if |pop| > 0 {
      assert selected == TournamentWinners(pop, scores, size, samples).value;
    }
    return Success(selected);
  }

  // ------------------------------------------------------------- recombination

  /** A shuffle of n items: every position exactly once. */
  predicate IsPermutation(perm: seq<nat>, n: nat) {
    && |perm| == n
    && (forall k :: 0 <= k < n ==> perm[k] < n)
    && (forall j, k :: 0 <= j < k < n ==> perm[j] != perm[k])
  }

  /** `random.shuffle` on a copy of `s`. */
  function Shuffled<T>(s: seq<T>, perm: seq<nat>): (r: seq<T>)
    requires IsPermutation(perm, |s|)
    ensures |r| == |s| && forall k :: 0 <= k < |s| ==> r[k] == s[perm[k]]
  {
    seq(|s|, k requires 0 <= k < |s| => s[perm[k]])
  }

  predicate SameLength(pop: seq<Individual>, n: nat) {
    forall k :: 0 <= k < |pop| ==> |pop[k]| == n
  }

  predicate CrossoverDrawsFit(draws: seq<CrossoverDraw>, pairs: nat, n: nat) {
    |draws| >= pairs && forall k :: 0 <= k < |draws| ==> CrossoverDrawFits(draws[k], n)
  }

  /**
    The children `_create_offspring` builds before mutating them: the
    crossover of positions (0, 1), (2, 3), ... of the shuffled list, the
    k-th pair with the k-th draw, then the unpaired last one when the count is odd.
   */
  function Recombined(shuffled: seq<Individual>, prob: real, draws: seq<CrossoverDraw>, n: nat): (r: Result<seq<Individual>, GaError>)
    requires SameLength(shuffled, n) && CrossoverDrawsFit(draws, |shuffled| / 2, n)
    ensures r.Success? ==> |r.value| == |shuffled| && SameLength(r.value, n)
    decreases |shuffled|
  {
    if |shuffled| < 2 then Success(shuffled)
    else
      match Crossover(shuffled[0], shuffled[1], prob, draws[0])
      case Failure(e) => Failure(e)
      case Success(children) =>
        var rest := Recombined(shuffled[2..], prob, draws[1..], n);
        if rest.Failure? then Failure(rest.error)
        else Success([children.0, children.1] + rest.value)
  }

  /** Recombination fails exactly when some pair's crossover fires on individuals of length 2. */
  lemma {:induction false} RecombinedFails(shuffled: seq<Individual>, prob: real, draws: seq<CrossoverDraw>, n: nat)
    requires SameLength(shuffled, n) && CrossoverDrawsFit(draws, |shuffled| / 2, n)
    ensures Recombined(shuffled, prob, draws, n).Failure? <==>
      n == 2 && exists k :: 0 <= k < |shuffled| / 2 && Fires(draws[k], prob, n)
    decreases |shuffled|
  {
    if |shuffled| >= 2 {
      RecombinedFails(shuffled[2..], prob, draws[1..], n);
      assert forall k :: 1 <= k < |shuffled| / 2 ==> draws[1..][k - 1] == draws[k];
      if n == 2 && exists k :: 0 <= k < |shuffled| / 2 && Fires(draws[k], prob, n) {
        var k :| 0 <= k < |shuffled| / 2 && Fires(draws[k], prob, n);
        if k > 0 {
          assert Fires(draws[1..][k - 1], prob, n);
        }
      }
    }
  }

  /** Children 2k and 2k + 1 are the crossover of shuffled parents 2k and 2k + 1 under the k-th draw. */
  lemma {:induction false} RecombinedPairs(shuffled: seq<Individual>, prob: real, draws: seq<CrossoverDraw>, n: nat, k: nat)
    requires SameLength(shuffled, n) && CrossoverDrawsFit(draws, |shuffled| / 2, n)
    requires Recombined(shuffled, prob, draws, n).Success? && k < |shuffled| / 2
    ensures Crossover(shuffled[2 * k], shuffled[2 * k + 1], prob, draws[k])
      == Success((Recombined(shuffled, prob, draws, n).value[2 * k], Recombined(shuffled, prob, draws, n).value[2 * k + 1]))
    decreases |shuffled|
  {
    if k > 0 {
      var tail := shuffled[2..];
      RecombinedPairs(tail, prob, draws[1..], n, k - 1);
      assert tail[2 * (k - 1)] == shuffled[2 * k];
      assert tail[2 * (k - 1) + 1] == shuffled[2 * k + 1];
      assert draws[1..][k - 1] == draws[k];
    }
  }

  /** With an odd count the last shuffled individual passes through unchanged. */
  lemma {:induction false} RecombinedKeepsOddOneOut(shuffled: seq<Individual>, prob: real, draws: seq<CrossoverDraw>, n: nat)
    requires SameLength(shuffled, n) && CrossoverDrawsFit(draws, |shuffled| / 2, n)
    requires Recombined(shuffled, prob, draws, n).Success? && |shuffled| % 2 == 1
    ensures Recombined(shuffled, prob, draws, n).value[|shuffled| - 1] == shuffled[|shuffled| - 1]
    decreases |shuffled|
  {
    if |shuffled| >= 2 {
      RecombinedKeepsOddOneOut(shuffled[2..], prob, draws[1..], n);
    }
  }

  /** `front` followed by the children of a recombination that succeeded. */
  function Prepend(front: seq<Individual>, rest: Result<seq<Individual>, GaError>): Result<seq<Individual>, GaError> {
    if rest.Failure? then rest else Success(front + rest.value)
  }

  lemma PrependNothing(rest: Result<seq<Individual>, GaError>)
    ensures Prepend([], rest) == rest
  {
    if rest.Success? {
      assert [] + rest.value == rest.value;
    }
  }

  lemma PrependTwice(a: seq<Individual>, b: seq<Individual>, rest: Result<seq<Individual>, GaError>)
    ensures Prepend(a, Prepend(b, rest)) == Prepend(a + b, rest)
  {
    if rest.Success? {
      assert (a + b) + rest.value == a + (b + rest.value);
    }
  }

  /** What the pairing loop still has to recombine from position `i` on. */
  function Rest(shuffled: seq<Individual>, prob: real, draws: seq<CrossoverDraw>, n: nat, i: nat): Result<seq<Individual>, GaError>
    requires SameLength(shuffled, n) && CrossoverDrawsFit(draws, |shuffled| / 2, n)
    requires i % 2 == 0 && i <= |shuffled|
  {
    assert SameLength(shuffled[i..], n) && CrossoverDrawsFit(draws[i / 2..], |shuffled[i..]| / 2, n);
    Recombined(shuffled[i..], prob, draws[i / 2..], n)
  }

  /** One turn of the pairing loop: the pair at i, i + 1 and then the rest. */
  lemma RestStep(shuffled: seq<Individual>, prob: real, draws: seq<CrossoverDraw>, n: nat, i: nat)
    requires SameLength(shuffled, n) && CrossoverDrawsFit(draws, |shuffled| / 2, n)
    requires i % 2 == 0 && i + 1 < |shuffled|
    ensures var c := Crossover(shuffled[i], shuffled[i + 1], prob, draws[i / 2]);
      && (c.Failure? ==> Rest(shuffled, prob, draws, n, i).Failure?)
      && (c.Success? ==> Rest(shuffled, prob, draws, n, i) == Prepend([c.value.0, c.value.1], Rest(shuffled, prob, draws, n, i + 2)))
  {
    var tail := shuffled[i..];
    assert tail[2..] == shuffled[i + 2..];
    assert draws[i / 2..][1..] == draws[(i + 2) / 2..];
    assert tail[0] == shuffled[i] && tail[1] == shuffled[i + 1] && draws[i / 2..][0] == draws[i / 2];
  }

  /** The pairing loop starts with everything still to do. */
  lemma RestAtStart(shuffled: seq<Individual>, prob: real, draws: seq<CrossoverDraw>, n: nat)
    requires SameLength(shuffled, n) && CrossoverDrawsFit(draws, |shuffled| / 2, n)
    ensures Rest(shuffled, prob, draws, n, 0) == Recombined(shuffled, prob, draws, n)
  {
    assert shuffled[0..] == shuffled && draws[0 / 2..] == draws;
  }

  /** When the loop stops, at most the odd one out is left, and it passes through. */
  lemma RestAtEnd(shuffled: seq<Individual>, prob: real, draws: seq<CrossoverDraw>, n: nat, i: nat)
    requires SameLength(shuffled, n) && CrossoverDrawsFit(draws, |shuffled| / 2, n)
    requires i % 2 == 0 && i <= |shuffled| && i + 1 >= |shuffled|
    ensures Rest(shuffled, prob, draws, n, i) == Success(shuffled[i..])
    ensures i < |shuffled| ==> shuffled[i..] == [shuffled[|shuffled| - 1]]
  {
  }

  /** The pairing loop of `_create_offspring`, on the shuffled list. */
  method Recombine(shuffled: seq<Individual>, prob: real, draws: seq<CrossoverDraw>, n: nat) returns (r: Result<seq<Individual>, GaError>)
    requires SameLength(shuffled, n) && CrossoverDrawsFit(draws, |shuffled| / 2, n)
    ensures r == Recombined(shuffled, prob, draws, n)
  {
    var offspring: seq<Individual> := [];
    var i := 0;
    ghost var whole := Recombined(shuffled, prob, draws, n);
    RestAtStart(shuffled, prob, draws, n);
    PrependNothing(whole);
    while i < |shuffled| - 1
      invariant 0 <= i <= |shuffled| && i % 2 == 0 && |offspring| == i
      invariant whole == Prepend(offspring, Rest(shuffled, prob, draws, n, i))
    {
      var children := Crossover(shuffled[i], shuffled[i + 1], prob, draws[i / 2]);
      RestStep(shuffled, prob, draws, n, i);
      if children.Failure? {
        return Failure(children.error);
      }
      var pair := [children.value.0, children.value.1];
      PrependTwice(offspring, pair, Rest(shuffled, prob, draws, n, i + 2));
      offspring := offspring + pair;
      i := i + 2;
    }
    RestAtEnd(shuffled, prob, draws, n, i);
    if i < |shuffled| {
      offspring := offspring + [shuffled[|shuffled| - 1]];
    } else {
      assert offspring + shuffled[i..] == offspring;
    }
    return Success(offspring);
  }
}
