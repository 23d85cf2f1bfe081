/**
 * The parameter-tuning drivers: run the solver once per parameter setting,
 * log one result per trial and keep the best setting seen so far.
 *
 * The solver is an opaque function from (parameters, generations, seed) to the
 * best individual it found and that individual's total distance. Random
 * parameter sampling is a function from the trial number to the sampled
 * parameters.
 */
module Tuning {
  import opened Wrappers
  import opened Itertools

  /** What one solver run reports: its best individual and that individual's total distance. */
  datatype Solved<I> = Solved(individual: I, distance: real)

  /** The parameters random search samples for one trial. */
  datatype SampledParams = SampledParams(popSize: int, cxpb: real, mutpb: real, tournsize: int)

  /** One entry of `all_results`. */
  datatype TrialResult<P, I> = TrialResult(trial: int, params: P, distance: real, individual: I)

  /** `best_distance`: `float("inf")` until a trial is recorded. */
  datatype Bound = Inf | Finite(value: real)

  /** `distance < best_distance`. */
  predicate Below(d: real, b: Bound)
  {
    b.Inf? || d < b.value
  }

  /** `a <= b` on bounds, with `Inf` the largest. */
  predicate AtMost(a: Bound, b: Bound)
  {
    b.Inf? || (a.Finite? && a.value <= b.value)
  }

  // ---------------------------------------------------------------------
  // Best-so-far bookkeeping
  // ---------------------------------------------------------------------

  /** The trial the strict `<` update keeps after the given results, if any. */
  function Leader<P, I>(rs: seq<TrialResult<P, I>>): (r: Option<nat>)
    ensures r.Some? ==> r.value < |rs|
  {
    if rs == [] then None
    else
      var prev := Leader(rs[..|rs| - 1]);
      if prev.None? || rs[|rs| - 1].distance < rs[prev.value].distance then Some(|rs| - 1) else prev
  }

  /** `(best_params, best_individual, best_distance)` after the given results. */
  function BestOf<P, I>(rs: seq<TrialResult<P, I>>): (Option<P>, Option<I>, Bound)
  {
    match Leader(rs)
    case None => (None, None, Inf)
    case Some(t) => (Some(rs[t].params), Some(rs[t].individual), Finite(rs[t].distance))
  }

  /** Trial `t` has the smallest distance, and every earlier trial a strictly larger one. */
  ghost predicate IsFirstMinimum<P, I>(rs: seq<TrialResult<P, I>>, t: nat)
  {
    && t < |rs|
    && (forall u :: 0 <= u < |rs| ==> rs[t].distance <= rs[u].distance)
    && (forall u :: 0 <= u < t ==> rs[t].distance < rs[u].distance)
  }

  /** One step of the loop: appending a result `r` to the log `rs`. */
  lemma BestStep<P, I>(rs: seq<TrialResult<P, I>>, r: TrialResult<P, I>)
    ensures Leader(rs + [r]) == Some(|rs|) <==> Below(r.distance, BestOf(rs).2)
    ensures Below(r.distance, BestOf(rs).2) ==>
      BestOf(rs + [r]) == (Some(r.params), Some(r.individual), Finite(r.distance))
    ensures !Below(r.distance, BestOf(rs).2) ==> BestOf(rs + [r]) == BestOf(rs)
    ensures AtMost(BestOf(rs + [r]).2, BestOf(rs).2)
  {
    assert (rs + [r])[..|rs|] == rs;
  }

  lemma {:induction false} LeaderSound<P, I>(rs: seq<TrialResult<P, I>>)
    ensures Leader(rs).None? <==> rs == []
    ensures Leader(rs).Some? ==> IsFirstMinimum(rs, Leader(rs).value)
  {
    if rs != [] {
      var p := rs[..|rs| - 1];
      LeaderSound(p);
      assert forall u :: 0 <= u < |p| ==> p[u] == rs[u];
    }
  }

  lemma FirstMinimumUnique<P, I>(rs: seq<TrialResult<P, I>>, t1: nat, t2: nat)
    requires IsFirstMinimum(rs, t1) && IsFirstMinimum(rs, t2)
    ensures t1 == t2
  {
    assert rs[t1].distance == rs[t2].distance;
  }

  /** The kept trial is exactly the first one reaching the minimum distance. */
  lemma LeaderIsFirstMinimum<P, I>(rs: seq<TrialResult<P, I>>, t: nat)
    ensures Leader(rs) == Some(t) <==> IsFirstMinimum(rs, t)
  {
    LeaderSound(rs);
    if IsFirstMinimum(rs, t) {
      FirstMinimumUnique(rs, t, Leader(rs).value);
    }
  }

  /** What the bookkeeping returns: nothing for no trials, else the first best trial. */
  lemma BestOfMeaning<P, I>(rs: seq<TrialResult<P, I>>)
    ensures BestOf(rs).2.Inf? <==> rs == []
    ensures rs == [] ==> BestOf(rs) == (None, None, Inf)
    ensures forall u :: 0 <= u < |rs| ==> AtMost(BestOf(rs).2, Finite(rs[u].distance))
    ensures rs != [] ==> exists t: nat ::
      (IsFirstMinimum(rs, t)
       && BestOf(rs) == (Some(rs[t].params), Some(rs[t].individual), Finite(rs[t].distance)))
  {
    LeaderSound(rs);
  }

  /** Over any stretch of trials, `best_distance` never increases. */
  lemma {:induction false} BestNeverIncreases<P, I>(rs: seq<TrialResult<P, I>>, i: nat, j: nat)
    requires i <= j <= |rs|
    ensures AtMost(BestOf(rs[..j]).2, BestOf(rs[..i]).2)
    decreases j - i
  {
    if i < j {
      BestNeverIncreases(rs, i + 1, j);
      BestStep(rs[..i], rs[i]);
      assert rs[..i] + [rs[i]] == rs[..i + 1];
    }
  }

  // ---------------------------------------------------------------------
  // Random search
  // ---------------------------------------------------------------------

  /** `len(range(n_trials))`. */
  function NumTrials(nTrials: int): nat
  {
    if nTrials <= 0 then 0 else nTrials
  }

  /** The record of random-search trial `t` (0-based). */
  function RandomTrial<I>(sample: nat -> SampledParams, ngen: int, seedBase: int,
                          solve: (SampledParams, int, int) -> Solved<I>, t: nat): TrialResult<SampledParams, I>
  {
    var params := sample(t);
    var s := solve(params, ngen, seedBase + t);
    TrialResult(t + 1, params, s.distance, s.individual)
  }

  /** `random_search_tuning` with the parameter sampling given as `sample`. */
  method RandomSearchTuning<I>(nTrials: int, sample: nat -> SampledParams, ngen: int, seedBase: int,
                               solve: (SampledParams, int, int) -> Solved<I>)
    returns (bestParams: Option<SampledParams>, bestIndividual: Option<I>, bestDistance: Bound,
             allResults: seq<TrialResult<SampledParams, I>>)
    ensures |allResults| == NumTrials(nTrials)
    ensures forall t :: 0 <= t < |allResults| ==>
      allResults[t] == RandomTrial(sample, ngen, seedBase, solve, t)
    ensures (bestParams, bestIndividual, bestDistance) == BestOf(allResults)
    ensures bestDistance.Inf? <==> allResults == []
    ensures allResults == [] ==> bestParams.None? && bestIndividual.None?
    ensures forall u :: 0 <= u < |allResults| ==> AtMost(bestDistance, Finite(allResults[u].distance))
  {
    bestParams, bestIndividual, bestDistance := None, None, Inf;
    allResults := [];
    for trial := 0 to NumTrials(nTrials)
      invariant |allResults| == trial
      invariant forall t :: 0 <= t < trial ==> allResults[t] == RandomTrial(sample, ngen, seedBase, solve, t)
      invariant (bestParams, bestIndividual, bestDistance) == BestOf(allResults)
    {
      var params := sample(trial);
      var solved := solve(params, ngen, seedBase + trial);
      var distance := solved.distance;
      var result := TrialResult(trial + 1, params, distance, solved.individual);
      BestStep(allResults, result);
      allResults := allResults + [result];
      if Below(distance, bestDistance) {
        bestDistance := Finite(distance);
        bestIndividual := Some(solved.individual);
        bestParams := Some(params);
      }
    }
    BestOfMeaning(allResults);
  }

  // ---------------------------------------------------------------------
  // Grid search
  // ---------------------------------------------------------------------

  /** A parameter setting: `dict(zip(param_names, combo))`, keys in grid order. */
  type GridParams<V> = seq<(string, V)>

  /** `list(param_grid.keys())`. */
  function Keys<V>(grid: seq<(string, seq<V>)>): seq<string>
  {
    seq(|grid|, m requires 0 <= m < |grid| => grid[m].0)
  }

  /** `list(param_grid.values())`. */
  function Values<V>(grid: seq<(string, seq<V>)>): seq<seq<V>>
  {
    seq(|grid|, m requires 0 <= m < |grid| => grid[m].1)
  }

  /** `zip(names, values)`: pairs up to the shorter length. */
  function Zip<V>(names: seq<string>, values: seq<V>): GridParams<V>
  {
    var n := if |names| <= |values| then |names| else |values|;
    seq(n, m requires 0 <= m < n => (names[m], values[m]))
  }

  /** `list(itertools.product(*param_values))`. */
  function Combinations<V>(grid: seq<(string, seq<V>)>): seq<seq<V>>
  {
    Product(Values(grid))
  }

  /** The record of grid-search trial `t` (0-based). */
  function GridTrial<V, I>(grid: seq<(string, seq<V>)>, ngen: int, seedBase: int,
                           solve: (GridParams<V>, int, int) -> Solved<I>, t: nat): TrialResult<GridParams<V>, I>
    requires t < |Combinations(grid)|
  {
    var params := Zip(Keys(grid), Combinations(grid)[t]);
    var s := solve(params, ngen, seedBase + t);
    TrialResult(t + 1, params, s.distance, s.individual)
  }

  /** `grid_search_tuning`: one trial per combination of the grid's value lists. */
  method GridSearchTuning<V, I>(grid: seq<(string, seq<V>)>, ngen: int, seedBase: int,
                                solve: (GridParams<V>, int, int) -> Solved<I>)
    returns (bestParams: Option<GridParams<V>>, bestIndividual: Option<I>, bestDistance: Bound,
             allResults: seq<TrialResult<GridParams<V>, I>>)
    ensures |allResults| == |Combinations(grid)| == LengthProduct(Values(grid))
    ensures forall t :: 0 <= t < |allResults| ==>
      allResults[t] == GridTrial(grid, ngen, seedBase, solve, t)
    ensures (bestParams, bestIndividual, bestDistance) == BestOf(allResults)
    ensures bestDistance.Inf? <==> allResults == []
    ensures allResults == [] ==> bestParams.None? && bestIndividual.None?
    ensures forall u :: 0 <= u < |allResults| ==> AtMost(bestDistance, Finite(allResults[u].distance))
  {
    var paramNames := Keys(grid);
    var combinations := Combinations(grid);
    bestParams, bestIndividual, bestDistance := None, None, Inf;
    allResults := [];
    for i := 0 to |combinations|
      invariant |allResults| == i
      invariant forall t :: 0 <= t < i ==> allResults[t] == GridTrial(grid, ngen, seedBase, solve, t)
      invariant (bestParams, bestIndividual, bestDistance) == BestOf(allResults)
    {
      var params := Zip(paramNames, combinations[i]);
      var solved := solve(params, ngen, seedBase + i);
      var distance := solved.distance;
      var result := TrialResult(i + 1, params, distance, solved.individual);
      BestStep(allResults, result);
      allResults := allResults + [result];
      if Below(distance, bestDistance) {
        bestDistance := Finite(distance);
        bestIndividual := Some(solved.individual);
        bestParams := Some(params);
      }
    }
    ProductLength(Values(grid));
    BestOfMeaning(allResults);
  }

  /** Every recorded setting assigns each grid key one of that key's listed values. */
  lemma GridParamsFromGrid<V>(grid: seq<(string, seq<V>)>, t: nat)
    requires t < |Combinations(grid)|
    ensures |Zip(Keys(grid), Combinations(grid)[t])| == |grid|
    ensures forall m :: 0 <= m < |grid| ==>
      Zip(Keys(grid), Combinations(grid)[t])[m].0 == grid[m].0
      && Zip(Keys(grid), Combinations(grid)[t])[m].1 in grid[m].1
  {
    var c := Combinations(grid)[t];
    ProductMember(Values(grid), c);
  }
}
