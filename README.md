# VRP genetic-algorithm solver: route decoding, fitness accumulation and tuning drivers

This project models two sequential parts of a vehicle-routing solver that is
driven by a genetic algorithm.

- **Route decoding and distance accumulation** (`vrp_solver.py`). An individual
  is a sequence of indices into the customer locations. With `k` vehicles,
  vehicle `i` gets the individual's positions `i, i + k, i + 2k, …`. This is
  round-robin assignment by position, not by value. Each route starts and ends
  at the depot. The fitness evaluator rebuilds the same routes, sums the leg
  costs of each into a per-vehicle distance, and adds these up into a total.
  The leg cost is an abstract parameter `dist`. Its two assumed properties,
  `dist >= 0` and `dist(p, p) == 0`, are the predicates `NonNegativeLegs` and
  `ZeroOnSelf`.
- **Tuning drivers** (`tuning.py`). Grid search runs one trial for every
  combination of the grid's value lists, in `itertools.product` order. Random
  search runs `n_trials` trials with sampled parameters. Trial `i` (0-based)
  uses seed `seed_base + i` and is logged with number `i + 1`. Both drivers
  keep the first trial with the strictly smallest distance, starting from
  "infinity". The GA solver is an opaque function from
  (parameters, generations, seed) to the best individual and its distance.

Modules:

- `Wrappers` is an `Option` type. It stands for Python's `None`.
- `Ranges` is Python's `range(start, stop, step)` for a positive step, with
  lemmas on its length and its elements.
- `VrpSolver` holds the decoder (`VehicleRoutes`, `GetVehicleRoutes`), the
  evaluator (`EvaluateVrp`) and their lemmas.
- `Itertools` is `itertools.product` with lemmas on its length, order and
  members.
- `Tuning` holds the best-so-far bookkeeping and both drivers.

The parts of the source that change state step by step are methods with loop
invariants. They are `GetVehicleRoutes`, `EvaluateVrp`, `RandomSearchTuning`
and `GridSearchTuning`. Each is proved against a specification function:
`VehicleRoutes`, `RouteDistance`/`Sum`, `BestOf`, `RandomTrial` and
`GridTrial`. The lemmas state what those functions mean.

Two edge cases, as the code behaves:

- `num_vehicles <= 0` is not an error. `range(num_vehicles)` is then empty, so
  no route is built and `distances` is empty (`NumRoutes`).
- An empty route is `[depot, depot]`. Its cost is the single leg depot→depot.
  That leg is zero only because `dist(p, p) == 0`.

## Model

| member | source | states |
|---|---|---|
| `VrpSolver.VehicleRoutes` | vrp_solver.py:118-123 | one route per vehicle, `max(num_vehicles, 0)` routes in vehicle order; every route has at least two elements and starts and ends at the depot |
| `VrpSolver.GetVehicleRoutes` | vrp_solver.py:108-123 | the append loop returns exactly the decoded routes `VehicleRoutes` |
| `VrpSolver.RouteShape` | vrp_solver.py:120-121 | route `i` has `len(range(i, n, k))` stops, i.e. `(n - i + k - 1) / k` when `i < n`; for `i >= n` it is exactly `[depot, depot]` |
| `VrpSolver.RouteStopAt` | vrp_solver.py:120-121 | stop `t` of route `i` is `locations[individual[i + t*k]]`, the positions in increasing order |
| `VrpSolver.PositionSlot` | vrp_solver.py:119-121 | position `j` is stop `t` of vehicle `i` if and only if `i == j % k` and `t == j / k`, so each position is served once, by one vehicle |
| `VrpSolver.PositionPlacement` | vrp_solver.py:119-121 | `routes[j % k][j / k + 1] == locations[individual[j]]`, and that index is a stop, not a depot slot |
| `VrpSolver.StopsCoverIndividual` | vrp_solver.py:119-121 | for `k >= 1` the routes' stop counts (depots excluded) add up to `len(individual)` |
| `VrpSolver.DecodeByPosition` | vrp_solver.py:120-121 | two vehicles, individual `[3, 2, 1, 0]` over locations `a, b, c, d`: vehicle 0 visits `d, b`, vehicle 1 visits `c, a` (assignment by position) |
| `VrpSolver.EvaluateVrp` | vrp_solver.py:56-65 | `distances` has one entry per vehicle; entry `i` is the leg-cost sum of decoded route `i` (the evaluator's routes are the decoder's); `total_distance` is their sum; with non-negative legs each entry and the total are `>= 0`; with `dist(p, p) == 0` every vehicle `i >= len(individual)` contributes 0 |
| `VrpSolver.RouteDistanceNonNegative` | vrp_solver.py:62-63 | a route's leg-cost sum is non-negative when every leg cost is |
| `VrpSolver.SumNonNegative` | vrp_solver.py:64 | a sum of non-negative per-vehicle distances is non-negative |
| `Ranges.RangeLength` | vrp_solver.py:121 | `range(i, n, k)` has `(n - i + k - 1) / k` elements when `i < n`, else none |
| `Ranges.RangeAt` | vrp_solver.py:121 | element `t` of `range(i, n, k)` is `i + t*k` |
| `Ranges.SlotInRange` | vrp_solver.py:121 | every `i + t*k < n` is element `t` of `range(i, n, k)` |
| `Itertools.ProductLength` | tuning.py:120 | the number of combinations is the product of the value lists' lengths |
| `Itertools.ProductAtRank` | tuning.py:120 | choosing position `pos[m]` in each list `m` gives combination number `Rank(pos)` (mixed radix, last list weight 1): lexicographic order with the last key varying fastest |
| `Itertools.ProductMember` | tuning.py:118-120 | a sequence is a combination if and only if it has one entry per key and entry `m` is in list `m` |
| `Itertools.ProductEmpty` | tuning.py:120-129 | there are no combinations, so no trials, if and only if some value list is empty |
| `Tuning.BestStep` | tuning.py:155-158 | appending a trial makes it the best exactly when `distance < best_distance`, and then best becomes its params, individual and distance; otherwise best is unchanged; `best_distance` never increases |
| `Tuning.LeaderIsFirstMinimum` | tuning.py:155-158 | the kept trial is exactly the first trial reaching the minimum distance: the pick is unique, so ties keep the earlier trial |
| `Tuning.BestOfMeaning` | tuning.py:122-158 | with no trials the result is `(None, None, inf)`, otherwise `best_distance` is finite, at most every recorded distance, and comes with the params and individual of the first trial reaching it |
| `Tuning.BestNeverIncreases` | tuning.py:86-94 | for any prefixes `i <= j` of the log, the best distance after `j` trials is at most the one after `i` |
| `Tuning.RandomSearchTuning` | tuning.py:46-94 | exactly `max(n_trials, 0)` results; result `t` is numbered `t + 1`, holds trial `t`'s sampled params and the distance and individual from solving with seed `seed_base + t`; the returned best is `BestOf` of the log: `(None, None, inf)` for no trials, otherwise the first minimum |
| `Tuning.GridSearchTuning` | tuning.py:118-165 | one result per combination, as many as the product of the list lengths; result `t` is numbered `t + 1`, holds `dict(zip(keys, combination t))` and the outcome of solving with seed `seed_base + t`; the returned best is the first minimum, or `(None, None, inf)` for no combinations |
| `Tuning.GridParamsFromGrid` | tuning.py:118-130 | every recorded parameter setting assigns each grid key, in key order, one of that key's listed values |

## Left out

- The GA machinery is not modelled: DEAP's `creator`/toolbox setup, `eaSimple`, `HallOfFame`, `Statistics`, and the crossover, mutation and selection operators (vrp_solver.py:28-44, 70-106). Their code is a foreign library that is not part of this model. The tuning drivers therefore see `solve` as an opaque function.
- The random source is not modelled: `random.seed`, `random.sample`, and the `randint`/`uniform` parameter draws. Random search takes the draws as a parameter `sample`, which maps a trial number to that trial's parameters.
- The leg cost `np.linalg.norm` is not modelled. It is the parameter `dist`, and only the summation around it is verified.
- EvaluateVrp: the balance penalty `np.std(distances)` is not computed. The method returns the per-vehicle `distances` it would be taken from, together with the total, instead of the pair `(total_distance, balance_penalty)`.
- Floating point is not modelled. Distances are mathematical reals, so rounding, `nan` (which never compares `<`) and an infinite trial distance do not occur. `float("inf")` is the `Inf` case of `Bound`.
- VehicleRoutes: requires every entry of the individual to be a valid index. The model does not follow Python into negative-index wrap-around or `IndexError` for other individuals.
- GridSearchTuning: a grid that lacks one of the keys `pop_size`, `cxpb`, `mutpb` or `tournsize` raises `KeyError` in the source. The model's opaque `solve` is not modelled as making that lookup.
- GridSearchTuning: a grid key named `trial`, `distance` or `individual` is overridden in the source's result dict, because `{'trial': i + 1, **params, 'distance': …, 'individual': …}` lets later keys win (tuning.py:146-151). A grid key `trial` thus replaces the trial number, and the solver's distance and individual replace grid keys `distance` and `individual`. The model always records `i + 1`, the solver's distance and individual, and the whole parameter setting as separate fields, so it does not capture these collisions.
- RandomSearchTuning and GridSearchTuning: Python's default arguments are not modelled, and every argument is explicit. The defaults are `n_trials=25`, `ngen=20`, `seed_base=0` and the default `param_ranges` table (tuning.py:25, 38-44, 103). The `param_ranges` table only feeds the random sampling, which the model leaves out.
- The `verbose` flag and all `print` output are not modelled.
- `compare_tuning_methods` is not modelled. It only calls the two drivers with fixed inputs.
- `plotting.py`, `locations.py` and `config.py` are not part of this model. They cover rendering, random instance generation and constant tables.
