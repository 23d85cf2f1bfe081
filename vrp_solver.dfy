/**
 * Route decoding and distance accumulation of the VRP genetic-algorithm solver.
 *
 * An individual is a sequence of indices into the customer locations. With
 * `k` vehicles, vehicle `i` visits the locations at the individual's positions
 * `i, i + k, i + 2k, ...` (round-robin by position), starting and ending at the
 * depot. The fitness evaluator rebuilds the same routes and adds up their leg
 * costs; the leg cost itself (a Euclidean norm in floating point) is a
 * parameter `dist` of the model.
 */
module VrpSolver {
  import opened Ranges

  /** A point of the plane: a customer location or the depot. */
  datatype Location = Location(x: real, y: real)

  /** A vehicle route: the depot, the stops in visiting order, the depot. */
  type Route = seq<Location>

  /** The fields of a solver that decoding and evaluation read. */
  datatype Instance = Instance(locations: seq<Location>, depot: Location, numVehicles: int)

  /** Every entry of the individual indexes a location. */
  predicate ValidIndividual(inst: Instance, individual: seq<int>)
  {
    forall j :: 0 <= j < |individual| ==> 0 <= individual[j] < |inst.locations|
  }

  /** `len(range(num_vehicles))`: the number of routes built. */
  function NumRoutes(numVehicles: int): nat
  {
    if numVehicles <= 0 then 0 else numVehicles
  }

  /** Positions of the individual served by vehicle `i`. */
  function RoutePositions(inst: Instance, individual: seq<int>, i: nat): seq<nat>
    requires inst.numVehicles >= 1
  {
    Range(i, |individual|, inst.numVehicles)
  }

  /** The comprehension `[locations[individual[j]] for j in range(i, n, k)]`. */
  function Stops(inst: Instance, individual: seq<int>, i: nat): seq<Location>
    requires inst.numVehicles >= 1
    requires ValidIndividual(inst, individual)
  {
    var r := RoutePositions(inst, individual, i);
    seq(|r|, t requires 0 <= t < |r| => inst.locations[individual[r[t]]])
  }

  /** The route of vehicle `i`: depot, its stops, depot. */
  function VehicleRoute(inst: Instance, individual: seq<int>, i: nat): Route
    requires inst.numVehicles >= 1
    requires ValidIndividual(inst, individual)
  {
    [inst.depot] + Stops(inst, individual, i) + [inst.depot]
  }

  /** The routes of all vehicles, in vehicle order. */
  function VehicleRoutes(inst: Instance, individual: seq<int>): (routes: seq<Route>)
    requires ValidIndividual(inst, individual)
    ensures |routes| == NumRoutes(inst.numVehicles)
    ensures forall i :: 0 <= i < |routes| ==>
      |routes[i]| >= 2 && routes[i][0] == inst.depot && routes[i][|routes[i]| - 1] == inst.depot
  {
    var k := NumRoutes(inst.numVehicles);
    seq(k, i requires 0 <= i < k => VehicleRoute(inst, individual, i))
  }

  /** `get_vehicle_routes`: builds the routes one vehicle at a time. */
  method GetVehicleRoutes(inst: Instance, individual: seq<int>) returns (routes: seq<Route>)
    requires ValidIndividual(inst, individual)
    ensures routes == VehicleRoutes(inst, individual)
  {
    routes := [];
    for i := 0 to NumRoutes(inst.numVehicles)
      invariant routes == VehicleRoutes(inst, individual)[..i]
    {
      var vehicleRoute := VehicleRoute(inst, individual, i);
      routes := routes + [vehicleRoute];
    }
  }

  /** Vehicle `i` has `len(range(i, n, k))` stops; with `i >= n` its route is depot to depot. */
  lemma RouteShape(inst: Instance, individual: seq<int>, i: nat)
    requires inst.numVehicles >= 1
    requires ValidIndividual(inst, individual)
    ensures |VehicleRoute(inst, individual, i)| == RangeLen(i, |individual|, inst.numVehicles) + 2
    ensures i >= |individual| ==> VehicleRoute(inst, individual, i) == [inst.depot, inst.depot]
  {
    RangeLength(i, |individual|, inst.numVehicles);
  }

  /** Stop `t` of vehicle `i` is the location at position `i + t * k`. */
  lemma RouteStopAt(inst: Instance, individual: seq<int>, i: nat, t: nat)
    requires inst.numVehicles >= 1
    requires ValidIndividual(inst, individual)
    requires t < |RoutePositions(inst, individual, i)|
    ensures i + t * inst.numVehicles < |individual|
    ensures VehicleRoute(inst, individual, i)[t + 1]
         == inst.locations[individual[i + t * inst.numVehicles]]
  {
    RangeAt(i, |individual|, inst.numVehicles, t);
  }

  /**
   * Position `j` of the individual is stop `t` of vehicle `i` exactly when
   * `i == j % k` and `t == j / k`: each position is served once, by one vehicle.
   */
  lemma PositionSlot(inst: Instance, individual: seq<int>, j: nat, i: nat, t: nat)
    requires inst.numVehicles >= 1
    requires j < |individual| && i < inst.numVehicles
    ensures (t < |RoutePositions(inst, individual, i)| && RoutePositions(inst, individual, i)[t] == j)
        <==> (i == j % inst.numVehicles && t == j / inst.numVehicles)
  {
    var n, k := |individual|, inst.numVehicles;
    if t < |Range(i, n, k)| && Range(i, n, k)[t] == j {
      RangeAt(i, n, k, t);
      SlotDivMod(i, t, k);
    }
    if i == j % k && t == j / k {
      DivSplit(j, k);
      SlotInRange(i, n, k, t);
    }
  }

  /** Position `j` lands in route `j % k` at index `j / k + 1`. */
  lemma PositionPlacement(inst: Instance, individual: seq<int>, j: nat)
    requires inst.numVehicles >= 1
    requires ValidIndividual(inst, individual)
    requires j < |individual|
    ensures j / inst.numVehicles + 1 < |VehicleRoutes(inst, individual)[j % inst.numVehicles]| - 1
    ensures VehicleRoutes(inst, individual)[j % inst.numVehicles][j / inst.numVehicles + 1]
         == inst.locations[individual[j]]
  {
    var k := inst.numVehicles;
    PositionSlot(inst, individual, j, j % k, j / k);
    RouteStopAt(inst, individual, j % k, j / k);
  }

  /** The number of stops, depots excluded, over a list of routes. */
  function StopCount(routes: seq<Route>): int
  {
    if routes == [] then 0
    else StopCount(routes[..|routes| - 1]) + |routes[|routes| - 1]| - 2
  }

  /** Helper sum: the stop counts of vehicles `0 .. m-1`, by range lengths. */
  function RangeTotal(n: nat, k: nat, m: nat): nat
    requires k >= 1
  {
    if m == 0 then 0 else RangeTotal(n, k, m - 1) + |Range(m - 1, n, k)|
  }

  lemma {:induction false} RangeTotalSmall(n: nat, k: nat, m: nat)
    requires k >= 1 && n <= k && m <= k
    ensures RangeTotal(n, k, m) == if m <= n then m else n
  {
    if m > 0 {
      RangeTotalSmall(n, k, m - 1);
      assert Range(m - 1 + k, n, k) == [];
    }
  }

  lemma {:induction false} RangeTotalShift(n: nat, k: nat, m: nat)
    requires k >= 1 && n > k && m <= k
    ensures RangeTotal(n, k, m) == m + RangeTotal(n - k, k, m)
  {
    if m > 0 {
      RangeTotalShift(n, k, m - 1);
      RangeShift(m - 1, n - k, k);
    }
  }

  lemma {:induction false} RangeTotalAll(n: nat, k: nat)
    requires k >= 1
    ensures RangeTotal(n, k, k) == n
    decreases n
  {
    if n <= k {
      RangeTotalSmall(n, k, k);
    } else {
      RangeTotalShift(n, k, k);
      RangeTotalAll(n - k, k);
    }
  }

  lemma {:induction false} StopCountPrefix(inst: Instance, individual: seq<int>, m: nat)
    requires inst.numVehicles >= 1
    requires ValidIndividual(inst, individual)
    requires m <= inst.numVehicles
    ensures StopCount(VehicleRoutes(inst, individual)[..m]) == RangeTotal(|individual|, inst.numVehicles, m)
  {
    if m > 0 {
      var routes := VehicleRoutes(inst, individual);
      StopCountPrefix(inst, individual, m - 1);
      assert routes[..m][..m - 1] == routes[..m - 1];
    }
  }

  /** The routes' stop counts add up to the length of the individual. */
  lemma StopsCoverIndividual(inst: Instance, individual: seq<int>)
    requires inst.numVehicles >= 1
    requires ValidIndividual(inst, individual)
    ensures StopCount(VehicleRoutes(inst, individual)) == |individual|
  {
    var routes := VehicleRoutes(inst, individual);
    StopCountPrefix(inst, individual, inst.numVehicles);
    assert routes[..inst.numVehicles] == routes;
    RangeTotalAll(|individual|, inst.numVehicles);
  }

  /** Two vehicles over four locations: assignment follows positions, not values. */
  lemma DecodeByPosition(a: Location, b: Location, c: Location, d: Location, depot: Location)
    ensures VehicleRoutes(Instance([a, b, c, d], depot, 2), [3, 2, 1, 0])
         == [[depot, d, b, depot], [depot, c, a, depot]]
  {
    var inst := Instance([a, b, c, d], depot, 2);
    assert Range(0, 4, 2) == [0, 2];
    assert Range(1, 4, 2) == [1, 3];
    assert VehicleRoute(inst, [3, 2, 1, 0], 0) == [depot, d, b, depot];
    assert VehicleRoute(inst, [3, 2, 1, 0], 1) == [depot, c, a, depot];
  }

  // ---------------------------------------------------------------------
  // Fitness: distance accumulation
  // ---------------------------------------------------------------------

  /** A leg cost never negative. */
  ghost predicate NonNegativeLegs(dist: (Location, Location) -> real)
  {
    forall p, q :: dist(p, q) >= 0.0
  }

  /** A leg from a point to itself costs nothing. */
  ghost predicate ZeroOnSelf(dist: (Location, Location) -> real)
  {
    forall p :: dist(p, p) == 0.0
  }

  /** The sum of the leg costs `dist(route[k], route[k + 1])` along a route. */
  function RouteDistance(dist: (Location, Location) -> real, route: Route): real
  {
    if |route| < 2 then 0.0 else dist(route[0], route[1]) + RouteDistance(dist, route[1..])
  }

  /** Left-to-right sum of a list of reals. */
  function Sum(xs: seq<real>): real
  {
    if xs == [] then 0.0 else Sum(xs[..|xs| - 1]) + xs[|xs| - 1]
  }

  lemma {:induction false} RouteDistanceNonNegative(dist: (Location, Location) -> real, route: Route)
    requires NonNegativeLegs(dist)
    ensures RouteDistance(dist, route) >= 0.0
  {
    if |route| >= 2 {
      RouteDistanceNonNegative(dist, route[1..]);
    }
  }

  lemma {:induction false} SumNonNegative(xs: seq<real>)
    requires forall i :: 0 <= i < |xs| ==> xs[i] >= 0.0
    ensures Sum(xs) >= 0.0
  {
    if xs != [] {
      SumNonNegative(xs[..|xs| - 1]);
    }
  }

  /**
   * The distance part of `_evaluate_vrp`: the per-vehicle distances of the
   * decoded routes and their total. The balance penalty is their standard
   * deviation, which the model leaves out.
   */
  method EvaluateVrp(inst: Instance, individual: seq<int>, dist: (Location, Location) -> real)
    returns (totalDistance: real, distances: seq<real>)
    requires ValidIndividual(inst, individual)
    ensures |distances| == NumRoutes(inst.numVehicles)
    ensures forall i :: 0 <= i < |distances| ==>
      distances[i] == RouteDistance(dist, VehicleRoutes(inst, individual)[i])
    ensures totalDistance == Sum(distances)
    ensures NonNegativeLegs(dist) ==>
      totalDistance >= 0.0 && forall i :: 0 <= i < |distances| ==> distances[i] >= 0.0
    ensures ZeroOnSelf(dist) ==>
      forall i :: |individual| <= i < |distances| ==> distances[i] == 0.0
  {
    totalDistance := 0.0;
    distances := [];
    for i := 0 to NumRoutes(inst.numVehicles)
      invariant |distances| == i
      invariant forall v :: 0 <= v < i ==>
        distances[v] == RouteDistance(dist, VehicleRoute(inst, individual, v))
      invariant totalDistance == Sum(distances)
    {
      var vehicleRoute := VehicleRoute(inst, individual, i);
      var vehicleDistance := RouteDistance(dist, vehicleRoute);
      totalDistance := totalDistance + vehicleDistance;
      distances := distances + [vehicleDistance];
      assert distances[..i] == distances[..|distances| - 1];
    }
    if NonNegativeLegs(dist) {
      forall i | 0 <= i < |distances| ensures distances[i] >= 0.0 {
        RouteDistanceNonNegative(dist, VehicleRoute(inst, individual, i));
      }
      SumNonNegative(distances);
    }
    if ZeroOnSelf(dist) {
      forall i | |individual| <= i < |distances| ensures distances[i] == 0.0 {
        RouteShape(inst, individual, i);
      }
    }
  }
}
