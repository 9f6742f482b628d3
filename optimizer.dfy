/**
 * The optimisation that runs in the dashboard: a greedy first-fit matcher.
 * Requests are taken in input order; each receives the first vehicle, in
 * input order, whose id has not been used yet and whose capacity covers the
 * request's weight. The distance, cost and coordinates of an assignment come
 * from random draws, here supplied by the caller as `draw`: the k-th
 * assignment made uses `draw(k)`, six numbers in [0, 1) taken in the order
 * the source calls its random generator.
 *
 * `Run` is the specification of the loop (the state after the first n
 * requests), `Finish` derives the metrics, and `MockOptimization` is the
 * loop itself, proved to compute `Optimization`.
 */
module Optimizer {
  import opened Wrappers
  import opened FleetTypes
  import RouteLabel

  /** The six random draws behind one assignment, in the order the source makes them. */
  datatype Sample = Sample(
    distance: real,
    costNoise: real,
    pickupLat: real,
    pickupLon: real,
    dropLat: real,
    dropLon: real)

  predicate InUnit(x: real)
  {
    0.0 <= x < 1.0
  }

  /** What a random generator delivers: every draw in [0, 1). */
  predicate ValidSample(s: Sample)
  {
    InUnit(s.distance) && InUnit(s.costNoise) && InUnit(s.pickupLat)
    && InUnit(s.pickupLon) && InUnit(s.dropLat) && InUnit(s.dropLon)
  }

  /** The centre of the area coordinates are scattered around. */
  const CenterLat: real := 40.7128
  const CenterLon: real := -74.0060
  const CostPerKm: real := 2.5
  /** The baseline is the total cost scaled by this fixed factor. */
  const BaselineFactor: real := 1.3

  /** A vehicle can take a request when its id is unused and its capacity covers the weight. */
  predicate CanTake(v: Vehicle, used: set<Id>, weight: real)
  {
    v.id !in used && v.capacity >= weight
  }

  /** `vehicles.find(...)`: the index of the first vehicle that can take the weight. */
  function FirstFit(vehicles: seq<Vehicle>, used: set<Id>, weight: real): (r: Option<nat>)
    ensures r.Some? ==> r.value < |vehicles| && CanTake(vehicles[r.value], used, weight)
    ensures r.Some? ==> forall j :: 0 <= j < r.value ==> !CanTake(vehicles[j], used, weight)
    ensures r.None? <==> forall j :: 0 <= j < |vehicles| ==> !CanTake(vehicles[j], used, weight)
  {
    if |vehicles| == 0 then None
    else if CanTake(vehicles[0], used, weight) then Some(0)
    else match FirstFit(vehicles[1..], used, weight)
      case None => None
      case Some(i) => Some(i + 1)
  }

  /**
   * `Math.round(x * 100) / 100`: x rounded to cents, halves upwards
   * (`Math.round(y)` is the floor of y + 0.5).
   */
  function Cents(x: real): (r: real)
    ensures x - 0.005 < r <= x + 0.005
    ensures (r * 100.0).Floor as real == r * 100.0
  {
    var f := (x * 100.0 + 0.5).Floor;
    assert f as real <= x * 100.0 + 0.5 < f as real + 1.0;
    assert (f as real / 100.0) * 100.0 == f as real;
    f as real / 100.0
  }

  /** Rounding to cents never reverses an order. */
  lemma CentsMonotone(x: real, y: real)
    requires x <= y
    ensures Cents(x) <= Cents(y)
  {
    var fx := (x * 100.0 + 0.5).Floor;
    var fy := (y * 100.0 + 0.5).Floor;
    assert fx as real <= x * 100.0 + 0.5 <= y * 100.0 + 0.5 < fy as real + 1.0;
    assert fx < fy + 1;
    assert Cents(x) == fx as real / 100.0 && Cents(y) == fy as real / 100.0;
  }

  /** Whole amounts are already exact to the cent. */
  lemma CentsOfWhole(n: int)
    ensures Cents(n as real) == n as real
  {
    var y := n as real * 100.0 + 0.5;
    assert (n * 100) as real <= y < (n * 100) as real + 1.0;
    assert y.Floor == n * 100;
  }

  /** Rounding to cents twice is rounding once. */
  lemma CentsIdempotent(x: real)
    ensures Cents(Cents(x)) == Cents(x)
  {
    var f := (x * 100.0 + 0.5).Floor;
    assert Cents(x) == f as real / 100.0;
    var y := (f as real / 100.0) * 100.0 + 0.5;
    assert y == f as real + 0.5;
    assert f as real <= y < f as real + 1.0;
    assert y.Floor == f;
  }

  /** The assignment record for vehicle v serving request r, priced from one sample. */
  function Quote(v: Vehicle, r: ClientRequest, s: Sample): (a: Assignment)
    ensures a.vehicleId == v.id && a.vehicleName == v.name
    ensures a.requestId == r.id && a.clientName == r.clientName
    ensures a.route == RouteLabel.Route(r.pickupLocation, r.dropLocation)
    ensures (a.distance * 100.0).Floor as real == a.distance * 100.0
    ensures (a.cost * 100.0).Floor as real == a.cost * 100.0
  {
    var distance := s.distance * 50.0 + 10.0;
    var cost := distance * CostPerKm + s.costNoise * 20.0;
    Assignment(
      v.id, v.name, r.id, r.clientName,
      RouteLabel.Route(r.pickupLocation, r.dropLocation),
      Cents(distance), Cents(cost),
      Coords(CenterLat + (s.pickupLat - 0.5) * 0.1, CenterLon + (s.pickupLon - 0.5) * 0.1),
      Coords(CenterLat + (s.dropLat - 0.5) * 0.1, CenterLon + (s.dropLon - 0.5) * 0.1))
  }

  /**
   * With genuine random draws a distance lies in [10, 60] km and a cost in
   * [25, 170] once rounded to cents, and a coordinate within 0.05 degrees of the centre.
   */
  lemma {:induction false} QuoteBounds(v: Vehicle, r: ClientRequest, s: Sample)
    requires ValidSample(s)
    ensures var a := Quote(v, r, s);
      && a.vehicleId == v.id && a.requestId == r.id
      && 10.0 <= a.distance <= 60.0
      && 25.0 <= a.cost <= 170.0
      && CenterLat - 0.05 <= a.pickupCoords.lat < CenterLat + 0.05
      && CenterLon - 0.05 <= a.pickupCoords.lon < CenterLon + 0.05
      && CenterLat - 0.05 <= a.dropCoords.lat < CenterLat + 0.05
      && CenterLon - 0.05 <= a.dropCoords.lon < CenterLon + 0.05
  {
    var distance := s.distance * 50.0 + 10.0;
    var cost := distance * CostPerKm + s.costNoise * 20.0;
    CentsMonotone(10.0, distance);
    CentsMonotone(distance, 60.0);
    CentsMonotone(25.0, cost);
    CentsMonotone(cost, 170.0);
    CentsOfWhole(10);
    CentsOfWhole(60);
    CentsOfWhole(25);
    CentsOfWhole(170);
  }

  /** A choice the matcher made: indices into the vehicle and request inputs. */
  datatype Pick = Pick(vehicle: nat, request: nat)

  /**
   * The loop state: the assignments pushed so far, the ids in
   * `usedVehicles` and `assignedRequests`, and (for the proofs) the picks
   * behind the assignments.
   */
  datatype Pass = Pass(
    assignments: seq<Assignment>,
    picks: seq<Pick>,
    usedVehicles: set<Id>,
    assignedRequests: set<Id>)

  /** One iteration of the loop, for request number k. */
  function Step(vehicles: seq<Vehicle>, requests: seq<ClientRequest>, draw: nat -> Sample, p: Pass, k: nat): Pass
    requires k < |requests|
  {
    var request := requests[k];
    match FirstFit(vehicles, p.usedVehicles, request.weight)
    case None => p
    case Some(j) => Extend(vehicles, requests, draw, p, j, k)
  }

  /** The loop state after the first n requests. */
  function Run(vehicles: seq<Vehicle>, requests: seq<ClientRequest>, draw: nat -> Sample, n: nat): Pass
    requires n <= |requests|
  {
    if n == 0 then Pass([], [], {}, {})
    else Step(vehicles, requests, draw, Run(vehicles, requests, draw, n - 1), n - 1)
  }

  function CostOf(a: Assignment): real { a.cost }

  function DistanceOf(a: Assignment): real { a.distance }

  /** `assignments.reduce((sum, a) => sum + f(a), 0)`. */
  function SumBy(assignments: seq<Assignment>, f: Assignment -> real): real
  {
    if assignments == [] then 0.0
    else SumBy(assignments[..|assignments| - 1], f) + f(assignments[|assignments| - 1])
  }

  function IdOfVehicle(v: Vehicle): Id { v.id }

  function IdOfRequest(r: ClientRequest): Id { r.id }

  /** The set of ids of a list. */
  function IdSet<T>(xs: seq<T>, key: T -> Id): set<Id>
  {
    set i | 0 <= i < |xs| :: key(xs[i])
  }

  /** `xs.filter(x => !taken.has(key(x))).map(key)`. */
  function KeysNotIn<T>(xs: seq<T>, key: T -> Id, taken: set<Id>): (r: seq<Id>)
    ensures |r| <= |xs|
    ensures forall x :: x in r <==> x in IdSet(xs, key) && x !in taken
  {
    if xs == [] then []
    else
      assert IdSet(xs, key) == {key(xs[0])} + IdSet(xs[1..], key) by {
        forall x | x in IdSet(xs, key) ensures x in {key(xs[0])} + IdSet(xs[1..], key) {
          var i :| 0 <= i < |xs| && key(xs[i]) == x;
          if i > 0 { assert xs[1..][i - 1] == xs[i]; }
        }
        forall x | x in IdSet(xs[1..], key) ensures x in IdSet(xs, key) {
          var i :| 0 <= i < |xs[1..]| && key(xs[1..][i]) == x;
          assert xs[i + 1] == xs[1..][i];
        }
      }
      (if key(xs[0]) in taken then [] else [key(xs[0])]) + KeysNotIn(xs[1..], key, taken)
  }

  /** The filter keeps input order: it distributes over concatenation. */
  lemma {:induction false} KeysNotInAppend<T>(a: seq<T>, b: seq<T>, key: T -> Id, taken: set<Id>)
    ensures KeysNotIn(a + b, key, taken) == KeysNotIn(a, key, taken) + KeysNotIn(b, key, taken)
  {
    if a == [] {
      assert a + b == b;
    } else {
      assert (a + b)[0] == a[0];
      assert (a + b)[1..] == a[1..] + b;
      KeysNotInAppend(a[1..], b, key, taken);
      var head := if key(a[0]) in taken then [] else [key(a[0])];
      assert head + (KeysNotIn(a[1..], key, taken) + KeysNotIn(b, key, taken))
          == (head + KeysNotIn(a[1..], key, taken)) + KeysNotIn(b, key, taken);
    }
  }

  /** `(used / total) * 100` rounded to cents, which is NaN when there are no vehicles. */
  function UtilizationOf(used: nat, total: nat): (u: Utilization)
    ensures u.NotANumber? <==> total == 0
    ensures u.Percent? ==> (u.value * 100.0).Floor as real == u.value * 100.0
  {
    if total == 0 then NotANumber else Percent(Cents(used as real / total as real * 100.0))
  }

  /**
   * Utilisation is the used share in percent, to the cent: NaN exactly
   * without vehicles, 0 when none is used, 100 when all are, and in
   * [0, 100] when no more vehicles are used than exist.
   */
  lemma {:induction false} UtilizationShare(used: nat, total: nat)
    ensures UtilizationOf(used, total).NotANumber? <==> total == 0
    ensures total > 0 ==> used as real / total as real * 100.0 - 0.005 < UtilizationOf(used, total).value
                          <= used as real / total as real * 100.0 + 0.005
    ensures total > 0 && used == 0 ==> UtilizationOf(used, total) == Percent(0.0)
    ensures total > 0 && used == total ==> UtilizationOf(used, total) == Percent(100.0)
    ensures total > 0 && used <= total ==> 0.0 <= UtilizationOf(used, total).value <= 100.0
  {
    if total > 0 {
      var share := used as real / total as real;
      assert share * total as real == used as real;
      if used == 0 {
        assert share == 0.0;
        CentsOfWhole(0);
      }
      if used == total {
        assert share == 1.0;
        CentsOfWhole(100);
      }
      if used <= total {
        assert 0.0 <= share <= 1.0;
        CentsMonotone(0.0, share * 100.0);
        CentsMonotone(share * 100.0, 100.0);
        CentsOfWhole(0);
        CentsOfWhole(100);
      }
    }
  }

  /** More vehicles in use never means lower utilisation. */
  lemma {:induction false} UtilizationMonotone(used: nat, more: nat, total: nat)
    requires used <= more && total > 0
    ensures UtilizationOf(used, total).value <= UtilizationOf(more, total).value
  {
    var t := total as real;
    assert used as real / t <= more as real / t;
    CentsMonotone(used as real / t * 100.0, more as real / t * 100.0);
  }

  /** The result built from the final loop state. */
  function Finish(vehicles: seq<Vehicle>, requests: seq<ClientRequest>, assignments: seq<Assignment>,
                  usedVehicles: set<Id>, assignedRequests: set<Id>): (r: OptimizationResult)
    ensures r.assignments == assignments
    ensures (r.totalCost * 100.0).Floor as real == r.totalCost * 100.0
    ensures (r.baselineCost * 100.0).Floor as real == r.baselineCost * 100.0
    ensures (r.totalDistance * 100.0).Floor as real == r.totalDistance * 100.0
    ensures |r.unassignedRequests| <= |requests| && |r.idleVehicles| <= |vehicles|
  {
    var totalCost := SumBy(assignments, CostOf);
    OptimizationResult(
      assignments,
      Cents(totalCost),
      Cents(totalCost * BaselineFactor),
      Cents(SumBy(assignments, DistanceOf)),
      UtilizationOf(|usedVehicles|, |vehicles|),
      KeysNotIn(requests, IdOfRequest, assignedRequests),
      KeysNotIn(vehicles, IdOfVehicle, usedVehicles))
  }

  /** What `mockOptimization(vehicles, requests)` returns for the given draws. */
  function Optimization(vehicles: seq<Vehicle>, requests: seq<ClientRequest>, draw: nat -> Sample): OptimizationResult
  {
    var p := Run(vehicles, requests, draw, |requests|);
    Finish(vehicles, requests, p.assignments, p.usedVehicles, p.assignedRequests)
  }

  /** `mockOptimization`: the first-fit loop followed by the derived metrics. */
  method MockOptimization(vehicles: seq<Vehicle>, requests: seq<ClientRequest>, draw: nat -> Sample)
    returns (result: OptimizationResult)
    ensures result == Optimization(vehicles, requests, draw)
  {
    var assignments: seq<Assignment> := [];
    var usedVehicles: set<Id> := {};
    var assignedRequests: set<Id> := {};
    ghost var picks: seq<Pick> := [];
    for k := 0 to |requests|
      invariant Pass(assignments, picks, usedVehicles, assignedRequests) == Run(vehicles, requests, draw, k)
    {
      var request := requests[k];
      var found := FirstFit(vehicles, usedVehicles, request.weight);
      if found.Some? {
        var vehicle := vehicles[found.value];
        assignments := assignments + [Quote(vehicle, request, draw(|assignments|))];
        picks := picks + [Pick(found.value, k)];
        usedVehicles := usedVehicles + {vehicle.id};
        assignedRequests := assignedRequests + {request.id};
      }
    }
    result := Finish(vehicles, requests, assignments, usedVehicles, assignedRequests);
  }

  /** `runFleetOptimization`: the dashboard's entry point, which returns the mock result. */
  method RunFleetOptimization(vehicles: seq<Vehicle>, requests: seq<ClientRequest>, draw: nat -> Sample)
    returns (result: OptimizationResult)
    ensures result == Optimization(vehicles, requests, draw)
  {
    result := MockOptimization(vehicles, requests, draw);
  }

  // ---------------------------------------------------------------------
  // What the loop keeps true

  /** The ids `usedVehicles` should hold for the given picks. */
  ghost function PickedVehicleIds(vehicles: seq<Vehicle>, picks: seq<Pick>): set<Id>
    requires forall k :: 0 <= k < |picks| ==> picks[k].vehicle < |vehicles|
  {
    set k | 0 <= k < |picks| :: vehicles[picks[k].vehicle].id
  }

  /** The ids `assignedRequests` should hold for the given picks. */
  ghost function PickedRequestIds(requests: seq<ClientRequest>, picks: seq<Pick>): set<Id>
    requires forall k :: 0 <= k < |picks| ==> picks[k].request < |requests|
  {
    set k | 0 <= k < |picks| :: requests[picks[k].request].id
  }

  /** Every pick points into the inputs, at one of the first n requests, and explains its assignment. */
  ghost predicate PicksExplainAssignments(vehicles: seq<Vehicle>, requests: seq<ClientRequest>, draw: nat -> Sample, n: nat, p: Pass)
    requires n <= |requests|
  {
    && |p.picks| == |p.assignments| <= n
    && (forall k :: 0 <= k < |p.picks| ==> p.picks[k].vehicle < |vehicles| && p.picks[k].request < n)
    && (forall k :: 0 <= k < |p.picks| ==>
          p.assignments[k] == Quote(vehicles[p.picks[k].vehicle], requests[p.picks[k].request], draw(k)))
  }

  /** Capacity covers weight in every pick, and requests are picked in strictly increasing order. */
  ghost predicate PicksFeasibleInOrder(vehicles: seq<Vehicle>, requests: seq<ClientRequest>, p: Pass)
  {
    && (forall k :: 0 <= k < |p.picks| ==> p.picks[k].vehicle < |vehicles| && p.picks[k].request < |requests|)
    && (forall k :: 0 <= k < |p.picks| ==>
          vehicles[p.picks[k].vehicle].capacity >= requests[p.picks[k].request].weight)
    && (forall i, j :: 0 <= i < j < |p.picks| ==> p.picks[i].request < p.picks[j].request)
  }

  /** The picked vehicles have pairwise distinct ids, and these ids are exactly `usedVehicles`. */
  ghost predicate UsedMatchesPicks(vehicles: seq<Vehicle>, p: Pass)
  {
    && (forall k :: 0 <= k < |p.picks| ==> p.picks[k].vehicle < |vehicles|)
    && (forall i, j :: 0 <= i < j < |p.picks| ==>
          vehicles[p.picks[i].vehicle].id != vehicles[p.picks[j].vehicle].id)
    && p.usedVehicles == PickedVehicleIds(vehicles, p.picks)
    && |p.usedVehicles| == |p.picks|
  }

  /** `assignedRequests` holds exactly the ids of the picked requests. */
  ghost predicate AssignedMatchesPicks(requests: seq<ClientRequest>, p: Pass)
  {
    && (forall k :: 0 <= k < |p.picks| ==> p.picks[k].request < |requests|)
    && p.assignedRequests == PickedRequestIds(requests, p.picks)
  }

  /** The invariant of the loop state after n requests. */
  ghost predicate Consistent(vehicles: seq<Vehicle>, requests: seq<ClientRequest>, draw: nat -> Sample, n: nat, p: Pass)
    requires n <= |requests|
  {
    && PicksExplainAssignments(vehicles, requests, draw, n, p)
    && PicksFeasibleInOrder(vehicles, requests, p)
    && UsedMatchesPicks(vehicles, p)
    && AssignedMatchesPicks(requests, p)
  }

  /** The state after request n was given vehicle j. */
  function Extend(vehicles: seq<Vehicle>, requests: seq<ClientRequest>, draw: nat -> Sample, p: Pass, j: nat, n: nat): Pass
    requires j < |vehicles| && n < |requests|
  {
    Pass(
      p.assignments + [Quote(vehicles[j], requests[n], draw(|p.assignments|))],
      p.picks + [Pick(j, n)],
      p.usedVehicles + {vehicles[j].id},
      p.assignedRequests + {requests[n].id})
  }

  lemma {:induction false} ExtendExplains(vehicles: seq<Vehicle>, requests: seq<ClientRequest>, draw: nat -> Sample, p: Pass, j: nat, n: nat)
    requires j < |vehicles| && n < |requests|
    requires PicksExplainAssignments(vehicles, requests, draw, n, p)
    ensures PicksExplainAssignments(vehicles, requests, draw, n + 1, Extend(vehicles, requests, draw, p, j, n))
  {
  }

  lemma {:induction false} ExtendFeasible(vehicles: seq<Vehicle>, requests: seq<ClientRequest>, p: Pass, j: nat, n: nat, draw: nat -> Sample)
    requires j < |vehicles| && n < |requests|
    requires vehicles[j].capacity >= requests[n].weight
    requires PicksFeasibleInOrder(vehicles, requests, p)
    requires forall k :: 0 <= k < |p.picks| ==> p.picks[k].request < n
    ensures PicksFeasibleInOrder(vehicles, requests, Extend(vehicles, requests, draw, p, j, n))
  {
  }

  lemma {:induction false} PickedVehicleIdsAppend(vehicles: seq<Vehicle>, picks: seq<Pick>, x: Pick)
    requires forall k :: 0 <= k < |picks| ==> picks[k].vehicle < |vehicles|
    requires x.vehicle < |vehicles|
    ensures PickedVehicleIds(vehicles, picks + [x]) == PickedVehicleIds(vehicles, picks) + {vehicles[x.vehicle].id}
  {
    var q := picks + [x];
    forall y | y in PickedVehicleIds(vehicles, q) ensures y in PickedVehicleIds(vehicles, picks) + {vehicles[x.vehicle].id} {
      var k :| 0 <= k < |q| && vehicles[q[k].vehicle].id == y;
      if k < |picks| { assert q[k] == picks[k]; }
    }
    forall y | y in PickedVehicleIds(vehicles, picks) + {vehicles[x.vehicle].id} ensures y in PickedVehicleIds(vehicles, q) {
      if y == vehicles[x.vehicle].id {
        assert vehicles[q[|picks|].vehicle].id == y;
      } else {
        var k :| 0 <= k < |picks| && vehicles[picks[k].vehicle].id == y;
        assert vehicles[q[k].vehicle].id == y;
      }
    }
  }

  lemma {:induction false} ExtendUsed(vehicles: seq<Vehicle>, requests: seq<ClientRequest>, p: Pass, j: nat, n: nat, draw: nat -> Sample)
    requires j < |vehicles| && n < |requests|
    requires vehicles[j].id !in p.usedVehicles
    requires UsedMatchesPicks(vehicles, p)
    ensures UsedMatchesPicks(vehicles, Extend(vehicles, requests, draw, p, j, n))
  {
    var q := Extend(vehicles, requests, draw, p, j, n);
    ExtendDistinct(vehicles, p.picks, j, n, p.usedVehicles);
    assert p.usedVehicles == PickedVehicleIds(vehicles, p.picks);
    PickedVehicleIdsAppend(vehicles, p.picks, Pick(j, n));
    assert q.picks == p.picks + [Pick(j, n)];
    assert q.usedVehicles == PickedVehicleIds(vehicles, q.picks);
  }

  /** Appending a pick whose vehicle id is not among the used ids keeps the picked ids pairwise distinct. */
  lemma {:induction false} ExtendDistinct(vehicles: seq<Vehicle>, picks: seq<Pick>, j: nat, n: nat, used: set<Id>)
    requires j < |vehicles|
    requires forall k :: 0 <= k < |picks| ==> picks[k].vehicle < |vehicles|
    requires forall i, k :: 0 <= i < k < |picks| ==> vehicles[picks[i].vehicle].id != vehicles[picks[k].vehicle].id
    requires used == PickedVehicleIds(vehicles, picks) && |used| == |picks|
    requires vehicles[j].id !in used
    ensures var q := picks + [Pick(j, n)];
      && (forall k :: 0 <= k < |q| ==> q[k].vehicle < |vehicles|)
      && (forall i, k :: 0 <= i < k < |q| ==> vehicles[q[i].vehicle].id != vehicles[q[k].vehicle].id)
      && |used + {vehicles[j].id}| == |picks| + 1 
  {
    var q := picks + [Pick(j, n)];
    forall k | 0 <= k < |picks|
      ensures vehicles[picks[k].vehicle].id != vehicles[j].id
    {
      assert vehicles[picks[k].vehicle].id in used;
    }
    assert forall k :: 0 <= k < |picks| ==> q[k] == picks[k];
  }

  lemma {:induction false} ExtendAssigned(vehicles: seq<Vehicle>, requests: seq<ClientRequest>, p: Pass, j: nat, n: nat, draw: nat -> Sample)
    requires j < |vehicles| && n < |requests|
    requires AssignedMatchesPicks(requests, p)
    ensures AssignedMatchesPicks(requests, Extend(vehicles, requests, draw, p, j, n))
  {
    var q := Extend(vehicles, requests, draw, p, j, n);
    var m := |p.picks|;
    assert forall k :: 0 <= k < m ==> q.picks[k] == p.picks[k];
    assert q.assignedRequests == PickedRequestIds(requests, q.picks) by {
      forall x | x in q.assignedRequests ensures x in PickedRequestIds(requests, q.picks) {
        if x == requests[n].id {
          assert requests[q.picks[m].request].id == x;
        } else {
          var k :| 0 <= k < m && requests[p.picks[k].request].id == x;
          assert requests[q.picks[k].request].id == x;
        }
      }
    }
  }

  lemma {:induction false} StepConsistent(vehicles: seq<Vehicle>, requests: seq<ClientRequest>, draw: nat -> Sample, n: nat, p: Pass)
    requires n < |requests|
    ensures Consistent(vehicles, requests, draw, n, p) ==> Consistent(vehicles, requests, draw, n + 1, Step(vehicles, requests, draw, p, n))
  {
    if !Consistent(vehicles, requests, draw, n, p) {
      return;
    }
    match FirstFit(vehicles, p.usedVehicles, requests[n].weight)
    case None =>
    case Some(j) =>
      assert Step(vehicles, requests, draw, p, n) == Extend(vehicles, requests, draw, p, j, n);
      ExtendExplains(vehicles, requests, draw, p, j, n);
      ExtendFeasible(vehicles, requests, p, j, n, draw);
      ExtendUsed(vehicles, requests, p, j, n, draw);
      ExtendAssigned(vehicles, requests, p, j, n, draw);
  }

  lemma {:induction false} RunConsistent(vehicles: seq<Vehicle>, requests: seq<ClientRequest>, draw: nat -> Sample, n: nat)
    requires n <= |requests|
    ensures Consistent(vehicles, requests, draw, n, Run(vehicles, requests, draw, n))
  {
    if n == 0 {
      InitialConsistent(vehicles, requests, draw);
    } else {
      RunConsistent(vehicles, requests, draw, n - 1);
      RunStepConsistent(vehicles, requests, draw, n);
    }
  }

  /** The invariant carries over from the state after n - 1 requests to the state after n. */
  lemma {:induction false} RunStepConsistent(vehicles: seq<Vehicle>, requests: seq<ClientRequest>, draw: nat -> Sample, n: nat)
    requires 0 < n <= |requests|
    ensures Consistent(vehicles, requests, draw, n - 1, Run(vehicles, requests, draw, n - 1))
        ==> Consistent(vehicles, requests, draw, n, Run(vehicles, requests, draw, n))
  {
    var p := Run(vehicles, requests, draw, n - 1);
    RunUnfold(vehicles, requests, draw, n);
    StepConsistent(vehicles, requests, draw, n - 1, p);
    if Consistent(vehicles, requests, draw, n - 1, p) {
      ConsistentEqual(vehicles, requests, draw, n, Step(vehicles, requests, draw, p, n - 1), Run(vehicles, requests, draw, n));
    }
  }

  /** Equal states satisfy the invariant alike. */
  lemma {:induction false} ConsistentEqual(vehicles: seq<Vehicle>, requests: seq<ClientRequest>, draw: nat -> Sample, n: nat, p: Pass, q: Pass)
    requires n <= |requests|
    requires p == q
    ensures Consistent(vehicles, requests, draw, n, p) ==> Consistent(vehicles, requests, draw, n, q)
  {
  }

  lemma {:induction false} RunUnfold(vehicles: seq<Vehicle>, requests: seq<ClientRequest>, draw: nat -> Sample, n: nat)
    requires 0 < n <= |requests|
    ensures Run(vehicles, requests, draw, n) == Step(vehicles, requests, draw, Run(vehicles, requests, draw, n - 1), n - 1)
  {
  }

  lemma {:induction false} InitialConsistent(vehicles: seq<Vehicle>, requests: seq<ClientRequest>, draw: nat -> Sample)
    ensures Consistent(vehicles, requests, draw, 0, Pass([], [], {}, {}))
  {
    var p := Pass([], [], {}, {});
    assert PickedVehicleIds(vehicles, p.picks) == {};
    assert PickedRequestIds(requests, p.picks) == {};
  }

  // ---------------------------------------------------------------------
  // Properties of the result

  /** The picks behind the final result. */
  ghost function PicksOf(vehicles: seq<Vehicle>, requests: seq<ClientRequest>, draw: nat -> Sample): seq<Pick>
  {
    Run(vehicles, requests, draw, |requests|).picks
  }

  function AssignedVehicleIds(assignments: seq<Assignment>): set<Id>
  {
    set k | 0 <= k < |assignments| :: assignments[k].vehicleId
  }

  function AssignedRequestIds(assignments: seq<Assignment>): set<Id>
  {
    set k | 0 <= k < |assignments| :: assignments[k].requestId
  }

  lemma {:induction false} SubsetCard<T>(a: set<T>, b: set<T>)
    requires a <= b
    ensures |a| <= |b|
  {
    assert b == a + (b - a);
  }

  lemma {:induction false} InIdSet<T>(xs: seq<T>, key: T -> Id, i: nat)
    requires i < |xs|
    ensures key(xs[i]) in IdSet(xs, key)
  {
  }

  /** A list has at most as many distinct ids as elements. */
  lemma {:induction false} IdSetCard<T>(xs: seq<T>, key: T -> Id)
    ensures |IdSet(xs, key)| <= |xs|
  {
    if xs != [] {
      var init := xs[..|xs| - 1];
      IdSetCard(init, key);
      assert IdSet(xs, key) <= IdSet(init, key) + {key(xs[|xs| - 1])} by {
        forall x | x in IdSet(xs, key) ensures x in IdSet(init, key) + {key(xs[|xs| - 1])} {
          var i :| 0 <= i < |xs| && key(xs[i]) == x;
          if i < |xs| - 1 { assert init[i] == xs[i]; }
        }
      }
      SubsetCard(IdSet(xs, key), IdSet(init, key) + {key(xs[|xs| - 1])});
    }
  }

  /** In a consistent state the two id sets are those of the assignments, and lie within the inputs. */
  lemma {:induction false} ConsistentSets(vehicles: seq<Vehicle>, requests: seq<ClientRequest>, draw: nat -> Sample, n: nat, p: Pass)
    requires n <= |requests|
    requires Consistent(vehicles, requests, draw, n, p)
    ensures p.usedVehicles == AssignedVehicleIds(p.assignments)
    ensures p.assignedRequests == AssignedRequestIds(p.assignments)
    ensures p.usedVehicles <= IdSet(vehicles, IdOfVehicle)
    ensures p.assignedRequests <= IdSet(requests, IdOfRequest)
  {
    UsedVehicleSet(vehicles, requests, draw, n, p);
    AssignedRequestSet(vehicles, requests, draw, n, p);
  }

  lemma {:induction false} UsedVehicleSet(vehicles: seq<Vehicle>, requests: seq<ClientRequest>, draw: nat -> Sample, n: nat, p: Pass)
    requires n <= |requests|
    requires PicksExplainAssignments(vehicles, requests, draw, n, p)
    requires UsedMatchesPicks(vehicles, p)
    ensures p.usedVehicles == AssignedVehicleIds(p.assignments)
    ensures p.usedVehicles <= IdSet(vehicles, IdOfVehicle)
  {
    assert forall k :: 0 <= k < |p.picks| ==> p.assignments[k].vehicleId == vehicles[p.picks[k].vehicle].id;
    forall x | x in p.usedVehicles ensures x in IdSet(vehicles, IdOfVehicle) {
      var k :| 0 <= k < |p.picks| && vehicles[p.picks[k].vehicle].id == x;
      InIdSet(vehicles, IdOfVehicle, p.picks[k].vehicle);
    }
  }

  lemma {:induction false} AssignedRequestSet(vehicles: seq<Vehicle>, requests: seq<ClientRequest>, draw: nat -> Sample, n: nat, p: Pass)
    requires n <= |requests|
    requires PicksExplainAssignments(vehicles, requests, draw, n, p)
    requires AssignedMatchesPicks(requests, p)
    ensures p.assignedRequests == AssignedRequestIds(p.assignments)
    ensures p.assignedRequests <= IdSet(requests, IdOfRequest)
  {
    assert forall k :: 0 <= k < |p.picks| ==> p.assignments[k].requestId == requests[p.picks[k].request].id;
    forall x | x in p.assignedRequests ensures x in IdSet(requests, IdOfRequest) {
      var k :| 0 <= k < |p.picks| && requests[p.picks[k].request].id == x;
      InIdSet(requests, IdOfRequest, p.picks[k].request);
    }
  }

  /** The final loop state satisfies the invariant, and its sets are those of the assignments. */
  lemma {:induction false} FinalState(vehicles: seq<Vehicle>, requests: seq<ClientRequest>, draw: nat -> Sample)
    ensures var p := Run(vehicles, requests, draw, |requests|);
      && |p.usedVehicles| == |p.assignments| <= |requests|
      && p.usedVehicles == AssignedVehicleIds(p.assignments)
      && p.assignedRequests == AssignedRequestIds(p.assignments)
      && p.usedVehicles <= IdSet(vehicles, IdOfVehicle)
      && p.assignedRequests <= IdSet(requests, IdOfRequest)
      && Optimization(vehicles, requests, draw)
         == Finish(vehicles, requests, p.assignments, p.usedVehicles, p.assignedRequests)
  {
    var p := Run(vehicles, requests, draw, |requests|);
    RunConsistent(vehicles, requests, draw, |requests|);
    ConsistentSets(vehicles, requests, draw, |requests|, p);
  }

  /**
   * Every assignment pairs an input vehicle with an input request, the
   * vehicle's capacity covers the request's weight, each request is served
   * at most once, and assignments follow the input order of requests.
   */
  lemma {:induction false} AssignmentsFeasible(vehicles: seq<Vehicle>, requests: seq<ClientRequest>, draw: nat -> Sample)
    ensures var r := Optimization(vehicles, requests, draw);
      var picks := PicksOf(vehicles, requests, draw);
      && |picks| == |r.assignments|
      && (forall k :: 0 <= k < |picks| ==>
            && picks[k].vehicle < |vehicles| && picks[k].request < |requests|
            && r.assignments[k] == Quote(vehicles[picks[k].vehicle], requests[picks[k].request], draw(k))
            && vehicles[picks[k].vehicle].capacity >= requests[picks[k].request].weight)
      && (forall i, j :: 0 <= i < j < |picks| ==> picks[i].request < picks[j].request)
  {
    RunConsistent(vehicles, requests, draw, |requests|);
  }

  /** No vehicle id appears in two assignments. */
  lemma {:induction false} VehiclesUsedOnce(vehicles: seq<Vehicle>, requests: seq<ClientRequest>, draw: nat -> Sample)
    ensures var a := Optimization(vehicles, requests, draw).assignments;
      forall i, j :: 0 <= i < j < |a| ==> a[i].vehicleId != a[j].vehicleId
  {
    var p := Run(vehicles, requests, draw, |requests|);
    RunConsistent(vehicles, requests, draw, |requests|);
    assert forall k :: 0 <= k < |p.picks| ==> p.assignments[k].vehicleId == vehicles[p.picks[k].vehicle].id;
  }

  /** With distinct request ids, no request id appears in two assignments. */
  lemma {:induction false} RequestsServedOnce(vehicles: seq<Vehicle>, requests: seq<ClientRequest>, draw: nat -> Sample)
    requires forall i, j :: 0 <= i < j < |requests| ==> requests[i].id != requests[j].id
    ensures var a := Optimization(vehicles, requests, draw).assignments;
      forall i, j :: 0 <= i < j < |a| ==> a[i].requestId != a[j].requestId
  {
    var p := Run(vehicles, requests, draw, |requests|);
    RunConsistent(vehicles, requests, draw, |requests|);
    assert forall k :: 0 <= k < |p.picks| ==> p.assignments[k].requestId == requests[p.picks[k].request].id;
  }

  /** There are no more assignments than requests, nor than vehicles. */
  lemma {:induction false} AssignmentCount(vehicles: seq<Vehicle>, requests: seq<ClientRequest>, draw: nat -> Sample)
    ensures var a := Optimization(vehicles, requests, draw).assignments;
      |a| <= |requests| && |a| <= |vehicles|
  {
    var p := Run(vehicles, requests, draw, |requests|);
    FinalState(vehicles, requests, draw);
    SubsetCard(p.usedVehicles, IdSet(vehicles, IdOfVehicle));
    IdSetCard(vehicles, IdOfVehicle);
  }

  /**
   * Utilisation is 100 times the share of vehicles that received an
   * assignment, so it lies in [0, 100]; without vehicles the division yields NaN.
   */
  lemma {:induction false} UtilizationBounds(vehicles: seq<Vehicle>, requests: seq<ClientRequest>, draw: nat -> Sample)
    ensures var r := Optimization(vehicles, requests, draw);
      && r.fleetUtilization == UtilizationOf(|r.assignments|, |vehicles|)
      && (r.fleetUtilization.NotANumber? <==> |vehicles| == 0)
      && (|vehicles| > 0 ==> 0.0 <= r.fleetUtilization.value <= 100.0)
  {
    var r := Optimization(vehicles, requests, draw);
    UtilizationField(vehicles, requests, draw);
    AssignmentCount(vehicles, requests, draw);
    UtilizationShare(|r.assignments|, |vehicles|);
  }

  lemma {:induction false} UtilizationField(vehicles: seq<Vehicle>, requests: seq<ClientRequest>, draw: nat -> Sample)
    ensures var r := Optimization(vehicles, requests, draw);
      r.fleetUtilization == UtilizationOf(|r.assignments|, |vehicles|)
  {
    FinalState(vehicles, requests, draw);
  }

  /**
   * The input request ids split exactly into the unassigned ids and the
   * assigned ids; the unassigned ids keep input order.
   */
  lemma {:induction false} RequestPartition(vehicles: seq<Vehicle>, requests: seq<ClientRequest>, draw: nat -> Sample)
    ensures var r := Optimization(vehicles, requests, draw);
      && r.unassignedRequests == KeysNotIn(requests, IdOfRequest, AssignedRequestIds(r.assignments))
      && (forall x :: x in IdSet(requests, IdOfRequest) <==>
            x in r.unassignedRequests || x in AssignedRequestIds(r.assignments))
      && (forall x :: x in r.unassignedRequests ==> x !in AssignedRequestIds(r.assignments))
  {
    FinalState(vehicles, requests, draw);
  }

  /**
   * The input vehicle ids split exactly into the idle ids and the ids used
   * by assignments; the idle ids keep input order.
   */
  lemma {:induction false} VehiclePartition(vehicles: seq<Vehicle>, requests: seq<ClientRequest>, draw: nat -> Sample)
    ensures var r := Optimization(vehicles, requests, draw);
      && r.idleVehicles == KeysNotIn(vehicles, IdOfVehicle, AssignedVehicleIds(r.assignments))
      && (forall x :: x in IdSet(vehicles, IdOfVehicle) <==>
            x in r.idleVehicles || x in AssignedVehicleIds(r.assignments))
      && (forall x :: x in r.idleVehicles ==> x !in AssignedVehicleIds(r.assignments))
  {
    FinalState(vehicles, requests, draw);
  }

  lemma {:induction false} SumAtLeast(assignments: seq<Assignment>, f: Assignment -> real, lo: real)
    requires forall k :: 0 <= k < |assignments| ==> f(assignments[k]) >= lo
    ensures SumBy(assignments, f) >= lo * |assignments| as real
  {
    if assignments != [] {
      var n := |assignments|;
      SumAtLeast(assignments[..n - 1], f, lo);
      assert lo * n as real == lo * (n - 1) as real + lo;
    }
  }

  lemma {:induction false} SumAtMost(assignments: seq<Assignment>, f: Assignment -> real, hi: real)
    requires forall k :: 0 <= k < |assignments| ==> f(assignments[k]) <= hi
    ensures SumBy(assignments, f) <= hi * |assignments| as real
  {
    if assignments != [] {
      var n := |assignments|;
      SumAtMost(assignments[..n - 1], f, hi);
      assert hi * n as real == hi * (n - 1) as real + hi;
    }
  }

  /** A sum of n values in [lo, hi], rounded to cents, lies in [n * lo, n * hi] for whole bounds. */
  lemma {:induction false} RoundedSumBounds(assignments: seq<Assignment>, f: Assignment -> real, lo: int, hi: int)
    requires forall k :: 0 <= k < |assignments| ==> lo as real <= f(assignments[k]) <= hi as real
    ensures lo as real * |assignments| as real <= Cents(SumBy(assignments, f)) <= hi as real * |assignments| as real
  {
    var n := |assignments|;
    var sum := SumBy(assignments, f);
    SumAtLeast(assignments, f, lo as real);
    SumAtMost(assignments, f, hi as real);
    assert lo as real * n as real == (lo * n) as real;
    assert hi as real * n as real == (hi * n) as real;
    CentsOfWhole(lo * n);
    CentsOfWhole(hi * n);
    CentsMonotone((lo * n) as real, sum);
    CentsMonotone(sum, (hi * n) as real);
  }

  /** A non-negative total rounded is never above the rounded baseline. */
  lemma {:induction false} BaselineCoversTotal(sum: real)
    requires sum >= 0.0
    ensures Cents(sum) <= Cents(sum * BaselineFactor)
  {
    CentsMonotone(sum, sum * BaselineFactor);
  }

  /**
   * The total cost is the sum of the assignment costs and the baseline 1.3
   * times that sum, each rounded to cents. With genuine random draws every
   * cost lies in [25, 170], so the total does too per assignment, the
   * baseline is never below the total, and the total is zero exactly when
   * nothing was assigned.
   */
  lemma {:induction false} CostTotals(vehicles: seq<Vehicle>, requests: seq<ClientRequest>, draw: nat -> Sample)
    requires forall k: nat :: ValidSample(draw(k))
    ensures var r := Optimization(vehicles, requests, draw);
      && r.totalCost == Cents(SumBy(r.assignments, CostOf))
      && r.baselineCost == Cents(SumBy(r.assignments, CostOf) * BaselineFactor)
      && 25.0 * |r.assignments| as real <= r.totalCost <= 170.0 * |r.assignments| as real
      && r.totalCost <= r.baselineCost
      && (r.totalCost == 0.0 <==> r.assignments == [])
  {
    var r := Optimization(vehicles, requests, draw);
    CostFields(vehicles, requests, draw);
    FinalQuotes(vehicles, requests, draw);
    RoundedSumBounds(r.assignments, CostOf, 25, 170);
    SumAtLeast(r.assignments, CostOf, 0.0);
    BaselineCoversTotal(SumBy(r.assignments, CostOf));
  }

  /** The total distance is the sum of the assignment distances, rounded: between 10 and 60 km for each. */
  lemma {:induction false} DistanceTotals(vehicles: seq<Vehicle>, requests: seq<ClientRequest>, draw: nat -> Sample)
    requires forall k: nat :: ValidSample(draw(k))
    ensures var r := Optimization(vehicles, requests, draw);
      && r.totalDistance == Cents(SumBy(r.assignments, DistanceOf))
      && 10.0 * |r.assignments| as real <= r.totalDistance <= 60.0 * |r.assignments| as real
  {
    var r := Optimization(vehicles, requests, draw);
    CostFields(vehicles, requests, draw);
    FinalQuotes(vehicles, requests, draw);
    RoundedSumBounds(r.assignments, DistanceOf, 10, 60);
  }

  lemma {:induction false} CostFields(vehicles: seq<Vehicle>, requests: seq<ClientRequest>, draw: nat -> Sample)
    ensures var r := Optimization(vehicles, requests, draw);
      && r.assignments == Run(vehicles, requests, draw, |requests|).assignments
      && r.totalCost == Cents(SumBy(r.assignments, CostOf))
      && r.totalDistance == Cents(SumBy(r.assignments, DistanceOf))
      && r.baselineCost == Cents(SumBy(r.assignments, CostOf) * BaselineFactor)
  {
    var p := Run(vehicles, requests, draw, |requests|);
    FinishFields(vehicles, requests, p.assignments, p.usedVehicles, p.assignedRequests);
  }

  lemma {:induction false} FinishFields(vehicles: seq<Vehicle>, requests: seq<ClientRequest>, assignments: seq<Assignment>,
                                        usedVehicles: set<Id>, assignedRequests: set<Id>)
    ensures var r := Finish(vehicles, requests, assignments, usedVehicles, assignedRequests);
      && r.assignments == assignments
      && r.totalCost == Cents(SumBy(assignments, CostOf))
      && r.totalDistance == Cents(SumBy(assignments, DistanceOf))
      && r.baselineCost == Cents(SumBy(assignments, CostOf) * BaselineFactor)
  {
  }

  lemma {:induction false} FinalQuotes(vehicles: seq<Vehicle>, requests: seq<ClientRequest>, draw: nat -> Sample)
    requires forall k: nat :: ValidSample(draw(k))
    ensures var a := Run(vehicles, requests, draw, |requests|).assignments;
      forall k :: 0 <= k < |a| ==> 25.0 <= CostOf(a[k]) <= 170.0 && DistanceOf(a[k]) >= 10.0 && DistanceOf(a[k]) <= 60.0
  {
    RunConsistent(vehicles, requests, draw, |requests|);
    ConsistentQuotes(vehicles, requests, draw, |requests|, Run(vehicles, requests, draw, |requests|));
  }

  lemma {:induction false} ConsistentQuotes(vehicles: seq<Vehicle>, requests: seq<ClientRequest>, draw: nat -> Sample, n: nat, p: Pass)
    requires n <= |requests|
    requires forall k: nat :: ValidSample(draw(k))
    requires PicksExplainAssignments(vehicles, requests, draw, n, p)
    ensures forall k :: 0 <= k < |p.assignments| ==>
      25.0 <= CostOf(p.assignments[k]) <= 170.0 && DistanceOf(p.assignments[k]) >= 10.0 && DistanceOf(p.assignments[k]) <= 60.0
  {
    forall k | 0 <= k < |p.assignments|
      ensures 25.0 <= CostOf(p.assignments[k]) <= 170.0 && DistanceOf(p.assignments[k]) >= 10.0 && DistanceOf(p.assignments[k]) <= 60.0
    {
      QuoteBounds(vehicles[p.picks[k].vehicle], requests[p.picks[k].request], draw(k));
    }
  }

  /**
   * First-fit choice: at its turn a request gets the earliest vehicle in
   * input order that is unused and large enough, and it is left unassigned
   * exactly when no such vehicle exists (the state then does not change).
   */
  lemma {:induction false} FirstFitChoice(vehicles: seq<Vehicle>, requests: seq<ClientRequest>, draw: nat -> Sample, k: nat, j: nat)
    requires k < |requests|
    ensures var before := Run(vehicles, requests, draw, k);
      var after := Run(vehicles, requests, draw, k + 1);
      var w := requests[k].weight;
      && (after == before <==> forall i :: 0 <= i < |vehicles| ==> !CanTake(vehicles[i], before.usedVehicles, w))
      && (j < |vehicles| && CanTake(vehicles[j], before.usedVehicles, w)
          && (forall i :: 0 <= i < j ==> !CanTake(vehicles[i], before.usedVehicles, w))
          ==> && after.assignments == before.assignments + [Quote(vehicles[j], requests[k], draw(|before.assignments|))]
              && after.usedVehicles == before.usedVehicles + {vehicles[j].id}
              && after.assignedRequests == before.assignedRequests + {requests[k].id})
  {
    var before := Run(vehicles, requests, draw, k);
    var w := requests[k].weight;
    match FirstFit(vehicles, before.usedVehicles, w)
    case None =>
    case Some(f) =>
      var after := Run(vehicles, requests, draw, k + 1);
      assert |after.picks| == |before.picks| + 1;
      if j < |vehicles| && CanTake(vehicles[j], before.usedVehicles, w)
        && (forall i :: 0 <= i < j ==> !CanTake(vehicles[i], before.usedVehicles, w)) {
        assert !(f < j) && !(j < f);
      }
  }

  /** Without vehicles nothing is assigned, every request is unassigned, and utilisation is NaN. */
  lemma {:induction false} NoVehicles(requests: seq<ClientRequest>, draw: nat -> Sample)
    ensures var r := Optimization([], requests, draw);
      && r.assignments == [] && r.totalCost == 0.0 && r.baselineCost == 0.0 && r.totalDistance == 0.0
      && r.fleetUtilization == NotANumber
      && r.unassignedRequests == KeysNotIn(requests, IdOfRequest, {})
      && r.idleVehicles == []
  {
    var p := Run([], requests, draw, |requests|);
    FinalState([], requests, draw);
    AssignmentCount([], requests, draw);
    assert p.assignments == [];
    assert p.assignedRequests == {};
    CentsOfWhole(0);
  }

  /** Without requests nothing is assigned, every vehicle is idle, and utilisation is 0 when there are vehicles. */
  lemma {:induction false} NoRequests(vehicles: seq<Vehicle>, draw: nat -> Sample)
    ensures var r := Optimization(vehicles, [], draw);
      && r.assignments == [] && r.totalCost == 0.0 && r.baselineCost == 0.0 && r.totalDistance == 0.0
      && r.unassignedRequests == []
      && r.idleVehicles == KeysNotIn(vehicles, IdOfVehicle, {})
      && (|vehicles| > 0 ==> r.fleetUtilization == Percent(0.0))
  {
    NoRequestsLists(vehicles, draw);
    UtilizationField(vehicles, [], draw);
    UtilizationShare(0, |vehicles|);
  }

  lemma {:induction false} NoRequestsLists(vehicles: seq<Vehicle>, draw: nat -> Sample)
    ensures var r := Optimization(vehicles, [], draw);
      && r.assignments == [] && r.totalCost == 0.0 && r.baselineCost == 0.0 && r.totalDistance == 0.0
      && r.unassignedRequests == []
      && r.idleVehicles == KeysNotIn(vehicles, IdOfVehicle, {})
  {
    assert Run(vehicles, [], draw, 0) == Pass([], [], {}, {});
    CentsOfWhole(0);
  }

  /** With nothing taken, the filter is the plain list of ids. */
  lemma {:induction false} KeysNotInNothingTaken<T>(xs: seq<T>, key: T -> Id)
    ensures |KeysNotIn(xs, key, {})| == |xs|
    ensures forall i :: 0 <= i < |xs| ==> KeysNotIn(xs, key, {})[i] == key(xs[i])
  {
    if xs != [] {
      KeysNotInNothingTaken(xs[1..], key);
    }
  }

  /**
   * The outcome depends on vehicle order: with a large and a small vehicle
   * and a light and a heavy request, listing the large vehicle first lets
   * the light request take it and leaves the heavy one unassigned, although
   * the small vehicle could have served the light request.
   */
  lemma {:induction false} LargeVehicleFirst(big: Vehicle, small: Vehicle, light: ClientRequest, heavy: ClientRequest,
                                             draw: nat -> Sample)
    requires big.id != small.id && light.id != heavy.id
    requires light.weight <= small.capacity < heavy.weight <= big.capacity
    ensures var r := Optimization([big, small], [light, heavy], draw);
      && |r.assignments| == 1 && r.assignments[0].vehicleId == big.id
      && r.unassignedRequests == [heavy.id] && r.idleVehicles == [small.id]
  {
    var requests := [light, heavy];
    var p0 := Pass([], [], {}, {});
    var vs := [big, small];
    assert vs[1..] == [small];
    assert Run(vs, requests, draw, 0) == p0;
    assert FirstFit(vs, {}, light.weight) == Some(0);
    var p1 := Run(vs, requests, draw, 1);
    assert p1 == Extend(vs, requests, draw, p0, 0, 0);
    assert FirstFit([small], {big.id}, heavy.weight) == None;
    assert FirstFit(vs, {big.id}, heavy.weight) == None;
    assert Run(vs, requests, draw, 2) == p1;
    assert requests[1..] == [heavy];
    assert KeysNotIn([heavy], IdOfRequest, {light.id}) == [heavy.id];
    assert KeysNotIn([small], IdOfVehicle, {big.id}) == [small.id];
  }

  /** The same vehicles with the small one listed first serve both requests. */
  lemma {:induction false} SmallVehicleFirst(big: Vehicle, small: Vehicle, light: ClientRequest, heavy: ClientRequest,
                                             draw: nat -> Sample)
    requires big.id != small.id && light.id != heavy.id
    requires light.weight <= small.capacity < heavy.weight <= big.capacity
    ensures var r := Optimization([small, big], [light, heavy], draw);
      && |r.assignments| == 2 && r.assignments[0].vehicleId == small.id && r.assignments[1].vehicleId == big.id
      && r.unassignedRequests == [] && r.idleVehicles == []
  {
    var requests := [light, heavy];
    var p0 := Pass([], [], {}, {});
    var ws := [small, big];
    assert ws[1..] == [big];
    assert Run(ws, requests, draw, 0) == p0;
    assert FirstFit(ws, {}, light.weight) == Some(0);
    var q1 := Run(ws, requests, draw, 1);
    assert q1 == Extend(ws, requests, draw, p0, 0, 0);
    assert FirstFit([big], {small.id}, heavy.weight) == Some(0);
    assert FirstFit(ws, {small.id}, heavy.weight) == Some(1);
    var q2 := Run(ws, requests, draw, 2);
    assert q2 == Extend(ws, requests, draw, q1, 1, 1);
    assert q2.usedVehicles == {small.id, big.id} && q2.assignedRequests == {light.id, heavy.id};
    assert requests[1..] == [heavy];
    assert KeysNotIn(requests, IdOfRequest, q2.assignedRequests) == [];
    assert KeysNotIn(ws, IdOfVehicle, q2.usedVehicles) == [];
    assert KeysNotIn([heavy], IdOfRequest, {light.id, heavy.id}) == [];
    assert KeysNotIn([big], IdOfVehicle, {small.id, big.id}) == [];
  }
}
