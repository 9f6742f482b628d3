/**
 * The dashboard component: the vehicle and request lists it holds, the
 * add and delete operations on them, the optimisation run with its
 * loading / result / error flags, and the savings figures it shows.
 */
module Dashboard {
  import opened Wrappers
  import opened FleetTypes
  import IdGen
  import Optimizer

  /** What the add-vehicle form supplies: a vehicle without id and status. */
  datatype VehicleForm = VehicleForm(
    name: string,
    vehicleType: VehicleType,
    capacity: real,
    costPerKm: real,
    fuelEfficiency: real)

  /** What the add-request form supplies: a request without id. */
  datatype RequestForm = RequestForm(
    clientName: string,
    pickupLocation: string,
    dropLocation: string,
    weight: real,
    priority: Priority)

  /** The vehicle `addVehicle` appends to a list of `count` vehicles. */
  function NewVehicle(form: VehicleForm, count: nat): (v: Vehicle)
    ensures v.status == Available
    ensures |v.id| >= 4 && v.id[0] == 'V' && IdGen.IdNumber('V', v.id) == count + 1
    ensures |v.id| == 4 || v.id[1] != '0'
  {
    IdGen.SequentialIdShape('V', count);
    Vehicle(IdGen.SequentialId('V', count), form.name, form.vehicleType, form.capacity,
            form.costPerKm, form.fuelEfficiency, Available)
  }

  /** The request `addRequest` appends to a list of `count` requests. */
  function NewRequest(form: RequestForm, count: nat): (r: ClientRequest)
    ensures |r.id| >= 4 && r.id[0] == 'R' && IdGen.IdNumber('R', r.id) == count + 1
    ensures |r.id| == 4 || r.id[1] != '0'
  {
    IdGen.SequentialIdShape('R', count);
    ClientRequest(IdGen.SequentialId('R', count), form.clientName, form.pickupLocation,
                  form.dropLocation, form.weight, form.priority)
  }

  /**
   * Adding a vehicle keeps every existing entry, appends one Available
   * vehicle carrying the form's data, and gives it an id "V" + digits that
   * reads back as the new length.
   */
  lemma AddedVehicle(vehicles: seq<Vehicle>, form: VehicleForm)
    ensures var after := vehicles + [NewVehicle(form, |vehicles|)];
      var v := after[|vehicles|];
      && |after| == |vehicles| + 1 && after[..|vehicles|] == vehicles
      && v == Vehicle(v.id, form.name, form.vehicleType, form.capacity, form.costPerKm, form.fuelEfficiency, Available)
      && |v.id| >= 4 && v.id[0] == 'V' && IdGen.IdNumber('V', v.id) == |after|
      && (|v.id| == 4 || v.id[1] != '0')
  {
    IdGen.SequentialIdShape('V', |vehicles|);
    var after := vehicles + [NewVehicle(form, |vehicles|)];
    assert after[..|vehicles|] == vehicles;
  }

  /**
   * Adding a request keeps every existing entry and appends one carrying
   * the form's data, whose id "R" + digits reads back as the new length.
   */
  lemma AddedRequest(requests: seq<ClientRequest>, form: RequestForm)
    ensures var after := requests + [NewRequest(form, |requests|)];
      var r := after[|requests|];
      && |after| == |requests| + 1 && after[..|requests|] == requests
      && r == ClientRequest(r.id, form.clientName, form.pickupLocation, form.dropLocation, form.weight, form.priority)
      && |r.id| >= 4 && r.id[0] == 'R' && IdGen.IdNumber('R', r.id) == |after|
      && (|r.id| == 4 || r.id[1] != '0')
  {
    IdGen.SequentialIdShape('R', |requests|);
    var after := requests + [NewRequest(form, |requests|)];
    assert after[..|requests|] == requests;
  }

  /** `xs.filter(x => key(x) !== id)`. */
  function WithoutId<T(!new)>(xs: seq<T>, key: T -> Id, id: Id): (r: seq<T>)
    ensures |r| <= |xs|
    ensures forall i :: 0 <= i < |r| ==> key(r[i]) != id
    ensures forall x :: x in r <==> x in xs && key(x) != id
  {
    if xs == [] then []
    else (if key(xs[0]) == id then [] else [xs[0]]) + WithoutId(xs[1..], key, id)
  }

  /** The filter keeps the order of what it keeps: it distributes over concatenation. */
  lemma {:induction false} WithoutIdAppend<T(!new)>(a: seq<T>, b: seq<T>, key: T -> Id, id: Id)
    ensures WithoutId(a + b, key, id) == WithoutId(a, key, id) + WithoutId(b, key, id)
  {
    if a == [] {
      assert a + b == b;
    } else {
      assert (a + b)[0] == a[0];
      assert (a + b)[1..] == a[1..] + b;
      WithoutIdAppend(a[1..], b, key, id);
      var head := if key(a[0]) == id then [] else [a[0]];
      assert head + (WithoutId(a[1..], key, id) + WithoutId(b, key, id))
          == (head + WithoutId(a[1..], key, id)) + WithoutId(b, key, id);
    }
  }

  /** Deleting an id that is not present changes nothing. */
  lemma {:induction false} WithoutIdAbsent<T(!new)>(xs: seq<T>, key: T -> Id, id: Id)
    requires forall i :: 0 <= i < |xs| ==> key(xs[i]) != id
    ensures WithoutId(xs, key, id) == xs
  {
    if xs != [] {
      WithoutIdAbsent(xs[1..], key, id);
    }
  }

  /** Deleting twice is deleting once. */
  lemma WithoutIdIdempotent<T(!new)>(xs: seq<T>, key: T -> Id, id: Id)
    ensures WithoutId(WithoutId(xs, key, id), key, id) == WithoutId(xs, key, id)
  {
    WithoutIdAbsent(WithoutId(xs, key, id), key, id);
  }

  /** `vehicles.filter(v => v.status === VehicleStatus.Available)`. */
  function AvailableOnly(vehicles: seq<Vehicle>): (r: seq<Vehicle>)
    ensures |r| <= |vehicles|
    ensures forall i :: 0 <= i < |r| ==> r[i].status == Available
    ensures forall v :: v in r <==> v in vehicles && v.status == Available
  {
    if vehicles == [] then []
    else (if vehicles[0].status == Available then [vehicles[0]] else []) + AvailableOnly(vehicles[1..])
  }

  /** The Available filter keeps input order. */
  lemma {:induction false} AvailableOnlyAppend(a: seq<Vehicle>, b: seq<Vehicle>)
    ensures AvailableOnly(a + b) == AvailableOnly(a) + AvailableOnly(b)
  {
    if a == [] {
      assert a + b == b;
    } else {
      assert (a + b)[0] == a[0];
      assert (a + b)[1..] == a[1..] + b;
      AvailableOnlyAppend(a[1..], b);
      var head := if a[0].status == Available then [a[0]] else [];
      assert head + (AvailableOnly(a[1..]) + AvailableOnly(b))
          == (head + AvailableOnly(a[1..])) + AvailableOnly(b);
    }
  }

  /**
   * Vehicles in use or under maintenance never reach the optimiser: every
   * assignment of a run names an Available vehicle of the fleet.
   */
  lemma OnlyAvailableAssigned(vehicles: seq<Vehicle>, requests: seq<ClientRequest>, draw: nat -> Optimizer.Sample)
    ensures var r := Optimizer.Optimization(AvailableOnly(vehicles), requests, draw);
      forall k :: 0 <= k < |r.assignments| ==>
        exists v :: v in vehicles && v.status == Available && v.id == r.assignments[k].vehicleId
  {
    var available := AvailableOnly(vehicles);
    var r := Optimizer.Optimization(available, requests, draw);
    var picks := Optimizer.PicksOf(available, requests, draw);
    Optimizer.AssignmentsFeasible(available, requests, draw);
    forall k | 0 <= k < |r.assignments|
      ensures exists v :: v in vehicles && v.status == Available && v.id == r.assignments[k].vehicleId
    {
      var v := available[picks[k].vehicle];
      assert v in available;
      assert r.assignments[k].vehicleId == v.id;
    }
  }

  /** `baselineCost - totalCost` when there is a result, 0 otherwise. */
  function Savings(result: Option<OptimizationResult>): (r: real)
    ensures result.None? ==> r == 0.0
    ensures result.Some? ==> result.value.totalCost + r == result.value.baselineCost
  {
    if result.Some? then result.value.baselineCost - result.value.totalCost else 0.0
  }

  /** `savings / baselineCost * 100` when there is a result with a positive baseline, 0 otherwise. */
  function SavingsPercentage(result: Option<OptimizationResult>): (r: real)
    ensures r != 0.0 ==> result.Some? && result.value.baselineCost > 0.0
    ensures result.Some? && result.value.baselineCost > 0.0 ==>
      r * result.value.baselineCost == Savings(result) * 100.0
  {
    if result.Some? && result.value.baselineCost > 0.0
    then
      var b := result.value.baselineCost;
      assert Savings(result) / b * b == Savings(result);
      Savings(result) / b * 100.0
    else 0.0
  }

  /**
   * For a result whose total is non-negative and within its baseline, the
   * percentage saved lies in [0, 100]; it is below 100 when something was
   * spent, and 0 when nothing was saved.
   */
  lemma SavingsPercentageBounds(result: Option<OptimizationResult>)
    requires result.Some? && 0.0 <= result.value.totalCost <= result.value.baselineCost
    ensures 0.0 <= SavingsPercentage(result) <= 100.0
    ensures result.value.totalCost > 0.0 ==> SavingsPercentage(result) < 100.0
    ensures result.value.totalCost == result.value.baselineCost ==> SavingsPercentage(result) == 0.0
  {
    var b := result.value.baselineCost;
    if result.value.totalCost > 0.0 {
      PartialShare(Savings(result), b);
    } else if b > 0.0 {
      assert Savings(result) == b;
      assert Savings(result) / b == 1.0;
    }
  }

  /**
   * For the result the optimiser returns, the savings are never negative
   * and lie within a cent of 30% of the summed assignment costs; the
   * percentage is 0 when nothing was assigned and below 100 otherwise.
   */
  lemma MockSavings(vehicles: seq<Vehicle>, requests: seq<ClientRequest>, draw: nat -> Optimizer.Sample)
    requires forall k: nat :: Optimizer.ValidSample(draw(k))
    ensures var r := Optimizer.Optimization(vehicles, requests, draw);
      var sum := Optimizer.SumBy(r.assignments, Optimizer.CostOf);
      && 0.0 <= Savings(Some(r))
      && sum * 0.3 - 0.01 < Savings(Some(r)) < sum * 0.3 + 0.01
      && (r.assignments == [] ==> SavingsPercentage(Some(r)) == 0.0)
      && (r.assignments != [] ==> 0.0 <= SavingsPercentage(Some(r)) < 100.0)
  {
    var r := Optimizer.Optimization(vehicles, requests, draw);
    Optimizer.CostTotals(vehicles, requests, draw);
    SavingsPercentageBounds(Some(r));
  }

  /** A part of a positive whole is less than 100 percent of it. */
  lemma PartialShare(part: real, whole: real)
    requires 0.0 <= part < whole
    ensures 0.0 <= part / whole * 100.0 < 100.0
  {
    assert part / whole < 1.0;
  }

  /** How the optimiser call ended: with a result, or rejected with a message. */
  datatype Outcome = Resolved(result: OptimizationResult) | Rejected(message: string)

  const UnknownError: string := "An unknown error occurred."

  /** `err.message || "An unknown error occurred."`. */
  function ErrorText(message: string): (t: string)
    ensures t != []
    ensures message != [] ==> t == message
    ensures message == [] ==> t == UnknownError
  {
    if message == [] then UnknownError else message
  }

  /** The state of the dashboard component. */
  class AppState {
    var vehicles: seq<Vehicle>
    var requests: seq<ClientRequest>
    var optimizationResult: Option<OptimizationResult>
    var isLoading: bool
    var error: Option<string>

    /** The component starts from the initial lists, idle, with neither result nor error. */
    constructor (initialVehicles: seq<Vehicle>, initialRequests: seq<ClientRequest>)
      ensures vehicles == initialVehicles && requests == initialRequests
      ensures optimizationResult == None && !isLoading && error == None
    {
      vehicles := initialVehicles;
      requests := initialRequests;
      optimizationResult := None;
      isLoading := false;
      error := None;
    }

    /** Appends one Available vehicle whose id encodes the new length; nothing else changes. */
    method AddVehicle(form: VehicleForm)
      modifies this
      ensures vehicles == old(vehicles) + [NewVehicle(form, |old(vehicles)|)]
      ensures requests == old(requests) && optimizationResult == old(optimizationResult)
      ensures isLoading == old(isLoading) && error == old(error)
    {
      vehicles := vehicles + [NewVehicle(form, |vehicles|)];
    }

    /** Appends one request whose id encodes the new length; nothing else changes. */
    method AddRequest(form: RequestForm)
      modifies this
      ensures requests == old(requests) + [NewRequest(form, |old(requests)|)]
      ensures vehicles == old(vehicles) && optimizationResult == old(optimizationResult)
      ensures isLoading == old(isLoading) && error == old(error)
    {
      requests := requests + [NewRequest(form, |requests|)];
    }

    /** Removes exactly the vehicles with this id, keeping the others in order. */
    method DeleteVehicle(id: Id)
      modifies this
      ensures vehicles == WithoutId(old(vehicles), Optimizer.IdOfVehicle, id)
      ensures requests == old(requests) && optimizationResult == old(optimizationResult)
      ensures isLoading == old(isLoading) && error == old(error)
    {
      vehicles := WithoutId(vehicles, Optimizer.IdOfVehicle, id);
    }

    /** Removes exactly the requests with this id, keeping the others in order. */
    method DeleteRequest(id: Id)
      modifies this
      ensures requests == WithoutId(old(requests), Optimizer.IdOfRequest, id)
      ensures vehicles == old(vehicles) && optimizationResult == old(optimizationResult)
      ensures isLoading == old(isLoading) && error == old(error)
    {
      requests := WithoutId(requests, Optimizer.IdOfRequest, id);
    }

    /**
     * The start of `handleOptimization`: loading on, error and result
     * cleared, and the inputs for the optimiser taken: the Available
     * vehicles and all requests.
     */
    method BeginOptimization() returns (available: seq<Vehicle>, pending: seq<ClientRequest>)
      modifies this
      ensures isLoading && error == None && optimizationResult == None
      ensures vehicles == old(vehicles) && requests == old(requests)
      ensures available == AvailableOnly(vehicles) && pending == requests
    {
      isLoading := true;
      error := None;
      optimizationResult := None;
      available := AvailableOnly(vehicles);
      pending := requests;
    }

    /**
     * The end of `handleOptimization`: a resolved call stores the result, a
     * rejected one stores the message; loading ends either way.
     */
    method SettleOptimization(outcome: Outcome)
      requires error == None && optimizationResult == None
      modifies this
      ensures !isLoading
      ensures vehicles == old(vehicles) && requests == old(requests)
      ensures outcome.Resolved? ==> optimizationResult == Some(outcome.result) && error == None
      ensures outcome.Rejected? ==> optimizationResult == None && error == Some(ErrorText(outcome.message))
    {
      isLoading := false;
      match outcome
      case Resolved(result) =>
        optimizationResult := Some(result);
      case Rejected(message) =>
        error := Some(ErrorText(message));
    }

    /**
     * `handleOptimization` as a whole. The optimiser currently always
     * resolves; `rejection` stands for a call that rejects with a message.
     */
    method HandleOptimization(draw: nat -> Optimizer.Sample, rejection: Option<string>)
      modifies this
      ensures !isLoading
      ensures vehicles == old(vehicles) && requests == old(requests)
      ensures rejection.None? ==>
        && optimizationResult == Some(Optimizer.Optimization(AvailableOnly(vehicles), requests, draw))
        && error == None
      ensures rejection.Some? ==> optimizationResult == None && error == Some(ErrorText(rejection.value))
    {
      var available, pending := BeginOptimization();
      if rejection.None? {
        var result := Optimizer.RunFleetOptimization(available, pending, draw);
        SettleOptimization(Resolved(result));
      } else {
        SettleOptimization(Rejected(rejection.value));
      }
    }
  }

  /**
   * Ids depend only on the current length: after deleting V001 from
   * [V001, V002], adding a vehicle hands out V002 a second time.
   */
  lemma IdReuseAfterDelete(first: Vehicle, second: Vehicle, form: VehicleForm)
    requires first.id == IdGen.SequentialId('V', 0) && second.id == IdGen.SequentialId('V', 1)
    ensures var after := WithoutId([first, second], Optimizer.IdOfVehicle, first.id);
      var added := after + [NewVehicle(form, |after|)];
      |added| == 2 && added[0] == second && added[0].id == added[1].id
  {
    IdGen.SequentialIdInjective('V', 0, 1);
    DeleteFirstOfTwo(first, second);
  }

  /** Deleting the first of two entries with different ids leaves the second. */
  lemma DeleteFirstOfTwo(first: Vehicle, second: Vehicle)
    requires first.id != second.id
    ensures WithoutId([first, second], Optimizer.IdOfVehicle, first.id) == [second]
  {
    var key := Optimizer.IdOfVehicle;
    var xs := [first, second];
    assert xs[1..] == [second];
    assert [second][1..] == [];
    assert WithoutId([second], key, first.id) == [second] + WithoutId([], key, first.id);
    assert WithoutId(xs, key, first.id) == [] + WithoutId([second], key, first.id);
  }
}
