/**
 * The records of the fleet dashboard: vehicles, client requests, the
 * assignments the optimiser produces and the result it returns, together
 * with the closed enumerations they use. Each enumeration comes with its
 * string tag (the value the source compares against) and the parser that
 * recovers the enumeration from the tag.
 */
module FleetTypes {
  import opened Wrappers

  type Id = string

  /** The three states a vehicle can be in; only Available vehicles are optimised. */
  datatype VehicleStatus = Available | InUse | Maintenance

  function StatusTag(s: VehicleStatus): string
  {
    match s
    case Available => "Available"
    case InUse => "In Use"
    case Maintenance => "Under Maintenance"
  }

  function ParseStatus(t: string): (r: Option<VehicleStatus>)
    ensures r.Some? ==> StatusTag(r.value) == t
  {
    if t == "Available" then Some(Available)
    else if t == "In Use" then Some(InUse)
    else if t == "Under Maintenance" then Some(Maintenance)
    else None
  }

  /** The tags are pairwise distinct and the parser inverts them, so the set is closed. */
  lemma StatusTagRoundTrip(s: VehicleStatus)
    ensures ParseStatus(StatusTag(s)) == Some(s)
  {
  }

  datatype VehicleType = Truck | Van | Pickup

  function VehicleTypeTag(v: VehicleType): string
  {
    match v
    case Truck => "Truck"
    case Van => "Van"
    case Pickup => "Pickup"
  }

  function ParseVehicleType(t: string): (r: Option<VehicleType>)
    ensures r.Some? ==> VehicleTypeTag(r.value) == t
  {
    if t == "Truck" then Some(Truck)
    else if t == "Van" then Some(Van)
    else if t == "Pickup" then Some(Pickup)
    else None
  }

  lemma VehicleTypeTagRoundTrip(v: VehicleType)
    ensures ParseVehicleType(VehicleTypeTag(v)) == Some(v)
  {
  }

  datatype Priority = High | Medium | Low

  function PriorityTag(p: Priority): string
  {
    match p
    case High => "High"
    case Medium => "Medium"
    case Low => "Low"
  }

  function ParsePriority(t: string): (r: Option<Priority>)
    ensures r.Some? ==> PriorityTag(r.value) == t
  {
    if t == "High" then Some(High)
    else if t == "Medium" then Some(Medium)
    else if t == "Low" then Some(Low)
    else None
  }

  lemma PriorityTagRoundTrip(p: Priority)
    ensures ParsePriority(PriorityTag(p)) == Some(p)
  {
  }

  /** Capacity in tons; cost per km and fuel efficiency are carried but not used by the optimiser. */
  datatype Vehicle = Vehicle(
    id: Id,
    name: string,
    vehicleType: VehicleType,
    capacity: real,
    costPerKm: real,
    fuelEfficiency: real,
    status: VehicleStatus)

  /** Weight in tons. */
  datatype ClientRequest = ClientRequest(
    id: Id,
    clientName: string,
    pickupLocation: string,
    dropLocation: string,
    weight: real,
    priority: Priority)

  datatype Coords = Coords(lat: real, lon: real)

  /** One vehicle serving one request. */
  datatype Assignment = Assignment(
    vehicleId: Id,
    vehicleName: string,
    requestId: Id,
    clientName: string,
    route: string,
    distance: real,
    cost: real,
    pickupCoords: Coords,
    dropCoords: Coords)

  /**
   * Fleet utilisation in percent. The source divides by the number of
   * vehicles, which yields NaN (not a number) when there are none.
   */
  datatype Utilization = Percent(value: real) | NotANumber

  datatype OptimizationResult = OptimizationResult(
    assignments: seq<Assignment>,
    totalCost: real,
    baselineCost: real,
    totalDistance: real,
    fleetUtilization: Utilization,
    unassignedRequests: seq<Id>,
    idleVehicles: seq<Id>)
}
