/** The passenger value (model/Passenger.java) and the ride request it is built from. */
module Passengers {
  import opened Wrappers
  import opened Geo

  type PassengerId = nat
  type RideId = nat

  const DefaultLuggageCount: nat := 1
  const DefaultMaxDetourMinutes: int := 15

  /**
   * A passenger. `ride` is the back-reference to the ride the passenger
   * belongs to, held as the ride's id; a missing location is `None`.
   */
  datatype Passenger = Passenger(
    id: PassengerId,
    name: string,
    phone: string,
    pickup: Option<Location>,
    dropoff: Option<Location>,
    luggageCount: nat,
    maxDetourMinutes: int,
    ride: Option<RideId>)

  /** Both locations are present. */
  predicate Located(p: Passenger)
  {
    p.pickup.Some? && p.dropoff.Some?
  }

  /** A passenger as built by the no-argument constructor, before any setter runs. */
  function NewPassenger(id: PassengerId): (p: Passenger)
    ensures p.id == id && p.ride == None && !Located(p)
    ensures p.luggageCount == DefaultLuggageCount && p.maxDetourMinutes == DefaultMaxDetourMinutes
  {
    Passenger(id, "", "", None, None, DefaultLuggageCount, DefaultMaxDetourMinutes, None)
  }

  /** Direct trip distance; 0 when either location is missing. */
  function DirectDistance(p: Passenger, dist: Metric): (d: real)
    ensures !Located(p) ==> d == 0.0
    ensures Located(p) ==> d == dist(p.pickup.value, p.dropoff.value)
  {
    if p.pickup.None? || p.dropoff.None? then 0.0
    else dist(p.pickup.value, p.dropoff.value)
  }

  /** Direct travel time in minutes; 0 when either location is missing. */
  function DirectTravelTime(p: Passenger, dist: Metric): (t: real)
    ensures t == 2.0 * DirectDistance(p, dist)
  {
    if p.pickup.None? || p.dropoff.None? then 0.0
    else TravelTime(dist, p.pickup.value, p.dropoff.value)
  }

  /**
   * An incoming ride request. Request validation guarantees both locations
   * are present and luggage is not negative; the model relies on nothing else.
   */
  datatype RideRequest = RideRequest(
    name: string,
    phone: string,
    pickup: Location,
    dropoff: Location,
    luggageCount: nat,
    maxDetourMinutes: int)

  /** A fresh passenger copying the request's fields, not yet on any ride. */
  function FromRequest(req: RideRequest, id: PassengerId): (p: Passenger)
    ensures Located(p) && p.id == id && p.ride == None
    ensures ToRequest(p) == Some(req)
  {
    Passenger(id, req.name, req.phone, Some(req.pickup), Some(req.dropoff),
              req.luggageCount, req.maxDetourMinutes, None)
  }

  /** The request a located passenger carries, the inverse of FromRequest. */
  function ToRequest(p: Passenger): (r: Option<RideRequest>)
    ensures r.Some? <==> Located(p)
  {
    if p.pickup.None? || p.dropoff.None? then None
    else Some(RideRequest(p.name, p.phone, p.pickup.value, p.dropoff.value,
                          p.luggageCount, p.maxDetourMinutes))
  }
}
