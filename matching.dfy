/**
 * The matching engine (service/MatchingService.java): a greedy choice of the
 * pooled ride with the smallest detour cost among the rides that pass the
 * capacity, pickup-radius and detour-tolerance checks.
 */
module Matching {
  import opened Wrappers
  import opened Geo
  import opened Passengers
  import opened Rides

  const MaxSearchRadiusKm: real := 5.0

  /** Every non-empty ride of the pool has a primary passenger with both locations. */
  predicate PrimariesLocated(pool: seq<RideRecord>)
  {
    forall j :: 0 <= j < |pool| && pool[j].passengers != [] ==> Located(pool[j].passengers[0])
  }

  /** An empty ride passes; otherwise the candidate's pickup is within 5 km of the primary's. */
  predicate WithinSearchRadius(ride: RideRecord, c: Passenger, dist: Metric)
    requires Located(c)
    requires ride.passengers != [] ==> Located(ride.passengers[0])
  {
    match ride.Primary()
    case None => true
    case Some(primary) => dist(primary.pickup.value, c.pickup.value) <= MaxSearchRadiusKm
  }

  /** Length of the route pickup1 -> pickup2 -> dropoff1 -> dropoff2. */
  function RouteDropFirstRider(p1: Location, d1: Location, p2: Location, d2: Location, dist: Metric): real
  {
    dist(p1, p2) + dist(p2, d1) + dist(d1, d2)
  }

  /** Length of the route pickup1 -> pickup2 -> dropoff2 -> dropoff1. */
  function RouteDropSecondRider(p1: Location, d1: Location, p2: Location, d2: Location, dist: Metric): real
  {
    dist(p1, p2) + dist(p2, d2) + dist(d2, d1)
  }

  /** The shorter of the two visiting orders. */
  function PooledRoute(p1: Location, d1: Location, p2: Location, d2: Location, dist: Metric): (r: real)
    ensures r <= RouteDropFirstRider(p1, d1, p2, d2, dist)
    ensures r <= RouteDropSecondRider(p1, d1, p2, d2, dist)
    ensures r == RouteDropFirstRider(p1, d1, p2, d2, dist) || r == RouteDropSecondRider(p1, d1, p2, d2, dist)
  {
    var a := RouteDropFirstRider(p1, d1, p2, d2, dist);
    var b := RouteDropSecondRider(p1, d1, p2, d2, dist);
    if a <= b then a else b
  }

  /**
   * Extra distance of pooling the candidate with the ride's primary passenger:
   * the shorter pooled route minus both direct trips; 0 for an empty ride.
   */
  function DetourCost(ride: RideRecord, c: Passenger, dist: Metric): (cost: real)
    requires Located(c)
    requires ride.passengers != [] ==> Located(ride.passengers[0])
    ensures ride.passengers == [] ==> cost == 0.0
    ensures ride.passengers != [] ==>
              var e := ride.passengers[0];
              var direct := DirectDistance(e, dist) + DirectDistance(c, dist);
              var first := RouteDropFirstRider(e.pickup.value, e.dropoff.value, c.pickup.value, c.dropoff.value, dist);
              var second := RouteDropSecondRider(e.pickup.value, e.dropoff.value, c.pickup.value, c.dropoff.value, dist);
              cost + direct <= first && cost + direct <= second && (cost + direct == first || cost + direct == second)
  {
    match ride.Primary()
    case None => 0.0
    case Some(e) =>
      PooledRoute(e.pickup.value, e.dropoff.value, c.pickup.value, c.dropoff.value, dist)
        - DirectDistance(e, dist) - DirectDistance(c, dist)
  }

  /**
   * The detour cost is not bounded below by 0: a candidate whose trip is the
   * primary's own trip, under a metric that puts a point at distance 0 from
   * itself, has detour cost minus that trip's length.
   */
  lemma DetourCostOfPrimary(ride: RideRecord, c: Passenger, dist: Metric)
    requires Located(c) && ride.passengers != [] && Located(ride.passengers[0])
    requires ride.passengers[0].pickup == c.pickup && ride.passengers[0].dropoff == c.dropoff
    requires dist(c.pickup.value, c.pickup.value) == 0.0 && dist(c.dropoff.value, c.dropoff.value) == 0.0
    ensures DetourCost(ride, c, dist) == - DirectDistance(c, dist)
  {
  }

  /**
   * Only the primary passenger is measured: members after the first never
   * change the radius check or the detour cost.
   */
  lemma OnlyPrimaryMeasured(ride: RideRecord, later: seq<Passenger>, c: Passenger, dist: Metric)
    requires Located(c) && ride.passengers != [] && Located(ride.passengers[0])
    ensures var grown := ride.(passengers := ride.passengers + later);
            (WithinSearchRadius(grown, c, dist) <==> WithinSearchRadius(ride, c, dist)) &&
            DetourCost(grown, c, dist) == DetourCost(ride, c, dist)
  {
    var grown := ride.(passengers := ride.passengers + later);
    assert grown.passengers[0] == ride.passengers[0];
  }

  /** Minutes a detour of the given length takes at the average city speed. */
  function DetourMinutes(detour: real): real
  {
    detour / AverageCitySpeedKmh * 60.0
  }

  /**
   * The candidate-side detour time: the direct travel time scaled by the
   * detour's share of the direct distance. With a zero direct distance the
   * floating-point result is NaN, which no comparison exceeds: None.
   */
  function CandidateDetourMinutes(c: Passenger, detour: real, dist: Metric): (m: Option<real>)
    ensures m.None? <==> DirectDistance(c, dist) == 0.0
  {
    var d := DirectDistance(c, dist);
    if d == 0.0 then None else Some(DirectTravelTime(c, dist) * (detour / d))
  }

  /** With a non-zero direct distance the two tolerance formulas agree. */
  lemma ToleranceFormulasAgree(c: Passenger, detour: real, dist: Metric)
    requires DirectDistance(c, dist) != 0.0
    ensures CandidateDetourMinutes(c, detour, dist) == Some(DetourMinutes(detour))
  {
    var d := DirectDistance(c, dist);
    calc {
      DirectTravelTime(c, dist) * (detour / d);
      (2.0 * d) * (detour / d);
      2.0 * (d * (detour / d));
      2.0 * detour;
      DetourMinutes(detour);
    }
    var m := CandidateDetourMinutes(c, detour, dist);
    assert m.Some?;
    assert m.value == DirectTravelTime(c, dist) * (detour / d);
  }

  /** Some member's tolerance is below the detour time. */
  predicate ExceedsMemberTolerance(members: seq<Passenger>, detour: real)
  {
    exists j :: 0 <= j < |members| && DetourMinutes(detour) > members[j].maxDetourMinutes as real
  }

  predicate ExceedsDetourTolerance(ride: RideRecord, c: Passenger, detour: real, dist: Metric)
  {
    ExceedsMemberTolerance(ride.passengers, detour) ||
    (var m := CandidateDetourMinutes(c, detour, dist);
     m.Some? && m.value > c.maxDetourMinutes as real)
  }

  /** The ride passes every check of the matching loop, in the loop's order. */
  predicate Passes(ride: RideRecord, c: Passenger, dist: Metric)
    requires Located(c)
    requires ride.passengers != [] ==> Located(ride.passengers[0])
  {
    ride.CanAccommodate(c) &&
    WithinSearchRadius(ride, c, dist) &&
    !ExceedsDetourTolerance(ride, c, DetourCost(ride, c, dist), dist)
  }

  /** What passing means, check by check: each check of the loop, and nothing more. */
  lemma PassesMeans(ride: RideRecord, c: Passenger, dist: Metric)
    requires Located(c)
    requires ride.passengers != [] ==> Located(ride.passengers[0])
    ensures Passes(ride, c, dist) <==>
              ride.availableSeats >= 1 && ride.availableLuggage >= c.luggageCount &&
              (ride.passengers != [] ==> dist(ride.passengers[0].pickup.value, c.pickup.value) <= 5.0) &&
              (forall j :: 0 <= j < |ride.passengers| ==>
                 DetourCost(ride, c, dist) / 30.0 * 60.0 <= ride.passengers[j].maxDetourMinutes as real) &&
              (DirectDistance(c, dist) != 0.0 ==>
                 DirectTravelTime(c, dist) * (DetourCost(ride, c, dist) / DirectDistance(c, dist))
                   <= c.maxDetourMinutes as real)
  {
  }

  /** A ride rejected for a detour stays rejected for every longer detour. */
  lemma DetourToleranceMonotone(ride: RideRecord, c: Passenger, shorter: real, longer: real, dist: Metric)
    requires shorter <= longer && ExceedsDetourTolerance(ride, c, shorter, dist)
    ensures ExceedsDetourTolerance(ride, c, longer, dist)
  {
    if ExceedsMemberTolerance(ride.passengers, shorter) {
      var j :| 0 <= j < |ride.passengers| && DetourMinutes(shorter) > ride.passengers[j].maxDetourMinutes as real;
      assert DetourMinutes(shorter) <= DetourMinutes(longer);
    } else {
      ToleranceFormulasAgree(c, shorter, dist);
      ToleranceFormulasAgree(c, longer, dist);
    }
  }

  /** A ride with no members and room for the candidate always passes, at detour cost 0. */
  lemma EmptyRidePasses(ride: RideRecord, c: Passenger, dist: Metric)
    requires Located(c) && ride.passengers == [] && ride.CanAccommodate(c)
    requires c.maxDetourMinutes >= 0
    ensures Passes(ride, c, dist) && DetourCost(ride, c, dist) == 0.0
  {
    if DirectDistance(c, dist) != 0.0 {
      ToleranceFormulasAgree(c, 0.0, dist);
    }
  }

  /**
   * Index of the ride the loop holds after its first n iterations: a passing
   * ride replaces the current best only when its detour cost is strictly smaller.
   */
  function BestIn(c: Passenger, pool: seq<RideRecord>, n: nat, dist: Metric): (b: Option<nat>)
    requires n <= |pool| && Located(c) && PrimariesLocated(pool)
    ensures b.Some? ==> b.value < n
  {
    if n == 0 then None
    else
      var b := BestIn(c, pool, n - 1, dist);
      var ride := pool[n - 1];
      if Passes(ride, c, dist) && (b.None? || DetourCost(ride, c, dist) < DetourCost(pool[b.value], c, dist))
      then Some(n - 1)
      else b
  }

  /**
   * The loop's choice among the first n rides: none exactly when no ride
   * passes; otherwise a passing ride of least detour cost, and the earliest
   * such ride (a later ride of equal cost does not replace it).
   */
  lemma {:induction false} BestInIsBest(c: Passenger, pool: seq<RideRecord>, n: nat, dist: Metric)
    requires n <= |pool| && Located(c) && PrimariesLocated(pool)
    ensures var b := BestIn(c, pool, n, dist);
            (b.None? <==> forall j :: 0 <= j < n ==> !Passes(pool[j], c, dist)) &&
            (b.Some? ==> Passes(pool[b.value], c, dist)) &&
            (b.Some? ==> forall j :: 0 <= j < n && Passes(pool[j], c, dist) ==>
               DetourCost(pool[b.value], c, dist) <= DetourCost(pool[j], c, dist)) &&
            (b.Some? ==> forall j :: 0 <= j < b.value && Passes(pool[j], c, dist) ==>
               DetourCost(pool[b.value], c, dist) < DetourCost(pool[j], c, dist))
  {
    if n > 0 {
      BestInIsBest(c, pool, n - 1, dist);
    }
  }

  /** The ride at an optional index of the pool. */
  function RideAt(pool: seq<RideRecord>, k: Option<nat>): Option<RideRecord>
    requires k.Some? ==> k.value < |pool|
  {
    if k.None? then None else Some(pool[k.value])
  }

  /**
   * findBestMatch over the rides the store returned, read through their
   * persisted state. Changes nothing, and returns the earliest ride of least detour cost among those
   * that pass every check, or None when no ride passes.
   */
  method FindBestMatch(c: Passenger, pool: seq<RideRecord>, dist: Metric) returns (best: Option<RideRecord>)
    requires Located(c) && PrimariesLocated(pool)
    ensures best == RideAt(pool, BestIn(c, pool, |pool|, dist))
    ensures best.None? <==> forall j :: 0 <= j < |pool| ==> !Passes(pool[j], c, dist)
    ensures best.Some? ==> best.value in pool && Passes(best.value, c, dist)
    ensures best.Some? ==> forall j :: 0 <= j < |pool| && Passes(pool[j], c, dist) ==>
              DetourCost(best.value, c, dist) <= DetourCost(pool[j], c, dist)
  {
    var bestMatch: Option<RideRecord> := None;
    var minDetourCost: real := 0.0;
    ghost var bestIndex: Option<nat> := None;
    for i := 0 to |pool|
      invariant bestIndex == BestIn(c, pool, i, dist)
      invariant bestMatch == RideAt(pool, bestIndex)
      invariant bestMatch.Some? ==> minDetourCost == DetourCost(bestMatch.value, c, dist)
    {
      var ride := pool[i];
      if !ride.CanAccommodate(c) {
        continue;
      }
      if !WithinSearchRadius(ride, c, dist) {
        continue;
      }
      var detourCost := DetourCost(ride, c, dist);
      if ExceedsDetourTolerance(ride, c, detourCost, dist) {
        continue;
      }
      if bestMatch.None? || detourCost < minDetourCost {
        minDetourCost := detourCost;
        bestMatch := Some(ride);
        bestIndex := Some(i);
      }
    }
    BestInIsBest(c, pool, |pool|, dist);
    best := bestMatch;
  }
}
