/**
 * The request orchestrator (service/RideService.java) over the two
 * repositories it uses, held as sequences indexed by id.
 *
 * The rides table holds one row (`RideRecord`) per ride. A request loads the
 * entity it changes from its row (`Ride.Load`); a successful save writes the
 * entity's state back under the ride's id, and a save rejected by the
 * optimistic version check leaves the row as it was.
 * Whether the join save of attempt k is rejected is given by the oracle
 * `conflictOn(k)`, and the table the winning writer leaves by
 * `interfere(table, k)`; the count of pending rides used for surge pricing is
 * the snapshot `demand`; distances come from `dist`.
 */
module RideServices {
  import opened Wrappers
  import opened Geo
  import opened Passengers
  import opened Rides
  import opened Matching
  import Pricing

  const MaxRetryAttempts: nat := 3

  datatype Error = NotFound | InvalidState | CapacityViolation | Conflict

  datatype RideResponse = RideResponse(
    rideId: RideId,
    passengerId: PassengerId,
    status: RideStatus,
    estimatedFare: real,
    distance: real,
    totalPassengers: int,
    availableSeats: int,
    isPooled: bool,
    savingsPercentage: real)

  datatype PassengerSummary = PassengerSummary(
    id: PassengerId,
    name: string,
    pickup: Option<Location>,
    dropoff: Option<Location>,
    luggageCount: nat)

  datatype RideDetails = RideDetails(
    rideId: RideId,
    status: RideStatus,
    passengers: seq<PassengerSummary>,
    availableSeats: int,
    availableLuggage: int,
    totalDistance: Option<real>,
    finalFare: Option<real>)

  function Summary(p: Passenger): PassengerSummary
  {
    PassengerSummary(p.id, p.name, p.pickup, p.dropoff, p.luggageCount)
  }

  function Summaries(ps: seq<Passenger>): (s: seq<PassengerSummary>)
    ensures |s| == |ps| && forall j :: 0 <= j < |ps| ==> s[j] == Summary(ps[j])
  {
    seq(|ps|, j requires 0 <= j < |ps| => Summary(ps[j]))
  }

  /**
   * The poolable rides: pending with a free seat, in id order
   * (RideRepository.findAvailableRidesByStatus(PENDING)).
   */
  function PoolOf(rs: seq<RideRecord>): (pool: seq<RideRecord>)
    ensures forall r :: r in pool <==> r in rs && r.status == Pending && r.availableSeats > 0
  {
    if rs == [] then []
    else
      var last := rs[|rs| - 1];
      PoolOf(rs[..|rs| - 1]) + (if last.status == Pending && last.availableSeats > 0 then [last] else [])
  }

  /**
   * A ride as this service stores it under id i: capacity invariant, default
   * capacity, a total distance, located members, and a status that matches
   * its member count (a pending ride has its creator only, a matched ride one
   * or two members, a cancelled ride none).
   */
  ghost predicate Stored(r: RideRecord, i: nat)
  {
    r.id == i && r.Valid() &&
    r.maxSeats == DefaultMaxSeats && r.maxLuggage == DefaultMaxLuggage &&
    r.totalDistance.Some? &&
    (forall j :: 0 <= j < |r.passengers| ==> Located(r.passengers[j])) &&
    (r.status == Pending ==> |r.passengers| == 1) &&
    (r.status == Matched ==> 1 <= |r.passengers| <= 2) &&
    (r.status == Cancelled ==> r.passengers == []) &&
    !r.status.InProgress? && !r.status.Completed?
  }

  /** Every row of the table is stored under its own id. */
  ghost predicate Table(rs: seq<RideRecord>)
  {
    forall i :: 0 <= i < |rs| ==> Stored(rs[i], i)
  }

  lemma TableAppend(rs: seq<RideRecord>, row: RideRecord)
    requires Table(rs) && Stored(row, |rs|)
    ensures Table(rs + [row])
  {
  }

  lemma TableUpdate(rs: seq<RideRecord>, i: nat, row: RideRecord)
    requires Table(rs) && i < |rs| && Stored(row, i)
    ensures Table(rs[i := row])
  {
  }

  /** Passenger i has id i, and a ride reference names a ride of the table. */
  ghost predicate Registry(ps: seq<Passenger>, rideCount: nat)
  {
    forall i :: 0 <= i < |ps| ==> ps[i].id == i && (ps[i].ride.Some? ==> ps[i].ride.value < rideCount)
  }

  /** A pooled ride is the row of its id, pending with its creator only. */
  lemma PoolIsStored(rs: seq<RideRecord>, r: RideRecord)
    requires Table(rs) && r in PoolOf(rs)
    ensures r.id < |rs| && rs[r.id] == r && Stored(r, r.id)
    ensures r.status == Pending && |r.passengers| == 1 && r.availableSeats == DefaultMaxSeats - 1
  {
    var i :| 0 <= i < |rs| && rs[i] == r;
    assert Stored(rs[i], i);
  }

  lemma PoolPrimariesLocated(rs: seq<RideRecord>)
    requires Table(rs)
    ensures PrimariesLocated(PoolOf(rs))
  {
    var pool := PoolOf(rs);
    forall j | 0 <= j < |pool| && pool[j].passengers != []
      ensures Located(pool[j].passengers[0])
    {
      assert pool[j] in pool;
      PoolIsStored(rs, pool[j]);
    }
  }

  /** The ride the matching engine picks for candidate c from the pool of table rs. */
  ghost function MatchOf(rs: seq<RideRecord>, c: Passenger, dist: Metric): Option<RideRecord>
    requires Table(rs) && Located(c)
  {
    PoolPrimariesLocated(rs);
    RideAt(PoolOf(rs), BestIn(c, PoolOf(rs), |PoolOf(rs)|, dist))
  }

  /** A ride the matching engine picks is a pooled ride with room for the candidate. */
  lemma MatchFits(rs: seq<RideRecord>, c: Passenger, dist: Metric)
    requires Table(rs) && Located(c) && MatchOf(rs, c, dist).Some?
    ensures MatchOf(rs, c, dist).value in PoolOf(rs)
    ensures MatchOf(rs, c, dist).value.CanAccommodate(c)
    ensures c.luggageCount <= DefaultMaxLuggage
  {
    PoolPrimariesLocated(rs);
    var r := MatchOf(rs, c, dist).value;
    var k := BestIn(c, PoolOf(rs), |PoolOf(rs)|, dist);
    BestInIsBest(c, PoolOf(rs), |PoolOf(rs)|, dist);
    assert r == PoolOf(rs)[k.value];
    PoolIsStored(rs, r);
  }

  /** The matching engine finds a ride for candidate c in table rs. */
  ghost predicate FoundMatch(rs: seq<RideRecord>, c: Passenger, dist: Metric)
  {
    Table(rs) && Located(c) && MatchOf(rs, c, dist).Some?
  }

  /**
   * What a concurrent writer may leave behind when it wins the version race
   * against attempt k: any table this service could itself have stored, with
   * no ride taken away.
   */
  ghost predicate Interference(interfere: (seq<RideRecord>, nat) -> seq<RideRecord>)
  {
    forall rs, k :: Table(rs) ==> Table(interfere(rs, k)) && |rs| <= |interfere(rs, k)|
  }

  /** The table after attempts from .. to - 1 each lost the version race to another writer. */
  ghost function After(rs: seq<RideRecord>, interfere: (seq<RideRecord>, nat) -> seq<RideRecord>,
                       from: nat, to: nat): seq<RideRecord>
    decreases if to <= from then 0 else to - from
  {
    if to <= from then rs else After(interfere(rs, from), interfere, from + 1, to)
  }

  /** Lost races leave a valid table that still holds every ride. */
  lemma {:induction false} AfterTable(rs: seq<RideRecord>, interfere: (seq<RideRecord>, nat) -> seq<RideRecord>,
                                      from: nat, to: nat)
    requires Table(rs) && Interference(interfere)
    ensures Table(After(rs, interfere, from, to)) && |rs| <= |After(rs, interfere, from, to)|
    decreases if to <= from then 0 else to - from
  {
    if from < to {
      AfterTable(interfere(rs, from), interfere, from + 1, to);
    }
  }

  lemma AfterStep(rs: seq<RideRecord>, interfere: (seq<RideRecord>, nat) -> seq<RideRecord>, from: nat, to: nat)
    requires from < to
    ensures After(rs, interfere, from, to) == After(interfere(rs, from), interfere, from + 1, to)
  {
  }

  /** The row createNewRide saves for p under id rid. */
  function SoloRow(rid: RideId, p: Passenger, demand: nat, dist: Metric): RideRecord
  {
    var d := DirectDistance(p, dist);
    var fare := Pricing.Fare(d, 1, demand);
    RideRecord(rid, Pending, [p.(ride := Some(rid))], DefaultMaxSeats, DefaultMaxLuggage,
               DefaultMaxSeats - 1, DefaultMaxLuggage - p.luggageCount, Some(d), Some(fare), Some(fare))
  }

  /** The answer createNewRide gives for p's new ride rid. */
  function SoloResponse(rid: RideId, p: Passenger, demand: nat, dist: Metric): RideResponse
  {
    var d := DirectDistance(p, dist);
    RideResponse(rid, p.id, Pending, Pricing.Fare(d, 1, demand), d, 1, DefaultMaxSeats - 1, false, 0.0)
  }

  /** The row addPassengerToExistingRide saves when p joins the ride stored as was. */
  function JoinedRow(was: RideRecord, p: Passenger, demand: nat, dist: Metric): RideRecord
  {
    var members := was.passengers + [p.(ride := Some(was.id))];
    was.(status := Matched, passengers := members,
         availableSeats := was.availableSeats - 1,
         availableLuggage := was.availableLuggage - p.luggageCount,
         finalFare := Some(Pricing.Fare(DirectDistance(p, dist), |members|, demand)))
  }

  /** The answer addPassengerToExistingRide gives p for the saved row. */
  function PooledResponse(row: RideRecord, p: Passenger, demand: nat, dist: Metric): RideResponse
  {
    var d := DirectDistance(p, dist);
    var pooledFare := Pricing.Fare(d, |row.passengers|, demand);
    RideResponse(row.id, p.id, Matched, pooledFare, d, |row.passengers|, row.availableSeats, true,
                 Pricing.SavingsPercentage(Pricing.Fare(d, 1, demand), pooledFare))
  }

  /**
   * removePassenger on a row: pid's first occurrence removed with its seat
   * and luggage given back; a non-member changes nothing.
   */
  function RemoveMember(was: RideRecord, pid: PassengerId): RideRecord
  {
    match FirstIndexOf(was.passengers, pid)
    case None => was
    case Some(k) => was.(passengers := Without(was.passengers, k),
                         availableSeats := was.availableSeats + 1,
                         availableLuggage := was.availableLuggage + was.passengers[k].luggageCount)
  }

  /**
   * The row cancelRide saves: pid removed, then CANCELLED when no member is
   * left, or else re-priced over the ride's total distance for the
   * remaining members.
   */
  function CancelledRow(was: RideRecord, pid: PassengerId, demand: nat): RideRecord
    requires was.totalDistance.Some?
  {
    var removed := RemoveMember(was, pid);
    if removed.passengers == [] then removed.(status := Cancelled)
    else removed.(finalFare := Some(Pricing.Fare(was.totalDistance.value, |removed.passengers|, demand)))
  }

  /**
   * Removing a member keeps the capacity invariant and the members located,
   * and leaves one member fewer exactly when pid was a member.
   */
  lemma RemoveMemberValid(was: RideRecord, pid: PassengerId)
    requires was.Valid() && forall j :: 0 <= j < |was.passengers| ==> Located(was.passengers[j])
    ensures var r := RemoveMember(was, pid);
            r.Valid() && (forall j :: 0 <= j < |r.passengers| ==> Located(r.passengers[j])) &&
            r.id == was.id && r.status == was.status && r.maxSeats == was.maxSeats &&
            r.maxLuggage == was.maxLuggage && r.totalDistance == was.totalDistance &&
            |r.passengers| <= |was.passengers| &&
            (|r.passengers| == |was.passengers| <==> FirstIndexOf(was.passengers, pid).None?)
  {
    var k := FirstIndexOf(was.passengers, pid);
    if k.Some? {
      var rest := Without(was.passengers, k.value);
      LuggageSumWithout(was.passengers, k.value);
      assert forall j :: 0 <= j < |rest| ==> rest[j] in was.passengers;
    }
  }

  /** A new ride for a located passenger whose luggage fits is a stored, poolable ride. */
  lemma SoloRowStored(rid: RideId, p: Passenger, demand: nat, dist: Metric)
    requires Located(p) && p.luggageCount <= DefaultMaxLuggage
    ensures Stored(SoloRow(rid, p, demand, dist), rid)
    ensures SoloRow(rid, p, demand, dist).availableSeats > 0
  {
    var members := [p.(ride := Some(rid))];
    assert LuggageSum(members) == p.luggageCount by {
      assert members[..0] == [];
    }
  }

  /**
   * Joining a pooled ride keeps it a stored ride: the capacity invariant
   * holds for the two members, and the ride is MATCHED, so it leaves the pool.
   */
  lemma JoinedRowStored(was: RideRecord, p: Passenger, demand: nat, dist: Metric)
    requires Stored(was, was.id) && was.status == Pending && was.CanAccommodate(p) && Located(p)
    ensures Stored(JoinedRow(was, p, demand, dist), was.id)
    ensures |JoinedRow(was, p, demand, dist).passengers| == 2
    ensures JoinedRow(was, p, demand, dist) !in PoolOf([JoinedRow(was, p, demand, dist)])
  {
    var member := p.(ride := Some(was.id));
    LuggageSumConcat(was.passengers, [member]);
    assert LuggageSum([member]) == p.luggageCount by {
      assert [member][..0] == [];
    }
  }

  /**
   * With a metric that gives no negative distances, a passenger who joins a
   * ride pays less than alone and is told a positive saving.
   */
  lemma JoinSaves(was: RideRecord, p: Passenger, demand: nat, dist: Metric)
    requires Stored(was, was.id) && was.status == Pending
    requires forall a, b :: dist(a, b) >= 0.0
    ensures var response := PooledResponse(JoinedRow(was, p, demand, dist), p, demand, dist);
            response.estimatedFare < Pricing.Fare(DirectDistance(p, dist), 1, demand) &&
            response.savingsPercentage > 0.0
  {
    var d := DirectDistance(p, dist);
    assert d >= 0.0;
    Pricing.PooledFareBelowSolo(d, 2, demand);
    Pricing.PoolingSaves(d, 2, demand);
  }

  /** Cancelling keeps a stored ride stored. */
  lemma CancelledRowStored(was: RideRecord, pid: PassengerId, demand: nat)
    requires Stored(was, was.id)
    ensures Stored(CancelledRow(was, pid, demand), was.id)
  {
    RemoveMemberValid(was, pid);
  }

  /**
   * Cancelling the passenger who just joined gives back the ride's members,
   * seats and luggage space as they were before the join.
   */
  lemma JoinThenCancelRestores(was: RideRecord, p: Passenger, demand: nat, dist: Metric)
    requires Stored(was, was.id) && was.status == Pending
    requires forall j :: 0 <= j < |was.passengers| ==> was.passengers[j].id != p.id
    ensures var r := CancelledRow(JoinedRow(was, p, demand, dist), p.id, demand);
            r.passengers == was.passengers && r.availableSeats == was.availableSeats &&
            r.availableLuggage == was.availableLuggage && r.status == Matched
  {
    AddThenRemoveRestores(was.passengers, p, was.id);
  }

  /** createNewRide's work on a new entity: its row, or None when p's luggage does not fit. */
  method CreateRideEntity(rid: RideId, p: Passenger, demand: nat, dist: Metric) returns (row: Option<RideRecord>)
    ensures row.None? <==> p.luggageCount > DefaultMaxLuggage
    ensures row.Some? ==> row.value == SoloRow(rid, p, demand, dist)
  {
    var newRide := new Ride(rid);
    var ok := newRide.AddPassenger(p);
    if !ok {
      return None;
    }
    var distance := DirectDistance(p, dist);
    var fare := Pricing.Fare(distance, 1, demand);
    newRide.totalDistance := Some(distance);
    newRide.baseFare := Some(fare);
    newRide.finalFare := Some(fare);
    row := Some(newRide.Record());
  }

  /**
   * addPassengerToExistingRide's work on the entity loaded from the stored
   * row: the row to save, or None when the ride cannot take p.
   */
  method JoinEntity(stored: RideRecord, p: Passenger, demand: nat, dist: Metric) returns (row: Option<RideRecord>)
    ensures row.None? <==> !stored.CanAccommodate(p)
    ensures row.Some? ==> row.value == JoinedRow(stored, p, demand, dist)
  {
    var ride := new Ride.Load(stored);
    var ok := ride.AddPassenger(p);
    if !ok {
      return None;
    }
    ride.status := Matched;
    var passengerCount := |ride.passengers|;
    var distance := DirectDistance(p, dist);
    var pooledFare := Pricing.Fare(distance, passengerCount, demand);
    ride.finalFare := Some(pooledFare);
    row := Some(ride.Record());
  }

  /** cancelRide's work on the entity loaded from the stored row: the row to save. */
  method CancelEntity(stored: RideRecord, pid: PassengerId, demand: nat) returns (row: RideRecord)
    requires stored.totalDistance.Some?
    ensures row == CancelledRow(stored, pid, demand)
  {
    var ride := new Ride.Load(stored);
    var _ := ride.RemovePassenger(pid);
    if ride.passengers == [] {
      ride.status := Cancelled;
    } else {
      var remainingPassengers := |ride.passengers|;
      var newFare := Pricing.Fare(ride.totalDistance.value, remainingPassengers, demand);
      ride.finalFare := Some(newFare);
    }
    row := ride.Record();
  }

  class RideService {
    var rides: seq<RideRecord>
    var passengers: seq<Passenger>

    ghost predicate Valid()
      reads this
    {
      Table(rides) && Registry(passengers, |rides|)
    }

    constructor ()
      ensures Valid() && rides == [] && passengers == []
    {
      rides, passengers := [], [];
    }

    function Pool(): seq<RideRecord>
      reads this
    {
      PoolOf(rides)
    }

    /** Every stored ride holds at most two passengers: a joined ride leaves the pending pool. */
    lemma AtMostTwoPassengers(i: nat)
      requires Valid() && i < |rides|
      ensures |rides[i].passengers| <= 2
      ensures rides[i].status == Pending ==> rides[i].availableSeats == DefaultMaxSeats - 1
    {
      assert Stored(rides[i], i);
    }

    /** The state after createNewRide: p's new ride appended to the table, p registered on it. */
    ghost predicate Created(before: seq<RideRecord>, beforePassengers: seq<Passenger>, p: Passenger,
                            demand: nat, dist: Metric, response: RideResponse)
      reads this
    {
      var rid := |before|;
      rides == before + [SoloRow(rid, p, demand, dist)] &&
      passengers == beforePassengers + [p.(ride := Some(rid))] &&
      response == SoloResponse(rid, p, demand, dist)
    }

    /**
     * The outcome of createNewRide for p: CapacityViolation with nothing
     * stored exactly when p's luggage exceeds a new ride's space, otherwise
     * the Created state.
     */
    ghost predicate CreateResult(before: seq<RideRecord>, beforePassengers: seq<Passenger>, p: Passenger,
                                 demand: nat, dist: Metric, res: Result<RideResponse, Error>)
      reads this
    {
      (res.Failure? <==> p.luggageCount > DefaultMaxLuggage) &&
      (res.Failure? ==> res.error == CapacityViolation && rides == before && passengers == beforePassengers) &&
      (res.Success? ==> Created(before, beforePassengers, p, demand, dist, res.value))
    }

    /** The state after p joins ride rid: that row replaced by the joined row, p registered on it. */
    ghost predicate JoinedRide(before: seq<RideRecord>, beforePassengers: seq<Passenger>, rid: RideId,
                               p: Passenger, demand: nat, dist: Metric, response: RideResponse)
      reads this
    {
      rid < |before| &&
      rides == before[rid := JoinedRow(before[rid], p, demand, dist)] &&
      passengers == beforePassengers + [p.(ride := Some(rid))] &&
      response == PooledResponse(rides[rid], p, demand, dist)
    }

    /** createNewRide: a new pending ride holding p, or CapacityViolation when p's luggage does not fit. */
    method CreateNewRide(p: Passenger, demand: nat, dist: Metric) returns (res: Result<RideResponse, Error>)
      requires Valid() && Located(p) && p.id == |passengers| && p.ride == None
      modifies this
      ensures Valid()
      ensures CreateResult(old(rides), old(passengers), p, demand, dist, res)
    {
      var rid := |rides|;
      var row := CreateRideEntity(rid, p, demand, dist);
      if row.None? {
        return Failure(CapacityViolation);
      }
      var newRide := row.value;
      SoloRowStored(rid, p, demand, dist);
      TableAppend(rides, newRide);
      rides := rides + [newRide];
      passengers := passengers + [p.(ride := Some(rid))];
      res := Success(RideResponse(rid, p.id, Pending, newRide.finalFare.value, newRide.totalDistance.value, 1,
                                  newRide.availableSeats, false, 0.0));
    }

    /**
     * addPassengerToExistingRide for a ride of the pool: CapacityViolation
     * when the ride cannot take p; otherwise the joined row is saved, or, on a
     * rejected save (None), the store is left as it was.
     */
    method AddPassengerToExistingRide(stored: RideRecord, p: Passenger, demand: nat, dist: Metric, conflict: bool)
      returns (outcome: Option<Result<RideResponse, Error>>)
      requires Valid() && stored in Pool()
      requires Located(p) && p.id == |passengers| && p.ride == None
      modifies this
      ensures Valid()
      ensures outcome == Some(Failure(CapacityViolation)) <==> !stored.CanAccommodate(p)
      ensures outcome.None? <==> stored.CanAccommodate(p) && conflict
      ensures outcome.Some? && outcome.value.Success? <==> stored.CanAccommodate(p) && !conflict
      ensures !(outcome.Some? && outcome.value.Success?) ==> rides == old(rides) && passengers == old(passengers)
      ensures outcome.Some? && outcome.value.Success? ==>
                outcome.value.value.isPooled && outcome.value.value.rideId == stored.id &&
                JoinedRide(old(rides), old(passengers), stored.id, p, demand, dist, outcome.value.value)
    {
      PoolIsStored(rides, stored);
      var row := JoinEntity(stored, p, demand, dist);
      if row.None? {
        return Some(Failure(CapacityViolation));
      }
      if conflict {
        return None;
      }
      var ride := row.value;
      JoinedRowStored(stored, p, demand, dist);
      TableUpdate(rides, stored.id, ride);
      rides := rides[ride.id := ride];
      passengers := passengers + [p.(ride := Some(ride.id))];
      var passengerCount := |ride.passengers|;
      var distance := DirectDistance(p, dist);
      var pooledFare := ride.finalFare.value;
      var soloFare := Pricing.Fare(distance, 1, demand);
      var savings := Pricing.SavingsPercentage(soloFare, pooledFare);
      outcome := Some(Success(RideResponse(ride.id, p.id, Matched, pooledFare, distance, passengerCount,
                                           ride.availableSeats, true, savings)));
    }

    /**
     * What serving request req from the store (before, beforePassengers)
     * produced: without a match, the outcome of creating a new ride; with a
     * match whose save went through, the join of the matched ride; with a
     * match whose save was rejected, a new ride in the table `afterRejected`
     * the winning writer left.
     */
    ghost predicate Served(before: seq<RideRecord>, beforePassengers: seq<Passenger>, req: RideRequest,
                           demand: nat, dist: Metric, matched: Option<RideRecord>, rejected: bool,
                           afterRejected: seq<RideRecord>, res: Result<RideResponse, Error>)
      reads this
    {
      var p := FromRequest(req, |beforePassengers|);
      (matched.None? ==> CreateResult(before, beforePassengers, p, demand, dist, res)) &&
      (matched.Some? && !rejected ==>
         res.Success? && res.value.isPooled && res.value.rideId == matched.value.id &&
         JoinedRide(before, beforePassengers, matched.value.id, p, demand, dist, res.value)) &&
      (matched.Some? && rejected ==> CreateResult(afterRejected, beforePassengers, p, demand, dist, res))
    }

    /**
     * One attempt of requestRideWithRetry: a fresh passenger, a fresh match
     * search, then either a new ride or the join of the matched ride. None
     * means the join's save was rejected (`conflict`): this attempt's writes
     * are discarded and the store is the table `next` the winning writer left,
     * so the request is to be retried.
     */
    method AttemptRequest(req: RideRequest, demand: nat, dist: Metric, conflict: bool, next: seq<RideRecord>,
                          ghost matched: Option<RideRecord>)
      returns (attempt: Option<Result<RideResponse, Error>>)
      requires Valid() && Table(next) && |rides| <= |next|
      requires matched == MatchOf(rides, FromRequest(req, |passengers|), dist)
      modifies this
      ensures Valid()
      ensures attempt.None? <==> matched.Some? && conflict
      ensures attempt.None? ==> rides == next && passengers == old(passengers)
      ensures attempt.Some? ==> Served(old(rides), old(passengers), req, demand, dist, matched, false, next, attempt.value)
    {
      var passenger := FromRequest(req, |passengers|);
      PoolPrimariesLocated(rides);
      var matchedRide := FindBestMatch(passenger, Pool(), dist);
      if matchedRide.None? {
        var res := CreateNewRide(passenger, demand, dist);
        return Some(res);
      }
      MatchFits(rides, passenger, dist);
      attempt := AddPassengerToExistingRide(matchedRide.value, passenger, demand, dist, conflict);
      if attempt.None? {
        rides := next;
      }
    }

    /**
     * What requestRideWithRetry made of request req from attempt `from` on,
     * starting from the store (before, beforePassengers): `attempts` attempts
     * in all, at most three; every attempt before the last found a match and
     * had its save rejected; `seen` is the table the last attempt matched
     * against, and that attempt was served from it.
     */
    ghost predicate Retried(before: seq<RideRecord>, beforePassengers: seq<Passenger>, req: RideRequest,
                            demand: nat, dist: Metric, conflictOn: nat -> bool,
                            interfere: (seq<RideRecord>, nat) -> seq<RideRecord>,
                            from: nat, attempts: nat, seen: seq<RideRecord>, res: Result<RideResponse, Error>)
      reads this
    {
      var c := FromRequest(req, |beforePassengers|);
      from < attempts <= MaxRetryAttempts &&
      seen == After(before, interfere, from, attempts - 1) && Table(seen) &&
      (forall k :: from <= k < attempts - 1 ==>
         conflictOn(k) && FoundMatch(After(before, interfere, from, k), c, dist)) &&
      var matched := MatchOf(seen, c, dist);
      (matched.Some? && conflictOn(attempts - 1) ==> attempts == MaxRetryAttempts) &&
      Served(seen, beforePassengers, req, demand, dist, matched, matched.Some? && conflictOn(attempts - 1),
             interfere(seen, attempts - 1), res)
    }

    /** An attempt that matched and lost the race, followed by the retries from the table the race left. */
    lemma RetriedAfterRace(before: seq<RideRecord>, next: seq<RideRecord>, beforePassengers: seq<Passenger>,
                           req: RideRequest, demand: nat, dist: Metric, conflictOn: nat -> bool,
                           interfere: (seq<RideRecord>, nat) -> seq<RideRecord>,
                           from: nat, attempts: nat, seen: seq<RideRecord>, res: Result<RideResponse, Error>)
      requires next == interfere(before, from) && conflictOn(from)
      requires FoundMatch(before, FromRequest(req, |beforePassengers|), dist)
      requires Retried(next, beforePassengers, req, demand, dist, conflictOn, interfere, from + 1, attempts, seen, res)
      ensures Retried(before, beforePassengers, req, demand, dist, conflictOn, interfere, from, attempts, seen, res)
    {
      var c := FromRequest(req, |beforePassengers|);
      AfterStep(before, interfere, from, attempts - 1);
      forall k | from <= k < attempts - 1
        ensures conflictOn(k) && FoundMatch(After(before, interfere, from, k), c, dist)
      {
        if k > from {
          AfterStep(before, interfere, from, k);
        }
      }
    }

    /** An attempt that was served at once: it is the last. */
    lemma RetriedAtOnce(before: seq<RideRecord>, next: seq<RideRecord>, beforePassengers: seq<Passenger>,
                        req: RideRequest, demand: nat, dist: Metric, conflictOn: nat -> bool,
                        interfere: (seq<RideRecord>, nat) -> seq<RideRecord>,
                        from: nat, res: Result<RideResponse, Error>)
      requires Table(before) && from < MaxRetryAttempts && next == interfere(before, from)
      requires var matched := MatchOf(before, FromRequest(req, |beforePassengers|), dist);
               !(matched.Some? && conflictOn(from)) &&
               Served(before, beforePassengers, req, demand, dist, matched, false, next, res)
      ensures Retried(before, beforePassengers, req, demand, dist, conflictOn, interfere, from, from + 1, before, res)
    {
    }

    /** The last attempt matched and lost the race: the new ride of the fallback. */
    lemma RetriedFallback(before: seq<RideRecord>, next: seq<RideRecord>, beforePassengers: seq<Passenger>,
                          req: RideRequest, demand: nat, dist: Metric, conflictOn: nat -> bool,
                          interfere: (seq<RideRecord>, nat) -> seq<RideRecord>, res: Result<RideResponse, Error>)
      requires Table(before) && next == interfere(before, MaxRetryAttempts - 1) && conflictOn(MaxRetryAttempts - 1)
      requires MatchOf(before, FromRequest(req, |beforePassengers|), dist).Some?
      requires CreateResult(next, beforePassengers, FromRequest(req, |beforePassengers|), demand, dist, res)
      ensures Retried(before, beforePassengers, req, demand, dist, conflictOn, interfere,
                      MaxRetryAttempts - 1, MaxRetryAttempts, before, res)
    {
    }

    /**
     * requestRideWithRetry from attempt attemptNumber on: a rejected save
     * before the last attempt retries from scratch against the table the
     * winning writer left (`interfere`), on the last it falls back to a new
     * ride.
     */
    method RequestRideWithRetry(req: RideRequest, demand: nat, dist: Metric, conflictOn: nat -> bool,
                                interfere: (seq<RideRecord>, nat) -> seq<RideRecord>, attemptNumber: nat)
      returns (res: Result<RideResponse, Error>, ghost attempts: nat, ghost seen: seq<RideRecord>)
      requires Valid() && attemptNumber < MaxRetryAttempts && Interference(interfere)
      modifies this
      decreases MaxRetryAttempts - attemptNumber
      ensures Valid()
      ensures Retried(old(rides), old(passengers), req, demand, dist, conflictOn, interfere, attemptNumber, attempts, seen, res)
    {
      ghost var before, beforePassengers := rides, passengers;
      ghost var c := FromRequest(req, |passengers|);
      var next := interfere(rides, attemptNumber);
      var outcome := AttemptRequest(req, demand, dist, conflictOn(attemptNumber), next, MatchOf(rides, c, dist));
      if outcome.Some? {
        RetriedAtOnce(before, next, beforePassengers, req, demand, dist, conflictOn, interfere, attemptNumber, outcome.value);
        return outcome.value, attemptNumber + 1, before;
      }
      if attemptNumber < MaxRetryAttempts - 1 {
        res, attempts, seen := RequestRideWithRetry(req, demand, dist, conflictOn, interfere, attemptNumber + 1);
        RetriedAfterRace(before, next, beforePassengers, req, demand, dist, conflictOn, interfere, attemptNumber, attempts, seen, res);
      } else {
        var passenger := FromRequest(req, |passengers|);
        res := CreateNewRide(passenger, demand, dist);
        RetriedFallback(before, next, beforePassengers, req, demand, dist, conflictOn, interfere, res);
        attempts, seen := MaxRetryAttempts, before;
      }
    }

    /**
     * requestRide: at most three attempts, each a fresh match search over the
     * table as the previous attempt's rejected save left it; a request fails
     * only when its luggage exceeds a new ride's space, since a matched ride
     * always has room for it.
     */
    method RequestRide(req: RideRequest, demand: nat, dist: Metric, conflictOn: nat -> bool,
                       interfere: (seq<RideRecord>, nat) -> seq<RideRecord>)
      returns (res: Result<RideResponse, Error>, ghost attempts: nat, ghost seen: seq<RideRecord>)
      requires Valid() && Interference(interfere)
      modifies this
      ensures Valid()
      ensures 1 <= attempts <= MaxRetryAttempts
      ensures seen == After(old(rides), interfere, 0, attempts - 1) && Table(seen)
      ensures forall k :: 0 <= k < attempts - 1 ==>
                conflictOn(k) && FoundMatch(After(old(rides), interfere, 0, k), FromRequest(req, old(|passengers|)), dist)
      ensures res.Failure? <==> req.luggageCount > DefaultMaxLuggage
      ensures res.Failure? ==> res.error == CapacityViolation && attempts == 1 &&
                                rides == old(rides) && passengers == old(passengers)
      ensures var matched := MatchOf(seen, FromRequest(req, old(|passengers|)), dist);
              (matched.Some? && conflictOn(attempts - 1) ==> attempts == MaxRetryAttempts) &&
              Served(seen, old(passengers), req, demand, dist, matched, matched.Some? && conflictOn(attempts - 1),
                     interfere(seen, attempts - 1), res)
    {
      ghost var before := rides;
      ghost var c := FromRequest(req, |passengers|);
      res, attempts, seen := RequestRideWithRetry(req, demand, dist, conflictOn, interfere, 0);
      assert Retried(before, old(passengers), req, demand, dist, conflictOn, interfere, 0, attempts, seen, res);
      if MatchOf(seen, c, dist).Some? {
        MatchFits(seen, c, dist);
      }
      if attempts > 1 {
        assert FoundMatch(After(before, interfere, 0, 0), c, dist);
        MatchFits(before, c, dist);
      }
    }

    /**
     * The state after cancelling passenger pid: its ride's row replaced by
     * the cancelled row and its ride reference cleared.
     */
    ghost predicate CancelledFrom(before: seq<RideRecord>, beforePassengers: seq<Passenger>, pid: PassengerId, demand: nat)
      reads this
    {
      pid < |beforePassengers| && beforePassengers[pid].ride.Some? &&
      var rid := beforePassengers[pid].ride.value;
      rid < |before| && before[rid].totalDistance.Some? &&
      rides == before[rid := CancelledRow(before[rid], pid, demand)] &&
      passengers == beforePassengers[pid := beforePassengers[pid].(ride := None)]
    }

    /**
     * cancelRide: NotFound for an unknown passenger, InvalidState for one
     * without a ride. A save rejected by the version check (`conflict`) is not
     * retried: it fails with Conflict and the transaction's writes are rolled
     * back.
     */
    method CancelRide(pid: PassengerId, demand: nat, conflict: bool) returns (res: Result<(), Error>)
      requires Valid()
      modifies this
      ensures Valid()
      ensures pid >= old(|passengers|) ==> res == Failure(NotFound)
      ensures pid < old(|passengers|) && old(passengers[pid].ride).None? ==> res == Failure(InvalidState)
      ensures res == Failure(Conflict) <==> pid < old(|passengers|) && old(passengers[pid].ride).Some? && conflict
      ensures res.Failure? ==> rides == old(rides) && passengers == old(passengers)
      ensures res.Success? <==> pid < old(|passengers|) && old(passengers[pid].ride).Some? && !conflict
      ensures res.Success? ==> CancelledFrom(old(rides), old(passengers), pid, demand)
    {
      if pid >= |passengers| {
        return Failure(NotFound);
      }
      var passenger := passengers[pid];
      if passenger.ride.None? {
        return Failure(InvalidState);
      }
      var rid := passenger.ride.value;
      var stored := rides[rid];
      assert Stored(stored, rid);
      var ride := CancelEntity(stored, pid, demand);
      if conflict {
        return Failure(Conflict);
      }
      CancelledRowStored(stored, pid, demand);
      TableUpdate(rides, rid, ride);
      passengers := passengers[pid := passenger.(ride := None)];
      rides := rides[rid := ride];
      res := Success(());
    }

    /** getRideDetails: NotFound for an unknown id, otherwise the ride's members in order and its counters. */
    function GetRideDetails(rideId: RideId): (r: Result<RideDetails, Error>)
      reads this
      ensures r.Failure? <==> rideId >= |rides|
      ensures r.Failure? ==> r.error == NotFound
      ensures r.Success? ==>
                var ride := rides[rideId];
                r.value.status == ride.status &&
                r.value.passengers == Summaries(ride.passengers) &&
                r.value.availableSeats == ride.availableSeats &&
                r.value.availableLuggage == ride.availableLuggage &&
                r.value.totalDistance == ride.totalDistance && r.value.finalFare == ride.finalFare
      ensures r.Success? && Valid() ==>
                r.value.rideId == rideId &&
                r.value.availableSeats + |r.value.passengers| == DefaultMaxSeats &&
                r.value.availableLuggage + LuggageSum(rides[rideId].passengers) == DefaultMaxLuggage
    {
      if rideId >= |rides| then Failure(NotFound)
      else
        var ride := rides[rideId];
        Success(RideDetails(ride.id, ride.status, Summaries(ride.passengers), ride.availableSeats,
                            ride.availableLuggage, ride.totalDistance, ride.finalFare))
    }
  }
}
