/**
 * The ride aggregate (model/Ride.java): the ordered passenger list and the
 * seat and luggage counters that addPassenger and removePassenger keep in step.
 */
module Rides {
  import opened Wrappers
  import opened Passengers

  datatype RideStatus = Pending | Matched | InProgress | Completed | Cancelled

  const DefaultMaxSeats: int := 4
  const DefaultMaxLuggage: int := 6

  /** Total luggage of a passenger list. */
  function LuggageSum(ps: seq<Passenger>): nat
  {
    if ps == [] then 0 else LuggageSum(ps[..|ps| - 1]) + ps[|ps| - 1].luggageCount
  }

  lemma {:induction false} LuggageSumConcat(a: seq<Passenger>, b: seq<Passenger>)
    ensures LuggageSum(a + b) == LuggageSum(a) + LuggageSum(b)
  {
    if b != [] {
      assert (a + b)[..|a + b| - 1] == a + b[..|b| - 1];
      LuggageSumConcat(a, b[..|b| - 1]);
    } else {
      assert a + b == a;
    }
  }

  /** The list without its element at index i. */
  function Without(ps: seq<Passenger>, i: nat): (r: seq<Passenger>)
    requires i < |ps|
    ensures |r| == |ps| - 1
    ensures forall j :: 0 <= j < i ==> r[j] == ps[j]
    ensures forall j :: i <= j < |r| ==> r[j] == ps[j + 1]
  {
    ps[..i] + ps[i + 1..]
  }

  lemma {:induction false} LuggageSumWithout(ps: seq<Passenger>, i: nat)
    requires i < |ps|
    ensures LuggageSum(Without(ps, i)) + ps[i].luggageCount == LuggageSum(ps)
  {
    var n := |ps|;
    var w := Without(ps, i);
    if i == n - 1 {
      assert w == ps[..n - 1];
    } else {
      var front := ps[..n - 1];
      assert w[..|w| - 1] == Without(front, i);
      assert w[|w| - 1] == ps[n - 1];
      LuggageSumWithout(front, i);
    }
  }

  /** Index of the first passenger with the given id (java.util.List.remove removes the first occurrence). */
  function FirstIndexOf(ps: seq<Passenger>, pid: PassengerId): (k: Option<nat>)
    ensures k.None? <==> forall j :: 0 <= j < |ps| ==> ps[j].id != pid
    ensures k.Some? ==> k.value < |ps| && ps[k.value].id == pid
    ensures k.Some? ==> forall j :: 0 <= j < k.value ==> ps[j].id != pid
  {
    if ps == [] then None
    else if ps[0].id == pid then Some(0)
    else match FirstIndexOf(ps[1..], pid)
      case None => None
      case Some(k) => Some(k + 1)
  }

  /**
   * Appending a passenger whose id is new to the list and then removing that
   * id gives back the original list, and frees exactly the luggage it took.
   */
  lemma {:induction false} AddThenRemoveRestores(ps: seq<Passenger>, p: Passenger, rid: RideId)
    requires forall j :: 0 <= j < |ps| ==> ps[j].id != p.id
    ensures var added := ps + [p.(ride := Some(rid))];
            FirstIndexOf(added, p.id) == Some(|ps|) &&
            Without(added, |ps|) == ps &&
            added[|ps|].luggageCount == p.luggageCount &&
            LuggageSum(added) == LuggageSum(ps) + p.luggageCount
  {
    var added := ps + [p.(ride := Some(rid))];
    if ps != [] {
      assert added[1..] == ps[1..] + [p.(ride := Some(rid))];
      AddThenRemoveRestores(ps[1..], p, rid);
    }
    assert Without(added, |ps|) == ps;
    assert added[..|added| - 1] == ps;
  }

  /**
   * The persisted state of a ride: one row of the rides table, and what the
   * matching checks read of a ride.
   */
  datatype RideRecord = RideRecord(
    id: RideId,
    status: RideStatus,
    passengers: seq<Passenger>,
    maxSeats: int,
    maxLuggage: int,
    availableSeats: int,
    availableLuggage: int,
    totalDistance: Option<real>,
    baseFare: Option<real>,
    finalFare: Option<real>)
  {
    /**
     * Capacity invariant: the counters account exactly for the members, never
     * go negative, and every member's back-reference names this ride.
     */
    ghost predicate Valid()
    {
      0 <= availableSeats && 0 <= availableLuggage &&
      availableSeats + |passengers| == maxSeats &&
      availableLuggage + LuggageSum(passengers) == maxLuggage &&
      forall j :: 0 <= j < |passengers| ==> passengers[j].ride == Some(id)
    }

    /** At least one free seat and enough free luggage space for p. */
    predicate CanAccommodate(p: Passenger)
    {
      availableSeats >= 1 && availableLuggage >= p.luggageCount
    }

    /** The first member, who anchors the pickup-radius check and the detour cost. */
    function Primary(): (r: Option<Passenger>)
      ensures r.None? <==> passengers == []
      ensures r.Some? ==> r.value == passengers[0]
    {
      if passengers == [] then None else Some(passengers[0])
    }
  }

  class Ride {
    const id: RideId
    var status: RideStatus
    var passengers: seq<Passenger>
    var maxSeats: int
    var maxLuggage: int
    var availableSeats: int
    var availableLuggage: int
    var totalDistance: Option<real>
    var baseFare: Option<real>
    var finalFare: Option<real>

    /** The ride's current state as the store would persist it. */
    function Record(): RideRecord
      reads this
    {
      RideRecord(id, status, passengers, maxSeats, maxLuggage, availableSeats, availableLuggage,
                 totalDistance, baseFare, finalFare)
    }

    ghost predicate Valid()
      reads this
    {
      Record().Valid()
    }

    /** A new ride: pending, empty, with the default capacity and no pricing yet. */
    constructor (id: RideId)
      ensures Valid() && this.id == id
      ensures status == Pending && passengers == []
      ensures maxSeats == availableSeats == DefaultMaxSeats
      ensures maxLuggage == availableLuggage == DefaultMaxLuggage
      ensures totalDistance == None && baseFare == None && finalFare == None
    {
      this.id := id;
      status := Pending;
      passengers := [];
      maxSeats, availableSeats := DefaultMaxSeats, DefaultMaxSeats;
      maxLuggage, availableLuggage := DefaultMaxLuggage, DefaultMaxLuggage;
      totalDistance, baseFare, finalFare := None, None, None;
    }

    /** The entity a request loads from a stored row. */
    constructor Load(stored: RideRecord)
      ensures Record() == stored
      ensures stored.Valid() ==> Valid()
    {
      id := stored.id;
      status := stored.status;
      passengers := stored.passengers;
      maxSeats, maxLuggage := stored.maxSeats, stored.maxLuggage;
      availableSeats, availableLuggage := stored.availableSeats, stored.availableLuggage;
      totalDistance, baseFare, finalFare := stored.totalDistance, stored.baseFare, stored.finalFare;
    }

    predicate CanAccommodate(p: Passenger)
      reads this
    {
      Record().CanAccommodate(p)
    }

    /** Under the invariant, accommodating p means the members plus p still fit. */
    lemma CanAccommodateMeansRoom(p: Passenger)
      requires Valid()
      ensures CanAccommodate(p) <==>
                |passengers| + 1 <= maxSeats && LuggageSum(passengers) + p.luggageCount <= maxLuggage
    {
    }

    /**
     * Appends p (with its back-reference set to this ride) and takes one seat
     * and its luggage; refuses (ok == false) and changes nothing when p does not fit.
     */
    method AddPassenger(p: Passenger) returns (ok: bool)
      modifies this`passengers, this`availableSeats, this`availableLuggage
      ensures ok == old(CanAccommodate(p))
      ensures ok ==> passengers == old(passengers) + [p.(ride := Some(id))]
      ensures ok ==> availableSeats == old(availableSeats) - 1
      ensures ok ==> availableLuggage == old(availableLuggage) - p.luggageCount
      ensures !ok ==> passengers == old(passengers) && availableSeats == old(availableSeats)
      ensures !ok ==> availableLuggage == old(availableLuggage)
      ensures old(Valid()) ==> Valid()
    {
      if !CanAccommodate(p) {
        return false;
      }
      LuggageSumConcat(passengers, [p.(ride := Some(id))]);
      assert LuggageSum([p.(ride := Some(id))]) == p.luggageCount by {
        assert [p.(ride := Some(id))][..0] == [];
      }
      passengers := passengers + [p.(ride := Some(id))];
      availableSeats := availableSeats - 1;
      availableLuggage := availableLuggage - p.luggageCount;
      ok := true;
    }

    /**
     * Removes the first member with id pid, returning it with its
     * back-reference cleared, and gives back its seat and luggage; a
     * non-member changes nothing.
     */
    method RemovePassenger(pid: PassengerId) returns (removed: Option<Passenger>)
      modifies this`passengers, this`availableSeats, this`availableLuggage
      ensures FirstIndexOf(old(passengers), pid).None? ==>
                removed == None && passengers == old(passengers) &&
                availableSeats == old(availableSeats) && availableLuggage == old(availableLuggage)
      ensures FirstIndexOf(old(passengers), pid).Some? ==>
                var k := FirstIndexOf(old(passengers), pid).value;
                removed == Some(old(passengers)[k].(ride := None)) &&
                passengers == Without(old(passengers), k) &&
                availableSeats == old(availableSeats) + 1 &&
                availableLuggage == old(availableLuggage) + old(passengers)[k].luggageCount
      ensures old(Valid()) ==> Valid()
    {
      var k := FirstIndexOf(passengers, pid);
      if k.None? {
        return None;
      }
      var member := passengers[k.value];
      LuggageSumWithout(passengers, k.value);
      passengers := Without(passengers, k.value);
      availableSeats := availableSeats + 1;
      availableLuggage := availableLuggage + member.luggageCount;
      removed := Some(member.(ride := None));
    }

    predicate IsFull()
      reads this
    {
      availableSeats == 0
    }

    /** Under the invariant, a ride is full exactly when every seat holds a member. */
    lemma IsFullMeansAllSeatsTaken()
      requires Valid()
      ensures IsFull() <==> |passengers| == maxSeats
    {
    }

    /** Percentage of seats taken. */
    function OccupancyRate(): real
      reads this
      requires maxSeats != 0
    {
      (maxSeats - availableSeats) as real / maxSeats as real * 100.0
    }

    /** Under the invariant the rate is the member share of the seats: 0 when empty, 100 when full. */
    lemma OccupancyUnderInvariant()
      requires Valid() && maxSeats != 0
      ensures OccupancyRate() == |passengers| as real * 100.0 / maxSeats as real
      ensures 0.0 <= OccupancyRate() <= 100.0
      ensures passengers == [] ==> OccupancyRate() == 0.0
      ensures IsFull() ==> OccupancyRate() == 100.0
    {
      var m := maxSeats as real;
      assert (maxSeats - availableSeats) as real == |passengers| as real;
      assert |passengers| as real <= m;
      assert |passengers| as real / m <= 1.0;
    }

    /** The first member, who anchors the pickup-radius check. */
    function PrimaryPassenger(): (r: Option<Passenger>)
      reads this
      ensures r.None? <==> passengers == []
      ensures r.Some? ==> r.value == passengers[0]
    {
      Record().Primary()
    }
  }
}
