# Airport ride pooling: a Dafny model of the matching, pricing and booking core

The service pools airport passengers into shared rides. A ride request becomes a
passenger. The matching engine searches the pending rides that still have a free seat and picks the
one with the smallest detour among those that:

- have room for the passenger's seat and luggage,
- have a primary passenger picking up within 5 km,
- keep every member within their detour tolerance.

The passenger then joins that ride, or a new ride is created for them. Fares are a base price plus a
per-km rate, scaled by a demand surge and reduced by a sharing discount. A save can hit an
optimistic-locking conflict: the request is then retried from scratch, at most three times in all,
and after the third conflict it falls back to a new ride. A cancellation removes the passenger, and
the ride is either cancelled (when empty) or re-priced.

Modules, one per source file of the core:

- `Geo` (`geo.dfy`): locations, the distance metric as a parameter, travel time.
- `Passengers` (`passenger.dfy`): the passenger value with its null-location fallbacks, and the
  ride request it is built from.
- `Rides` (`ride.dfy`): the ride aggregate as a class `Ride` with a capacity invariant `Valid()`.
  `RideRecord` is its persisted state (one row of the rides table).
- `Matching` (`matching.dfy`): the greedy minimum-detour search, as a loop proved against the
  function `BestIn`, which describes the loop after each prefix of the pool.
- `Pricing` (`pricing.dfy`): fare, surge, discount, savings and surge info, over `real`.
- `RideServices` (`ride_service.dfy`): the request orchestrator, as a class `RideService` over the
  two repositories. Each repository is held as a sequence indexed by id.
- `Wrappers` (`wrappers.dfy`): `Option` and `Result`.

How the service's state is modelled:

- **Loading and saving rides.** A request loads the ride entity it changes from its row
  (`Ride.Load`), changes it with `AddPassenger`/`RemovePassenger` and field updates, and saves its
  `Record()` back under its id.
- **Save conflicts.** Whether the join save of attempt k is rejected by the version check is the
  oracle `conflictOn(k)`. A rejected save means another writer changed the ride first. The
  attempt's own writes are discarded, and the rides table becomes `interfere(table, k)`, the
  table that writer left. That is any valid table that still holds every ride (`Interference`).
  The next attempt matches against it from scratch. The cancel path's ride save can be rejected
  too (`conflict`). It is not retried: the request fails with `Conflict` and its writes are rolled
  back.
- **Repository reads.** The pending-ride count that surge pricing reads is a snapshot parameter
  `demand`. Distances come from a parameter `dist`.
- **Retry.** `requestRideWithRetry` is a recursion on the attempt number in the source, and it stays
  one here, with `MaxRetryAttempts - attemptNumber` as its termination measure.

The store invariant `RideService.Valid()` holds that every row is a valid ride stored under its own
id with located members. A pending ride holds only its creator, a matched ride one or two members,
and a cancelled ride none. A joined ride turns MATCHED and leaves the pool, so no stored ride ever
holds more than two passengers (`AtMostTwoPassengers`).

## Model

| member | source | states |
|---|---|---|
| Geo.TravelTime | src/main/java/com/airport/ridepooling/model/Location.java:53-60 | travel time at the default 30 km/h is twice the distance in minutes |
| Passengers.NewPassenger | src/main/java/com/airport/ridepooling/model/Passenger.java:49-53 | a new passenger has luggage 1, tolerance 15 minutes, no locations and no ride |
| Passengers.DirectDistance | src/main/java/com/airport/ridepooling/model/Passenger.java:78-83 | 0 when either location is missing, otherwise the pickup-to-dropoff distance |
| Passengers.DirectTravelTime | src/main/java/com/airport/ridepooling/model/Passenger.java:88-93 | always twice the direct distance, including the 0 of the missing-location fallback |
| Passengers.FromRequest | src/main/java/com/airport/ridepooling/service/RideService.java:255-264 | the new passenger is located, has the given id, no ride, and carries exactly the request (ToRequest gives it back) |
| Passengers.ToRequest | src/main/java/com/airport/ridepooling/service/RideService.java:255-264 | a passenger carries a request exactly when both its locations are present |
| Rides.Without | src/main/java/com/airport/ridepooling/model/Ride.java:107 | the list without index i: one shorter, with the elements before i kept and those after shifted down |
| Rides.FirstIndexOf | src/main/java/com/airport/ridepooling/model/Ride.java:107 | None exactly when no member has the id; otherwise the first index holding it |
| Rides.LuggageSumWithout | src/main/java/com/airport/ridepooling/model/Ride.java:106-112 | removing a member lowers the luggage total by exactly that member's luggage |
| Rides.AddThenRemoveRestores | src/main/java/com/airport/ridepooling/model/Ride.java:90-112 | appending a passenger with a new id and then removing that id gives back the original list and luggage total |
| Rides.Ride.constructor | src/main/java/com/airport/ridepooling/model/Ride.java:33-55 | a new ride is PENDING, empty, with 4 of 4 seats and 6 of 6 luggage free, unpriced, and satisfies the capacity invariant |
| Rides.Ride.Load | src/main/java/com/airport/ridepooling/model/Ride.java:25-55 | the loaded entity's state is the stored row, and a valid row gives a valid entity |
| Rides.Ride.CanAccommodateMeansRoom | src/main/java/com/airport/ridepooling/model/Ride.java:80-83 | under the invariant, canAccommodate (`RideRecord.CanAccommodate`, and `Ride.CanAccommodate` on the entity) holds iff the members plus p fit within max seats and max luggage |
| Rides.Ride.AddPassenger | src/main/java/com/airport/ridepooling/model/Ride.java:90-99 | succeeds iff canAccommodate held; then p is appended with its back-reference set, one seat and p's luggage are taken; otherwise nothing changes; the invariant is preserved |
| Rides.Ride.RemovePassenger | src/main/java/com/airport/ridepooling/model/Ride.java:106-112 | a non-member changes nothing; a member's first occurrence is removed, returned with its back-reference cleared, and its seat and luggage are given back; the invariant is preserved |
| Rides.Ride.IsFullMeansAllSeatsTaken | src/main/java/com/airport/ridepooling/model/Ride.java:117-119 | under the invariant, isFull (`Ride.IsFull`, no free seat) holds iff the member count equals the seat count |
| Rides.Ride.OccupancyUnderInvariant | src/main/java/com/airport/ridepooling/model/Ride.java:124-126 | under the invariant the occupancy rate (`Ride.OccupancyRate`) is the member share of the seats, in [0, 100], 0 when empty and 100 when full |
| Rides.Ride.PrimaryPassenger | src/main/java/com/airport/ridepooling/model/Ride.java:131-133 | the entity's primary passenger is its row's: None exactly when the ride is empty, otherwise the first member |
| Rides.RideRecord.Primary | src/main/java/com/airport/ridepooling/model/Ride.java:131-133 | the primary passenger the matching checks measure from: None exactly when the ride is empty, otherwise the first member |
| Matching.PooledRoute | src/main/java/com/airport/ridepooling/service/MatchingService.java:148-164 | the pooled route is one of the two visiting orders and no longer than either |
| Matching.DetourCost | src/main/java/com/airport/ridepooling/service/MatchingService.java:120-142 | 0 for an empty ride; otherwise the cost plus both direct trips is the shorter of the two visiting orders |
| Matching.DetourCostOfPrimary | src/main/java/com/airport/ridepooling/service/MatchingService.java:120-142 | the detour cost can be negative: a candidate with the primary's own trip has detour cost minus that trip's length |
| Matching.OnlyPrimaryMeasured | src/main/java/com/airport/ridepooling/service/MatchingService.java:101-142 | the radius check (`WithinSearchRadius`) and the detour cost look at the primary passenger only: members after the first never change either |
| Matching.CandidateDetourMinutes | src/main/java/com/airport/ridepooling/service/MatchingService.java:188-191 | the candidate-side detour minutes are undefined (NaN in the source, None here) exactly when the candidate's direct distance is 0 |
| Matching.ToleranceFormulasAgree | src/main/java/com/airport/ridepooling/service/MatchingService.java:177-191 | with a non-zero direct distance, the candidate-side minutes equal the member-side formula detour/30x60 |
| Matching.PassesMeans | src/main/java/com/airport/ridepooling/service/MatchingService.java:56-77 | a ride passes (`Passes`) iff it has a free seat and room for the luggage, its primary picks up within 5 km, and the detour time is within every member's tolerance and, for a non-zero direct distance, the candidate's |
| Matching.DetourToleranceMonotone | src/main/java/com/airport/ridepooling/service/MatchingService.java:170-199 | a ride that exceeds the detour tolerance (`ExceedsDetourTolerance`) for some detour exceeds it for every longer detour |
| Matching.EmptyRidePasses | src/main/java/com/airport/ridepooling/service/MatchingService.java:101-123 | a ride with no members and room passes both the radius and the tolerance checks, at detour cost 0 |
| Matching.BestIn | src/main/java/com/airport/ridepooling/service/MatchingService.java:56-85 | the best index after n iterations is one of the first n |
| Matching.BestInIsBest | src/main/java/com/airport/ridepooling/service/MatchingService.java:42-95 | the choice among the first n rides is none iff none passes; otherwise a passing ride whose detour cost is at most that of every passing ride and strictly below that of every earlier passing ride (ties keep the first) |
| Matching.FindBestMatch | src/main/java/com/airport/ridepooling/service/MatchingService.java:42-95 | returns None iff no ride of the pool passes every check (so an empty pool gives None); otherwise a ride of the pool that passes every check with the least detour cost, the earliest such ride; nothing is modified |
| Pricing.SurgeMultiplier | src/main/java/com/airport/ridepooling/service/PricingService.java:69-79 | the multiplier lies in [1.0, 1.5], is 1.5 from 100 active rides on, and exceeds 1.0 iff any ride is active |
| Pricing.SurgeMultiplierMonotone | src/main/java/com/airport/ridepooling/service/PricingService.java:69-79 | the multiplier is non-decreasing in the active-ride count |
| Pricing.SharingDiscount | src/main/java/com/airport/ridepooling/service/PricingService.java:85-94 | the discount is 0 for one passenger or fewer, 0.25 per additional passenger up to 4, capped at 0.75, and never outside [0, 0.75] |
| Pricing.SharingDiscountMonotone | src/main/java/com/airport/ridepooling/service/PricingService.java:85-94 | the discount is non-decreasing in the passenger count |
| Pricing.RoundToCents | src/main/java/com/airport/ridepooling/service/PricingService.java:57 | half-up rounding gives a whole number of cents within 0.005 of the input |
| Pricing.RoundToCentsMonotone | src/main/java/com/airport/ridepooling/service/PricingService.java:57 | rounding to cents preserves order |
| Pricing.Fare | src/main/java/com/airport/ridepooling/service/PricingService.java:39-63 | the fare is within 0.005 of (5 + 2 x distance) x surge x (1 - discount) |
| Pricing.UnroundedFareBounds | src/main/java/com/airport/ridepooling/service/PricingService.java:41-54 | for a non-negative distance the unrounded fare (`UnroundedFare`) lies between 0.25 and 1.5 times the base price 5 + 2 x distance |
| Pricing.UnroundedFareNonIncreasing | src/main/java/com/airport/ridepooling/service/PricingService.java:41-54 | for a non-negative distance the unrounded fare never rises with the passenger count |
| Pricing.FareNonIncreasing | src/main/java/com/airport/ridepooling/service/PricingService.java:39-63 | for a non-negative distance the rounded fare never rises with the passenger count |
| Pricing.PooledFareBelowSolo | src/main/java/com/airport/ridepooling/service/PricingService.java:39-63 | with two or more passengers the fare is strictly below the solo fare |
| Pricing.SavingsPercentage | src/main/java/com/airport/ridepooling/service/PricingService.java:99-104 | 0 when the solo price is 0, otherwise the percentage whose share of the solo price is solo minus pooled |
| Pricing.PoolingSaves | src/main/java/com/airport/ridepooling/service/PricingService.java:99-104 | with two or more passengers and a non-negative distance, the savings percentage is positive |
| Pricing.CurrentSurgeInfo | src/main/java/com/airport/ridepooling/service/PricingService.java:109-115 | reports the active count, a multiplier in [1.0, 1.5], and is surging iff the count is positive |
| RideServices.Summaries | src/main/java/com/airport/ridepooling/service/RideService.java:193-201 | one summary per member, in list order |
| RideServices.PoolOf | src/main/java/com/airport/ridepooling/repository/RideRepository.java:29-30 | a row is in the pool iff it is in the table, PENDING, and has a free seat |
| RideServices.PoolIsStored | src/main/java/com/airport/ridepooling/repository/RideRepository.java:29-30 | a pooled ride is the row of its own id, pending, with only its creator and three seats free |
| RideServices.MatchFits | src/main/java/com/airport/ridepooling/service/RideService.java:72-76 | the ride the matching engine picks is in the pool and can accommodate the passenger, so the passenger's luggage fits a new ride too |
| RideServices.AfterTable | src/main/java/com/airport/ridepooling/service/RideService.java:82-90 | the tables the winning writers leave across retries are valid and still hold every ride |
| RideServices.RemoveMemberValid | src/main/java/com/airport/ridepooling/service/RideService.java:226-227 | removing a member from a row (`RemoveMember`) keeps the capacity invariant and located members, and the list shrinks iff pid was a member |
| RideServices.SoloRowStored | src/main/java/com/airport/ridepooling/service/RideService.java:149-164 | the new ride of a passenger whose luggage fits (`SoloRow`) is a valid stored ride with a free seat |
| RideServices.JoinedRowStored | src/main/java/com/airport/ridepooling/service/RideService.java:103-121 | a joined pooled ride (`JoinedRow`) stays a valid stored ride, holds two members, and is MATCHED, so it leaves the pool |
| RideServices.JoinSaves | src/main/java/com/airport/ridepooling/service/RideService.java:112-126 | for a metric with no negative distances, the joiner's pooled fare is below their solo fare and the reported savings are positive |
| RideServices.CancelledRowStored | src/main/java/com/airport/ridepooling/service/RideService.java:226-247 | the cancelled or re-priced row (`CancelledRow`) of a stored ride is stored |
| RideServices.JoinThenCancelRestores | src/main/java/com/airport/ridepooling/service/RideService.java:103-247 | cancelling (226-247) the passenger who just joined (103-121) restores the ride's members, seats and luggage; the ride stays MATCHED |
| RideServices.CreateRideEntity | src/main/java/com/airport/ridepooling/service/RideService.java:152-162 | the new entity's row is the solo row, and it cannot be built exactly when the luggage exceeds 6 (the add throws) |
| RideServices.JoinEntity | src/main/java/com/airport/ridepooling/service/RideService.java:108-118 | the loaded entity after the add, the MATCHED status and the pooled fare is the joined row; None exactly when the ride cannot take p |
| RideServices.CancelEntity | src/main/java/com/airport/ridepooling/service/RideService.java:227-243 | the loaded entity after the removal and the cancel-or-reprice step is the cancelled row |
| RideServices.RideService.AtMostTwoPassengers | src/main/java/com/airport/ridepooling/service/RideService.java:103-109 | in a valid store every ride holds at most two passengers, and a pending ride has three free seats |
| RideServices.RideService.CreateNewRide | src/main/java/com/airport/ridepooling/service/RideService.java:149-180 | CapacityViolation with nothing stored iff the luggage exceeds 6; otherwise a PENDING ride holding exactly p is appended, with the direct distance, base fare = final fare = solo fare; p is registered on it; the response is unpooled, has 1 passenger and savings 0 |
| RideServices.RideService.AddPassengerToExistingRide | src/main/java/com/airport/ridepooling/service/RideService.java:103-144 | CapacityViolation iff the ride cannot take p; a rejected save leaves the store unchanged; otherwise the row becomes MATCHED with p appended and re-priced for p's distance and the member count, totalDistance untouched, p registered, and the response pooled with the member count, the seats left and the savings |
| RideServices.RideService.AttemptRequest | src/main/java/com/airport/ridepooling/service/RideService.java:63-90 | one attempt: a fresh match search on the current table; no match creates a new ride; a match joins it unless the save is rejected, which discards the attempt's writes and leaves the table the winning writer left |
| RideServices.RideService.RetriedAtOnce | src/main/java/com/airport/ridepooling/service/RideService.java:69-80 | an attempt that is served without a rejected save is the last one |
| RideServices.RideService.RetriedAfterRace | src/main/java/com/airport/ridepooling/service/RideService.java:82-90 | an attempt that matched and lost the race, followed by the retries from the table the race left, is one more attempt that found a match and conflicted |
| RideServices.RideService.RetriedFallback | src/main/java/com/airport/ridepooling/service/RideService.java:91-96 | a conflict on the third attempt ends the request with a new ride in the table the winning writer left |
| RideServices.RideService.RequestRideWithRetry | src/main/java/com/airport/ridepooling/service/RideService.java:63-98 | at most 3 attempts in all; every attempt before the last found a match and had its save rejected, and each retry matches against the table the winning writer left; the last attempt is served from the table it saw: no match creates a new ride, a match with an accepted save is joined, and a conflict on the third attempt falls back to a new ride |
| RideServices.RideService.RequestRide | src/main/java/com/airport/ridepooling/service/RideService.java:55-58 | as RequestRideWithRetry from attempt 0, spelled out; the request fails iff its luggage exceeds 6, and then with CapacityViolation after a single attempt that stored nothing |
| RideServices.RideService.CancelRide | src/main/java/com/airport/ridepooling/service/RideService.java:214-250 | NotFound for an unknown passenger and InvalidState for one without a ride, both before any change; Conflict with everything rolled back iff the save is rejected; otherwise the passenger is removed from the ride, which becomes CANCELLED when empty or is re-priced over its total distance for the remaining members, and the passenger's ride is cleared |
| RideServices.RideService.GetRideDetails | src/main/java/com/airport/ridepooling/service/RideService.java:185-208 | NotFound iff the id is unknown; otherwise the ride's status, its members in list order, seats, luggage, total distance and final fare, whose counters account for the members |

## Left out

- Haversine distance (`Location.distanceTo`) uses trigonometry on doubles. It is the parameter
  `dist`, an arbitrary function to `real`. The `Double.MAX_VALUE` result for a null target is never
  reached, because every location the core measures is present.
- IEEE-754 doubles are `real`: no rounding error, overflow or infinity. The one NaN the core can
  produce is modelled explicitly: a candidate whose direct distance is 0 never exceeds its own
  tolerance.
- Matching.FindBestMatch: the source starts from `Double.MAX_VALUE` as the best cost. The model
  starts from "no best yet", which differs only for a detour cost of `Double.MAX_VALUE` or more.
- Real concurrency is left out: threads and JPA `@Version` counters. A rejected save is an oracle
  outcome on the join path and on the cancel path, the two paths that update an existing ride row.
  Inserting a new ride cannot fail the version check.
- The passenger save next to each ride save is not a separate conflict point. On the cancel path
  its rollback is part of the `Conflict` outcome.
- A concurrent writer changes only the rides table (`interfere`). Passengers it registers are not
  added to the passenger table.
- Spring Data repositories are sequences indexed by id, and generated ids are the next free index.
  `countByStatus(PENDING)` is the snapshot `demand`, fixed for the whole request.
- `findAvailableRidesByStatus` is modelled as `PoolOf`, which returns the rows in id order. The
  query has no ORDER BY, so the order the source sees is the database's.
- Pricing.CurrentSurgeInfo: the source reads the pending count twice, once for `activeRides` and
  once inside `calculateSurgeMultiplier`. Under concurrent writes the two reads can differ, so
  `activeRides` and `isSurging` can disagree. The model reads one snapshot for both.
- Logging, `@PrePersist` timestamps (`createdAt`, `requestedAt`, `scheduledTime`), the response
  message strings and the unused `DETOUR_TOLERANCE_PERCENTAGE` constant are left out.
- HTTP routing, exception-to-status mapping and application startup are left out.
- Request validation (`@NotNull` locations, `@Min` bounds) is taken as given. Requests carry
  present locations and a non-negative luggage count.
- Lombok setters are not exposed. Ride fields change only through `AddPassenger`, `RemovePassenger`
  and the service's status and fare updates, which is what keeps the capacity invariant.
- Rides.Ride.RemovePassenger: members are identified by passenger id, the identity the
  persistence layer gives them. The source compares with `equals`.
- Rides.Ride.AddPassenger: an `IllegalStateException` is a `false` result that changes nothing. The
  service turns it into the `CapacityViolation` error.
- RideServices.CancelledRow: requires a total distance, which every stored ride has. The source
  would throw a NullPointerException when re-pricing a ride without one.
- Consistency between a passenger's ride reference in the passenger table and that ride's member
  list is not part of the store invariant. Cancelling a passenger whose ride no longer lists them
  leaves that ride's members as they were, as `removePassenger` does for a non-member.
