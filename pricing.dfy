/**
 * The pricing engine (service/PricingService.java). The count of pending
 * rides that the service reads from the ride repository is a parameter.
 */
module Pricing {

  const BaseFare: real := 5.0
  const RatePerKm: real := 2.0
  const SharingDiscountRate: real := 0.25
  const MaxSharingDiscount: real := 0.75
  const MaxSurgeFactor: real := 0.5
  const SurgeThreshold: nat := 100

  function Min(a: real, b: real): (m: real)
    ensures m <= a && m <= b && (m == a || m == b)
  {
    if a <= b then a else b
  }

  /** 1 + min(active/100, 1) x 0.5: a linear ramp from 1.0 that saturates at 1.5. */
  function SurgeMultiplier(activeRides: nat): (m: real)
    ensures 1.0 <= m <= 1.0 + MaxSurgeFactor
    ensures activeRides >= SurgeThreshold ==> m == 1.0 + MaxSurgeFactor
    ensures m > 1.0 <==> activeRides > 0
  {
    1.0 + Min(activeRides as real / SurgeThreshold as real, 1.0) * MaxSurgeFactor
  }

  lemma SurgeMultiplierMonotone(a: nat, b: nat)
    requires a <= b
    ensures SurgeMultiplier(a) <= SurgeMultiplier(b)
  {
    assert a as real / 100.0 <= b as real / 100.0;
  }

  /** 0 for a solo ride, otherwise 25% per additional passenger, capped at 75%. */
  function SharingDiscount(passengerCount: int): (d: real)
    ensures 0.0 <= d <= MaxSharingDiscount
    ensures passengerCount <= 1 ==> d == 0.0
    ensures passengerCount >= 4 ==> d == MaxSharingDiscount
    ensures 1 <= passengerCount <= 4 ==> d == SharingDiscountRate * (passengerCount - 1) as real
  {
    if passengerCount <= 1 then 0.0
    else Min(SharingDiscountRate * (passengerCount - 1) as real, MaxSharingDiscount)
  }

  lemma SharingDiscountMonotone(a: int, b: int)
    requires a <= b
    ensures SharingDiscount(a) <= SharingDiscount(b)
  {
  }

  /** (5 + 2 x distance) x surge x (1 - discount), before rounding. */
  function UnroundedFare(distance: real, passengerCount: int, activeRides: nat): real
  {
    (BaseFare + distance * RatePerKm) * SurgeMultiplier(activeRides) * (1.0 - SharingDiscount(passengerCount))
  }

  /**
   * For a non-negative distance the unrounded fare lies between a quarter of
   * the base price (full discount, no surge) and one and a half times it
   * (no discount, full surge).
   */
  lemma UnroundedFareBounds(distance: real, passengerCount: int, activeRides: nat)
    requires distance >= 0.0
    ensures var basePrice := BaseFare + distance * RatePerKm;
            basePrice * 0.25 <= UnroundedFare(distance, passengerCount, activeRides) <= basePrice * 1.5
  {
    var basePrice := BaseFare + distance * RatePerKm;
    var surged := basePrice * SurgeMultiplier(activeRides);
    var keep := 1.0 - SharingDiscount(passengerCount);
    assert basePrice <= surged <= basePrice * 1.5;
    assert surged * 0.25 <= surged * keep <= surged;
  }

  /** Math.round(x * 100) / 100: half-up rounding to whole cents. */
  function RoundToCents(x: real): (r: real)
    ensures x - 0.005 < r <= x + 0.005
    ensures (r * 100.0).Floor as real == r * 100.0
  {
    (x * 100.0 + 0.5).Floor as real / 100.0
  }

  lemma RoundToCentsMonotone(x: real, y: real)
    requires x <= y
    ensures RoundToCents(x) <= RoundToCents(y)
  {
    assert (x * 100.0 + 0.5).Floor <= (y * 100.0 + 0.5).Floor;
  }

  /** calculateFare with the demand snapshot `activeRides`. */
  function Fare(distance: real, passengerCount: int, activeRides: nat): (f: real)
    ensures UnroundedFare(distance, passengerCount, activeRides) - 0.005 < f
    ensures f <= UnroundedFare(distance, passengerCount, activeRides) + 0.005
  {
    RoundToCents(UnroundedFare(distance, passengerCount, activeRides))
  }

  /** For a non-negative distance, more passengers never raise the unrounded fare. */
  lemma UnroundedFareNonIncreasing(distance: real, n1: int, n2: int, activeRides: nat)
    requires distance >= 0.0 && n1 <= n2
    ensures UnroundedFare(distance, n2, activeRides) <= UnroundedFare(distance, n1, activeRides)
  {
    var k := (BaseFare + distance * RatePerKm) * SurgeMultiplier(activeRides);
    assert k >= 0.0;
    SharingDiscountMonotone(n1, n2);
    assert k * (1.0 - SharingDiscount(n2)) <= k * (1.0 - SharingDiscount(n1));
  }

  /** For a non-negative distance the fare is non-increasing in the passenger count. */
  lemma FareNonIncreasing(distance: real, n1: int, n2: int, activeRides: nat)
    requires distance >= 0.0 && n1 <= n2
    ensures Fare(distance, n2, activeRides) <= Fare(distance, n1, activeRides)
  {
    UnroundedFareNonIncreasing(distance, n1, n2, activeRides);
    RoundToCentsMonotone(UnroundedFare(distance, n2, activeRides), UnroundedFare(distance, n1, activeRides));
  }

  /** A pooled ride (two or more passengers) is strictly cheaper than a solo one. */
  lemma PooledFareBelowSolo(distance: real, n: int, activeRides: nat)
    requires distance >= 0.0 && n >= 2
    ensures Fare(distance, n, activeRides) < Fare(distance, 1, activeRides)
  {
    var k := (BaseFare + distance * RatePerKm) * SurgeMultiplier(activeRides);
    assert k >= 5.0;
    SharingDiscountMonotone(2, n);
    assert UnroundedFare(distance, 1, activeRides) == k;
    assert UnroundedFare(distance, n, activeRides) == k * (1.0 - SharingDiscount(n));
    assert k * (1.0 - SharingDiscount(n)) <= k * 0.75;
  }

  /** (solo - pooled) / solo x 100, and 0 when the solo price is 0. */
  function SavingsPercentage(soloPrice: real, pooledPrice: real): (s: real)
    ensures soloPrice == 0.0 ==> s == 0.0
    ensures soloPrice != 0.0 ==> s * soloPrice == (soloPrice - pooledPrice) * 100.0
  {
    if soloPrice == 0.0 then 0.0 else (soloPrice - pooledPrice) / soloPrice * 100.0
  }

  /** Joining a ride of n >= 2 members saves a positive percentage over riding alone. */
  lemma PoolingSaves(distance: real, n: int, activeRides: nat)
    requires distance >= 0.0 && n >= 2
    ensures SavingsPercentage(Fare(distance, 1, activeRides), Fare(distance, n, activeRides)) > 0.0
  {
    var solo := Fare(distance, 1, activeRides);
    var pooled := Fare(distance, n, activeRides);
    PooledFareBelowSolo(distance, n, activeRides);
    assert UnroundedFare(distance, 1, activeRides) >= 5.0;
    assert solo > 0.0;
    assert (solo - pooled) / solo > 0.0;
  }

  datatype SurgeInfo = SurgeInfo(activeRides: nat, multiplier: real, isSurging: bool)

  /** getCurrentSurgeInfo with the demand snapshot `activeRides`. */
  function CurrentSurgeInfo(activeRides: nat): (info: SurgeInfo)
    ensures info.activeRides == activeRides
    ensures info.isSurging <==> activeRides > 0
    ensures 1.0 <= info.multiplier <= 1.0 + MaxSurgeFactor
  {
    var m := SurgeMultiplier(activeRides);
    SurgeInfo(activeRides, m, m > 1.0)
  }
}
