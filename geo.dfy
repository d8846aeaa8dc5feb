/**
 * Geographic primitive (model/Location.java).
 *
 * The haversine great-circle distance is not modelled: every operation that
 * needs a distance takes it as a parameter `dist`, an arbitrary function from
 * two locations to kilometres.
 */
module Geo {

  /** A (latitude, longitude) pair; coordinate ranges are not enforced. */
  datatype Location = Location(latitude: real, longitude: real)

  /** Distance in kilometres between two locations (stands for Location.distanceTo). */
  type Metric = (Location, Location) -> real

  /** Default average speed used for travel times, in km/h. */
  const AverageCitySpeedKmh: real := 30.0

  /** Travel time in minutes at the default speed (Location.travelTimeTo). */
  function TravelTime(dist: Metric, from: Location, to: Location): (minutes: real)
    ensures minutes == 2.0 * dist(from, to)
  {
    dist(from, to) / AverageCitySpeedKmh * 60.0
  }
}
