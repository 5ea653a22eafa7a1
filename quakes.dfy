/** The records that flow through the dashboard's pipeline. */
module Quakes {
  import opened Wrappers

  /** One element of the `features` list of the USGS GeoJSON summary feed,
      already decoded: `properties.place`, `properties.time` (epoch
      milliseconds), `properties.mag` (a number or `null`) and
      `geometry.coordinates`, which the feed lists longitude first. */
  datatype Feature = Feature(place: string, timeMs: int, mag: Option<real>, coords: seq<real>)

  /** One row of the normalized table. Depth is in kilometres. */
  datatype Event = Event(place: string, timeMs: int, mag: Option<real>, depth: real, lon: real, lat: real)

  /** What makes the dashboard script stop with an exception. */
  datatype PipelineError =
    /** `coordinates[2]` raised IndexError: the coordinate list of the
        feature at this position of `features` had only `length` entries. */
    | CoordinateIndexOutOfRange(feature: nat, length: nat)
    /** Selecting this column of the table raised KeyError: a table built
        from no rows has no columns at all. */
    | MissingColumn(name: string)
}
