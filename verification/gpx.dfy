/**
 * The shapes shared by the navigation core: a coordinate with optional
 * elevation, and the named point lists of a recorded track and a planned
 * route (rust-core/src/gpx.rs). Coordinates are degrees, elevation metres;
 * IEEE doubles are modelled as reals.
 */
module Gpx {
  import opened Wrappers

  datatype Point = Point(lat: real, lon: real, ele: Option<real>)

  /** A recorded path: many dense points. */
  datatype Track = Track(name: Option<string>, points: seq<Point>)

  /** A planned path: few waypoints. */
  datatype Route = Route(name: Option<string>, points: seq<Point>)
}
