/**
 * The satellite.js library, seen from the tracker: its functions are opaque
 * and arrive bundled in a `SatelliteLib` value, so every result below is stated
 * for whatever those functions compute.
 */
module Satellite {
  import opened Wrappers
  import opened Js

  /** A point or vector in kilometres. */
  datatype Vec3 = Vec3(x: real, y: real, z: real)

  /** A JavaScript `Date`, as milliseconds since the epoch. */
  type Instant = int

  /** The record `twoline2satrec` derives from the two element lines. */
  type Satrec

  /** What `propagate` returns: `position` is `false` when the propagation
      fails, which is `None` here. */
  datatype PositionVelocity = PositionVelocity(position: Option<Vec3>, velocity: Option<Vec3>)

  /** Latitude and longitude in radians and height in kilometres. */
  datatype Geodetic = Geodetic(latitude: real, longitude: real, height: real)

  /** The satellite.js functions the tracker calls, as total functions: every
      call is taken to return. `eciToGeodetic` also receives the `false`
      position of a failed propagation. */
  datatype SatelliteLib = SatelliteLib(
    twoline2satrec: (JsValue, JsValue) -> Satrec,
    propagate: (Satrec, Instant) -> PositionVelocity,
    gstime: Instant -> real,
    eciToEcf: (Vec3, real) -> Vec3,
    eciToGeodetic: (Option<Vec3>, real) -> Geodetic)
}
