/**
 * lte.js: the same catalog parser, and the position of a station as a point
 * above the globe: propagate, convert to geodetic coordinates, bring the
 * longitude into [-π, π], and place the point at the Earth's radius plus
 * the height.
 */
module Lte {
  import opened Wrappers
  import opened Js
  import opened Satellite
  import opened Stations
  import opened CatalogParser

  const LteKeys: DataKeys := DataKeys("tle1", "tle2")

  /** `EarthRadius`, in kilometres. */
  const EarthRadius: real := 6371.0

  /** `rad2Deg`, which uses its own, shorter value of π. */
  const Rad2Deg: real := 180.0 / 3.141592654

  /** `parseLteFile(fileContent, stationOptions)`. */
  method ParseLteFile(text: string, options: JsObject) returns (r: Result<seq<Station>, TypeError>)
    ensures r.Ok? ==> ParseText(text, options, LteKeys) == Ok(Snapshot(r.value))
    ensures r.Err? ==> ParseText(text, options, LteKeys) == Err(r.error)
    ensures r.Ok? ==> (forall k :: 0 <= k < |r.value| ==> fresh(r.value[k])) && NoSatrec(r.value)
  {
    r := ParseCatalog(text, options, LteKeys);
  }

  // ---------------------------------------------------------------------------
  // Longitude
  // ---------------------------------------------------------------------------

  /**
   * `r` is what the two wrapping loops make of `longitude`, `turns` full
   * turns away from it: a longitude already in [-π, π] is kept; one below is
   * raised into [-π, π); one above is lowered into (-π, π].
   */
  predicate IsWrapOf(longitude: real, r: real, turns: int)
  {
    && -Pi <= r <= Pi
    && r == longitude + 2.0 * Pi * (turns as real)
    && (-Pi <= longitude <= Pi ==> r == longitude)
    && (longitude < -Pi ==> r < Pi)
    && (longitude > Pi ==> -Pi < r)
  }

  /** The two loops of `getPositionFromTLE` that add or subtract 2π until the
      longitude lies in [-π, π]. */
  method WrapLongitude(longitude: real) returns (r: real, ghost turns: int)
    ensures IsWrapOf(longitude, r, turns)
  {
    r, turns := longitude, 0;
    while r < -Pi
      invariant r == longitude + 2.0 * Pi * (turns as real)
      invariant longitude >= -Pi ==> r == longitude
      invariant longitude < -Pi ==> r < Pi
      decreases (-Pi - r).Floor
    {
      r, turns := r + 2.0 * Pi, turns + 1;
    }
    ghost var raised := r;
    while r > Pi
      invariant r == longitude + 2.0 * Pi * (turns as real)
      invariant -Pi <= r
      invariant raised <= Pi ==> r == raised
      invariant raised > Pi ==> -Pi < r
      decreases (r - Pi).Floor
    {
      r, turns := r - 2.0 * Pi, turns - 1;
    }
  }

  /** The wrapped longitude is unique: whatever the turn count, the loops'
      result is the one angle `IsWrapOf` allows. */
  lemma WrapIsUnique(longitude: real, r1: real, turns1: int, r2: real, turns2: int)
    requires IsWrapOf(longitude, r1, turns1) && IsWrapOf(longitude, r2, turns2)
    ensures r1 == r2
  {
    assert r1 - r2 == 2.0 * Pi * ((turns1 - turns2) as real);
  }

  // ---------------------------------------------------------------------------
  // Positions
  // ---------------------------------------------------------------------------

  /** What satellite.js reports for a satrec at a date, before the wrapping.
      A failed propagation's `false` position is handed on as it is. */
  function GeodeticAt(lib: SatelliteLib, satrec: Satrec, date: Instant): Geodetic
  {
    lib.eciToGeodetic(lib.propagate(satrec, date).position, lib.gstime(date))
  }

  /** `p` is the point `latLon2Xyz` gives for `g`: radius `EarthRadius` plus
      the height, latitude and the wrapped longitude in degrees. */
  ghost predicate IsSurfacePoint(latLon2Xyz: (real, real, real) -> Vec3, g: Geodetic, p: Vec3)
  {
    exists lon, turns :: IsWrapOf(g.longitude, lon, turns) &&
      p == latLon2Xyz(EarthRadius + g.height, Rad2Deg * g.latitude, Rad2Deg * lon)
  }

  /**
   * `getPositionFromTLE(station, date)`: `null` without a station or a date,
   * and `null` when the station has no satrec and lacks a line (it is not
   * cached then); otherwise the surface point of the cached satrec's
   * position. It never throws unless a satellite.js call does, and those
   * are total functions here.
   */
  method GetPositionFromTle(lib: SatelliteLib, latLon2Xyz: (real, real, real) -> Vec3,
                            station: Station?, date: Option<Instant>)
    returns (r: Option<Vec3>)
    modifies station
    ensures station == null || date.None? ==> r == None
    ensures station != null ==> station.props == old(station.props)
    ensures station != null && date.None? ==> station.satrec == old(station.satrec)
    ensures station != null && date.Some? ==>
      && station.satrec == SatrecAfter(lib, station.props, old(station.satrec), LteKeys.line1, LteKeys.line2)
      && (r.None? <==> station.satrec.None?)
      && (r.Some? ==> IsSurfacePoint(latLon2Xyz, GeodeticAt(lib, station.satrec.value, date.value), r.value))
  {
    if station == null || date.None? {
      return None;
    }
    var satrec := CacheSatrec(lib, station, LteKeys.line1, LteKeys.line2);
    if satrec.None? {
      return None;
    }
    var positionVelocity := lib.propagate(satrec.value, date.value);
    var gmst := lib.gstime(date.value);
    var positionGd := lib.eciToGeodetic(positionVelocity.position, gmst);
    var longitude, turns := WrapLongitude(positionGd.longitude);
    var lat := Rad2Deg * positionGd.latitude;
    var lon := Rad2Deg * longitude;
    r := Some(latLon2Xyz(EarthRadius + positionGd.height, lat, lon));
    assert IsWrapOf(positionGd.longitude, longitude, turns);
  }

  /** The surface point is a function of the geodetic position: two points
      that both fit it are the same point. */
  lemma SurfacePointIsUnique(latLon2Xyz: (real, real, real) -> Vec3, g: Geodetic, p: Vec3, q: Vec3)
    requires IsSurfacePoint(latLon2Xyz, g, p) && IsSurfacePoint(latLon2Xyz, g, q)
    ensures p == q
  {
    var lon1, turns1 :| IsWrapOf(g.longitude, lon1, turns1) &&
      p == latLon2Xyz(EarthRadius + g.height, Rad2Deg * g.latitude, Rad2Deg * lon1);
    var lon2, turns2 :| IsWrapOf(g.longitude, lon2, turns2) &&
      q == latLon2Xyz(EarthRadius + g.height, Rad2Deg * g.latitude, Rad2Deg * lon2);
    WrapIsUnique(g.longitude, lon1, turns1, lon2, turns2);
  }
}
