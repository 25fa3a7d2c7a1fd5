/**
 * tle.js: the catalog parser that stores element lines under `tle1`/`tle2`,
 * the axis swap into three.js coordinates, and the position of a station at
 * a date, with the station's `satrec` derived once and cached on it.
 */
module Tle {
  import opened Wrappers
  import opened Js
  import opened Satellite
  import opened Stations
  import opened CatalogParser

  const TleKeys: DataKeys := DataKeys("tle1", "tle2")

  /** `parseTleFile(fileContent, stationOptions)`. */
  method ParseTleFile(text: string, options: JsObject) returns (r: Result<seq<Station>, TypeError>)
    ensures r.Ok? ==> ParseText(text, options, TleKeys) == Ok(Snapshot(r.value))
    ensures r.Err? ==> ParseText(text, options, TleKeys) == Err(r.error)
    ensures r.Ok? ==> (forall k :: 0 <= k < |r.value| ==> fresh(r.value[k])) && NoSatrec(r.value)
  {
    r := ParseCatalog(text, options, TleKeys);
  }

  // ---------------------------------------------------------------------------
  // Axes
  // ---------------------------------------------------------------------------

  /** `toThree`: satellite.js puts z through the poles, three.js puts y up. */
  function ToThree(v: Vec3): Vec3
  {
    Vec3(v.x, v.z, -v.y)
  }

  /** The inverse swap, back into satellite.js axes. */
  function FromThree(v: Vec3): Vec3
  {
    Vec3(v.x, -v.z, v.y)
  }

  function Dot(a: Vec3, b: Vec3): real
  {
    a.x * b.x + a.y * b.y + a.z * b.z
  }

  function Cross(a: Vec3, b: Vec3): Vec3
  {
    Vec3(a.y * b.z - a.z * b.y, a.z * b.x - a.x * b.z, a.x * b.y - a.y * b.x)
  }

  /** No information is lost: the swap has an inverse on either side. */
  lemma ToThreeRoundTrip(v: Vec3)
    ensures FromThree(ToThree(v)) == v
    ensures ToThree(FromThree(v)) == v
  {
  }

  /** The swap is a rotation (a quarter turn about x): it keeps lengths and
      angles, and handedness, so distances drawn in the scene are true ones. */
  lemma ToThreeIsRotation(a: Vec3, b: Vec3)
    ensures Dot(ToThree(a), ToThree(b)) == Dot(a, b)
    ensures Cross(ToThree(a), ToThree(b)) == ToThree(Cross(a, b))
  {
  }

  // ---------------------------------------------------------------------------
  // Positions
  // ---------------------------------------------------------------------------

  /** The satrec `getSolution` leaves on a station. */
  function CachedSatrec(lib: SatelliteLib, props: JsObject, cached: Option<Satrec>): Option<Satrec>
  {
    SatrecAfter(lib, props, cached, TleKeys.line1, TleKeys.line2)
  }

  /**
   * `getSolution(station, date)`: make sure the station carries a satrec and
   * propagate it to `date`; `null` when the station has none and lacks one
   * of its lines.
   */
  method GetSolution(lib: SatelliteLib, station: Station, date: Instant)
    returns (pv: Option<PositionVelocity>)
    modifies station`satrec
    ensures station.satrec == CachedSatrec(lib, station.props, old(station.satrec))
    ensures pv.None? <==> station.satrec.None?
    ensures pv.Some? ==> pv.value == lib.propagate(station.satrec.value, date)
  {
    var satrec := CacheSatrec(lib, station, TleKeys.line1, TleKeys.line2);
    if satrec.None? {
      return None;
    }
    return Some(lib.propagate(satrec.value, date));
  }

  /** The result of `getPositionFromTle` for a station holding `satrec`
      after the cache step, at a present `date`. */
  function PositionOf(lib: SatelliteLib, satrec: Option<Satrec>, date: Instant, kind: JsValue)
    : Result<Option<Vec3>, TypeError>
  {
    if satrec.None? then Err(CannotReadPropertyOfNull("position"))
    else
      var eci := lib.propagate(satrec.value, date).position;
      if eci.None? then Ok(None)
      else if kind == Number(2.0) then Ok(Some(ToThree(eci.value)))
      else Ok(Some(ToThree(lib.eciToEcf(eci.value, lib.gstime(date)))))
  }

  /**
   * `getPositionFromTle(station, date, type = 1)`: `null` without a station
   * or a date, or when propagation fails; the ECI position for `type === 2`,
   * the Earth-fixed one otherwise, both in three.js axes. A station with no
   * satrec and a missing line makes `getSolution` return `null`, and reading
   * `.position` of it throws.
   */
  method GetPositionFromTle(lib: SatelliteLib, station: Station?, date: Option<Instant>, kind: JsValue)
    returns (r: Result<Option<Vec3>, TypeError>)
    modifies station
    ensures station == null || date.None? ==> r == Ok(None)
    ensures station != null ==> station.props == old(station.props)
    ensures station != null && date.None? ==> station.satrec == old(station.satrec)
    ensures station != null && date.Some? ==>
      && station.satrec == CachedSatrec(lib, station.props, old(station.satrec))
      && r == PositionOf(lib, station.satrec, date.value, kind)
  {
    if station == null || date.None? {
      return Ok(None);
    }
    var positionVelocity := GetSolution(lib, station, date.value);
    if positionVelocity.None? {
      return Err(CannotReadPropertyOfNull("position"));
    }
    var positionEci := positionVelocity.value.position;
    if positionEci.None? {
      return Ok(None);
    }
    if kind == Number(2.0) {
      return Ok(Some(ToThree(positionEci.value)));
    }
    var gmst := lib.gstime(date.value);
    var positionEcf := lib.eciToEcf(positionEci.value, gmst);
    return Ok(Some(ToThree(positionEcf)));
  }

  /** `getPositionFromTle` throws exactly for a station that has no satrec
      yet and lacks a truthy `tle1` or `tle2`. */
  lemma PositionThrowsIff(lib: SatelliteLib, props: JsObject, cached: Option<Satrec>,
                          date: Instant, kind: JsValue)
    ensures PositionOf(lib, CachedSatrec(lib, props, cached), date, kind).Err? <==>
      cached.None? && !HasElementLines(props, "tle1", "tle2")
  {
  }

  /** Which frame the point is in: undoing the axis swap gives satellite.js's
      ECI position for `type === 2` and its Earth-fixed position otherwise. */
  lemma PositionFrame(lib: SatelliteLib, satrec: Satrec, date: Instant, kind: JsValue)
    requires PositionOf(lib, Some(satrec), date, kind).Ok?
    requires PositionOf(lib, Some(satrec), date, kind).value.Some?
    ensures var eci := lib.propagate(satrec, date).position;
      && eci.Some?
      && FromThree(PositionOf(lib, Some(satrec), date, kind).value.value) ==
           if kind == Number(2.0) then eci.value else lib.eciToEcf(eci.value, lib.gstime(date))
  {
    ToThreeRoundTrip(lib.propagate(satrec, date).position.value);
    ToThreeRoundTrip(lib.eciToEcf(lib.propagate(satrec, date).position.value, lib.gstime(date)));
  }

  /** Once cached, the satrec alone decides the position: editing the
      station's lines afterwards changes nothing. */
  lemma PositionIgnoresLaterEdits(lib: SatelliteLib, props: JsObject, props': JsObject,
                                  cached: Option<Satrec>, date: Instant, date': Instant, kind: JsValue)
    requires PositionOf(lib, CachedSatrec(lib, props, cached), date, kind).Ok?
    ensures var first := CachedSatrec(lib, props, cached);
      && CachedSatrec(lib, props', first) == first
      && PositionOf(lib, CachedSatrec(lib, props', first), date', kind).Ok?
  {
    SatrecDerivedOnce(lib, props, props', cached, TleKeys.line1, TleKeys.line2);
  }
}
