/**
 * A tracked object: the plain object the catalog parsers build, which later
 * code extends in place with the cached `satrec`.
 */
module Stations {
  import opened Wrappers
  import opened Js
  import opened Satellite

  class Station {
    /** The object's own properties: `name`, the element lines and any
        caller-supplied options. */
    var props: JsObject
    /** `station.satrec`, absent until first derived. */
    var satrec: Option<Satrec>

    constructor (props: JsObject)
      ensures this.props == props && satrec == None
    {
      this.props := props;
      satrec := None;
    }
  }

  /** Whether both element lines are present, as `!tle1 || !tle2` tests. */
  predicate HasElementLines(props: JsObject, key1: string, key2: string)
  {
    Truthy(Get(props, key1)) && Truthy(Get(props, key2))
  }

  /** The `satrec` a station holds after the cache step: the cached one if
      any, else the one derived from its lines when both are present. */
  function SatrecAfter(lib: SatelliteLib, props: JsObject, cached: Option<Satrec>,
                       key1: string, key2: string): (s: Option<Satrec>)
    ensures cached.Some? ==> s == cached
    ensures cached.None? ==>
      (s.Some? <==> HasElementLines(props, key1, key2))
    ensures s.Some? && cached.None? ==>
      s.value == lib.twoline2satrec(Get(props, key1), Get(props, key2))
  {
    if cached.Some? then cached
    else if !HasElementLines(props, key1, key2) then None
    else Some(lib.twoline2satrec(Get(props, key1), Get(props, key2)))
  }

  /** Derived at most once: once a `satrec` is there, no later edit of the
      station's properties changes it. */
  lemma {:induction false} SatrecDerivedOnce(lib: SatelliteLib, props: JsObject, props': JsObject,
                                             cached: Option<Satrec>, key1: string, key2: string)
    requires SatrecAfter(lib, props, cached, key1, key2).Some?
    ensures SatrecAfter(lib, props', SatrecAfter(lib, props, cached, key1, key2), key1, key2)
         == SatrecAfter(lib, props, cached, key1, key2)
  {
  }

  /**
   * The cache step of `getSolution` (tle.js) and `getPositionFromTLE`
   * (lte.js): derive `station.satrec` from the two lines if it is not there
   * yet and both lines are truthy, and hand back what the station now holds.
   */
  method CacheSatrec(lib: SatelliteLib, station: Station, key1: string, key2: string)
    returns (s: Option<Satrec>)
    modifies station`satrec
    ensures s == station.satrec
    ensures s == SatrecAfter(lib, station.props, old(station.satrec), key1, key2)
  {
    if station.satrec.None? {
      var tle1, tle2 := Get(station.props, key1), Get(station.props, key2);
      if !Truthy(tle1) || !Truthy(tle2) {
        return None;
      }
      station.satrec := Some(lib.twoline2satrec(tle1, tle2));
    }
    s := station.satrec;
  }
}
