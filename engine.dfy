/**
 * engine.js: the three.js scene engine. Its own catalog parser stores
 * element lines under `lte1`/`lte2` and takes no options; its position
 * function re-derives the satrec on every call and falls back to the
 * engine's target date; a station with a truthy `orbitMinutes` gets an orbit
 * line sampled once a minute.
 */
module SceneEngine {
  import opened Wrappers
  import opened Js
  import opened JsText
  import opened Satellite
  import opened Stations
  import opened CatalogParser

  const EngineKeys: DataKeys := DataKeys("lte1", "lte2")

  /** `EarthRadius`, in kilometres. */
  const EarthRadius: real := 6371.0

  /** One `intervalMinutes` step of the orbit loop, in milliseconds. */
  const MinuteMs: int := 60000

  /** `parseLteFile(fileContent)`: no options are spread into the records. */
  method ParseLteFile(text: string) returns (r: Result<seq<Station>, TypeError>)
    ensures r.Ok? ==> ParseText(text, map[], EngineKeys) == Ok(Snapshot(r.value))
    ensures r.Err? ==> ParseText(text, map[], EngineKeys) == Err(r.error)
    ensures r.Ok? ==> (forall k :: 0 <= k < |r.value| ==> fresh(r.value[k])) && NoSatrec(r.value)
  {
    r := ParseCatalog(text, map[], EngineKeys);
  }

  /** `THREE.Math.radToDeg`. */
  function RadToDeg(radians: real): real
  {
    radians * (180.0 / Pi)
  }

  // ---------------------------------------------------------------------------
  // The orbit loop's schedule
  // ---------------------------------------------------------------------------

  /** The number `i <= station.orbitMinutes` compares against; `None` is NaN,
      against which every comparison is false. */
  function LoopBound(v: JsValue): Option<real>
  {
    match v
    case Number(n) => Some(n)
    case Bool(b) => Some(if b then 1.0 else 0.0)
    case Null => Some(0.0)
    case _ => None
  }

  /** How many minutes `for (i = 0; i <= bound; i += 1)` visits. */
  function OrbitPointCount(bound: Option<real>): nat
  {
    if bound.None? || bound.value < 0.0 then 0 else bound.value.Floor + 1
  }

  /** The dates the orbit is sampled at: one a minute from `start`. */
  function OrbitInstants(start: Instant, bound: Option<real>): (r: seq<Instant>)
    ensures |r| == OrbitPointCount(bound)
  {
    seq(OrbitPointCount(bound), i => start + i * MinuteMs)
  }

  /** `OrbitPointCount` is where the loop stops: every count below it passes
      the test `i <= bound`, and the count itself fails it. */
  lemma OrbitPointCountIsLoopExit(bound: Option<real>, i: nat)
    ensures i < OrbitPointCount(bound) ==> bound.Some? && (i as real) <= bound.value
    ensures i == OrbitPointCount(bound) ==> bound.None? || !((i as real) <= bound.value)
  {
  }

  /** The samples start at `start`, are one minute apart, and do not go
      past `start + bound` minutes. */
  lemma OrbitInstantsSpacing(start: Instant, bound: Option<real>)
    ensures var r := OrbitInstants(start, bound);
      && (|r| > 0 ==> r[0] == start)
      && (forall i :: 0 < i < |r| ==> r[i] - r[i - 1] == MinuteMs)
      && (forall i :: 0 <= i < |r| ==> bound.Some? && ((r[i] - start) as real) <= bound.value * (MinuteMs as real))
  {
    var r := OrbitInstants(start, bound);
    forall i | 0 <= i < |r|
      ensures bound.Some? && ((r[i] - start) as real) <= bound.value * (MinuteMs as real)
    {
      OrbitPointCountIsLoopExit(bound, i);
      assert (r[i] - start) as real == (i as real) * (MinuteMs as real);
    }
  }

  /** A three.js mesh, of which the model keeps the position. */
  class Mesh {
    var position: Vec3

    constructor ()
      ensures position == Vec3(0.0, 0.0, 0.0)
    {
      position := Vec3(0.0, 0.0, 0.0);
    }
  }

  class Engine {
    /** satellite.js and `_latLon2Xyz`'s trigonometry. */
    const lib: SatelliteLib
    const latLon2Xyz: (real, real, real) -> Vec3
    /** `TargetDate`. In engine.js it is one module-level value that every
        engine shares; here each engine is given it at construction. */
    const targetDate: Instant

    /** `this.sat`: the mesh added last. */
    var sat: Mesh?
    /** The satellite meshes added to the globe, in order. */
    var satellites: seq<Mesh>
    /** The orbit lines added to the globe, each as its vertices. */
    var orbits: seq<seq<Vec3>>

    constructor (lib: SatelliteLib, latLon2Xyz: (real, real, real) -> Vec3, now: Instant)
      ensures this.lib == lib && this.latLon2Xyz == latLon2Xyz && targetDate == now
      ensures sat == null && satellites == [] && orbits == []
    {
      this.lib := lib;
      this.latLon2Xyz := latLon2Xyz;
      targetDate := now;
      sat := null;
      satellites := [];
      orbits := [];
    }

    /** The point `getPositionFromTLE` places a satellite at, given both lines. */
    function PointAt(tle1: JsValue, tle2: JsValue, date: Instant): Vec3
    {
      var satrec := lib.twoline2satrec(tle1, tle2);
      var g := lib.eciToGeodetic(lib.propagate(satrec, date).position, lib.gstime(date));
      latLon2Xyz(EarthRadius + g.height, RadToDeg(g.latitude), RadToDeg(g.longitude))
    }

    /** `getPositionFromTLE(tle1, tle2, date)`: `null` when a line is falsy;
        otherwise the point at `date`, or at `TargetDate` without one. Nothing
        is cached. */
    function GetPositionFromTle(tle1: JsValue, tle2: JsValue, date: Option<Instant>): (r: Option<Vec3>)
      ensures r.None? <==> !Truthy(tle1) || !Truthy(tle2)
      ensures r.Some? && date.Some? ==> r.value == PointAt(tle1, tle2, date.value)
    {
      if !Truthy(tle1) || !Truthy(tle2) then None
      else Some(PointAt(tle1, tle2, if date.Some? then date.value else targetDate))
    }

    /** Without a date the engine shows the satellite at its target date. */
    lemma MissingDateIsTargetDate(tle1: JsValue, tle2: JsValue)
      ensures GetPositionFromTle(tle1, tle2, None) == GetPositionFromTle(tle1, tle2, Some(targetDate))
    {
    }

    /** The vertices of an orbit line: the point at each sampled date. */
    function Trail(tle1: JsValue, tle2: JsValue, instants: seq<Instant>): (r: seq<Vec3>)
      ensures |r| == |instants|
    {
      seq(|instants|, k requires 0 <= k < |instants| => PointAt(tle1, tle2, instants[k]))
    }

    /**
     * What `_addOrbit` does for a station with these properties: `Ok(None)`
     * when it returns early (falsy `orbitMinutes`), `Ok(Some(vertices))` when
     * it adds an orbit line, and the TypeError of `pos.x` when the loop runs
     * and a line is missing.
     */
    function OrbitFor(props: JsObject): Result<Option<seq<Vec3>>, TypeError>
    {
      var minutes := Get(props, "orbitMinutes");
      if !Truthy(minutes) then Ok(None)
      else
        var instants := OrbitInstants(targetDate, LoopBound(minutes));
        var tle1, tle2 := Get(props, "lte1"), Get(props, "lte2");
        if instants != [] && (!Truthy(tle1) || !Truthy(tle2)) then Err(CannotReadPropertyOfNull("x"))
        else Ok(Some(Trail(tle1, tle2, instants)))
    }

    /** `_addOrbit(station)`: sample the orbit a minute at a time from
        `TargetDate` for `orbitMinutes` minutes and add the line. */
    method AddOrbit(station: Station?) returns (c: Completion)
      modifies this`orbits
      ensures station == null ==> c == Normal && orbits == old(orbits)
      ensures station != null && OrbitFor(station.props).Err? ==>
        c == Throw(OrbitFor(station.props).error) && orbits == old(orbits)
      ensures station != null && OrbitFor(station.props) == Ok(None) ==>
        c == Normal && orbits == old(orbits)
      ensures station != null && OrbitFor(station.props).Ok? && OrbitFor(station.props).value.Some? ==>
        c == Normal && orbits == old(orbits) + [OrbitFor(station.props).value.value]
    {
      if station == null || !Truthy(Get(station.props, "orbitMinutes")) {
        return Normal;
      }
      var bound := LoopBound(Get(station.props, "orbitMinutes"));
      var tle1, tle2 := Get(station.props, "lte1"), Get(station.props, "lte2");
      ghost var instants := OrbitInstants(targetDate, bound);
      var vertices: seq<Vec3> := [];
      var i: nat := 0;
      while bound.Some? && (i as real) <= bound.value
        invariant i <= OrbitPointCount(bound)
        invariant vertices == Trail(tle1, tle2, instants[..i])
        invariant i > 0 ==> Truthy(tle1) && Truthy(tle2)
        invariant orbits == old(orbits)
        decreases OrbitPointCount(bound) - i
      {
        OrbitPointCountIsLoopExit(bound, i);
        var date := targetDate + i * MinuteMs;
        var pos := GetPositionFromTle(tle1, tle2, Some(date));
        if pos.None? {
          assert instants != [];
          assert OrbitFor(station.props) == Err(CannotReadPropertyOfNull("x"));
          return Throw(CannotReadPropertyOfNull("x"));
        }
        vertices := vertices + [pos.value];
        i := i + 1;
        assert instants[..i] == instants[..i - 1] + [date];
      }
      OrbitPointCountIsLoopExit(bound, i);
      assert instants[..i] == instants;
      assert OrbitFor(station.props) == Ok(Some(vertices));
      orbits := orbits + [vertices];
      return Normal;
    }

    /** `updateSatPosition(station, date)`: move `this.sat` to the station's
        position, or leave it where it is when there is none. */
    method UpdateSatPosition(station: Station?, date: Option<Instant>) returns (c: Completion)
      modifies sat
      ensures station == null ==> c == Throw(CannotReadPropertyOfNull("lte1"))
      ensures station != null ==>
        var pos := GetPositionFromTle(Get(station.props, "lte1"), Get(station.props, "lte2"), date);
        && (pos.None? ==> c == Normal)
        && (pos.Some? && sat == null ==> c == Throw(CannotReadPropertyOfNull("position")))
        && (pos.Some? && sat != null ==> c == Normal && sat.position == pos.value)
      ensures sat != null && station == null ==> sat.position == old(sat.position)
      ensures sat != null && station != null ==>
        var pos := GetPositionFromTle(Get(station.props, "lte1"), Get(station.props, "lte2"), date);
        pos.None? ==> sat.position == old(sat.position)
    {
      if station == null {
        return Throw(CannotReadPropertyOfNull("lte1"));
      }
      var pos := GetPositionFromTle(Get(station.props, "lte1"), Get(station.props, "lte2"), date);
      if pos.None? {
        return Normal;
      }
      if sat == null {
        return Throw(CannotReadPropertyOfNull("position"));
      }
      sat.position := pos.value;
      return Normal;
    }

    /** Where `addSatellite` leaves a station's new mesh: at its position at
        the target date, or at the origin when a line is missing. */
    function Placement(props: JsObject): Vec3
    {
      var pos := GetPositionFromTle(Get(props, "lte1"), Get(props, "lte2"), None);
      if pos.Some? then pos.value else Vec3(0.0, 0.0, 0.0)
    }

    /** `addSatellite(station, material)`: a new mesh, placed, then the
        station's orbit line. */
    method AddSatellite(station: Station?) returns (c: Completion)
      modifies this
      ensures fresh(sat) && satellites == old(satellites) + [sat]
      ensures forall k :: 0 <= k < |old(satellites)| ==> satellites[k].position == old(satellites[k].position)
      ensures station == null ==> c == Throw(CannotReadPropertyOfNull("lte1")) && orbits == old(orbits)
      ensures station == null ==> sat.position == Vec3(0.0, 0.0, 0.0)
      ensures station != null ==> sat.position == Placement(station.props)
      ensures station != null && OrbitFor(station.props).Err? ==>
        c == Throw(OrbitFor(station.props).error) && orbits == old(orbits)
      ensures station != null && OrbitFor(station.props) == Ok(None) ==>
        c == Normal && orbits == old(orbits)
      ensures station != null && OrbitFor(station.props).Ok? && OrbitFor(station.props).value.Some? ==>
        c == Normal && orbits == old(orbits) + [OrbitFor(station.props).value.value]
    {
      var mesh := new Mesh();
      sat := mesh;
      satellites := satellites + [mesh];
      c := UpdateSatPosition(station, None);
      if c.Throw? {
        return;
      }
      c := AddOrbit(station);
    }

    /**
     * `_addLteFileStations(fileContent, material)`: parse and add every
     * station. The engine's records never carry `orbitMinutes`, so no orbit
     * line is added; the only TypeError is the parser's.
     */
    method AddLteFileStations(text: string) returns (c: Completion)
      modifies this
      ensures ParseText(text, map[], EngineKeys).Err? ==>
        c == Throw(ParseText(text, map[], EngineKeys).error) && satellites == old(satellites) && sat == old(sat)
      ensures ParseText(text, map[], EngineKeys).Ok? ==>
        var records := ParseText(text, map[], EngineKeys).value;
        && c == Normal
        && |satellites| == |old(satellites)| + |records|
        && satellites[..|old(satellites)|] == old(satellites)
        && (forall k :: 0 <= k < |records| ==>
              satellites[|old(satellites)| + k].position == Placement(records[k]))
        && (records == [] ==> sat == old(sat))
        && (records != [] ==> sat == satellites[|satellites| - 1])
      ensures forall k :: |old(satellites)| <= k < |satellites| ==> fresh(satellites[k])
      ensures orbits == old(orbits)
    {
      var parsed := ParseLteFile(text);
      if parsed.Err? {
        return Throw(parsed.error);
      }
      var stations := parsed.value;
      ghost var records := Snapshot(stations);
      ghost var added: seq<Mesh> := [];
      for i := 0 to |stations|
        invariant satellites == old(satellites) + added && |added| == i
        invariant Snapshot(stations) == records
        invariant forall k :: 0 <= k < i ==> satellites[|old(satellites)| + k].position == Placement(records[k])
        invariant orbits == old(orbits)
        invariant forall k :: 0 <= k < i ==> fresh(added[k])
        invariant i == 0 ==> sat == old(sat)
        invariant i > 0 ==> sat == satellites[|satellites| - 1]
      {
        ParsedRecordHasNoOrbit(text, i);
        var outcome := AddSatellite(stations[i]);
        assert outcome == Normal;
        added := added + [sat];
      }
      assert satellites[..|old(satellites)|] == old(satellites);
      return Normal;
    }

    /** The engine's parser never sets `orbitMinutes`, so `_addOrbit`
        returns early for every station it reads. */
    lemma ParsedRecordHasNoOrbit(text: string, k: nat)
      requires ParseText(text, map[], EngineKeys).Ok?
      requires k < |ParseText(text, map[], EngineKeys).value|
      ensures OrbitFor(ParseText(text, map[], EngineKeys).value[k]) == Ok(None)
    {
      var lines := SplitLines(text);
      ParseBySegments(lines, map[], EngineKeys);
      var groups := Segment(lines).groups;
      BuildFields(groups[k], map[], EngineKeys, "orbitMinutes");
    }
  }
}
