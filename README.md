# satellite-tracker core, modelled in Dafny

The satellite tracker reads catalogs of two-line element sets (TLE). Each catalog is
plain text: a name line, then a line starting with `1`, then a line starting with `2`,
repeated for each object. The tracker turns every object into a "station" object and
asks satellite.js where each station is at a given date. The three.js scene shows
those positions and, for stations that ask for one, an orbit line sampled once a
minute. A search box lists the stations whose name matches a pattern.

This project models that core and proves properties of it. It covers:

- **The catalog parser.** `parseTleFile` (tle.js), `parseLteFile` (lte.js) and
  `parseLteFile` (engine.js) are one loop, so they share one model: `CatalogParser`.
  - `ParseText` is the specification, a left fold over the trimmed lines of the text.
  - `ParseCatalog` is the loop as written. Element lines are written through the
    `current` alias into the station pushed last. `ParseCatalog` is proved against
    `ParseText`.
  - `ParseBySegments` independently describes what the fold produces, by reading the
    text as a lead followed by groups.
  - The lemmas after it say when the parse throws and what each record holds.
- **Strings.** `split("\n")` and `trim()` are modelled in `JsText`, with ECMAScript's
  white-space set.
- **Stations and the satrec cache.** A station is a `Stations.Station` object. Its
  `satrec` is derived at most once (`CacheSatrec`).
- **Positions.**
  - `Tle.GetPositionFromTle` handles the null cases, the crash on a station without
    lines, and the ECI/ECF choice. `toThree` is modelled as a rotation.
  - `Lte.GetPositionFromTle` includes the longitude-wrapping loops, proved to land
    in [-π, π].
  - `SceneEngine.Engine.GetPositionFromTle` re-derives the satrec on every call and
    falls back to the target date.
- **The engine.** `SceneEngine.Engine` models `_addOrbit` (the minute-by-minute loop
  and its crash), `updateSatPosition`, `addSatellite` and `_addLteFileStations`.
- **Search.** `SearchResults.FilterResults` models `filterResults`.

satellite.js enters only as the `Satellite.SatelliteLib` parameter: a bundle of
total functions: every call returns, and nothing else is assumed about the results. The spherical-to-Cartesian trigonometry of
`latLon2Xyz` / `_latLon2Xyz` and the compilation of the search pattern are also
parameters. `TargetDate` (`new Date()`) is one module-level value in engine.js that every
engine shares; here each engine is given it as a constructor argument.

The model follows the code where the code does the following:

- An element line before any name line throws a TypeError. A record missing an
  element line is kept.
- `getPositionFromTle` in tle.js throws for a station that has no `satrec` and lacks
  a line. `getSolution` returns `null` and `.position` is then read from it.
- `_addOrbit` throws on the first sample when a line is missing. A failed sample is
  not skipped.
- `_addOrbit` returns early unless `orbitMinutes` is truthy. The engine's own parser
  never sets `orbitMinutes`, so stations loaded through `_addLteFileStations` get no
  orbit line (`ParsedRecordHasNoOrbit`).
- `filterResults` returns an empty list, not `null`, for an empty station list,
  because an empty array is truthy.
- A malformed search pattern makes `new RegExp` throw.

## Model

| member | source | states |
|---|---|---|
| CatalogParser.ParseCatalog | tle.js:8-34 | The loop returns fresh, distinct stations with no satrec. Their properties are exactly the records of the fold `ParseText`. It throws exactly the TypeError the fold ends in. |
| CatalogParser.ReadLine | tle.js:14-30 | One pass of the loop body is one `Step` of the fold. Blank pieces are skipped. Element lines go into `current`, or throw when `current` is null. Other lines push a fresh record. `current` stays the last station pushed. |
| CatalogParser.ParseBySegments | tle.js:13-31 | The parse throws iff an element line lies before the first name line. Otherwise it yields one record per name line. Each record holds the name and the last element line of each kind that follows, up to the next name line. |
| CatalogParser.ParseFailsIff | tle.js:18-23 | The parse throws iff some element line has no name line before it. |
| CatalogParser.DataLineBeforeNameFails | tle.js:18-23 | When the first non-blank line is an element line, the error names that line's property (`tle1`/`tle2`, `lte1`/`lte2`). |
| CatalogParser.ParsedNames | tle.js:24-29 | A successful parse yields as many records as the text has name lines, in order. The k-th record's `name` is the k-th name line, trimmed, unless an option called `name` overrides it. |
| CatalogParser.BuildFields | tle.js:25-28 | A record holds these properties and no others: `name` (overridable by the options), each element property (the last such line, else the option), and every other option. |
| CatalogParser.BlankLineIgnored | tle.js:14-16 | Inserting a white-space-only line anywhere leaves the result unchanged. |
| CatalogParser.TrailingNewlineIgnored | tle.js:10-16 | A trailing line feed leaves the result unchanged. |
| CatalogParser.LaterDataLineWins | tle.js:18-23 | Of two consecutive element lines of the same kind, only the later one has any effect. |
| CatalogParser.FailureIsFinal | tle.js:19 | Once the loop has thrown, the remaining lines do not change the outcome. |
| CatalogParser.ParseFromAppend | tle.js:13-31 | Running the loop over `a + b` is running it over `a`, then over `b` from that state. |
| JsText.TrimSpec | tle.js:14 | `trim()` returns a slice of its input with no white space at either end. Everything it drops before and after that slice is white space. It is empty exactly when the input is all white space. |
| JsText.TrimIdempotent | tle.js:14 | Trimming twice is trimming once. |
| JsText.JoinSplit | tle.js:10 | Joining the pieces of `split("\n")` with line feeds gives back the text. |
| JsText.SplitJoin | tle.js:10 | Splitting a join of pieces that contain no line feed gives back the pieces. |
| JsText.SplitTrailingNewline | tle.js:10 | A trailing line feed adds one empty piece at the end. |
| Tle.ParseTleFile | tle.js:8-34 | `parseTleFile` is the shared loop with `tle1`/`tle2` and the station options spread into each record. |
| Lte.ParseLteFile | lte.js:8-34 | `parseLteFile` in lte.js is the same loop with `tle1`/`tle2` and the station options. |
| SceneEngine.ParseLteFile | engine.js:11-37 | `parseLteFile` in engine.js is the loop with `lte1`/`lte2` and no options. |
| Stations.SatrecAfter | tle.js:57-61 | A cached satrec is kept. Otherwise one is derived from the two lines exactly when both are truthy. |
| Stations.SatrecDerivedOnce | tle.js:57-61 | Once a satrec is cached, later changes to the station's properties do not change it. |
| Stations.CacheSatrec | lte.js:54-59 | Only `station.satrec` changes. Its new value is the one `SatrecAfter` gives, and the method returns it. |
| Tle.GetSolution | tle.js:55-64 | Caches the satrec as above. Returns null iff the station has none afterwards, else the propagation of that satrec to the date. |
| Tle.GetPositionFromTle | tle.js:67-81 | Returns null without a station or a date. Returns null when propagation fails. Throws when `getSolution` returns null. Otherwise returns the ECI position for `type === 2` and the Earth-fixed one otherwise, both rotated into three.js axes. |
| Tle.PositionThrowsIff | tle.js:55-73 | `getPositionFromTle` throws exactly for a station with no cached satrec and a falsy `tle1` or `tle2`. |
| Tle.PositionFrame | tle.js:76-80 | Undoing the axis swap on the result gives satellite.js's ECI position for `type === 2` and its ECF position otherwise. |
| Tle.PositionIgnoresLaterEdits | tle.js:57-63 | After one successful call, changing the station's lines changes neither the cached satrec nor whether later calls succeed. |
| Tle.ToThreeRoundTrip | tle.js:51-53 | `toThree` has a two-sided inverse. |
| Tle.ToThreeIsRotation | tle.js:51-53 | `toThree` preserves dot and cross products, so it is a proper rotation. |
| Lte.WrapLongitude | lte.js:70-75 | The two loops end with the longitude in [-π, π], a whole number of turns from where it started. A longitude already in range is unchanged. |
| Lte.WrapIsUnique | lte.js:70-75 | The wrapped longitude is unique: any two results the loops may give are equal. |
| Lte.GetPositionFromTle | lte.js:51-81 | Returns null without a station or a date, or when no satrec can be cached. Otherwise the point is `latLon2Xyz(EarthRadius + height, rad2Deg·latitude, rad2Deg·wrapped longitude)` of the cached satrec's geodetic position. It never throws unless a satellite.js call does. |
| Lte.SurfacePointIsUnique | lte.js:62-80 | The surface point is determined by the geodetic position. |
| SceneEngine.OrbitPointCountIsLoopExit | engine.js:217 | The loop `i <= orbitMinutes` passes every count below `OrbitPointCount` and stops at it. |
| SceneEngine.OrbitInstantsSpacing | engine.js:211-218 | Orbit samples start at `TargetDate`, are 60000 ms apart, and none lies beyond `orbitMinutes` minutes. |
| SceneEngine.Engine.GetPositionFromTle | engine.js:251-270 | Returns null exactly when a line is falsy. Otherwise returns the point for the given date. |
| SceneEngine.Engine.MissingDateIsTargetDate | engine.js:258 | Without a date the result is the one at `TargetDate`. |
| SceneEngine.Engine.AddOrbit | engine.js:208-227 | A null station or a falsy `orbitMinutes` changes nothing. When the loop runs and a line is missing, it throws and adds nothing. Otherwise it adds one line whose vertices are the positions at the sampled dates. |
| SceneEngine.Engine.UpdateSatPosition | engine.js:229-234 | With no position, the mesh stays where it is. With a position, `this.sat` moves there, or the call throws when there is no mesh. |
| SceneEngine.Engine.AddSatellite | engine.js:191-206 | Appends a fresh mesh and makes it `this.sat`. For a null station the mesh stays at the origin and the call throws at `lte1`. Otherwise the mesh is placed at the station's target-date position, then the call behaves as `AddOrbit`. Meshes added earlier do not move. |
| SceneEngine.Engine.AddLteFileStations | engine.js:141-151 | Throws the parser's error, if any. Otherwise adds one fresh mesh per record, in order, each at its record's position. `this.sat` becomes the last new mesh, and stays as it was when the parser throws or finds no record. It never adds an orbit line. |
| SceneEngine.Engine.ParsedRecordHasNoOrbit | engine.js:27-31 | No record from the engine's parser carries `orbitMinutes`, so `_addOrbit` returns early for all of them. |
| SearchResults.FilterResults | Search/SearchResults.js:5-12 | Returns null iff the stations or the search text are missing, or the text is empty. Fails iff the pattern is malformed. Otherwise returns at most 100 matching stations: the first min(100, number of matches) of them. |
| SearchResults.FilterContents | Search/SearchResults.js:11 | `filter` keeps catalog order. Each accepted station appears as often as in the catalog, and no rejected one appears. |
| SearchResults.ResultsAreCatalogMatches | Search/SearchResults.js:11 | Results are a subsequence of the catalog. While at most 100 stations match, every match is shown. |

## Left out

- Rendering is not modelled: three.js scenes, geometries, materials, controls and animation, the React components, and `StationCard`. The engine keeps only the satellite meshes' positions and the orbit lines' vertices.
- `loadLteFileStations` (engine.js) is not modelled, because it fetches the catalog over the network. `SceneEngine.Engine.AddLteFileStations` receives the text directly.
- Catalog colours and materials are not modelled (`color && getColorMaterial(color)`); they do not affect positions.
- satellite.js is opaque. `twoline2satrec`, `propagate`, `gstime`, `eciToEcf` and `eciToGeodetic` are total functions in `SatelliteLib`, so every call is assumed to return normally. A satellite.js call that throws is not modelled.
- A failed propagation is assumed to give `{position: false}`, modelled as a `None` position. lte.js and engine.js pass that position to `eciToGeodetic` unchecked, so their results then depend on what `eciToGeodetic` makes of it.
- The sine and cosine of `latLon2Xyz` / `_latLon2Xyz` are not modelled; they are a parameter. `Lte.GetPositionFromTle` and `SceneEngine.Engine.GetPositionFromTle` state their results in terms of that parameter.
- Floating point is not modelled. Numbers are exact reals, `Math.PI` is its printed decimal, and NaN exists only as the loop bound `None`.
- SceneEngine.Engine.AddOrbit: the loop bound converts only numbers, booleans and `null`. A numeric string in `orbitMinutes` would convert in JavaScript but counts as NaN here (no iterations).
- Stations.Station: a `satrec` property supplied through the station options is not modelled. The cache lives in its own field and starts empty.
- JsText.TrimSpec: JavaScript strings are UTF-16 code units, but Dafny characters are Unicode scalar values. A text containing lone surrogates is outside the model.
- The order of an object's keys is not modelled: records are maps.
- Regular-expression matching is not modelled. `SearchResults.FilterResults` takes the compiled pattern as a parameter (`None` for a pattern `new RegExp` rejects).
- A `Date` is a millisecond count. `!date` is modelled as the date being absent.
- A TypeError is modelled by the property whose access failed. Message texts are not modelled.
- `Lte.GetPositionFromTle` and `Tle.GetPositionFromTle` are modelled for station objects. A non-object truthy station is not modelled.
