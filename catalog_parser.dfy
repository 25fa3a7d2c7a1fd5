/**
 * The catalog text parser shared, with small differences, by `parseTleFile`
 * (tle.js), `parseLteFile` (lte.js) and `parseLteFile` (engine.js).
 *
 * The text is split on line feeds and each piece trimmed. A blank piece is
 * skipped. A piece whose first character is '1' or '2' is an element line and
 * is stored on the record started most recently; any other piece starts a new
 * record `{name: piece, ...options}`. An element line before any record writes
 * through `null` and throws a TypeError.
 *
 * `ParseText` is the specification, a left fold of `Step` over the pieces;
 * `ParseCatalog` is the loop the three sources run, proved against it; the
 * lemmas state what the fold produces without mentioning `Step`.
 */
module CatalogParser {
  import opened Wrappers
  import opened Js
  import opened JsText
  import opened Stations

  /** The property names the two element lines are stored under:
      `tle1`/`tle2` in tle.js and lte.js, `lte1`/`lte2` in engine.js. */
  datatype DataKeys = DataKeys(line1: string, line2: string)

  /** How a piece of the text is classified: by its first character after
      trimming, and by nothing else. */
  datatype LineKind = Blank | Line1 | Line2 | NameLine

  function KindOf(line: string): LineKind
  {
    var t := Trim(line);
    if t == [] then Blank
    else if t[0] == '1' then Line1
    else if t[0] == '2' then Line2
    else NameLine
  }

  predicate IsDataLine(line: string)
  {
    KindOf(line) == Line1 || KindOf(line) == Line2
  }

  /** The property an element line is written to. */
  function KeyFor(line: string, keys: DataKeys): string
    requires IsDataLine(line)
  {
    if KindOf(line) == Line1 then keys.line1 else keys.line2
  }

  /** `{ name: line, ...options }`: the options are spread after `name`,
      so an option called `name` replaces the line's text. */
  function NewRecord(name: string, options: JsObject): JsObject
  {
    map["name" := Str(name)] + options
  }

  type Parse = Result<seq<JsObject>, TypeError>

  /** The last record with `key` set to `value`; the others untouched. */
  function SetLast(records: seq<JsObject>, key: string, value: string): seq<JsObject>
    requires records != []
  {
    records[..|records| - 1] + [records[|records| - 1][key := Str(value)]]
  }

  /** One iteration of the parsers' loop. */
  function Step(acc: Parse, line: string, options: JsObject, keys: DataKeys): Parse
  {
    match acc
    case Err(_) => acc
    case Ok(records) =>
      var t := Trim(line);
      match KindOf(line)
      case Blank => acc
      case Line1 =>
        if records == [] then Err(CannotSetPropertyOfNull(keys.line1))
        else Ok(SetLast(records, keys.line1, t))
      case Line2 =>
        if records == [] then Err(CannotSetPropertyOfNull(keys.line2))
        else Ok(SetLast(records, keys.line2, t))
      case NameLine => Ok(records + [NewRecord(t, options)])
  }

  /** The loop run over `lines`, starting from `acc`. */
  function ParseFrom(acc: Parse, lines: seq<string>, options: JsObject, keys: DataKeys): Parse
    decreases |lines|
  {
    if lines == [] then acc
    else Step(ParseFrom(acc, lines[..|lines| - 1], options, keys), lines[|lines| - 1], options, keys)
  }

  function ParseLines(lines: seq<string>, options: JsObject, keys: DataKeys): Parse
  {
    ParseFrom(Ok([]), lines, options, keys)
  }

  /** What the parsers return for `text`, or the TypeError they throw. */
  function ParseText(text: string, options: JsObject, keys: DataKeys): Parse
  {
    ParseLines(SplitLines(text), options, keys)
  }

  // ---------------------------------------------------------------------------
  // The loop
  // ---------------------------------------------------------------------------

  /** The own properties of each station, in order. */
  function Snapshot(stations: seq<Station>): (r: seq<JsObject>)
    reads stations
    ensures |r| == |stations|
    ensures forall k :: 0 <= k < |stations| ==> r[k] == stations[k].props
  {
    seq(|stations|, k requires 0 <= k < |stations| reads stations => stations[k].props)
  }

  /** `current` aliases the last station pushed, and is `null` before the first. */
  predicate IsCurrent(current: Station?, result: seq<Station>)
  {
    if result == [] then current == null else current == result[|result| - 1]
  }

  /** None of the stations has derived its satrec yet. */
  predicate NoSatrec(stations: seq<Station>)
    reads stations
  {
    forall k :: 0 <= k < |stations| ==> stations[k].satrec == None
  }

  predicate Distinct(stations: seq<Station>)
  {
    forall j, k :: 0 <= j < k < |stations| ==> stations[j] != stations[k]
  }

  /**
   * The parser loop: `current` always aliases the last record pushed onto
   * `result`, and element lines are written through it. Returns the new
   * station objects, one per record of `ParseText`, or the TypeError thrown
   * by a write through `current === null`.
   */
  method ParseCatalog(text: string, options: JsObject, keys: DataKeys)
    returns (r: Result<seq<Station>, TypeError>)
    ensures r.Ok? ==> ParseText(text, options, keys) == Ok(Snapshot(r.value))
    ensures r.Err? ==> ParseText(text, options, keys) == Err(r.error)
    ensures r.Ok? ==> forall k :: 0 <= k < |r.value| ==> fresh(r.value[k])
    ensures r.Ok? ==> NoSatrec(r.value) && Distinct(r.value)
  {
    var result: seq<Station> := [];
    var lines := SplitLines(text);
    var current: Station? := null;

    for i := 0 to |lines|
      invariant IsCurrent(current, result) && Distinct(result)
      invariant NoSatrec(result)
      invariant forall k :: 0 <= k < |result| ==> fresh(result[k])
      invariant ParseLines(lines[..i], options, keys) == Ok(Snapshot(result))
    {
      ghost var before, earlier := Snapshot(result), result;
      ParseNextLine(lines, i, options, keys);
      ghost var next := Step(Ok(before), lines[i], options, keys);
      assert ParseLines(lines[..i + 1], options, keys) == next;
      var thrown;
      current, result, thrown := ReadLine(lines[i], current, result, options, keys);
      if thrown.Some? {
        FailureIsFinal(lines, i + 1, options, keys);
        return Err(thrown.value);
      }
      assert next == Ok(Snapshot(result));
      forall k | 0 <= k < |result| ensures fresh(result[k]) {
        if k < |earlier| {
          assert result[k] == earlier[k];
        }
      }
    }
    assert lines[..|lines|] == lines;
    return Ok(result);
  }

  /** One pass of the loop body over the piece `raw`. */
  method ReadLine(raw: string, current: Station?, result: seq<Station>, options: JsObject, keys: DataKeys)
    returns (current': Station?, result': seq<Station>, thrown: Option<TypeError>)
    requires IsCurrent(current, result) && Distinct(result) && NoSatrec(result)
    modifies current
    ensures thrown.Some? ==> Step(Ok(old(Snapshot(result))), raw, options, keys) == Err(thrown.value)
    ensures thrown.None? ==>
      && IsCurrent(current', result') && Distinct(result') && NoSatrec(result')
      && (result' == result || (result' == result + [current'] && fresh(current')))
      && Step(Ok(old(Snapshot(result))), raw, options, keys) == Ok(Snapshot(result'))
  {
    ghost var before := Snapshot(result);
    current', result', thrown := current, result, None;
    var line := Trim(raw);
    if |line| == 0 {
      // a blank piece: nothing to do
      assert Step(Ok(before), raw, options, keys) == Ok(before);
    } else if line[0] == '1' || line[0] == '2' {
      var key := if line[0] == '1' then keys.line1 else keys.line2;
      if current == null {
        assert Step(Ok(before), raw, options, keys) == Err(CannotSetPropertyOfNull(key));
        return current', result', Some(CannotSetPropertyOfNull(key));
      }
      assert Step(Ok(before), raw, options, keys) == Ok(SetLast(before, key, line));
      current.props := current.props[key := Str(line)];
      assert NoSatrec(result');
      assert forall k :: 0 <= k < |result| - 1 ==> result[k] != current;
      SnapshotSetLast(result, before, key, line);
    } else {
      assert Step(Ok(before), raw, options, keys) == Ok(before + [NewRecord(line, options)]);
      current' := new Station(NewRecord(line, options));
      result' := result + [current'];
      assert NoSatrec(result');
      assert Snapshot(result') == before + [NewRecord(line, options)];
    }
  }

  /** One more line is one more `Step`. */
  lemma ParseNextLine(lines: seq<string>, i: nat, options: JsObject, keys: DataKeys)
    requires i < |lines|
    ensures ParseLines(lines[..i + 1], options, keys) ==
      Step(ParseLines(lines[..i], options, keys), lines[i], options, keys)
  {
    assert lines[..i + 1][..i] == lines[..i];
  }

  /** Writing the last station's property updates the last record only. */
  lemma SnapshotSetLast(stations: seq<Station>, before: seq<JsObject>, key: string, value: string)
    requires |stations| == |before| > 0
    requires forall k :: 0 <= k < |before| - 1 ==> stations[k].props == before[k]
    requires stations[|stations| - 1].props == before[|before| - 1][key := Str(value)]
    ensures Snapshot(stations) == SetLast(before, key, value)
  {
    assert forall k :: 0 <= k < |before| ==> Snapshot(stations)[k] == SetLast(before, key, value)[k];
  }

  // ---------------------------------------------------------------------------
  // Properties of the fold
  // ---------------------------------------------------------------------------

  /** Running the loop over `a + b` is running it over `a`, then over `b`. */
  lemma {:induction false} ParseFromAppend(acc: Parse, a: seq<string>, b: seq<string>,
                                           options: JsObject, keys: DataKeys)
    ensures ParseFrom(acc, a + b, options, keys)
         == ParseFrom(ParseFrom(acc, a, options, keys), b, options, keys)
    decreases |b|
  {
    if b != [] {
      var ab, b', last := a + b, b[..|b| - 1], b[|b| - 1];
      assert ab[..|ab| - 1] == a + b';
      assert ab[|ab| - 1] == last;
      ParseFromAppend(acc, a, b', options, keys);
      assert ParseFrom(acc, ab, options, keys)
          == Step(ParseFrom(acc, a + b', options, keys), last, options, keys);
    } else {
      assert a + b == a;
    }
  }

  /** Once the loop has thrown, no later line changes the outcome. */
  lemma {:induction false} FailureIsFinal(lines: seq<string>, n: nat, options: JsObject, keys: DataKeys)
    requires n <= |lines|
    requires ParseLines(lines[..n], options, keys).Err?
    ensures ParseLines(lines, options, keys) == ParseLines(lines[..n], options, keys)
  {
    assert lines == lines[..n] + lines[n..];
    ParseFromAppend(Ok([]), lines[..n], lines[n..], options, keys);
    ErrStays(ParseLines(lines[..n], options, keys), lines[n..], options, keys);
  }

  lemma {:induction false} ErrStays(acc: Parse, lines: seq<string>, options: JsObject, keys: DataKeys)
    requires acc.Err?
    ensures ParseFrom(acc, lines, options, keys) == acc
    decreases |lines|
  {
    if lines != [] {
      ErrStays(acc, lines[..|lines| - 1], options, keys);
    }
  }

  /** Blank and white-space-only lines contribute nothing, wherever they stand. */
  lemma BlankLineIgnored(before: seq<string>, blank: string, after: seq<string>,
                         options: JsObject, keys: DataKeys)
    requires AllSpace(blank)
    ensures ParseLines(before + [blank] + after, options, keys)
         == ParseLines(before + after, options, keys)
  {
    TrimSpec(blank);
    assert (before + [blank])[..|before|] == before;
    ParseFromAppend(Ok([]), before + [blank], after, options, keys);
    ParseFromAppend(Ok([]), before, after, options, keys);
  }

  /** In particular the empty piece after a trailing line feed changes nothing. */
  lemma TrailingNewlineIgnored(text: string, options: JsObject, keys: DataKeys)
    ensures ParseText(text + "\n", options, keys) == ParseText(text, options, keys)
  {
    SplitTrailingNewline(text);
    var lines := SplitLines(text);
    assert SplitLines(text + "\n") == lines + [""] + [];
    assert lines + [] == lines;
    BlankLineIgnored(lines, "", [], options, keys);
  }

  /** Of two element lines of the same kind in a row, the later one wins. */
  lemma LaterDataLineWins(lines: seq<string>, earlier: string, later: string,
                          options: JsObject, keys: DataKeys)
    requires IsDataLine(earlier) && KindOf(later) == KindOf(earlier)
    ensures ParseLines(lines + [earlier, later], options, keys)
         == ParseLines(lines + [later], options, keys)
  {
    var once, twice, direct := lines + [earlier], lines + [earlier] + [later], lines + [later];
    assert lines + [earlier, later] == twice;
    assert twice[..|twice| - 1] == once;
    assert once[..|once| - 1] == lines;
    assert direct[..|direct| - 1] == lines;
    assert ParseLines(twice, options, keys) == Step(ParseLines(once, options, keys), later, options, keys);
    assert ParseLines(once, options, keys) == Step(ParseLines(lines, options, keys), earlier, options, keys);
    assert ParseLines(direct, options, keys) == Step(ParseLines(lines, options, keys), later, options, keys);
    if ParseLines(lines, options, keys).Ok? && ParseLines(lines, options, keys).value != [] {
      SetLastTwice(ParseLines(lines, options, keys).value, KeyFor(earlier, keys), Trim(earlier), Trim(later));
    }
  }

  lemma SetLastTwice(records: seq<JsObject>, key: string, first: string, second: string)
    requires records != []
    ensures SetLast(SetLast(records, key, first), key, second) == SetLast(records, key, second)
  {
    var n := |records|;
    var once := SetLast(records, key, first);
    assert once[..n - 1] == records[..n - 1];
    assert once[n - 1][key := Str(second)] == records[n - 1][key := Str(second)];
  }

  // ---------------------------------------------------------------------------
  // What the parse produces, read off the text's structure
  // ---------------------------------------------------------------------------

  /** A record's lines: the name line that starts it and the lines after it
      up to the next name line. */
  datatype Group = Group(name: string, body: seq<string>)

  /** The text's structure: the lines before the first name line (`lead`),
      then one group per name line. */
  datatype Layout = Layout(lead: seq<string>, groups: seq<Group>)

  function Segment(lines: seq<string>): Layout
    decreases |lines|
  {
    if lines == [] then Layout([], [])
    else
      var prev := Segment(lines[..|lines| - 1]);
      var l := lines[|lines| - 1];
      if KindOf(l) == NameLine then Layout(prev.lead, prev.groups + [Group(l, [])])
      else if prev.groups == [] then Layout(prev.lead + [l], [])
      else
        var g := prev.groups[|prev.groups| - 1];
        Layout(prev.lead, prev.groups[..|prev.groups| - 1] + [Group(g.name, g.body + [l])])
  }

  function Flatten(groups: seq<Group>): seq<string>
    decreases |groups|
  {
    if groups == [] then []
    else Flatten(groups[..|groups| - 1]) + [groups[|groups| - 1].name] + groups[|groups| - 1].body
  }

  /** The name lines of `lines`, in order. */
  function NameLinesOf(lines: seq<string>): seq<string>
    decreases |lines|
  {
    if lines == [] then []
    else
      NameLinesOf(lines[..|lines| - 1])
        + (if KindOf(lines[|lines| - 1]) == NameLine then [lines[|lines| - 1]] else [])
  }

  /** `Segment` loses nothing: the lead followed by the groups is the text. */
  lemma {:induction false} SegmentRebuilds(lines: seq<string>)
    ensures Segment(lines).lead + Flatten(Segment(lines).groups) == lines
    decreases |lines|
  {
    if lines != [] {
      var init, l := lines[..|lines| - 1], lines[|lines| - 1];
      SegmentRebuilds(init);
      assert lines == init + [l];
      var prev, next := Segment(init), Segment(lines);
      if KindOf(l) == NameLine {
        assert next == Layout(prev.lead, prev.groups + [Group(l, [])]);
        FlattenAppendGroup(prev.groups, l);
      } else if prev.groups == [] {
        assert next == Layout(prev.lead + [l], []);
      } else {
        var groups := prev.groups;
        var g := groups[|groups| - 1];
        assert next == Layout(prev.lead, groups[..|groups| - 1] + [Group(g.name, g.body + [l])]);
        FlattenExtendLast(groups, l);
      }
    }
  }

  lemma FlattenAppendGroup(groups: seq<Group>, l: string)
    ensures Flatten(groups + [Group(l, [])]) == Flatten(groups) + [l]
  {
    var groups' := groups + [Group(l, [])];
    assert groups'[..|groups'| - 1] == groups;
  }

  lemma FlattenExtendLast(groups: seq<Group>, l: string)
    requires groups != []
    ensures var g := groups[|groups| - 1];
      Flatten(groups[..|groups| - 1] + [Group(g.name, g.body + [l])]) == Flatten(groups) + [l]
  {
    var g := groups[|groups| - 1];
    var groups' := groups[..|groups| - 1] + [Group(g.name, g.body + [l])];
    assert groups'[..|groups'| - 1] == groups[..|groups| - 1];
  }

  /** The lead holds no name line; each group starts with a name line and
      holds no other. */
  predicate WellShaped(layout: Layout)
  {
    && (forall i :: 0 <= i < |layout.lead| ==> KindOf(layout.lead[i]) != NameLine)
    && (forall k :: 0 <= k < |layout.groups| ==> KindOf(layout.groups[k].name) == NameLine)
    && (forall k, i :: 0 <= k < |layout.groups| && 0 <= i < |layout.groups[k].body| ==>
          KindOf(layout.groups[k].body[i]) != NameLine)
  }

  lemma {:induction false} SegmentShape(lines: seq<string>)
    ensures WellShaped(Segment(lines))
    decreases |lines|
  {
    if lines != [] {
      var init, l := lines[..|lines| - 1], lines[|lines| - 1];
      SegmentShape(init);
      var prev := Segment(init);
      if KindOf(l) == NameLine {
        ShapeAddGroup(prev, l);
      } else if prev.groups == [] {
        ShapeAddLead(prev, l);
      } else {
        ShapeExtendLast(prev, l);
      }
    }
  }

  lemma ShapeAddGroup(layout: Layout, l: string)
    requires WellShaped(layout) && KindOf(l) == NameLine
    ensures WellShaped(Layout(layout.lead, layout.groups + [Group(l, [])]))
  {
  }

  lemma ShapeAddLead(layout: Layout, l: string)
    requires WellShaped(layout) && KindOf(l) != NameLine
    ensures WellShaped(Layout(layout.lead + [l], layout.groups))
  {
  }

  lemma ShapeExtendLast(layout: Layout, l: string)
    requires WellShaped(layout) && KindOf(l) != NameLine && layout.groups != []
    ensures var groups := layout.groups;
      var g := groups[|groups| - 1];
      WellShaped(Layout(layout.lead, groups[..|groups| - 1] + [Group(g.name, g.body + [l])]))
  {
    var groups := layout.groups;
    var g := groups[|groups| - 1];
    var groups' := groups[..|groups| - 1] + [Group(g.name, g.body + [l])];
    assert forall k :: 0 <= k < |groups| - 1 ==> groups'[k] == groups[k];
  }

  /** The groups' names are the name lines of the text, in order: one record
      per name line. */
  lemma {:induction false} SegmentNames(lines: seq<string>)
    ensures var groups := Segment(lines).groups;
      NameLinesOf(lines) == seq(|groups|, k requires 0 <= k < |groups| => groups[k].name)
    decreases |lines|
  {
    if lines != [] {
      var init, l := lines[..|lines| - 1], lines[|lines| - 1];
      SegmentNames(init);
      var prev, next := Segment(init), Segment(lines);
      assert NameLinesOf(lines) == NameLinesOf(init) + (if KindOf(l) == NameLine then [l] else []);
      if KindOf(l) == NameLine {
        assert next.groups == prev.groups + [Group(l, [])];
      } else if prev.groups != [] {
        var groups := prev.groups;
        var g := groups[|groups| - 1];
        assert next.groups == groups[..|groups| - 1] + [Group(g.name, g.body + [l])];
      }
    }
  }

  /** The trimmed text of the last line of `kind` in `body`: the one that
      is left standing when later lines overwrite earlier ones. */
  function LastOfKind(body: seq<string>, kind: LineKind): Option<string>
    decreases |body|
  {
    if body == [] then None
    else if KindOf(body[|body| - 1]) == kind then Some(Trim(body[|body| - 1]))
    else LastOfKind(body[..|body| - 1], kind)
  }

  function WithLine(rec: JsObject, key: string, line: Option<string>): JsObject
  {
    if line.Some? then rec[key := Str(line.value)] else rec
  }

  /** The record a group stands for: the name record, with the last line of
      each element kind in the group's body. */
  function Build(g: Group, options: JsObject, keys: DataKeys): JsObject
  {
    var named := NewRecord(Trim(g.name), options);
    WithLine(WithLine(named, keys.line1, LastOfKind(g.body, Line1)), keys.line2, LastOfKind(g.body, Line2))
  }

  function Records(groups: seq<Group>, options: JsObject, keys: DataKeys): (r: seq<JsObject>)
    ensures |r| == |groups|
  {
    seq(|groups|, k requires 0 <= k < |groups| => Build(groups[k], options, keys))
  }

  predicate HasDataLine(lines: seq<string>)
  {
    exists i :: 0 <= i < |lines| && IsDataLine(lines[i])
  }

  predicate DistinctKeys(keys: DataKeys)
  {
    keys.line1 != keys.line2
  }

  /** One more element line in a group's body overwrites that kind's property. */
  lemma BuildAppendData(g: Group, l: string, options: JsObject, keys: DataKeys)
    requires DistinctKeys(keys) && IsDataLine(l)
    ensures Build(Group(g.name, g.body + [l]), options, keys)
         == Build(g, options, keys)[KeyFor(l, keys) := Str(Trim(l))]
  {
    var body := g.body + [l];
    assert body[..|body| - 1] == g.body;
  }

  /** A blank line in a group's body changes nothing. */
  lemma BuildAppendBlank(g: Group, l: string, options: JsObject, keys: DataKeys)
    requires KindOf(l) == Blank
    ensures Build(Group(g.name, g.body + [l]), options, keys) == Build(g, options, keys)
  {
    var body := g.body + [l];
    assert body[..|body| - 1] == g.body;
  }

  /** The parse agrees with the structure of `lines`. */
  predicate AgreesWithSegments(lines: seq<string>, options: JsObject, keys: DataKeys)
  {
    var layout := Segment(lines);
    && (ParseLines(lines, options, keys).Err? <==> HasDataLine(layout.lead))
    && (ParseLines(lines, options, keys).Ok? ==>
          ParseLines(lines, options, keys).value == Records(layout.groups, options, keys))
  }

  /**
   * The parse, read off the structure: it throws exactly when an element
   * line comes before the first name line, and otherwise yields one record per
   * group, built from the group's name line and the last element line of each
   * kind in it.
   */
  lemma {:induction false} ParseBySegments(lines: seq<string>, options: JsObject, keys: DataKeys)
    requires DistinctKeys(keys)
    ensures var layout := Segment(lines);
      && (ParseLines(lines, options, keys).Err? <==> HasDataLine(layout.lead))
      && (ParseLines(lines, options, keys).Ok? ==>
            ParseLines(lines, options, keys).value == Records(layout.groups, options, keys))
    decreases |lines|
  {
    if lines != [] {
      var init, l := lines[..|lines| - 1], lines[|lines| - 1];
      ParseBySegments(init, options, keys);
      assert lines == init + [l];
      SegmentsStep(init, l, options, keys);
    }
  }

  /** The inductive step of `ParseBySegments`: one more line. */
  lemma SegmentsStep(init: seq<string>, l: string, options: JsObject, keys: DataKeys)
    requires DistinctKeys(keys) && AgreesWithSegments(init, options, keys)
    ensures AgreesWithSegments(init + [l], options, keys)
  {
    var lines := init + [l];
    assert lines[..|lines| - 1] == init && lines[|lines| - 1] == l;
    assert ParseLines(lines, options, keys) == Step(ParseLines(init, options, keys), l, options, keys);
    var lead, groups := Segment(init).lead, Segment(init).groups;
    if ParseLines(init, options, keys).Err? {
      var i :| 0 <= i < |lead| && IsDataLine(lead[i]);
      assert Segment(lines).lead[i] == lead[i];
    } else if KindOf(l) == NameLine {
      SegmentsStepName(init, l, options, keys);
    } else if groups == [] {
      SegmentsStepLead(init, l, options, keys);
    } else {
      SegmentsStepBody(init, l, options, keys);
    }
  }

  lemma SegmentsStepName(init: seq<string>, l: string, options: JsObject, keys: DataKeys)
    requires AgreesWithSegments(init, options, keys) && ParseLines(init, options, keys).Ok?
    requires KindOf(l) == NameLine
    requires ParseLines(init + [l], options, keys) == Step(ParseLines(init, options, keys), l, options, keys)
    ensures AgreesWithSegments(init + [l], options, keys)
  {
    var lines := init + [l];
    assert lines[..|lines| - 1] == init;
    var groups := Segment(init).groups;
    var groups' := Segment(lines).groups;
    assert groups' == groups + [Group(l, [])];
    assert Records(groups', options, keys)
        == Records(groups, options, keys) + [NewRecord(Trim(l), options)];
  }

  lemma SegmentsStepLead(init: seq<string>, l: string, options: JsObject, keys: DataKeys)
    requires AgreesWithSegments(init, options, keys) && ParseLines(init, options, keys).Ok?
    requires KindOf(l) != NameLine && Segment(init).groups == []
    requires ParseLines(init + [l], options, keys) == Step(ParseLines(init, options, keys), l, options, keys)
    ensures AgreesWithSegments(init + [l], options, keys)
  {
    var lines := init + [l];
    assert lines[..|lines| - 1] == init;
    var lead := Segment(init).lead;
    var lead' := Segment(lines).lead;
    assert lead' == lead + [l] && Segment(lines).groups == [];
    if IsDataLine(l) {
      assert IsDataLine(lead'[|lead|]);
    } else {
      assert !HasDataLine(lead') by {
        forall i | 0 <= i < |lead'| ensures !IsDataLine(lead'[i]) {
          if i < |lead| { assert lead'[i] == lead[i]; }
        }
      }
    }
  }

  lemma SegmentsStepBody(init: seq<string>, l: string, options: JsObject, keys: DataKeys)
    requires DistinctKeys(keys)
    requires AgreesWithSegments(init, options, keys) && ParseLines(init, options, keys).Ok?
    requires KindOf(l) != NameLine && Segment(init).groups != []
    requires ParseLines(init + [l], options, keys) == Step(ParseLines(init, options, keys), l, options, keys)
    ensures AgreesWithSegments(init + [l], options, keys)
  {
    var lines := init + [l];
    assert lines[..|lines| - 1] == init;
    var lead, groups := Segment(init).lead, Segment(init).groups;
    var g := groups[|groups| - 1];
    var groups' := groups[..|groups| - 1] + [Group(g.name, g.body + [l])];
    assert Segment(lines) == Layout(lead, groups');
    var records := ParseLines(init, options, keys).value;
    assert records == Records(groups, options, keys);
    if IsDataLine(l) {
      assert ParseLines(lines, options, keys) == Ok(SetLast(records, KeyFor(l, keys), Trim(l)));
      RecordsAppendData(groups, l, options, keys);
    } else {
      assert ParseLines(lines, options, keys) == Ok(records);
      RecordsAppendBlank(groups, l, options, keys);
    }
  }

  lemma RecordsAppendData(groups: seq<Group>, l: string, options: JsObject, keys: DataKeys)
    requires DistinctKeys(keys) && IsDataLine(l) && groups != []
    ensures var g := groups[|groups| - 1];
      Records(groups[..|groups| - 1] + [Group(g.name, g.body + [l])], options, keys)
        == SetLast(Records(groups, options, keys), KeyFor(l, keys), Trim(l))
  {
    var n := |groups|;
    var g := groups[n - 1];
    var groups' := groups[..n - 1] + [Group(g.name, g.body + [l])];
    var before, after := Records(groups, options, keys), Records(groups', options, keys);
    forall k | 0 <= k < n - 1 ensures after[k] == before[k] {
      assert groups'[k] == groups[k];
    }
    assert after[..n - 1] == before[..n - 1];
    BuildAppendData(g, l, options, keys);
    assert after == after[..n - 1] + [after[n - 1]];
  }

  lemma RecordsAppendBlank(groups: seq<Group>, l: string, options: JsObject, keys: DataKeys)
    requires KindOf(l) == Blank && groups != []
    ensures var g := groups[|groups| - 1];
      Records(groups[..|groups| - 1] + [Group(g.name, g.body + [l])], options, keys)
        == Records(groups, options, keys)
  {
    var n := |groups|;
    var g := groups[n - 1];
    var groups' := groups[..n - 1] + [Group(g.name, g.body + [l])];
    var before, after := Records(groups, options, keys), Records(groups', options, keys);
    forall k | 0 <= k < n ensures after[k] == before[k] {
      if k < n - 1 {
        assert groups'[k] == groups[k];
      } else {
        BuildAppendBlank(g, l, options, keys);
      }
    }
    assert after == before;
  }

  // ---------------------------------------------------------------------------
  // Consequences: when the parse throws, and what each record holds
  // ---------------------------------------------------------------------------

  /** No name line among the first `i` lines. */
  predicate NoNameLineBefore(lines: seq<string>, i: int)
    requires 0 <= i <= |lines|
  {
    forall j :: 0 <= j < i ==> KindOf(lines[j]) != NameLine
  }

  /** The lead is the prefix of the text up to its first name line. */
  predicate IsLeadOf(lead: seq<string>, lines: seq<string>)
  {
    && |lead| <= |lines|
    && lead == lines[..|lead|]
    && NoNameLineBefore(lines, |lead|)
    && (|lead| < |lines| ==> KindOf(lines[|lead|]) == NameLine)
  }

  lemma FlattenNonEmpty(groups: seq<Group>)
    requires groups != []
    ensures |Flatten(groups)| > 0
  {
  }

  lemma {:induction false} SegmentLead(lines: seq<string>)
    ensures IsLeadOf(Segment(lines).lead, lines)
    decreases |lines|
  {
    if lines != [] {
      var init, l := lines[..|lines| - 1], lines[|lines| - 1];
      SegmentLead(init);
      LeadStep(init, l);
      assert lines == init + [l];
    }
  }

  lemma LeadStep(init: seq<string>, l: string)
    requires IsLeadOf(Segment(init).lead, init)
    ensures IsLeadOf(Segment(init + [l]).lead, init + [l])
  {
    var lines := init + [l];
    assert lines[..|lines| - 1] == init;
    var prev := Segment(init);
    var m := |prev.lead|;
    SegmentRebuilds(init);
    NoNameLineExtend(init, l, m);
    if KindOf(l) == NameLine {
      assert Segment(lines).lead == prev.lead;
      assert lines[..m] == init[..m];
      assert lines[m] == if m == |init| then l else init[m];
    } else if prev.groups == [] {
      assert prev.lead == init;
      assert Segment(lines).lead == lines;
      assert lines[..|lines|] == lines;
    } else {
      FlattenNonEmpty(prev.groups);
      assert Segment(lines).lead == prev.lead;
      assert lines[..m] == init[..m];
      assert lines[m] == init[m];
    }
  }

  lemma NoNameLineExtend(init: seq<string>, l: string, m: nat)
    requires m <= |init| && NoNameLineBefore(init, m)
    ensures NoNameLineBefore(init + [l], m)
    ensures KindOf(l) != NameLine && m == |init| ==> NoNameLineBefore(init + [l], m + 1)
  {
    var lines := init + [l];
    assert forall j :: 0 <= j < m ==> lines[j] == init[j];
  }

  /**
   * The parsers throw exactly when some element line comes before every
   * name line: there is no record yet to store it on.
   */
  lemma ParseFailsIff(lines: seq<string>, options: JsObject, keys: DataKeys)
    requires DistinctKeys(keys)
    ensures ParseLines(lines, options, keys).Err? <==>
      exists i :: 0 <= i < |lines| && IsDataLine(lines[i]) && NoNameLineBefore(lines, i)
  {
    ParseBySegments(lines, options, keys);
    SegmentLead(lines);
    LeadDataLine(Segment(lines).lead, lines);
  }

  /** An element line in the lead is one with no name line before it. */
  lemma LeadDataLine(lead: seq<string>, lines: seq<string>)
    requires IsLeadOf(lead, lines)
    ensures HasDataLine(lead) <==>
      exists i :: 0 <= i < |lines| && IsDataLine(lines[i]) && NoNameLineBefore(lines, i)
  {
    if HasDataLine(lead) {
      var i :| 0 <= i < |lead| && IsDataLine(lead[i]);
      assert lines[i] == lead[i];
      assert NoNameLineBefore(lines, i);
    } else {
      forall i | 0 <= i < |lines| && IsDataLine(lines[i])
        ensures !NoNameLineBefore(lines, i)
      {
        if i > |lead| {
          assert KindOf(lines[|lead|]) == NameLine;
        }
      }
    }
  }

  /** Blank lines alone leave the record list empty. */
  lemma {:induction false} BlanksParseEmpty(lines: seq<string>, options: JsObject, keys: DataKeys)
    requires forall j :: 0 <= j < |lines| ==> KindOf(lines[j]) == Blank
    ensures ParseLines(lines, options, keys) == Ok([])
    decreases |lines|
  {
    if lines != [] {
      BlanksParseEmpty(lines[..|lines| - 1], options, keys);
    }
  }

  /** The TypeError names the property of the first line that is not blank,
      when that line is an element line. */
  lemma DataLineBeforeNameFails(lines: seq<string>, i: nat, options: JsObject, keys: DataKeys)
    requires i < |lines| && IsDataLine(lines[i])
    requires forall j :: 0 <= j < i ==> KindOf(lines[j]) == Blank
    ensures ParseLines(lines, options, keys) == Err(CannotSetPropertyOfNull(KeyFor(lines[i], keys)))
  {
    var prefix := lines[..i + 1];
    assert prefix[..i] == lines[..i];
    BlanksParseEmpty(lines[..i], options, keys);
    assert ParseLines(prefix, options, keys) == Step(Ok([]), lines[i], options, keys);
    FailureIsFinal(lines, i + 1, options, keys);
  }

  /**
   * The properties of a built record: `name` is the name line unless an
   * option replaces it; each element property holds the last line of its
   * kind, or the option of that name when the group has none; every other
   * property is the option's.
   */
  lemma BuildFields(g: Group, options: JsObject, keys: DataKeys, prop: string)
    requires DistinctKeys(keys) && keys.line1 != "name" && keys.line2 != "name"
    ensures prop == "name" ==>
      Get(Build(g, options, keys), prop) ==
        (if "name" in options then options["name"] else Str(Trim(g.name)))
    ensures prop == keys.line1 ==>
      Get(Build(g, options, keys), prop) ==
        (if LastOfKind(g.body, Line1).Some? then Str(LastOfKind(g.body, Line1).value) else Get(options, prop))
    ensures prop == keys.line2 ==>
      Get(Build(g, options, keys), prop) ==
        (if LastOfKind(g.body, Line2).Some? then Str(LastOfKind(g.body, Line2).value) else Get(options, prop))
    ensures prop != "name" && prop != keys.line1 && prop != keys.line2 ==>
      Get(Build(g, options, keys), prop) == Get(options, prop)
    ensures prop in Build(g, options, keys) <==>
      || prop in options || prop == "name"
      || (prop == keys.line1 && LastOfKind(g.body, Line1).Some?)
      || (prop == keys.line2 && LastOfKind(g.body, Line2).Some?)
  {
  }

  /**
   * A successful parse yields exactly one record per name line, in order,
   * and the `k`-th record's `name` is the `k`-th name line, trimmed, unless
   * the options carry a `name`.
   */
  lemma ParsedNames(lines: seq<string>, options: JsObject, keys: DataKeys, k: nat)
    requires DistinctKeys(keys) && keys.line1 != "name" && keys.line2 != "name"
    requires ParseLines(lines, options, keys).Ok?
    ensures |ParseLines(lines, options, keys).value| == |NameLinesOf(lines)|
    ensures k < |NameLinesOf(lines)| ==>
      Get(ParseLines(lines, options, keys).value[k], "name") ==
        (if "name" in options then options["name"] else Str(Trim(NameLinesOf(lines)[k])))
  {
    ParseBySegments(lines, options, keys);
    SegmentNames(lines);
    var groups := Segment(lines).groups;
    assert |NameLinesOf(lines)| == |groups|;
    if k < |groups| {
      assert NameLinesOf(lines)[k] == groups[k].name;
      BuildFields(groups[k], options, keys, "name");
    }
  }
}
