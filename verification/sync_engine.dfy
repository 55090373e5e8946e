/**
 * The synchronisation engine of js/syncEngine.js as an object. Its fields
 * stand for the module-level state: whether `initSyncEngine` has run (the
 * map and the two layer groups exist), `currentDisplayedDate`, the
 * `visibleStations` key set, the contents of the station and line layer
 * groups, and the legend the engine last rendered. The station list and the
 * line registry are the engine's fixed data.
 */
module SyncEngine {
  import opened Text
  import opened Dates
  import opened Sequences
  import opened Stations
  import opened Lines

  /** What the map shows: the coordinate key set, the two layers and the legend rows. */
  datatype View = View(visible: set<Coord>, markers: seq<Marker>, segments: seq<Segment>, legend: seq<LegendEntry>)

  /** The view drawn for the open stations `open`: the legend is read off the markers. */
  function ViewOf(reg: seq<LineEntry>, open: seq<Station>): View
  {
    var m := MarkersFor(reg, open);
    View(Coords(open), m, SegmentsFor(reg, open), LegendFor(reg, m))
  }

  /** The date the engine starts with and returns to on reset. */
  const DefaultDate := "1900-01-01"

  class Engine {
    const allStations: seq<Station>
    const metroLines: seq<LineEntry>

    var initialized: bool
    var currentDisplayedDate: string
    var visibleStations: set<Coord>
    var markers: seq<Marker>
    var segments: seq<Segment>
    var legend: seq<LegendEntry>

    /** The key set, the two layers and the legend as they stand. */
    function CurrentView(): View
      reads this`visibleStations, this`markers, this`segments, this`legend
    {
      View(visibleStations, markers, segments, legend)
    }

    /**
     * The drawn state for target day `d`: a pure function of `d`, the
     * station list and the registry.
     */
    predicate Shows(d: Date)
      reads this`visibleStations, this`markers, this`segments, this`legend
    {
      CurrentView() == ViewOf(metroLines, VisibleAt(allStations, d))
    }

    /** The legend container holds the "no line visible" placeholder. */
    predicate ShowsPlaceholder()
      reads this
    {
      legend == []
    }

    constructor (stations: seq<Station>, lines: seq<LineEntry>)
      ensures allStations == stations && metroLines == lines
      ensures !initialized && currentDisplayedDate == DefaultDate
      ensures visibleStations == {} && markers == [] && segments == [] && legend == []
    {
      allStations, metroLines := stations, lines;
      initialized := false;
      currentDisplayedDate := DefaultDate;
      visibleStations := {};
      markers, segments, legend := [], [], [];
    }

    /** `initSyncEngine(map)`: creates two fresh, empty layer groups. */
    method InitSyncEngine()
      modifies this
      ensures initialized && markers == [] && segments == []
      ensures currentDisplayedDate == old(currentDisplayedDate) && visibleStations == old(visibleStations)
      ensures legend == old(legend)
    {
      initialized := true;
      markers, segments := [], [];
    }

    /**
     * `updateMapToDate(target)`: before initialisation nothing changes;
     * afterwards the displayed date is the target and the layers and legend
     * are redrawn from scratch for that day.
     */
    method UpdateMapToDate(target: string)
      requires ParseIso(target).Some?
      modifies this`currentDisplayedDate, this`visibleStations, this`markers, this`segments, this`legend
      ensures !initialized ==> unchanged(this)
      ensures initialized ==> currentDisplayedDate == target && Shows(ParseIso(target).value)
    {
      if initialized {
        ShowDay(target, ParseIso(target).value);
      }
    }

    /**
     * The body of `updateMapToDate` once the target is parsed: record the
     * date, filter the stations, redraw both layers, then the legend.
     */
    method ShowDay(target: string, day: Date)
      modifies this`currentDisplayedDate, this`visibleStations, this`markers, this`segments, this`legend
      ensures currentDisplayedDate == target
      ensures Shows(day)
    {
      currentDisplayedDate := target;
      var stationsToShow := VisibleAt(allStations, day);
      Redraw(stationsToShow);
    }

    /** The three redraws of `updateMapToDate`: station layer, line layer, legend. */
    method Redraw(stationsToShow: seq<Station>)
      modifies this`visibleStations, this`markers, this`segments, this`legend
      ensures CurrentView() == ViewOf(metroLines, stationsToShow)
    {
      DrawLayers(stationsToShow);
      UpdateLegend();
    }

    /** The two layer redraws of `updateMapToDate`, stations first. */
    method DrawLayers(stationsToShow: seq<Station>)
      modifies this`visibleStations, this`markers, this`segments
      ensures visibleStations == Coords(stationsToShow)
      ensures markers == MarkersFor(metroLines, stationsToShow)
      ensures segments == SegmentsFor(metroLines, stationsToShow)
    {
      UpdateStationMarkers(stationsToShow);
      UpdateMetroLines(stationsToShow);
    }

    /**
     * `updateStationMarkers(stations)`: clears the station layer and the key
     * set, then adds a marker for each station whose coordinate key is not
     * yet in the set.
     */
    method UpdateStationMarkers(stations: seq<Station>)
      modifies this`markers, this`visibleStations
      ensures markers == MarkersFor(metroLines, stations)
      ensures visibleStations == Coords(stations)
    {
      markers := [];
      visibleStations := {};
      for i := 0 to |stations|
        invariant visibleStations == Coords(stations[..i])
        invariant markers == MarkersOf(metroLines, FirstAtEachCoord(stations[..i]))
      {
        var station := stations[i];
        assert stations[..i + 1] == stations[..i] + [station];
        MarkerStep(metroLines, stations[..i], station);
        if station.coords in visibleStations {
          continue;
        }
        visibleStations := visibleStations + {station.coords};
        markers := markers + [Marker(station, GetLineColor(metroLines, station.line))];
      }
      assert stations[..|stations|] == stations;
    }

    /**
     * `updateMetroLines(stations)`: clears the line layer, groups the
     * stations by line, then for each line (in `Object.keys` order) sorts its
     * stations by opening date and draws a segment between each consecutive
     * pair on the same line.
     */
    method UpdateMetroLines(stations: seq<Station>)
      modifies this`segments
      ensures segments == SegmentsFor(metroLines, stations)
    {
      segments := [];
      var stationsByLine, insertionOrder := GroupByLine(stations);
      var keys := ObjectKeyOrder(insertionOrder);
      ObjectKeyOrderDistinct(insertionOrder);
      DrawLines(stations, stationsByLine, keys);
    }

    /** The drawing loop of `updateMetroLines`, on the cleared line layer: each key's line, one after another. */
    method DrawLines(stations: seq<Station>, stationsByLine: map<string, seq<Station>>, keys: seq<string>)
      requires segments == []
      requires forall l :: l in keys ==> l in stationsByLine && stationsByLine[l] == OnLine(stations, l) != []
      modifies this`segments
      ensures segments == SegmentsOver(metroLines, stations, keys)
    {
      for k := 0 to |keys|
        invariant segments == SegmentsOver(metroLines, stations, keys[..k])
      {
        var line := keys[k];
        var lineStations := SortByOpening(stationsByLine[line]);
        SortedOnLine(stations, line);
        DrawLine(line, GetLineColor(metroLines, line), lineStations);
        assert keys[..k + 1][..k] == keys[..k];
      }
      assert keys[..|keys|] == keys;
    }

    /**
     * The index loop of `updateMetroLines` for one line: a segment between
     * each consecutive pair of the sorted stations that are on the same line.
     */
    method DrawLine(line: string, color: string, lineStations: seq<Station>)
      requires lineStations != []
      requires forall x :: x in lineStations ==> x.line == line
      modifies this`segments
      ensures segments == old(segments) + Chain(line, color, lineStations)
    {
      var i := 0;
      while i < |lineStations| - 1
        invariant 0 <= i <= |lineStations| - 1
        invariant segments == old(segments) + Chain(line, color, lineStations[..i + 1])
      {
        var start, end := lineStations[i], lineStations[i + 1];
        assert lineStations[..i + 2][..i + 1] == lineStations[..i + 1];
        if start.line == end.line {
          segments := segments + [Segment(line, color, start, end)];
        }
        i := i + 1;
      }
      assert lineStations[..i + 1] == lineStations;
    }

    /**
     * `updateLegend()`: collects the line ids read off the drawn markers,
     * sorts them as strings and renders one row per id that the registry
     * knows.
     */
    method UpdateLegend()
      modifies this`legend
      ensures legend == LegendFor(metroLines, markers)
    {
      var visibleLines := CollectLineIds(markers);
      var sorted := SortStrings(visibleLines);
      var html := LegendRows(metroLines, sorted);
      legend := html;
    }

    /**
     * `resetView()`: the update for the default date. Before initialisation
     * the update does nothing and the following `map.setView` throws, so the
     * state is unchanged either way; the map centre and zoom are not modelled.
     */
    method ResetView()
      modifies this`currentDisplayedDate, this`visibleStations, this`markers, this`segments, this`legend
      ensures !initialized ==> unchanged(this)
      ensures initialized ==> currentDisplayedDate == DefaultDate && Shows(Date(1900, 1, 1))
    {
      DefaultDateParses();
      UpdateMapToDate(DefaultDate);
    }
  }

  /** One step of the marker loop: a station at a new coordinate pair gets the next marker. */
  lemma MarkerStep(reg: seq<LineEntry>, s: seq<Station>, x: Station)
    ensures Coords(s + [x]) == Coords(s) + {x.coords}
    ensures x.coords in Coords(s) ==> MarkersOf(reg, FirstAtEachCoord(s + [x])) == MarkersOf(reg, FirstAtEachCoord(s))
    ensures x.coords !in Coords(s) ==> MarkersOf(reg, FirstAtEachCoord(s + [x]))
                                       == MarkersOf(reg, FirstAtEachCoord(s)) + [Marker(x, GetLineColor(reg, x.line))]
  {
    CoordsSnoc(s, x);
    FirstAtEachCoordSnoc(s, x);
    MarkersOfSnoc(reg, FirstAtEachCoord(s), x);
  }

  /** The default date is the first of January 1900. */
  lemma DefaultDateParses()
    ensures ParseIso(DefaultDate) == Some(Date(1900, 1, 1))
  {
    assert DefaultDate[..4] == "1900" && DefaultDate[5..7] == "01" && DefaultDate[8..] == "01";
    assert DecimalValue("1900") == 1900 by {
      assert "1900"[..3] == "190" && "190"[..2] == "19" && "19"[..1] == "1" && "1"[..0] == [];
    }
    assert DecimalValue("01") == 1 by {
      assert "01"[..1] == "0" && "0"[..0] == [];
    }
  }

  /**
   * The grouping loop of `updateMetroLines`: `stationsByLine[l]` receives
   * the stations of line `l` in order; the keys are recorded in the order
   * they were first added.
   */
  method GroupByLine(stations: seq<Station>) returns (stationsByLine: map<string, seq<Station>>, insertionOrder: seq<string>)
    ensures insertionOrder == LineIds(stations)
    ensures forall l :: l in stationsByLine <==> l in insertionOrder
    ensures forall l :: l in stationsByLine ==> stationsByLine[l] == OnLine(stations, l) != []
  {
    stationsByLine := map[];
    insertionOrder := [];
    for i := 0 to |stations|
      invariant insertionOrder == LineIds(stations[..i])
      invariant forall l :: l in stationsByLine <==> l in insertionOrder
      invariant forall l :: l in stationsByLine ==> stationsByLine[l] == OnLine(stations[..i], l) != []
    {
      var station := stations[i];
      ghost var before := stations[..i];
      assert stations[..i + 1] == before + [station];
      assert (before + [station])[..i] == before;
      var current: seq<Station> := [];
      if station.line in stationsByLine {
        current := stationsByLine[station.line];
      } else {
        OnLineEmpty(before, station.line);
        insertionOrder := insertionOrder + [station.line];
      }
      assert current == OnLine(before, station.line);
      stationsByLine := stationsByLine[station.line := current + [station]];
      forall l | l in stationsByLine
        ensures stationsByLine[l] == OnLine(before + [station], l) != []
      {
        if l != station.line {
          assert OnLine(before + [station], l) == OnLine(before, l);
        }
      }
    }
    assert stations[..|stations|] == stations;
  }

  /** The legend rows, one per id that has a registry record, in the order of `ids`. */
  method LegendRows(reg: seq<LineEntry>, ids: seq<string>) returns (html: seq<LegendEntry>)
    ensures html == Entries(reg, ids)
  {
    html := [];
    for k := 0 to |ids|
      invariant html == Entries(reg, ids[..k])
    {
      assert ids[..k + 1] == ids[..k] + [ids[k]];
      EntriesSnoc(reg, ids[..k], ids[k]);
      var lineInfo := Lookup(reg, ids[k]);
      if lineInfo.Some? {
        html := html + [LegendEntry(ids[k], lineInfo.value.name, lineInfo.value.color, lineInfo.value.openingYear)];
      }
    }
    assert ids[..|ids|] == ids;
  }

  /**
   * The first loop of `updateLegend`: the line ids read off the markers'
   * class names, each once, in the order first seen.
   */
  method CollectLineIds(markers: seq<Marker>) returns (visibleLines: seq<string>)
    ensures visibleLines == SeenLineIds(markers)
  {
    visibleLines := [];
    for i := 0 to |markers|
      invariant visibleLines == SeenLineIds(markers[..i])
    {
      SeenLineIdsStep(markers, i);
      var id := MarkerLineId(markers[i]);
      if id.Some? && id.value !in visibleLines {
        visibleLines := visibleLines + [id.value];
      }
    }
    assert markers[..|markers|] == markers;
  }

  /**
   * Redrawing is idempotent: the layers are cleared before they are redrawn,
   * so an update to the date already shown leaves the date and the drawn
   * state as they were.
   */
  method UpdateToShownDate(e: Engine, target: string)
    requires ParseIso(target).Some?
    requires e.initialized ==> e.currentDisplayedDate == target && e.Shows(ParseIso(target).value)
    modifies e`currentDisplayedDate, e`visibleStations, e`markers, e`segments, e`legend
    ensures e.currentDisplayedDate == old(e.currentDisplayedDate) && e.CurrentView() == old(e.CurrentView())
  {
    ghost var shown := e.CurrentView();
    e.UpdateMapToDate(target);
    if e.initialized {
      assert e.CurrentView() == ViewOf(e.metroLines, VisibleAt(e.allStations, ParseIso(target).value)) == shown;
    }
  }

  /** With no station open the map is empty: no marker, no segment, and the legend placeholder. */
  lemma ViewOfNoStations(reg: seq<LineEntry>)
    ensures ViewOf(reg, []) == View({}, [], [], [])
  {
    var m := MarkersFor(reg, []);
    assert |m| == 0;
    assert LineIds([]) == [] && ObjectKeyOrder([]) == [];
    assert SeenLineIds(m) == [];
  }

  /** Station `i` of `s` belongs to line `id`, and so does every station at its position. */
  predicate SoleLineAt(s: seq<Station>, i: int, id: string)
    requires 0 <= i < |s|
  {
    s[i].line == id && forall j :: 0 <= j < |s| && s[j].coords == s[i].coords ==> s[j].line == id
  }

  /** Station `i` of `s` is open on `d` and its position shows only line `id`. */
  predicate Anchors(s: seq<Station>, d: Date, i: int, id: string)
  {
    0 <= i < |s| && OnOrBefore(s[i].opening, d) && SoleLineAt(s, i, id)
  }

  /** A station that keeps its marker on day `d` is one of the stations open on `d`. */
  lemma MarkedStationIsOpen(s: seq<Station>, d: Date, x: Station)
    requires x in FirstAtEachCoord(VisibleAt(s, d))
    ensures x in s && OnOrBefore(x.opening, d)
  {
    var open := VisibleAt(s, d);
    VisibleAtSpec(s, d);
    var i := KeptIsFirst(open, x);
    assert x in open;
  }

  /** Every station open on day `d` shares its position with a station that keeps a marker. */
  lemma OpenStationIsMarked(s: seq<Station>, d: Date, i: int) returns (m: int)
    requires 0 <= i < |s| && OnOrBefore(s[i].opening, d)
    ensures var kept := FirstAtEachCoord(VisibleAt(s, d));
      0 <= m < |kept| && kept[m].coords == s[i].coords
  {
    var open := VisibleAt(s, d);
    VisibleAtSpec(s, d);
    var kept := FirstAtEachCoord(open);
    assert s[i] in open;
    assert s[i].coords in Coords(kept);
    m :| 0 <= m < |kept| && kept[m].coords == s[i].coords;
  }

  /**
   * Every station open on `d` belongs to one of the digit-only ids `ids`,
   * and `anchors` names an anchoring station for each of them.
   */
  predicate OpenStationsOn(s: seq<Station>, d: Date, ids: seq<string>, anchors: seq<int>)
  {
    && (forall i :: 0 <= i < |s| && OnOrBefore(s[i].opening, d) ==> s[i].line != [] && AllDigits(s[i].line) && s[i].line in ids)
    && |anchors| == |ids| && (forall k :: 0 <= k < |ids| ==> Anchors(s, d, anchors[k], ids[k]))
  }

  /** Under `OpenStationsOn`, the marker line ids for the stations open on `d` are exactly `ids`. */
  lemma MarkerIdsOfOpenStations(reg: seq<LineEntry>, s: seq<Station>, d: Date, ids: seq<string>, anchors: seq<int>)
    requires OpenStationsOn(s, d, ids, anchors)
    ensures MarkersShowIds(MarkersFor(reg, VisibleAt(s, d)), ids)
  {
    var kept := FirstAtEachCoord(VisibleAt(s, d));
    var markers := MarkersFor(reg, VisibleAt(s, d));
    assert markers == MarkersOf(reg, kept);
    forall id ensures (exists m :: 0 <= m < |markers| && MarkerLineId(markers[m]) == Some(id)) <==> id in ids {
      if m :| 0 <= m < |markers| && MarkerLineId(markers[m]) == Some(id) {
        assert markers[m].station == kept[m];
        MarkedStationIsOpen(s, d, kept[m]);
        var i :| 0 <= i < |s| && s[i] == kept[m];
        MarkerLineIdOfLine(markers[m]);
      }
      if id in ids {
        var k :| 0 <= k < |ids| && ids[k] == id;
        var i := anchors[k];
        assert Anchors(s, d, i, id);
        var m := OpenStationIsMarked(s, d, i);
        MarkedStationIsOpen(s, d, kept[m]);
        var j :| 0 <= j < |s| && s[j] == kept[m];
        assert markers[m].station == kept[m];
        MarkerLineIdOfLine(markers[m]);
      }
    }
  }

  /**
   * What the legend for day `d` needs to list exactly `ids`: `ids` in string
   * order and registered, every open station on one of them, and an
   * anchoring station for each.
   */
  predicate LegendConditions(reg: seq<LineEntry>, s: seq<Station>, d: Date, ids: seq<string>, anchors: seq<int>)
  {
    && (forall i, j :: 0 <= i < j < |ids| ==> StrLt(ids[i], ids[j]))
    && (forall id :: id in ids ==> Lookup(reg, id).Some?)
    && OpenStationsOn(s, d, ids, anchors)
  }

  /** Under `LegendConditions`, the legend drawn for day `d` lists exactly `ids`, in order. */
  lemma LegendOfOpenStations(reg: seq<LineEntry>, s: seq<Station>, d: Date, ids: seq<string>, anchors: seq<int>)
    requires LegendConditions(reg, s, d, ids, anchors)
    ensures EntryIds(LegendFor(reg, MarkersFor(reg, VisibleAt(s, d)))) == ids
  {
    MarkerIdsOfOpenStations(reg, s, d, ids, anchors);
    LegendIdsAre(reg, MarkersFor(reg, VisibleAt(s, d)), ids);
  }
}
