/**
 * The line registry (`metroLines`) and what the engine derives from it:
 * the colour lookup, the drawn markers, the polyline segments joining each
 * line's stations, and the legend of visible lines.
 */
module Lines {
  import opened Text
  import opened Dates
  import opened Sequences
  import opened Stations

  datatype LineInfo = LineInfo(name: string, color: string, openingYear: string)

  /** One key of `metroLines` with its record; the registry lists them in declaration order. */
  datatype LineEntry = LineEntry(id: string, info: LineInfo)

  function Ids(reg: seq<LineEntry>): (r: seq<string>)
    ensures |r| == |reg|
    ensures forall k :: 0 <= k < |reg| ==> r[k] == reg[k].id
  {
    seq(|reg|, k requires 0 <= k < |reg| => reg[k].id)
  }

  /** No key is listed twice: the registry as `Object.keys` sees it, one record per key. */
  predicate UniqueIds(reg: seq<LineEntry>)
  {
    forall i, j :: 0 <= i < j < |reg| ==> reg[i].id != reg[j].id
  }

  /** `metroLines[id]`: the record under that key, or undefined. */
  function Lookup(reg: seq<LineEntry>, id: string): (r: Option<LineInfo>)
    ensures r.None? <==> forall k :: 0 <= k < |reg| ==> reg[k].id != id
    ensures r.Some? ==> exists k :: 0 <= k < |reg| && reg[k] == LineEntry(id, r.value)
  {
    if reg == [] then None
    else if reg[0].id == id then Some(reg[0].info)
    else
      var r := Lookup(reg[1..], id);
      assert forall k :: 1 <= k < |reg| ==> reg[k] == reg[1..][k - 1];
      r
  }

  lemma LookupRegistered(reg: seq<LineEntry>, k: int)
    requires UniqueIds(reg) && 0 <= k < |reg|
    ensures Lookup(reg, reg[k].id) == Some(reg[k].info)
  {
    LookupFirst(reg, k);
  }

  /** The lookup finds the first entry under a key, whatever entries follow it. */
  lemma {:induction false} LookupFirst(reg: seq<LineEntry>, k: int)
    requires 0 <= k < |reg| && forall j :: 0 <= j < k ==> reg[j].id != reg[k].id
    ensures Lookup(reg, reg[k].id) == Some(reg[k].info)
  {
    if k > 0 {
      LookupFirst(reg[1..], k - 1);
    }
  }

  const FallbackColor := "#999999"

  /** `metroLines[id]?.color || '#999999'`: never fails and never yields the empty string. */
  function GetLineColor(reg: seq<LineEntry>, id: string): (c: string)
    ensures c != ""
    ensures c == FallbackColor || exists k :: 0 <= k < |reg| && reg[k].id == id && reg[k].info.color == c
  {
    match Lookup(reg, id)
    case Some(info) => if info.color != "" then info.color else FallbackColor
    case None => FallbackColor
  }

  /** A registered line gets its own colour; an unknown id gets the neutral grey. */
  lemma LineColorCases(reg: seq<LineEntry>, id: string)
    requires UniqueIds(reg)
    ensures forall k :: 0 <= k < |reg| && reg[k].id == id && reg[k].info.color != "" ==> GetLineColor(reg, id) == reg[k].info.color
    ensures (forall k :: 0 <= k < |reg| ==> reg[k].id != id) ==> GetLineColor(reg, id) == FallbackColor
  {
    forall k | 0 <= k < |reg| && reg[k].id == id && reg[k].info.color != ""
      ensures GetLineColor(reg, id) == reg[k].info.color
    {
      LookupRegistered(reg, k);
    }
  }

  // ---------------------------------------------------------------------
  // The enumeration order of `Object.keys`: keys that are array indices
  // (canonical decimal numbers below 2^32 - 1) first, in ascending numeric
  // order, then the other keys in insertion order.
  // ---------------------------------------------------------------------

  predicate IsArrayIndex(k: string)
  {
    Canonical(k) && DecimalValue(k) < 4294967295
  }

  /** The keys that are (`index` true) or are not (`index` false) array indices, in order. */
  function KeysWhere(keys: seq<string>, index: bool): (r: seq<string>)
    ensures forall k :: k in r ==> k in keys && IsArrayIndex(k) == index
  {
    if keys == [] then []
    else (if IsArrayIndex(keys[0]) == index then [keys[0]] else []) + KeysWhere(keys[1..], index)
  }

  lemma {:induction false} KeysPartition(keys: seq<string>)
    ensures multiset(KeysWhere(keys, true)) + multiset(KeysWhere(keys, false)) == multiset(keys)
  {
    if keys != [] {
      KeysPartition(keys[1..]);
      assert keys == [keys[0]] + keys[1..];
    }
  }

  /** The numeric value of an array-index key. */
  function IndexValue(k: string): nat
  {
    if AllDigits(k) then DecimalValue(k) else 0
  }

  predicate AllIndices(s: seq<string>)
  {
    forall i :: 0 <= i < |s| ==> IsArrayIndex(s[i])
  }

  /** Keys in non-decreasing numeric value. */
  predicate ValueSorted(s: seq<string>)
  {
    |s| < 2 || (IndexValue(s[0]) <= IndexValue(s[1]) && ValueSorted(s[1..]))
  }

  function InsertByValue(x: string, s: seq<string>): (r: seq<string>)
    requires ValueSorted(s)
    ensures |r| == |s| + 1 && (r[0] == x || (s != [] && r[0] == s[0]))
    ensures ValueSorted(r)
    ensures multiset(r) == multiset(s) + multiset{x}
  {
    if s == [] then [x]
    else if IndexValue(x) <= IndexValue(s[0]) then
      assert ([x] + s)[1..] == s;
      [x] + s
    else
      var t := InsertByValue(x, s[1..]);
      var r := [s[0]] + t;
      assert r[1..] == t;
      InsertAfterHead(s, t, x);
      r
  }

  function SortByValue(s: seq<string>): (r: seq<string>)
    ensures ValueSorted(r)
    ensures multiset(r) == multiset(s)
  {
    if s == [] then []
    else
      assert s == [s[0]] + s[1..];
      InsertByValue(s[0], SortByValue(s[1..]))
  }

  /** `Object.keys(o)` for an object whose keys were added in the order `keys`. */
  function ObjectKeyOrder(keys: seq<string>): (r: seq<string>)
    ensures multiset(r) == multiset(keys)
    ensures |KeysWhere(keys, true)| <= |r|
    ensures AllIndices(r[..|KeysWhere(keys, true)|]) && ValueSorted(r[..|KeysWhere(keys, true)|])
    ensures r[|KeysWhere(keys, true)|..] == KeysWhere(keys, false)
  {
    var index := KeysWhere(keys, true);
    var sorted := SortByValue(index);
    KeysPartition(keys);
    assert |sorted| == |multiset(sorted)| == |index|;
    var r := sorted + KeysWhere(keys, false);
    assert r[..|index|] == sorted && r[|index|..] == KeysWhere(keys, false);
    assert AllIndices(sorted) by {
      forall i | 0 <= i < |sorted| ensures IsArrayIndex(sorted[i]) {
        assert sorted[i] in multiset(sorted);
      }
    }
    r
  }

  /** Reordering the keys keeps them distinct, with the same members. */
  lemma ObjectKeyOrderDistinct(keys: seq<string>)
    requires Distinct(keys)
    ensures Distinct(ObjectKeyOrder(keys))
    ensures forall k :: k in ObjectKeyOrder(keys) <==> k in keys
  {
    var r := ObjectKeyOrder(keys);
    DistinctPermutation(r, keys);
    forall k ensures k in r <==> k in keys {
      assert k in r <==> k in multiset(r);
      assert k in keys <==> k in multiset(keys);
    }
  }

  // ---------------------------------------------------------------------
  // Segments: `updateMetroLines`.
  // ---------------------------------------------------------------------

  /** A polyline between two consecutive stations of a line, drawn in that line's colour. */
  datatype Segment = Segment(line: string, color: string, from: Station, to: Station)

  /** The segments the index loop draws along `s`: one between each consecutive pair. */
  function Chain(line: string, color: string, s: seq<Station>): (r: seq<Segment>)
    ensures |r| == if s == [] then 0 else |s| - 1
    ensures forall k :: 0 <= k < |r| ==> r[k] == Segment(line, color, s[k], s[k + 1])
  {
    if |s| < 2 then []
    else
      var init := s[..|s| - 1];
      Chain(line, color, init) + [Segment(line, color, s[|s| - 2], s[|s| - 1])]
  }

  /** What one line contributes: its stations, stably sorted by opening date, chained. */
  function LineSegments(reg: seq<LineEntry>, stations: seq<Station>, line: string): seq<Segment>
  {
    Chain(line, GetLineColor(reg, line), SortByOpening(OnLine(stations, line)))
  }

  /** The segments drawn for the lines `keys`, one line after another. */
  function SegmentsOver(reg: seq<LineEntry>, stations: seq<Station>, keys: seq<string>): seq<Segment>
  {
    if keys == [] then []
    else SegmentsOver(reg, stations, keys[..|keys| - 1]) + LineSegments(reg, stations, keys[|keys| - 1])
  }

  /** Everything `updateMetroLines(stations)` draws, lines in `Object.keys` order. */
  function SegmentsFor(reg: seq<LineEntry>, stations: seq<Station>): seq<Segment>
  {
    SegmentsOver(reg, stations, ObjectKeyOrder(LineIds(stations)))
  }

  /** The drawn segments that belong to `line`, in drawing order. */
  function SegmentsOfLine(segs: seq<Segment>, line: string): (r: seq<Segment>)
    ensures forall k :: 0 <= k < |r| ==> r[k] in segs && r[k].line == line
  {
    if segs == [] then []
    else
      var init := segs[..|segs| - 1];
      var p := SegmentsOfLine(init, line);
      assert forall x :: x in init ==> x in segs;
      if segs[|segs| - 1].line == line then p + [segs[|segs| - 1]] else p
  }

  lemma {:induction false} SegmentsOfLineAppend(a: seq<Segment>, b: seq<Segment>, line: string)
    ensures SegmentsOfLine(a + b, line) == SegmentsOfLine(a, line) + SegmentsOfLine(b, line)
  {
    if b != [] {
      var b' := b[..|b| - 1];
      SegmentsOfLineAppend(a, b', line);
      assert (a + b)[..|a + b| - 1] == a + b';
    } else {
      assert a + b == a;
    }
  }

  lemma {:induction false} ChainOnOneLine(line: string, color: string, s: seq<Station>, other: string)
    ensures SegmentsOfLine(Chain(line, color, s), other) == if other == line then Chain(line, color, s) else []
  {
    if |s| >= 2 {
      var init := s[..|s| - 1];
      ChainOnOneLine(line, color, init, other);
      var c := Chain(line, color, s);
      assert c[..|c| - 1] == Chain(line, color, init);
    }
  }

  lemma {:induction false} SegmentsOverLine(reg: seq<LineEntry>, stations: seq<Station>, keys: seq<string>, line: string)
    requires Distinct(keys)
    ensures SegmentsOfLine(SegmentsOver(reg, stations, keys), line)
            == if line in keys then LineSegments(reg, stations, line) else []
  {
    if keys != [] {
      var init := keys[..|keys| - 1];
      var last := keys[|keys| - 1];
      assert Distinct(init);
      SegmentsOverLine(reg, stations, init, line);
      SegmentsOfLineAppend(SegmentsOver(reg, stations, init), LineSegments(reg, stations, last), line);
      ChainOnOneLine(last, GetLineColor(reg, last), SortByOpening(OnLine(stations, last)), line);
      assert line in keys <==> line in init || line == last;
      assert line == last ==> line !in init;
    }
  }

  /**
   * For each line, the drawn segments of that line are exactly its stations,
   * stably sorted by opening date, joined consecutively: k stations give
   * k - 1 segments, a line without stations gives none.
   */
  lemma SegmentsForLine(reg: seq<LineEntry>, stations: seq<Station>, line: string)
    ensures SegmentsOfLine(SegmentsFor(reg, stations), line) == LineSegments(reg, stations, line)
    ensures |SegmentsOfLine(SegmentsFor(reg, stations), line)|
            == if OnLine(stations, line) == [] then 0 else |OnLine(stations, line)| - 1
  {
    var ids := LineIds(stations);
    ObjectKeyOrderDistinct(ids);
    SegmentsOverLine(reg, stations, ObjectKeyOrder(ids), line);
    if line !in ids {
      OnLineEmpty(stations, line);
    }
    var sorted := SortByOpening(OnLine(stations, line));
    assert |sorted| == |multiset(sorted)| == |OnLine(stations, line)|;
  }

  /** A segment of `Chain` joins two stations of the chained list, the earlier first. */
  lemma ChainEndpoints(line: string, color: string, s: seq<Station>, seg: Segment)
    requires seg in Chain(line, color, s)
    ensures seg.line == line && seg.color == color && seg.from in s && seg.to in s
    ensures SortedByOpening(s) ==> OnOrBefore(seg.from.opening, seg.to.opening)
  {
    var r := Chain(line, color, s);
    var k :| 0 <= k < |r| && r[k] == seg;
    assert seg.from == s[k] && seg.to == s[k + 1];
    if SortedByOpening(s) {
      SortedByOpeningPairwise(s);
      assert OnOrBefore(s[k].opening, s[k + 1].opening);
    }
  }

  lemma LineSegmentsEndpoints(reg: seq<LineEntry>, stations: seq<Station>, line: string, seg: Segment)
    requires seg in LineSegments(reg, stations, line)
    ensures seg.line == line && seg.color == GetLineColor(reg, line)
    ensures seg.from in stations && seg.to in stations
    ensures seg.from.line == line && seg.to.line == line
    ensures OnOrBefore(seg.from.opening, seg.to.opening)
  {
    var on := OnLine(stations, line);
    var sorted := SortByOpening(on);
    ChainEndpoints(line, GetLineColor(reg, line), sorted, seg);
    assert seg.from in multiset(sorted) && seg.to in multiset(sorted);
    assert seg.from in on && seg.to in on;
  }

  lemma {:induction false} SegmentsOverEndpoints(reg: seq<LineEntry>, stations: seq<Station>, keys: seq<string>, seg: Segment)
    requires seg in SegmentsOver(reg, stations, keys)
    ensures seg.line in keys
    ensures seg.from in stations && seg.to in stations
    ensures seg.from.line == seg.line && seg.to.line == seg.line
    ensures OnOrBefore(seg.from.opening, seg.to.opening)
    ensures seg.color == GetLineColor(reg, seg.line)
  {
    var init := keys[..|keys| - 1];
    var last := keys[|keys| - 1];
    var before := SegmentsOver(reg, stations, init);
    assert SegmentsOver(reg, stations, keys) == before + LineSegments(reg, stations, last);
    if seg in before {
      SegmentsOverEndpoints(reg, stations, init, seg);
      assert seg.line in init;
    } else {
      LineSegmentsEndpoints(reg, stations, last, seg);
    }
  }

  /**
   * Every drawn segment joins two open stations of its own line, the earlier
   * opening first, in that line's colour: the same-line check in the drawing
   * loop never fails.
   */
  lemma SegmentsForEndpoints(reg: seq<LineEntry>, stations: seq<Station>)
    ensures forall seg :: seg in SegmentsFor(reg, stations) ==>
              seg.from in stations && seg.to in stations
              && seg.from.line == seg.line && seg.to.line == seg.line
              && OnOrBefore(seg.from.opening, seg.to.opening)
              && seg.color == GetLineColor(reg, seg.line)
  {
    forall seg | seg in SegmentsFor(reg, stations)
      ensures seg.from in stations && seg.to in stations
              && seg.from.line == seg.line && seg.to.line == seg.line
              && OnOrBefore(seg.from.opening, seg.to.opening)
              && seg.color == GetLineColor(reg, seg.line)
    {
      SegmentsOverEndpoints(reg, stations, ObjectKeyOrder(LineIds(stations)), seg);
    }
  }

  // ---------------------------------------------------------------------
  // Markers: `updateStationMarkers`.
  // ---------------------------------------------------------------------

  /** A circle marker: the station it stands for and its fill colour. */
  datatype Marker = Marker(station: Station, color: string)

  /** One marker per station, coloured by its line. */
  function MarkersOf(reg: seq<LineEntry>, s: seq<Station>): (r: seq<Marker>)
    ensures |r| == |s|
    ensures forall k :: 0 <= k < |s| ==> r[k] == Marker(s[k], GetLineColor(reg, s[k].line))
  {
    if s == [] then []
    else MarkersOf(reg, s[..|s| - 1]) + [Marker(s[|s| - 1], GetLineColor(reg, s[|s| - 1].line))]
  }

  lemma MarkersOfSnoc(reg: seq<LineEntry>, s: seq<Station>, x: Station)
    ensures MarkersOf(reg, s + [x]) == MarkersOf(reg, s) + [Marker(x, GetLineColor(reg, x.line))]
  {
    assert (s + [x])[..|s|] == s;
  }

  /** The markers `updateStationMarkers(stations)` draws: one per distinct coordinate pair. */
  function MarkersFor(reg: seq<LineEntry>, stations: seq<Station>): (r: seq<Marker>)
    ensures |r| == |Coords(stations)|
    ensures forall i, j :: 0 <= i < j < |r| ==> r[i].station.coords != r[j].station.coords
  {
    var kept := FirstAtEachCoord(stations);
    MarkerCountIsDistinctCoords(stations);
    MarkersOf(reg, kept)
  }

  // ---------------------------------------------------------------------
  // Legend: `updateLegend`.
  // ---------------------------------------------------------------------

  /** The `className` option of a station marker. */
  function ClassName(line: string): string
  {
    "metro-marker line-" + line
  }

  /** The line id the legend reads off a marker: the capture of `/line-(\d+)/` on its class. */
  function MarkerLineId(m: Marker): Option<string>
  {
    MatchLineDigits(ClassName(m.station.line))
  }

  lemma {:induction false} MatchSkipsPrefix(p: string, rest: string)
    requires forall i :: 0 <= i < |p| ==> p[i] != 'l'
    ensures MatchLineDigits(p + rest) == MatchLineDigits(rest)
  {
    if p != [] {
      assert (p + rest)[0] == p[0] != "line-"[0];
      assert !("line-" <= p + rest);
      assert MatchLineDigits(p + rest) == MatchLineDigits((p + rest)[1..]);
      assert (p + rest)[1..] == p[1..] + rest;
      MatchSkipsPrefix(p[1..], rest);
    } else {
      assert p + rest == rest;
    }
  }

  /**
   * A marker of a line whose id starts with a digit is read back as the
   * leading digit run of that id; for an all-digit id, the id itself.
   */
  lemma MarkerLineIdOfLine(m: Marker)
    requires m.station.line != [] && IsDigit(m.station.line[0])
    ensures MarkerLineId(m) == Some(LeadingDigits(m.station.line))
    ensures AllDigits(m.station.line) ==> MarkerLineId(m) == Some(m.station.line)
  {
    var line := m.station.line;
    var t := "line-" + line;
    MatchSkipsPrefix("metro-marker ", t);
    assert ClassName(line) == "metro-marker " + t;
    assert t[5..] == line;
    assert "line-" <= t && |t| > 5 && IsDigit(t[5]);
    if AllDigits(line) {
      AllDigitsLeading(line);
    }
  }

  /**
   * For a line id that does not start with a digit, the search goes on
   * inside the id itself; an id without any digit gives no line id, so its
   * markers add no legend row.
   */
  lemma MarkerLineIdOfOtherLine(m: Marker)
    requires m.station.line == [] || !IsDigit(m.station.line[0])
    ensures MarkerLineId(m) == MatchLineDigits(m.station.line)
    ensures (forall i :: 0 <= i < |m.station.line| ==> !IsDigit(m.station.line[i])) ==> MarkerLineId(m).None?
  {
    var line := m.station.line;
    var t := "line-" + line;
    MatchSkipsPrefix("metro-marker ", t);
    assert ClassName(line) == "metro-marker " + t;
    assert t[1..] == "ine-" + line;
    MatchSkipsPrefix("ine-", line);
    MatchLineDigitsNone(line);
  }

  /** The `visibleLines` set, in insertion order: the ids read off the markers, first occurrence kept. */
  function SeenLineIds(markers: seq<Marker>): (r: seq<string>)
    ensures Distinct(r)
    ensures forall id :: id in r <==> exists k :: 0 <= k < |markers| && MarkerLineId(markers[k]) == Some(id)
  {
    if markers == [] then []
    else
      var init := markers[..|markers| - 1];
      var p := SeenLineIds(init);
      assert forall k :: 0 <= k < |markers| - 1 ==> init[k] == markers[k];
      match MarkerLineId(markers[|markers| - 1])
      case Some(id) => if id in p then p else p + [id]
      case None => p
  }

  /** A legend row: line id, name, colour and opening year. */
  datatype LegendEntry = LegendEntry(id: string, name: string, color: string, openingYear: string)

  /** The rows for `ids` in order, skipping ids that have no record in the registry. */
  function Entries(reg: seq<LineEntry>, ids: seq<string>): (r: seq<LegendEntry>)
    ensures forall k :: 0 <= k < |r| ==> r[k].id in ids && Lookup(reg, r[k].id) == Some(LineInfo(r[k].name, r[k].color, r[k].openingYear))
    ensures forall id :: id in ids && Lookup(reg, id).Some? ==> exists k :: 0 <= k < |r| && r[k].id == id
  {
    if ids == [] then []
    else
      var init := ids[..|ids| - 1];
      var last := ids[|ids| - 1];
      var p := Entries(reg, init);
      assert forall x :: x in init ==> x in ids;
      assert forall x :: x in ids ==> x in init || x == last;
      match Lookup(reg, last)
      case Some(info) =>
        var r := p + [LegendEntry(last, info.name, info.color, info.openingYear)];
        assert r[|r| - 1].id == last;
        assert forall k :: 0 <= k < |p| ==> r[k] == p[k];
        r
      case None => p
  }

  lemma EntriesSnoc(reg: seq<LineEntry>, ids: seq<string>, x: string)
    ensures Entries(reg, ids + [x]) == if Lookup(reg, x).Some? then
        var info := Lookup(reg, x).value;
        Entries(reg, ids) + [LegendEntry(x, info.name, info.color, info.openingYear)]
      else Entries(reg, ids)
  {
    assert (ids + [x])[..|ids|] == ids;
  }

  /** One more marker read: its id joins the seen ids unless already there. */
  lemma SeenLineIdsStep(markers: seq<Marker>, i: int)
    requires 0 <= i < |markers|
    ensures SeenLineIds(markers[..i + 1]) == match MarkerLineId(markers[i])
      case Some(id) => if id in SeenLineIds(markers[..i]) then SeenLineIds(markers[..i]) else SeenLineIds(markers[..i]) + [id]
      case None => SeenLineIds(markers[..i])
  {
    assert markers[..i + 1][..i] == markers[..i];
  }

  lemma {:induction false} EntriesStrictlySorted(reg: seq<LineEntry>, ids: seq<string>)
    requires forall i, j :: 0 <= i < j < |ids| ==> StrLt(ids[i], ids[j])
    ensures forall i, j :: 0 <= i < j < |Entries(reg, ids)| ==> StrLt(Entries(reg, ids)[i].id, Entries(reg, ids)[j].id)
  {
    if ids != [] {
      var init := ids[..|ids| - 1];
      var last := ids[|ids| - 1];
      EntriesStrictlySorted(reg, init);
      var p := Entries(reg, init);
      assert forall k :: 0 <= k < |p| ==> StrLt(p[k].id, last) by {
        forall k | 0 <= k < |p| ensures StrLt(p[k].id, last) {
          var a :| 0 <= a < |init| && init[a] == p[k].id;
        }
      }
    }
  }

  /** The legend `updateLegend` renders: the sorted visible ids that are registered lines. */
  function LegendFor(reg: seq<LineEntry>, markers: seq<Marker>): seq<LegendEntry>
  {
    Entries(reg, SortStrings(SeenLineIds(markers)))
  }

  /**
   * The legend lists each registered line id read off some drawn marker,
   * exactly once, in string order (so "13" before "3"), with its registered
   * name, colour and opening year. An empty legend shows the placeholder.
   */
  lemma LegendForCharacterization(reg: seq<LineEntry>, markers: seq<Marker>)
    ensures var l := LegendFor(reg, markers);
      && (forall i, j :: 0 <= i < j < |l| ==> StrLt(l[i].id, l[j].id))
      && (forall k :: 0 <= k < |l| ==> Lookup(reg, l[k].id) == Some(LineInfo(l[k].name, l[k].color, l[k].openingYear)))
      && (forall id :: (exists k :: 0 <= k < |l| && l[k].id == id)
             <==> Lookup(reg, id).Some? && exists m :: 0 <= m < |markers| && MarkerLineId(markers[m]) == Some(id))
  {
    var seen := SeenLineIds(markers);
    var sorted := SortStrings(seen);
    DistinctPermutation(sorted, seen);
    SortedDistinctIsStrict(sorted);
    EntriesStrictlySorted(reg, sorted);
    forall id ensures id in sorted <==> id in seen {
      assert id in sorted <==> id in multiset(sorted);
      assert id in seen <==> id in multiset(seen);
    }
  }

  /** The ids of legend rows, top to bottom. */
  function EntryIds(l: seq<LegendEntry>): (r: seq<string>)
    ensures |r| == |l| && forall k :: 0 <= k < |l| ==> r[k] == l[k].id
  {
    seq(|l|, k requires 0 <= k < |l| => l[k].id)
  }

  /** The ids read off `markers` are exactly the members of `ids`. */
  ghost predicate MarkersShowIds(markers: seq<Marker>, ids: seq<string>)
  {
    forall id :: (exists m :: 0 <= m < |markers| && MarkerLineId(markers[m]) == Some(id)) <==> id in ids
  }

  /**
   * When the ids read off the markers are exactly the members of `ids`, all
   * registered, and `ids` is in string order, the legend rows are `ids`.
   */
  lemma LegendIdsAre(reg: seq<LineEntry>, markers: seq<Marker>, ids: seq<string>)
    requires forall i, j :: 0 <= i < j < |ids| ==> StrLt(ids[i], ids[j])
    requires forall id :: id in ids ==> Lookup(reg, id).Some?
    requires MarkersShowIds(markers, ids)
    ensures EntryIds(LegendFor(reg, markers)) == ids
  {
    LegendForCharacterization(reg, markers);
    RowsWithIds(LegendFor(reg, markers), ids);
  }

  /** Rows in strict id order whose ids are the members of the strictly ordered `ids` have ids `ids`. */
  lemma RowsWithIds(l: seq<LegendEntry>, ids: seq<string>)
    requires forall i, j :: 0 <= i < j < |l| ==> StrLt(l[i].id, l[j].id)
    requires forall i, j :: 0 <= i < j < |ids| ==> StrLt(ids[i], ids[j])
    requires forall id :: (exists k :: 0 <= k < |l| && l[k].id == id) <==> id in ids
    ensures EntryIds(l) == ids
  {
    var r := EntryIds(l);
    assert forall i, j :: 0 <= i < j < |r| ==> StrLt(r[i], r[j]) by {
      forall i, j | 0 <= i < j < |r| ensures StrLt(r[i], r[j]) {
        assert r[i] == l[i].id && r[j] == l[j].id;
      }
    }
    forall id ensures id in r <==> id in ids {
      if id in r {
        var k :| 0 <= k < |r| && r[k] == id;
        assert l[k].id == id;
      }
      if id in ids {
        var k :| 0 <= k < |l| && l[k].id == id;
        assert r[k] == id;
      }
    }
    StrictlySortedUnique(r, ids);
  }
}
