/**
 * Stations and the station-level steps of `updateMapToDate`: the date
 * filter, the one-marker-per-coordinate rule, the grouping by line and the
 * stable sort by opening date.
 */
module Stations {
  import opened Dates
  import opened Sequences

  /** A coordinate pair in ten-thousandths of a degree, used only as an equality key. */
  datatype Coord = Coord(lat: int, lon: int)

  /**
   * A station record. The popup-only fields (previous names, architect,
   * facts) are not part of the model.
   */
  datatype Station = Station(name: string, opening: Date, coords: Coord, line: string)

  /**
   * The stations open on the target date, in dataset order: those whose
   * opening date is on or before it, the target day included.
   */
  function VisibleAt(stations: seq<Station>, target: Date): seq<Station>
  {
    if stations == [] then []
    else if OnOrBefore(stations[0].opening, target) then [stations[0]] + VisibleAt(stations[1..], target)
    else VisibleAt(stations[1..], target)
  }

  /**
   * The visible list keeps exactly the stations opened on or before the
   * target, in their original order.
   */
  lemma {:induction false} VisibleAtSpec(stations: seq<Station>, target: Date)
    ensures forall x :: x in VisibleAt(stations, target) <==> x in stations && OnOrBefore(x.opening, target)
    ensures IsSubsequence(VisibleAt(stations, target), stations)
  {
    if stations != [] {
      var rest := VisibleAt(stations[1..], target);
      VisibleAtSpec(stations[1..], target);
      assert stations == [stations[0]] + stations[1..];
      if OnOrBefore(stations[0].opening, target) {
        assert ([stations[0]] + rest)[1..] == rest;
      }
    }
  }

  /** Each open station is kept as many times as it occurs in the data; a closed one never. */
  lemma {:induction false} VisibleAtCounts(stations: seq<Station>, target: Date)
    ensures forall x: Station :: multiset(VisibleAt(stations, target))[x]
                                 == if OnOrBefore(x.opening, target) then multiset(stations)[x] else 0
  {
    if stations != [] {
      VisibleAtCounts(stations[1..], target);
      assert stations == [stations[0]] + stations[1..];
    }
  }

  /** The filter from position `k` on: the `k`th station if it is open, then the filter of the rest. */
  lemma VisibleAtFrom(stations: seq<Station>, k: int, target: Date)
    requires 0 <= k < |stations|
    ensures VisibleAt(stations[k..], target)
      == (if OnOrBefore(stations[k].opening, target) then [stations[k]] else []) + VisibleAt(stations[k + 1..], target)
  {
    assert stations[k..][1..] == stations[k + 1..];
  }

  /** Before every opening date nothing is visible. */
  lemma {:induction false} VisibleAtNone(stations: seq<Station>, target: Date)
    requires forall i :: 0 <= i < |stations| ==> !OnOrBefore(stations[i].opening, target)
    ensures VisibleAt(stations, target) == []
  {
    if stations != [] {
      VisibleAtNone(stations[1..], target);
    }
  }

  /** A later target never hides a station: the visible list only grows. */
  lemma {:induction false} VisibleAtMonotone(stations: seq<Station>, d1: Date, d2: Date)
    requires OnOrBefore(d1, d2)
    ensures IsSubsequence(VisibleAt(stations, d1), VisibleAt(stations, d2))
    ensures |VisibleAt(stations, d1)| <= |VisibleAt(stations, d2)|
  {
    var a, b := VisibleAt(stations, d1), VisibleAt(stations, d2);
    if stations != [] {
      var x := stations[0];
      VisibleAtMonotone(stations[1..], d1, d2);
      var a', b' := VisibleAt(stations[1..], d1), VisibleAt(stations[1..], d2);
      if OnOrBefore(x.opening, d1) {
        assert OnOrBefore(x.opening, d2);
        assert a == [x] + a' && b == [x] + b';
        assert a[1..] == a' && b[1..] == b';
      } else if OnOrBefore(x.opening, d2) {
        assert b == [x] + b' && b[1..] == b';
        SubsequenceOfTail(a', b', x);
      }
    }
    SubsequenceLength(a, b);
  }

  /** The coordinate keys of a list of stations (the `visibleStations` set). */
  function Coords(s: seq<Station>): (c: set<Coord>)
    ensures forall k :: k in c <==> exists i :: 0 <= i < |s| && s[i].coords == k
  {
    if s == [] then {}
    else
      var init := s[..|s| - 1];
      var c := Coords(init);
      assert forall i :: 0 <= i < |s| - 1 ==> init[i] == s[i];
      c + {s[|s| - 1].coords}
  }

  lemma CoordsSnoc(s: seq<Station>, x: Station)
    ensures Coords(s + [x]) == Coords(s) + {x.coords}
  {
    assert (s + [x])[..|s|] == s;
  }

  /** Station `s[i]` is the first of `s` at its coordinates. */
  predicate FirstAt(s: seq<Station>, i: int)
    requires 0 <= i < |s|
  {
    forall j :: 0 <= j < i ==> s[j].coords != s[i].coords
  }

  /** No two stations of `s` share coordinates. */
  predicate DistinctCoords(s: seq<Station>)
  {
    forall i, j :: 0 <= i < j < |s| ==> s[i].coords != s[j].coords
  }

  /**
   * The stations that get a marker: scanning in order, a station is kept
   * unless an earlier one had the same coordinates. Exactly one station per
   * coordinate key is kept.
   */
  function FirstAtEachCoord(s: seq<Station>): (r: seq<Station>)
    ensures Coords(r) == Coords(s)
    ensures DistinctCoords(r)
  {
    if s == [] then []
    else
      var init := s[..|s| - 1];
      var p := FirstAtEachCoord(init);
      var last := s[|s| - 1];
      assert Coords(s) == Coords(init) + {last.coords};
      if last.coords in Coords(init) then p
      else
        var r := p + [last];
        assert r[..|r| - 1] == p;
        assert Coords(r) == Coords(p) + {last.coords};
        r
  }

  lemma FirstAtEachCoordSnoc(s: seq<Station>, x: Station)
    ensures FirstAtEachCoord(s + [x]) == if x.coords in Coords(s) then FirstAtEachCoord(s) else FirstAtEachCoord(s) + [x]
  {
    assert (s + [x])[..|s|] == s;
  }

  /** The kept stations are exactly the first station at each coordinate pair. */
  lemma FirstAtEachCoordKeepsFirst(s: seq<Station>)
    ensures forall x :: x in FirstAtEachCoord(s) ==> exists i :: 0 <= i < |s| && s[i] == x && FirstAt(s, i)
    ensures forall i :: 0 <= i < |s| && FirstAt(s, i) ==> s[i] in FirstAtEachCoord(s)
  {
    forall x | x in FirstAtEachCoord(s)
      ensures exists i :: 0 <= i < |s| && s[i] == x && FirstAt(s, i)
    {
      var i := KeptIsFirst(s, x);
    }
    forall i | 0 <= i < |s| && FirstAt(s, i)
      ensures s[i] in FirstAtEachCoord(s)
    {
      FirstIsKept(s, i);
    }
  }

  lemma {:induction false} KeptIsFirst(s: seq<Station>, x: Station) returns (i: int)
    requires x in FirstAtEachCoord(s)
    ensures 0 <= i < |s| && s[i] == x && FirstAt(s, i)
  {
    var init := s[..|s| - 1];
    var last := s[|s| - 1];
    if x in FirstAtEachCoord(init) {
      i := KeptIsFirst(init, x);
      FirstAtInit(s, i);
    } else {
      assert last.coords !in Coords(init) && x == last;
      FirstAtLast(s);
      i := |s| - 1;
    }
  }

  /** Below the last position, being first at one's coordinates does not depend on the last station. */
  lemma FirstAtInit(s: seq<Station>, i: int)
    requires 0 <= i < |s| - 1
    ensures s[..|s| - 1][i] == s[i]
    ensures FirstAt(s[..|s| - 1], i) <==> FirstAt(s, i)
  {
    assert forall j :: 0 <= j < |s| - 1 ==> s[..|s| - 1][j] == s[j];
  }

  /** The last station is first at its coordinates when no earlier one shares them. */
  lemma FirstAtLast(s: seq<Station>)
    requires s != []
    ensures FirstAt(s, |s| - 1) <==> s[|s| - 1].coords !in Coords(s[..|s| - 1])
  {
    assert forall j :: 0 <= j < |s| - 1 ==> s[..|s| - 1][j] == s[j];
  }

  lemma {:induction false} FirstIsKept(s: seq<Station>, i: int)
    requires 0 <= i < |s| && FirstAt(s, i)
    ensures s[i] in FirstAtEachCoord(s)
  {
    var init := s[..|s| - 1];
    var last := s[|s| - 1];
    assert s == init + [last];
    FirstAtEachCoordSnoc(init, last);
    if i < |init| {
      FirstAtInit(s, i);
      FirstIsKept(init, i);
    } else {
      FirstAtLast(s);
    }
  }

  /** Stations with pairwise distinct coordinates have as many keys as stations. */
  lemma {:induction false} DistinctCoordsCount(s: seq<Station>)
    requires DistinctCoords(s)
    ensures |Coords(s)| == |s|
  {
    if s != [] {
      var init := s[..|s| - 1];
      assert DistinctCoords(init);
      DistinctCoordsCount(init);
      assert s[|s| - 1].coords !in Coords(init);
    }
  }

  /** The marker count is the number of distinct coordinate pairs. */
  lemma MarkerCountIsDistinctCoords(s: seq<Station>)
    ensures |FirstAtEachCoord(s)| == |Coords(s)|
  {
    DistinctCoordsCount(FirstAtEachCoord(s));
  }

  /** `stationsByLine[line]` after the grouping loop: the stations of that line, in order. */
  function OnLine(s: seq<Station>, line: string): (r: seq<Station>)
    ensures forall x :: x in r ==> x in s && x.line == line
    ensures |r| <= |s|
  {
    if s == [] then []
    else
      var init := s[..|s| - 1];
      var p := OnLine(init, line);
      if s[|s| - 1].line == line then p + [s[|s| - 1]] else p
  }

  /** A line has stations in `s` exactly when some station of `s` is on it. */
  lemma {:induction false} OnLineEmpty(s: seq<Station>, line: string)
    ensures OnLine(s, line) == [] <==> forall i :: 0 <= i < |s| ==> s[i].line != line
  {
    if s != [] {
      OnLineEmpty(s[..|s| - 1], line);
      assert forall i :: 0 <= i < |s| - 1 ==> s[..|s| - 1][i] == s[i];
    }
  }

  /**
   * `stationsByLine[line]` holds every station of that line, as often as it
   * occurs, in input order, and nothing else.
   */
  lemma {:induction false} OnLineSpec(s: seq<Station>, line: string)
    ensures IsSubsequence(OnLine(s, line), s)
    ensures forall x: Station :: multiset(OnLine(s, line))[x] == if x.line == line then multiset(s)[x] else 0
  {
    if s != [] {
      var init := s[..|s| - 1];
      var last := s[|s| - 1];
      OnLineSpec(init, line);
      assert s == init + [last];
      SubsequenceSnoc(OnLine(init, line), init, last);
    }
  }

  /** Sorting a line's stations keeps them all on that line and keeps their number. */
  lemma SortedOnLine(s: seq<Station>, line: string)
    ensures |SortByOpening(OnLine(s, line))| == |OnLine(s, line)|
    ensures forall x :: x in SortByOpening(OnLine(s, line)) ==> x.line == line
  {
    var r := SortByOpening(OnLine(s, line));
    assert |r| == |multiset(r)| == |multiset(OnLine(s, line))|;
    forall x | x in r ensures x.line == line {
      assert x in multiset(r);
    }
  }

  /** The keys of `stationsByLine` in insertion order: each line id at its first station. */
  function LineIds(s: seq<Station>): (r: seq<string>)
    ensures forall l :: l in r <==> exists i :: 0 <= i < |s| && s[i].line == l
    ensures Distinct(r)
  {
    if s == [] then []
    else
      var init := s[..|s| - 1];
      var p := LineIds(init);
      assert forall i :: 0 <= i < |s| - 1 ==> init[i] == s[i];
      if s[|s| - 1].line in p then p else p + [s[|s| - 1].line]
  }

  /** Dates in non-decreasing order, each station opened no later than the next. */
  predicate SortedByOpening(s: seq<Station>)
  {
    |s| < 2 || (OnOrBefore(s[0].opening, s[1].opening) && SortedByOpening(s[1..]))
  }

  /** In a sorted list every station opened no later than every later one. */
  lemma {:induction false} SortedByOpeningPairwise(s: seq<Station>)
    requires SortedByOpening(s)
    ensures forall i, j :: 0 <= i < j < |s| ==> OnOrBefore(s[i].opening, s[j].opening)
  {
    if |s| >= 2 {
      SortedByOpeningPairwise(s[1..]);
      forall i, j | 0 <= i < j < |s| ensures OnOrBefore(s[i].opening, s[j].opening) {
        if i == 0 && j > 1 {
          assert OnOrBefore(s[1].opening, s[1..][j - 1].opening);
        } else if i > 0 {
          assert OnOrBefore(s[1..][i - 1].opening, s[1..][j - 1].opening);
        }
      }
    }
  }

  function InsertByOpening(x: Station, s: seq<Station>): (r: seq<Station>)
    requires SortedByOpening(s)
    ensures |r| == |s| + 1 && (r[0] == x || (s != [] && r[0] == s[0]))
    ensures SortedByOpening(r)
    ensures multiset(r) == multiset(s) + multiset{x}
  {
    if s == [] then [x]
    else if OnOrBefore(x.opening, s[0].opening) then
      assert ([x] + s)[1..] == s;
      [x] + s
    else
      var t := InsertByOpening(x, s[1..]);
      var r := [s[0]] + t;
      assert r[1..] == t;
      InsertAfterHead(s, t, x);
      r
  }

  /**
   * `sort((a, b) => new Date(a.openingDate) - new Date(b.openingDate))`:
   * ascending by opening date, a permutation of the input.
   */
  function SortByOpening(s: seq<Station>): (r: seq<Station>)
    ensures SortedByOpening(r)
    ensures multiset(r) == multiset(s)
  {
    if s == [] then []
    else
      assert s == [s[0]] + s[1..];
      InsertByOpening(s[0], SortByOpening(s[1..]))
  }

  /** The stations of `s` that opened on day `d`, in order. */
  function OpenedOn(s: seq<Station>, d: Date): (r: seq<Station>)
    ensures forall x :: x in r ==> x in s && x.opening == d
  {
    if s == [] then []
    else (if s[0].opening == d then [s[0]] else []) + OpenedOn(s[1..], d)
  }

  lemma {:induction false} InsertByOpeningStable(x: Station, s: seq<Station>, d: Date)
    requires SortedByOpening(s)
    ensures OpenedOn(InsertByOpening(x, s), d) == OpenedOn([x] + s, d)
  {
    if s != [] && !OnOrBefore(x.opening, s[0].opening) {
      var t := InsertByOpening(x, s[1..]);
      InsertByOpeningStable(x, s[1..], d);
      var rest := OpenedOn(s[1..], d);
      assert ([s[0]] + t)[1..] == t;
      assert ([x] + s[1..])[1..] == s[1..];
      assert ([x] + s)[1..] == s;
      assert s[0].opening != x.opening;
      if x.opening == d {
        // x is the only one of the two that opened on d
        assert OpenedOn(InsertByOpening(x, s), d) == OpenedOn(t, d) == [x] + rest;
        assert OpenedOn(s, d) == rest;
      } else if s[0].opening == d {
        assert OpenedOn(InsertByOpening(x, s), d) == [s[0]] + OpenedOn(t, d);
        assert OpenedOn(t, d) == rest;
        assert OpenedOn([x] + s, d) == OpenedOn(s, d) == [s[0]] + rest;
      } else {
        assert OpenedOn(InsertByOpening(x, s), d) == OpenedOn(t, d) == rest;
        assert OpenedOn([x] + s, d) == OpenedOn(s, d) == rest;
      }
    }
  }

  /**
   * The sort is stable: the stations sharing an opening date keep their
   * relative order (Array.prototype.sort is stable).
   */
  lemma {:induction false} SortByOpeningStable(s: seq<Station>, d: Date)
    ensures OpenedOn(SortByOpening(s), d) == OpenedOn(s, d)
  {
    if s != [] {
      SortByOpeningStable(s[1..], d);
      InsertByOpeningStable(s[0], SortByOpening(s[1..]), d);
      assert ([s[0]] + SortByOpening(s[1..]))[1..] == SortByOpening(s[1..]);
    }
  }
}
