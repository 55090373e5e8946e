# Paris metro history map: the date-driven sync engine, in Dafny

The application shows the Paris metro as it stood on a chosen day. A
timeline, a year slider and previous/next buttons pick a target date. The
sync engine (`js/syncEngine.js`) then:

- keeps the stations opened on or before that day;
- draws one marker per coordinate pair (interchange stations share one);
- groups the open stations by line, sorts each group by opening date and
  joins consecutive stations with a segment;
- rebuilds a legend of the lines read off the drawn markers.

The controller (`js/main.js`) turns timeline slides, slider values and
button clicks into target dates, and assembles the list of timeline events
and the colour the information panel shows for a line.

The model has one module per concern:

- `Dates`: calendar dates and the `YYYY-MM-DD` target strings.
- `Text`: the JavaScript string and number operations the code relies on:
  - `String(n)`, `padStart` and `parseInt`;
  - `includes` and the two regular expressions;
  - the default string order of `sort()`.
- `Sequences`: sub-lists and repetition-free lists.
- `Stations`:
  - the date filter;
  - the one-marker-per-coordinate rule;
  - grouping by line;
  - the stable sort by opening date.
- `Lines`:
  - the line registry;
  - the colour lookup;
  - the `Object.keys` enumeration order;
  - what the marker, segment and legend layers contain.
- `SyncEngine`: the engine as a class. Its fields stand for the module-level
  state:
  - whether initialisation has run;
  - `currentDisplayedDate` and the `visibleStations` key set;
  - the contents of the station and line layer groups;
  - the legend rows.

  The loops of `updateStationMarkers`, `updateMetroLines` and `updateLegend`
  are methods with loop invariants. Each is proved against a specification
  function, and the properties of those functions are proved as lemmas.
- `Controls`:
  - the slide date string;
  - the slider and previous/next targets;
  - the event list built by `initTimeline`;
  - the information panel colour.
- `Fixture`: the data set of `js/data.js` as constants, with the drawn state
  it gives on particular days.

On 1900-07-19 eight stations are open. Châtelet opens on 1900-08-06
(`js/data.js:88`), so it is not among them; `Fixture.InaugurationDay` proves
the eight.

The legend is read off the drawn markers, which are deduplicated by
position, not off the list of open stations. The model does the same.

## Model

| member | source | states |
|---|---|---|
| Dates.OnOrBeforeIsTotalOrder | js/syncEngine.js:42-43 | The comparison `stationOpenDate <= targetDate` (year, then month, then day) is reflexive, antisymmetric, transitive and total |
| Dates.ParseIso | js/syncEngine.js:40 | A target string is accepted only if it has ten characters with dashes at positions 4 and 7, and the date it names is then valid |
| Stations.VisibleAtSpec | js/syncEngine.js:40-44 | The filtered list holds exactly the stations opened on or before the target, the target day included, in dataset order (a sub-list of the data) |
| Stations.VisibleAtMonotone | js/syncEngine.js:41-44 | For D1 ≤ D2, the stations shown for D1 are a sub-list of those shown for D2, so a later date never hides a station |
| Stations.VisibleAtCounts | js/syncEngine.js:40-44 | The filter keeps every copy of an open station and no copy of any other: its multiset is the input's restricted to stations opened by the target |
| Stations.VisibleAtNone | js/syncEngine.js:41-44 | With no station opened by the target, nothing passes the filter |
| Stations.Coords | js/syncEngine.js:66-69 | The `visibleStations` key set holds exactly the coordinate keys of the scanned stations |
| Stations.FirstAtEachCoord | js/syncEngine.js:64-69 | The kept stations cover every coordinate key of the input, and no two share one |
| Stations.FirstAtEachCoordKeepsFirst | js/syncEngine.js:64-69 | A station gets a marker exactly when no earlier station in filtered order has its coordinates: the first one wins |
| Stations.KeptIsFirst | js/syncEngine.js:66-69 | Every kept station is, at its position in the input, the first station at its coordinates |
| Stations.FirstIsKept | js/syncEngine.js:66-69 | Every station that is first at its coordinates is kept |
| Stations.MarkerCountIsDistinctCoords | js/syncEngine.js:61-69 | The number of markers equals the number of distinct coordinate pairs among the filtered stations |
| Stations.OnLine | js/syncEngine.js:110-116 | The group for a line holds only stations of the input on that line |
| Stations.OnLineSpec | js/syncEngine.js:110-116 | A line's group is a sub-list of the input (input order kept) holding every copy of each station on that line and none of the others |
| Stations.OnLineEmpty | js/syncEngine.js:112-114 | A line's group is empty exactly when no station of the input is on that line |
| Stations.LineIds | js/syncEngine.js:110-116 | The keys of `stationsByLine` are exactly the lines of the input stations, each once |
| Stations.SortByOpening | js/syncEngine.js:120-121 | The sort by opening date gives a list in non-decreasing date order that is a permutation of the group |
| Stations.SortByOpeningStable | js/syncEngine.js:120-121 | The sort is stable: stations that opened on the same day keep their relative order |
| Stations.SortedOnLine | js/syncEngine.js:119-121 | Sorting a line's group keeps its size, and keeps every station on that line |
| Lines.Lookup | js/syncEngine.js:163 | `metroLines[id]` is undefined exactly when no own key of the registry equals `id`; otherwise it is the record of an entry under `id` |
| Lines.LookupRegistered | js/syncEngine.js:163 | With distinct keys, looking up a key gives that key's own record |
| Lines.GetLineColor | js/syncEngine.js:182-184 | The colour is never empty: either the fallback `#999999` or the colour registered under the id |
| Lines.LineColorCases | js/syncEngine.js:182-184 | A registered line with a non-empty colour gets that colour; an unregistered id gets `#999999` |
| Lines.ObjectKeyOrder | js/syncEngine.js:119 | `Object.keys` lists every key once: first the array-index keys in ascending numeric order, then the others in insertion order |
| Lines.ObjectKeyOrderDistinct | js/syncEngine.js:119 | That order has the same keys as the insertion order, without repetitions |
| Lines.Chain | js/syncEngine.js:124-140 | The index loop over k stations draws k−1 segments; segment i joins station i to station i+1 |
| Lines.SegmentsForLine | js/syncEngine.js:110-141 | The segments drawn for a line are its stations (the group `Stations.OnLineSpec` characterizes), stably sorted by opening date, joined consecutively: k stations give k−1 segments, and a line with no open station gives none |
| Lines.SegmentsForEndpoints | js/syncEngine.js:124-139 | Every drawn segment joins two filtered stations of its own line, the earlier opening first, in that line's colour; so the same-line check always holds |
| Lines.MarkersOf | js/syncEngine.js:86-97 | One marker per kept station, in order, filled with the colour of its line |
| Lines.MarkersFor | js/syncEngine.js:58-98 | As many markers as distinct coordinate pairs, no two at the same position |
| Lines.MarkerLineIdOfLine | js/syncEngine.js:155 | The `line-(\d+)` match on a marker's class `metro-marker line-<id>` gives the id's leading digit run, which for an all-digit id is the id itself |
| Text.MatchLineDigits | js/syncEngine.js:155 | The capture, when there is one, is a non-empty run of digits; it is the digit run right after `line-` when the text starts that way |
| Text.MatchLineDigitsNone | js/syncEngine.js:155 | There is no capture exactly when no `line-` in the text is followed by a digit |
| Lines.MarkerLineIdOfOtherLine | js/syncEngine.js:155-156 | For a line id not starting with a digit the match searches on inside the id; an id without digits gives no line id, so it adds no legend row |
| Lines.SeenLineIds | js/syncEngine.js:152-158 | The `visibleLines` set holds exactly the ids read off some marker, each once |
| Lines.Entries | js/syncEngine.js:161-172 | Each legend row is for an id of the list that is registered, and carries that id's registered name, colour and opening year; every registered id of the list has a row |
| Lines.EntriesStrictlySorted | js/syncEngine.js:162-172 | Rows built from a strictly ordered id list are strictly ordered by id |
| Lines.LegendForCharacterization | js/syncEngine.js:147-175 | The legend lists, in strict string order and each once, exactly the registered ids read off the drawn markers, with their registered data |
| Lines.LegendIdsAre | js/syncEngine.js:152-172 | When the ids read off the markers are the members of a registered, strictly ordered list, the legend rows are that list |
| Text.StrictlySortedUnique | js/syncEngine.js:162 | Two strictly ordered lists with the same members are equal, so the sorted legend is determined by its set of ids |
| Text.SortStrings | js/syncEngine.js:162 | `sort()` without a comparator gives a permutation in string order |
| Text.SortedDistinctIsStrict | js/syncEngine.js:162 | A sorted list without repetitions is strictly increasing |
| Text.StrLtTransitive | js/syncEngine.js:162 | String order is transitive |
| Text.StrLtTrichotomy | js/syncEngine.js:162 | Any two strings are equal or ordered one way or the other |
| SyncEngine.Engine.constructor | js/syncEngine.js:4-9 | The initial state: not initialised, date `1900-01-01`, empty key set, empty layers and legend |
| SyncEngine.Engine.InitSyncEngine | js/syncEngine.js:15-23 | After initialisation both layer groups exist and are empty; the date and the key set are unchanged |
| SyncEngine.Engine.UpdateMapToDate | js/syncEngine.js:29-52 | Before initialisation nothing changes. Afterwards the displayed date is the target, and the key set, both layers and the legend are those of the target day's filtered stations |
| SyncEngine.Engine.ShowDay | js/syncEngine.js:35-49 | Records the target, then the drawn state is the view of that day's filtered stations |
| SyncEngine.Engine.Redraw | js/syncEngine.js:47-49 | The three redraws leave the view of the given stations: markers and lines from the stations, the legend from the markers |
| SyncEngine.Engine.DrawLayers | js/syncEngine.js:47-48 | The station layer and then the line layer are redrawn from the given stations |
| SyncEngine.Engine.UpdateStationMarkers | js/syncEngine.js:58-99 | After clearing, the key set is the stations' coordinate keys and the layer holds one marker per kept station, first at each position winning |
| SyncEngine.Engine.UpdateMetroLines | js/syncEngine.js:105-142 | After clearing, the line layer holds the segments of every line of the stations, lines in `Object.keys` order |
| SyncEngine.GroupByLine | js/syncEngine.js:109-116 | The grouping loop: each key's group is that line's stations in order (a sub-list holding every copy of each, by `Stations.OnLineSpec`) and is non-empty; the keys are recorded in first-seen order |
| SyncEngine.Engine.DrawLines | js/syncEngine.js:119-141 | The loop over the keys appends each line's chain in turn |
| SyncEngine.Engine.DrawLine | js/syncEngine.js:124-140 | The index loop appends exactly the chain of the sorted stations to the layer |
| SyncEngine.Engine.UpdateLegend | js/syncEngine.js:147-175 | The legend becomes the rows for the sorted ids read off the current markers |
| SyncEngine.CollectLineIds | js/syncEngine.js:152-158 | The marker scan collects the ids read off the markers, in first-seen order, without repetitions |
| SyncEngine.LegendRows | js/syncEngine.js:161-172 | The row loop emits one row per registered id, in the order given |
| SyncEngine.Engine.ResetView | js/syncEngine.js:203-206 | Gives the same drawn state as an update to `1900-01-01`: the view of the stations open on 1 January 1900 |
| SyncEngine.DefaultDateParses | js/syncEngine.js:204 | The reset target `1900-01-01` is accepted and names 1 January 1900 |
| SyncEngine.UpdateToShownDate | js/syncEngine.js:29-61 | The layers are cleared before redrawing, so an update to the date already shown leaves the displayed date and the whole drawn state (key set, markers, segments, legend) as they were |
| SyncEngine.ViewOfNoStations | js/syncEngine.js:174 | With no open station there is no marker, segment or legend row, so the legend shows its placeholder |
| SyncEngine.MarkedStationIsOpen | js/syncEngine.js:41-69 | A station that keeps a marker is a station of the data opened on or before the target |
| SyncEngine.OpenStationIsMarked | js/syncEngine.js:41-69 | Every station open on the target shares its position with a station that keeps a marker |
| SyncEngine.MarkerIdsOfOpenStations | js/syncEngine.js:58-99 | When every open station's line is among some digit-only ids, and each id has an open station whose position shows only that line, the marker ids are exactly those ids |
| SyncEngine.LegendOfOpenStations | js/syncEngine.js:29-52 | Under those conditions, with the ids registered and in string order, the legend drawn for the day lists exactly those ids |
| Controls.OrOne | js/main.js:90 | The default to 1: an absent or zero month or day becomes 1, and any other value is kept |
| Text.PadStart2 | js/main.js:90 | `padStart(2, '0')` leaves strings of length 2 or more unchanged, and left-pads shorter ones with zeros to length 2 |
| Text.IntToString | js/main.js:90 | `String(n)` prints a non-negative integer as canonical digits of its value, and a negative one as a minus sign before those digits |
| Controls.YearField | js/main.js:90 | A printed year has four digits exactly when the year is between 1000 and 9999, and then its digits denote the year |
| Controls.PaddedField | js/main.js:90 | A padded month or day is two digits exactly when it is between 0 and 99, and then its digits denote it |
| Controls.SlideDay | js/main.js:86-90 | The day a slide stands for (absent month and day taken as 1) is a valid date with a four-digit year |
| Controls.SlideDateRoundTrip | js/main.js:86-93 | The engine reads a slide's date string back as exactly the slide's day. A slide with no such day (a year that is not four digits, NaN, an invalid month or day) gives a string the engine rejects |
| Controls.SliderTarget | js/main.js:143-148 | The slider target `year-01-01` is accepted exactly when the value is four digits, and is then 1 January of that year |
| Text.ParseInt | js/main.js:163 | `parseInt` of canonical digits is their value |
| Text.ParseIntNaN | js/main.js:163 | `parseInt` gives NaN exactly when no digit of the base follows the optional sign: a hexadecimal digit after a `0x`/`0X` prefix, a decimal digit otherwise |
| Text.ParseIntHex | js/main.js:163 | A `0x`/`0X` prefix switches to base 16: `parseInt("0x1A")` is 26, `parseInt("-0X10")` is -16, and `parseInt("0x")` is NaN |
| Controls.PreviousYear | js/main.js:163-164 | `Math.max(1900, year - 1)`: never below 1900, and either 1900 or one less; NaN exactly for NaN |
| Controls.NextYear | js/main.js:174-175 | `Math.min(2025, year + 1)`: never above 2025, and either 2025 or one more; NaN exactly for NaN |
| Controls.PreviousNextInverse | js/main.js:159-179 | Inside the range 1900-2025 the two buttons undo each other |
| Controls.NavClickStaysInRange | js/main.js:159-179 | Without a timeline, a click from a displayed year in range shows the neighbouring year (clamped), which is still in range, and sends an accepted target naming 1 January of it |
| Controls.PressPreviousClamps | js/main.js:159-168 | n clicks on "previous" go back n years but stop at 1900; NaN stays NaN |
| Controls.PressNextClamps | js/main.js:170-179 | n clicks on "next" go forward n years but stop at 2025; NaN stays NaN |
| Controls.KeysRegistered | js/main.js:47-48 | `Object.keys(metroLines)` lists one key per record, and every key names a record |
| Controls.BuildTimelineEvents | js/main.js:36-56 | The two push loops build the historical events in order, then one opening event per registry key in `Object.keys` order |
| Controls.PushOpeningEvents | js/main.js:46-56 | The second loop appends the opening events of the keys, in key order |
| Controls.OpeningEventAt | js/main.js:47-55 | The event for the j-th key is the opening event of that key's record |
| Controls.TimelineEventsShape | js/main.js:37-56 | The list has as many events as historical events plus registry entries, and begins with the historical events unchanged |
| Controls.TimelineListsEveryLine | js/main.js:47-56 | Every registered line's opening event (year `parseInt(opened)`, headline `🚇 <name>`) appears after the historical events |
| Controls.LineEventDay | js/main.js:50 | A line event with a four-digit opening year takes the map to 1 January of that year |
| Controls.InfoPanelColor | js/main.js:119-129 | A colour is added only when the headline contains "Ligne" and has a first digit run, and then it is the colour registered under that run; conversely, when both hold and the run is registered, that colour is added |
| Text.Contains | js/main.js:120 | `includes` holds exactly when the text occurs at some position |
| Text.FirstDigitRun | js/main.js:121 | The first `\d+` match is absent exactly when there is no digit; otherwise it is the maximal digit run at the first digit |
| Controls.PanelColorOfKeyedHeadline | js/main.js:120-128 | A headline made of digit-free text containing "Ligne", a registry key, and text not starting with a digit, shows that key's colour |
| Controls.LineEventPanelColor | js/main.js:120-128 | The slide of a line named "Ligne <key>" shows that line's colour |
| Fixture.InaugurationDay | js/data.js:4-140 | On 1900-07-19 exactly eight stations pass the filter, and Châtelet is not one of them |
| Fixture.BeforeTheMetro | js/data.js:4-140 | On 1899-12-31 the map has no marker and no segment, and the legend shows its placeholder |
| Fixture.LegendOnMontparnasseOpening | js/data.js:77-85 | On 1910-04-24 the legend lists lines 1, 4 and 6, in that order |
| Fixture.LegendInStringOrder | js/data.js:122-139 | On 1910-11-05 the legend lists 1, 13, 3, 4, 6: string order, "13" before "3" |
| Fixture.TimelineHasTwentyEvents | js/data.js:161-186 | The timeline receives twenty events, the six historical ones first |
| Fixture.FloodSlideDate | js/data.js:166-169 | The April 1910 slide, which has no day, takes the map to 1910-04-01 |
| Fixture.LineElevenPanel | js/data.js:170-173 | The "Ligne 11" slide shows line 11's colour `#704B1C` in the information panel |
| Fixture.AutomaticLinePanel | js/data.js:178-181 | The "Ligne 14 Automatique" slide shows line 14's colour `#62259D` |
| Fixture.ExtensionPanel | js/data.js:182-185 | The "Extension Ligne 14" slide shows line 14's colour `#62259D` |

## Left out

- Leaflet (the map, tile layer, circle markers, polylines, `setView`, the layer toggles) is not modelled. The layer groups are sequences of markers and segments.
- Marker popups, their HTML text and `formatDate` are not modelled. `formatDate` depends on locale formatting.
- TimelineJS (`TL.Timeline`, its change events, `previous`, `next`, `goToId`) is not modelled. A slide is reduced to its `start_date` and text.
- The DOM (`getElementById`, `textContent`, `innerHTML`) is not modelled. The legend and the information panel are the values the code would render, not HTML strings.
- The early return of `updateLegend` when the legend element is missing is not modelled.
- Console logging, the `setTimeout` that shows the initial date, and the start-up error handling are not modelled.
- Targets the engine does not accept are not modelled: strings that are not well-formed `YYYY-MM-DD`, and well-formed strings that name an impossible day such as `1910-04-31`. `Dates.ParseIso` refuses both; JavaScript engines differ on the second (some roll it over into the next month, others give an invalid date). JavaScript compares NaN dates as false, so the filter would drop every station. `SyncEngine.Engine.UpdateMapToDate` requires a target the engine accepts. `Controls.SlideDateRoundTrip` and `Controls.SliderTarget` say exactly which slides and slider values produce one.
- The header year text (`substring(0, 4)` of the target) is not modelled.
- Floating-point coordinates are not modelled, nor are the map centre and zoom of `resetView`. Coordinates are integer pairs used only as equality keys.
- `Text.ParseInt`: leading whitespace and numbers beyond JavaScript's safe integer range are not modelled.
- `Text.IntToString`: numbers are unbounded integers. JavaScript numbers are doubles: `String(n)` switches to exponent form from 1e21, and integers beyond 2^53 lose precision. The years, months and days the program prints are far below both.
- `Controls.AsciiLower`: `toLowerCase` is modelled on ASCII letters only.
- `Text.StrLt`: `sort()` compares UTF-16 code units, and the model compares Unicode characters. The two orders agree on the digit-only line ids of the data.
- `Controls.NavClick`: with a timeline, a click only steps the timeline. The model records that step and does not follow the resulting slide.
- `SyncEngine.GroupByLine`: a line id that names an inherited `Object.prototype` member (`constructor`, `toString`, `__proto__`) makes the `push` on `stationsByLine[line]` fail with a TypeError. The model groups such ids like any other.
- `SyncEngine.Engine.ResetView`: before initialisation `map.setView` throws. The model returns with the state unchanged.
- `Lines.Lookup`: an object literal that repeats a key keeps the last record, and `Object.keys` lists the key once. The model's registry is a list of entries whose lookup takes the first; the lemmas that depend on it require distinct keys, which the data's registry has. `Controls.KeysRegistered` and `Controls.TimelineEventsShape` count list entries, which equals the number of `Object.keys` only when the keys are distinct. `metroLines[id]` for a name inherited from `Object.prototype` (`toString`, `constructor`) is a function, not undefined; the model treats such an id as unregistered. The ids the legend looks up are digit runs, which never name one.
