/**
 * The controller logic of the application page: the target date built from
 * a timeline slide, the year slider and the previous/next buttons, the
 * list of timeline events, and the colour the information panel adds for a
 * line. The widgets themselves (map, timeline, page elements) are not
 * modelled; each handler is reduced to the value it computes.
 */
module Controls {
  import opened Text
  import opened Dates
  import opened Sequences
  import opened Lines

  // ---------------------------------------------------------------------
  // Timeline events and the date of a slide.
  // ---------------------------------------------------------------------

  /** A slide's `start_date`: a year, and a month and a day that may be absent. */
  datatype StartDate = StartDate(year: JsInt, month: Option<int>, day: Option<int>)

  /** A timeline event: its start date, headline and body text. */
  datatype Event = Event(start: StartDate, headline: string, text: string)

  /** `n || 1` on an optional number: absent and zero both become 1. */
  function OrOne(n: Option<int>): (r: int)
    ensures r != 0
    ensures n.None? || n.value == 0 ==> r == 1
    ensures n.Some? && n.value != 0 ==> r == n.value
  {
    if n.None? || n.value == 0 then 1 else n.value
  }

  /** The `YYYY-MM-DD` string the change handler passes to the engine for a slide. */
  function SlideDateString(d: StartDate): string
  {
    JsIntToString(d.year) + "-" + PadStart2(IntToString(OrOne(d.month))) + "-" + PadStart2(IntToString(OrOne(d.day)))
  }

  /**
   * The calendar day a slide stands for, when it has one the engine can
   * read: a four-digit year and a valid month and day, with an absent month
   * or day taken as 1.
   */
  function SlideDay(d: StartDate): (r: Option<Date>)
    ensures r.Some? ==> ValidDate(r.value) && r.value.year >= 1000
  {
    if d.year.Int? && 1000 <= d.year.v <= 9999 && ValidDate(Date(d.year.v, OrOne(d.month), OrOne(d.day))) then
      Some(Date(d.year.v, OrOne(d.month), OrOne(d.day)))
    else None
  }

  /**
   * What a printed year looks like: never empty, either all digits or not
   * starting with one; all digits exactly for a non-negative integer, and
   * four digits exactly for the years 1000 to 9999.
   */
  lemma YearField(y: JsInt)
    ensures var t := JsIntToString(y);
      && |t| >= 1
      && (AllDigits(t) || !IsDigit(t[0]))
      && (AllDigits(t) ==> y.Int? && y.v >= 0 && DecimalValue(t) == y.v)
      && (AllDigits(t) && |t| == 4 <==> y.Int? && 1000 <= y.v <= 9999)
  {
    var t := JsIntToString(y);
    if y.Int? && y.v < 0 {
      assert !IsDigit(t[0]);
    }
    if y.Int? && 1000 <= y.v <= 9999 {
      FourDigitYear(y.v);
    }
    if AllDigits(t) && |t| == 4 {
      CanonicalValueLowerBound(t);
      DecimalValueBound(t);
    }
  }

  /**
   * What a padded month or day looks like: at least two characters, either
   * all digits or not starting with one; all digits exactly for a
   * non-negative number, and two digits exactly below 100.
   */
  lemma PaddedField(n: int)
    ensures var t := PadStart2(IntToString(n));
      && |t| >= 2
      && (AllDigits(t) || !IsDigit(t[0]))
      && (AllDigits(t) ==> n >= 0 && DecimalValue(t) == n)
      && (AllDigits(t) && |t| == 2 <==> 0 <= n < 100)
  {
    var t := PadStart2(IntToString(n));
    if n < 0 {
      assert t == IntToString(n);
      assert !IsDigit(t[0]);
    } else if n < 100 {
      PadTwoDigits(n);
    } else {
      var s := NatToString(n);
      if |s| < 3 {
        DecimalValueBound(s);
      }
      assert t == s;
    }
  }

  /**
   * The date string of a slide is read by the engine as exactly the slide's
   * day, month and day defaulting to 1; a slide without such a day (a year
   * that is not four digits, NaN, an invalid month or day) gives a string
   * the engine does not accept as a date.
   */
  lemma {:induction false} SlideDateRoundTrip(d: StartDate)
    ensures ParseIso(SlideDateString(d)) == SlideDay(d)
  {
    var y := JsIntToString(d.year);
    var m := PadStart2(IntToString(OrOne(d.month)));
    var dd := PadStart2(IntToString(OrOne(d.day)));
    var s := SlideDateString(d);
    assert s == y + "-" + m + "-" + dd;
    YearField(d.year);
    PaddedField(OrOne(d.month));
    PaddedField(OrOne(d.day));
    if SlideDay(d).Some? {
      assert s[..4] == y && s[5..7] == m && s[8..] == dd;
    } else if ParseIso(s).Some? {
      ParsedShape(s, y, m, dd);
      assert false;
    }
  }

  /** A string the engine accepts, cut into its fields at the two dashes. */
  lemma ParsedShape(s: string, y: string, m: string, dd: string)
    requires s == y + "-" + m + "-" + dd && ParseIso(s).Some?
    requires |y| >= 1 && (AllDigits(y) || !IsDigit(y[0]))
    requires |m| >= 2 && (AllDigits(m) || !IsDigit(m[0]))
    requires |dd| >= 2 && (AllDigits(dd) || !IsDigit(dd[0]))
    ensures |y| == 4 && |m| == 2 && |dd| == 2 && AllDigits(y) && AllDigits(m) && AllDigits(dd)
    ensures s[..4] == y && s[5..7] == m && s[8..] == dd
  {
    assert AllDigits(s[..4]) && AllDigits(s[5..7]) && AllDigits(s[8..]);
    assert forall i :: 0 <= i < |y| ==> s[i] == y[i];
    assert s[|y|] == '-' && IsDigit(s[..4][0]);
    assert |y| == 4;
    assert s[5] == m[0] && IsDigit(s[5..7][0]);
    assert s[8..] == dd;
    assert IsDigit(s[8..][0]);
  }

  // ---------------------------------------------------------------------
  // The year slider and the previous/next buttons.
  // ---------------------------------------------------------------------

  const MinYear := 1900
  const MaxYear := 2025

  /** The target for the first of January of a year given as text. */
  function NewYearTarget(year: string): string
  {
    year + "-01-01"
  }

  /**
   * The slider's target is a date the engine accepts exactly when the
   * slider value is four digits, and it is then the first of January of
   * that year.
   */
  lemma SliderTarget(value: string)
    ensures ParseIso(NewYearTarget(value)).Some? <==> |value| == 4 && AllDigits(value)
    ensures |value| == 4 && AllDigits(value) ==> ParseIso(NewYearTarget(value)) == Some(Date(DecimalValue(value), 1, 1))
  {
    var s := NewYearTarget(value);
    if |value| == 4 {
      assert s[..4] == value && s[5..7] == "01" && s[8..] == "01";
      assert s[4] == '-' && s[7] == '-';
      PadOfTwoDigitValue("01");
    } else if |s| == 10 {
      assert false;
    }
  }

  /** `Math.max(1900, currentYear - 1)`, NaN when the current year is NaN. */
  function PreviousYear(current: JsInt): (r: JsInt)
    ensures r.NaN? <==> current.NaN?
    ensures r.Int? ==> r.v >= MinYear && r.v >= current.v - 1 && (r.v == MinYear || r.v == current.v - 1)
  {
    match current
    case NaN => NaN
    case Int(v) => Int(if v - 1 < MinYear then MinYear else v - 1)
  }

  /** `Math.min(2025, currentYear + 1)`, NaN when the current year is NaN. */
  function NextYear(current: JsInt): (r: JsInt)
    ensures r.NaN? <==> current.NaN?
    ensures r.Int? ==> r.v <= MaxYear && r.v <= current.v + 1 && (r.v == MaxYear || r.v == current.v + 1)
  {
    match current
    case NaN => NaN
    case Int(v) => Int(if v + 1 > MaxYear then MaxYear else v + 1)
  }

  /** Inside the slider's range the two buttons undo each other. */
  lemma PreviousNextInverse(y: int)
    ensures MinYear < y <= MaxYear ==> NextYear(PreviousYear(Int(y))) == Int(y)
    ensures MinYear <= y < MaxYear ==> PreviousYear(NextYear(Int(y))) == Int(y)
  {
  }

  /** What a click on "previous" (`forward` false) or "next" does. */
  datatype NavAction =
    | TimelineStep(forward: bool)   // the timeline moves one slide
    | ShowYear(year: JsInt)         // the map shows the first of January of `year`

  /**
   * A navigation click: with a timeline it steps the timeline; without one
   * it reads the displayed year with `parseInt` and steps it, clamped.
   */
  function NavClick(hasTimeline: bool, yearText: string, forward: bool): (a: NavAction)
  {
    if hasTimeline then TimelineStep(forward)
    else
      var current := ParseInt(yearText);
      ShowYear(if forward then NextYear(current) else PreviousYear(current))
  }

  /** The target the map is sent to for a year shown by a navigation click. */
  function NavTarget(year: JsInt): string
  {
    NewYearTarget(JsIntToString(year))
  }

  /**
   * From a displayed year inside the slider's range, a navigation click
   * without a timeline shows a year one step away, still inside the range,
   * and sends the engine a target it accepts: the first of January of it.
   */
  lemma NavClickStaysInRange(yearText: string, forward: bool)
    requires Canonical(yearText) && MinYear <= DecimalValue(yearText) <= MaxYear
    ensures var a := NavClick(false, yearText, forward);
      var y := DecimalValue(yearText);
      && a.ShowYear? && a.year.Int?
      && MinYear <= a.year.v <= MaxYear
      && a.year.v == (if forward then (if y < MaxYear then y + 1 else y) else (if y > MinYear then y - 1 else y))
      && ParseIso(NavTarget(a.year)) == Some(Date(a.year.v, 1, 1))
  {
    var a := NavClick(false, yearText, forward);
    var t := JsIntToString(a.year);
    YearField(a.year);
    SliderTarget(t);
  }

  /** The year shown after `n` clicks on "previous" without a timeline. */
  function PressPrevious(n: nat, year: JsInt): JsInt
  {
    if n == 0 then year else PressPrevious(n - 1, PreviousYear(year))
  }

  /** The year shown after `n` clicks on "next" without a timeline. */
  function PressNext(n: nat, year: JsInt): JsInt
  {
    if n == 0 then year else PressNext(n - 1, NextYear(year))
  }

  /** `n` clicks on "previous" go back `n` years but never before 1900; NaN stays NaN. */
  lemma {:induction false} PressPreviousClamps(n: nat, year: JsInt)
    requires year.Int? ==> year.v >= MinYear || n > 0
    ensures year.NaN? ==> PressPrevious(n, year).NaN?
    ensures year.Int? ==> PressPrevious(n, year) == Int(if year.v - n < MinYear then MinYear else year.v - n)
  {
    if n > 0 {
      PressPreviousClamps(n - 1, PreviousYear(year));
    }
  }

  /** `n` clicks on "next" go forward `n` years but never past 2025; NaN stays NaN. */
  lemma {:induction false} PressNextClamps(n: nat, year: JsInt)
    requires year.Int? ==> year.v <= MaxYear || n > 0
    ensures year.NaN? ==> PressNext(n, year).NaN?
    ensures year.Int? ==> PressNext(n, year) == Int(if year.v + n > MaxYear then MaxYear else year.v + n)
  {
    if n > 0 {
      PressNextClamps(n - 1, NextYear(year));
    }
  }

  // ---------------------------------------------------------------------
  // The event list given to the timeline.
  // ---------------------------------------------------------------------

  function LowerChar(c: char): char
  {
    if 'A' <= c <= 'Z' then (c as int + 32) as char else c
  }

  /** `toLowerCase` on the ASCII letters. */
  function AsciiLower(s: string): string
  {
    if s == [] then [] else [LowerChar(s[0])] + AsciiLower(s[1..])
  }

  function LineHeadline(name: string): string
  {
    "🚇 " + name
  }

  /** The opening event of a line: its opening year, its name as headline. */
  function LineEvent(info: LineInfo): Event
  {
    Event(StartDate(ParseInt(info.openingYear), None, None),
          LineHeadline(info.name),
          "Ouverture de la " + AsciiLower(info.name))
  }

  /** The opening events of the lines `keys`, in that order. */
  function OpeningEvents(reg: seq<LineEntry>, keys: seq<string>): seq<Event>
    requires forall k :: k in keys ==> Lookup(reg, k).Some?
  {
    if keys == [] then []
    else
      var init := keys[..|keys| - 1];
      assert forall k :: k in init ==> k in keys;
      OpeningEvents(reg, init) + [LineEvent(Lookup(reg, keys[|keys| - 1]).value)]
  }

  /**
   * `Object.keys` of the registry lists one key per record, and every key
   * names a record.
   */
  lemma KeysRegistered(reg: seq<LineEntry>)
    ensures |ObjectKeyOrder(Ids(reg))| == |reg|
    ensures forall k :: 0 <= k < |reg| ==> reg[k].id in ObjectKeyOrder(Ids(reg))
    ensures forall k :: k in ObjectKeyOrder(Ids(reg)) ==> Lookup(reg, k).Some?
  {
    var keys := ObjectKeyOrder(Ids(reg));
    assert |keys| == |multiset(keys)| == |multiset(Ids(reg))| == |reg|;
    forall k | k in keys ensures Lookup(reg, k).Some? {
      assert k in multiset(keys);
      assert k in Ids(reg);
    }
    forall k | 0 <= k < |reg| ensures reg[k].id in keys {
      assert reg[k].id in Ids(reg);
      assert reg[k].id in multiset(keys);
    }
  }

  /** The events `initTimeline` hands to the timeline. */
  function TimelineEvents(historical: seq<Event>, reg: seq<LineEntry>): seq<Event>
  {
    KeysRegistered(reg);
    historical + OpeningEvents(reg, ObjectKeyOrder(Ids(reg)))
  }

  /**
   * `initTimeline`'s two loops: the historical events in their order, then
   * one opening event per registry key in `Object.keys` order.
   */
  method BuildTimelineEvents(historical: seq<Event>, reg: seq<LineEntry>) returns (events: seq<Event>)
    ensures events == TimelineEvents(historical, reg)
  {
    events := [];
    for i := 0 to |historical|
      invariant events == historical[..i]
    {
      events := events + [historical[i]];
    }
    assert events == historical;
    KeysRegistered(reg);
    events := PushOpeningEvents(events, reg, ObjectKeyOrder(Ids(reg)));
  }

  /** The second loop of `initTimeline`: one opening event pushed per key. */
  method PushOpeningEvents(start: seq<Event>, reg: seq<LineEntry>, keys: seq<string>) returns (events: seq<Event>)
    requires forall k :: k in keys ==> Lookup(reg, k).Some?
    ensures events == start + OpeningEvents(reg, keys)
  {
    events := start;
    for j := 0 to |keys|
      invariant events == start + OpeningEvents(reg, keys[..j])
    {
      assert keys[j] in keys;
      var line := Lookup(reg, keys[j]).value;
      assert keys[..j + 1][..j] == keys[..j];
      events := events + [LineEvent(line)];
    }
    assert keys[..|keys|] == keys;
  }

  /** With every key registered, one event per key. */
  lemma {:induction false} OpeningEventsLength(reg: seq<LineEntry>, keys: seq<string>)
    requires forall k :: k in keys ==> Lookup(reg, k).Some?
    ensures |OpeningEvents(reg, keys)| == |keys|
  {
    if keys != [] {
      var init := keys[..|keys| - 1];
      assert forall k :: k in init ==> k in keys;
      OpeningEventsLength(reg, init);
    }
  }

  /** The event for the `j`th key is the opening event of that key's line. */
  lemma {:induction false} OpeningEventAt(reg: seq<LineEntry>, keys: seq<string>, j: int)
    requires forall k :: k in keys ==> Lookup(reg, k).Some?
    requires 0 <= j < |keys|
    ensures |OpeningEvents(reg, keys)| == |keys|
    ensures OpeningEvents(reg, keys)[j] == LineEvent(Lookup(reg, keys[j]).value)
  {
    OpeningEventsLength(reg, keys);
    if j < |keys| - 1 {
      var init := keys[..|keys| - 1];
      assert forall k :: k in init ==> k in keys;
      OpeningEventAt(reg, init, j);
      assert init[j] == keys[j];
    }
  }

  /**
   * The timeline receives every historical event first, in order, then one
   * event per registry key: as many events as both lists together.
   */
  lemma TimelineEventsShape(historical: seq<Event>, reg: seq<LineEntry>)
    ensures |TimelineEvents(historical, reg)| == |historical| + |reg|
    ensures TimelineEvents(historical, reg)[..|historical|] == historical
  {
    KeysRegistered(reg);
    OpeningEventsLength(reg, ObjectKeyOrder(Ids(reg)));
  }

  /**
   * Every registered line has its opening event, dated by its opening year
   * and headed by its name, after the historical events.
   */
  lemma TimelineListsEveryLine(historical: seq<Event>, reg: seq<LineEntry>, k: int)
    requires UniqueIds(reg) && 0 <= k < |reg|
    ensures exists i :: |historical| <= i < |TimelineEvents(historical, reg)|
                        && TimelineEvents(historical, reg)[i] == LineEvent(reg[k].info)
  {
    var keys := ObjectKeyOrder(Ids(reg));
    KeysRegistered(reg);
    assert TimelineEvents(historical, reg) == historical + OpeningEvents(reg, keys);
    KeyHasEvent(historical, reg, keys, k);
  }

  lemma KeyHasEvent(historical: seq<Event>, reg: seq<LineEntry>, keys: seq<string>, k: int)
    requires forall key :: key in keys ==> Lookup(reg, key).Some?
    requires UniqueIds(reg) && 0 <= k < |reg| && reg[k].id in keys
    ensures exists i :: |historical| <= i < |historical + OpeningEvents(reg, keys)|
                        && (historical + OpeningEvents(reg, keys))[i] == LineEvent(reg[k].info)
  {
    var j :| 0 <= j < |keys| && keys[j] == reg[k].id;
    OpeningEventAt(reg, keys, j);
    LookupRegistered(reg, k);
    assert (historical + OpeningEvents(reg, keys))[|historical| + j] == LineEvent(reg[k].info);
  }

  /**
   * A line's opening event, when its opening year is four digits, makes
   * the map show the first of January of that year.
   */
  lemma LineEventDay(info: LineInfo)
    requires |info.openingYear| == 4 && Canonical(info.openingYear)
    ensures SlideDay(LineEvent(info).start) == Some(Date(DecimalValue(info.openingYear), 1, 1))
    ensures ParseIso(SlideDateString(LineEvent(info).start)) == Some(Date(DecimalValue(info.openingYear), 1, 1))
  {
    var y := info.openingYear;
    CanonicalValueLowerBound(y);
    DecimalValueBound(y);
    SlideDateRoundTrip(LineEvent(info).start);
  }

  // ---------------------------------------------------------------------
  // The information panel.
  // ---------------------------------------------------------------------

  /**
   * The colour `updateInfoPanel` adds for a slide: only for a headline that
   * mentions "Ligne" and has a digit run whose digits are a registry key.
   */
  function InfoPanelColor(reg: seq<LineEntry>, headline: string): (r: Option<string>)
    ensures r.Some? ==> Contains(headline, "Ligne") && FirstDigitRun(headline).Some?
    ensures Contains(headline, "Ligne") && FirstDigitRun(headline).Some? && Lookup(reg, FirstDigitRun(headline).value).Some?
            ==> r == Some(Lookup(reg, FirstDigitRun(headline).value).value.color)
    ensures r.Some? ==> exists k :: 0 <= k < |reg| && reg[k].id == FirstDigitRun(headline).value && reg[k].info.color == r.value
  {
    if !Contains(headline, "Ligne") then None
    else match FirstDigitRun(headline)
      case None => None
      case Some(lineNum) =>
        match Lookup(reg, lineNum)
        case None => None
        case Some(info) => Some(info.color)
  }

  /**
   * A headline made of a digit-free text mentioning "Ligne", then a registry
   * key, then a text that does not start with a digit, shows the colour of
   * the first line under that key.
   */
  lemma PanelColorOfKeyedHeadline(reg: seq<LineEntry>, prefix: string, at: int, k: int, suffix: string)
    requires 0 <= at <= |prefix| && "Ligne" <= prefix[at..]
    requires forall j :: 0 <= j < |prefix| ==> !IsDigit(prefix[j])
    requires 0 <= k < |reg| && forall j :: 0 <= j < k ==> reg[j].id != reg[k].id
    requires reg[k].id != [] && AllDigits(reg[k].id)
    requires suffix == [] || !IsDigit(suffix[0])
    ensures InfoPanelColor(reg, prefix + reg[k].id + suffix) == Some(reg[k].info.color)
  {
    var h := prefix + reg[k].id + suffix;
    assert h[at..] == prefix[at..] + reg[k].id + suffix;
    assert "Ligne" <= h[at..];
    FirstDigitRunAfter(prefix, reg[k].id, suffix);
    LookupFirst(reg, k);
  }

  /**
   * The panel of a line's own opening event shows that line's colour, for a
   * line named "Ligne " followed by its (all-digit) key.
   */
  lemma LineEventPanelColor(reg: seq<LineEntry>, k: int)
    requires UniqueIds(reg) && 0 <= k < |reg|
    requires Canonical(reg[k].id) && reg[k].info.name == "Ligne " + reg[k].id
    ensures InfoPanelColor(reg, LineHeadline(reg[k].info.name)) == Some(reg[k].info.color)
  {
    var prefix := "🚇 Ligne ";
    assert LineHeadline(reg[k].info.name) == prefix + reg[k].id + "";
    PanelColorOfKeyedHeadline(reg, prefix, 2, k, "");
  }
}
