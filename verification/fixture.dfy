/**
 * The data set shipped with the application (`js/data.js`): fifteen
 * stations, fourteen lines and six historical events, with the drawn state
 * it yields on a few dates. Coordinates are in ten-thousandths of a degree.
 */
module Fixture {
  import opened Text
  import opened Dates
  import opened Sequences
  import opened Stations
  import opened Lines
  import opened SyncEngine
  import opened Controls

  const AllStations: seq<Station> := [
    Station("Porte Maillot", Date(1900, 7, 19), Coord(488776, 22849), "1"),
    Station("Charles de Gaulle - Étoile", Date(1900, 12, 1), Coord(488738, 22950), "1"),
    Station("Franklin D. Roosevelt", Date(1900, 7, 19), Coord(488686, 23075), "1"),
    Station("Champs-Élysées - Clemenceau", Date(1900, 7, 19), Coord(488667, 23139), "1"),
    Station("Concorde", Date(1900, 7, 19), Coord(488656, 23214), "1"),
    Station("Porte de Vincennes", Date(1900, 7, 19), Coord(488483, 24147), "1"),
    Station("Trocadéro", Date(1900, 10, 2), Coord(488630, 22875), "6"),
    Station("Bir-Hakeim", Date(1906, 4, 24), Coord(488537, 22898), "6"),
    Station("Montparnasse - Bienvenüe", Date(1910, 4, 24), Coord(488431, 23222), "4"),
    Station("Châtelet", Date(1900, 8, 6), Coord(488584, 23474), "1"),
    Station("Louvre - Rivoli", Date(1900, 7, 19), Coord(488612, 23406), "1"),
    Station("Bastille", Date(1900, 7, 19), Coord(488531, 23692), "1"),
    Station("Gare de Lyon", Date(1900, 7, 19), Coord(488447, 23742), "1"),
    Station("Opéra", Date(1910, 11, 5), Coord(488708, 23322), "3"),
    Station("Saint-Lazare", Date(1910, 11, 5), Coord(488767, 23253), "13")
  ]

  const MetroLines: seq<LineEntry> := [
    LineEntry("1", LineInfo("Ligne 1", "#FFCD00", "1900")),
    LineEntry("2", LineInfo("Ligne 2", "#003CA6", "1900")),
    LineEntry("3", LineInfo("Ligne 3", "#837902", "1904")),
    LineEntry("4", LineInfo("Ligne 4", "#CF009E", "1908")),
    LineEntry("5", LineInfo("Ligne 5", "#FF7E2E", "1906")),
    LineEntry("6", LineInfo("Ligne 6", "#73C7D6", "1909")),
    LineEntry("7", LineInfo("Ligne 7", "#F3A4BA", "1910")),
    LineEntry("8", LineInfo("Ligne 8", "#C7A8CF", "1913")),
    LineEntry("9", LineInfo("Ligne 9", "#B6BD00", "1922")),
    LineEntry("10", LineInfo("Ligne 10", "#E3B32A", "1923")),
    LineEntry("11", LineInfo("Ligne 11", "#704B1C", "1935")),
    LineEntry("12", LineInfo("Ligne 12", "#007852", "1910")),
    LineEntry("13", LineInfo("Ligne 13", "#6E4C1E", "1911")),
    LineEntry("14", LineInfo("Ligne 14", "#62259D", "1998"))
  ]

  const HistoricalEvents: seq<Event> := [
    Event(StartDate(Int(1900), Some(7), Some(19)), "🎉 Inauguration du Métro de Paris",
          "La ligne 1 entre Porte Maillot et Porte de Vincennes ouvre pour l'Exposition Universelle."),
    Event(StartDate(Int(1910), Some(4), None), "🌊 Inondations de la Seine",
          "Plusieurs stations sont inondées, causant d'importants dégâts."),
    Event(StartDate(Int(1935), Some(4), Some(28)), "🆕 Ligne 11",
          "Ouverture de la ligne 11, première ligne à pentes importantes."),
    Event(StartDate(Int(1942), Some(6), None), "🔄 Changements de noms",
          "Plusieurs stations sont renommées pendant l'Occupation."),
    Event(StartDate(Int(1998), Some(10), Some(15)), "🤖 Ligne 14 Automatique",
          "Ouverture de la première ligne complètement automatique."),
    Event(StartDate(Int(2024), Some(6), None), "🚀 Extension Ligne 14",
          "Prolongation vers l'aéroport d'Orly.")
  ]

  /**
   * On inauguration day, 1900-07-19, exactly eight stations are open:
   * Châtelet, opened on 1900-08-06, is not among them.
   */
  lemma InaugurationDay()
    ensures |VisibleAt(AllStations, Date(1900, 7, 19))| == 8
    ensures AllStations[9] !in VisibleAt(AllStations, Date(1900, 7, 19))
  {
    EightOpen(AllStations, Date(1900, 7, 19));
    VisibleAtSpec(AllStations, Date(1900, 7, 19));
  }

  /** Fifteen stations of which those at positions 0, 2-5 and 10-12 are open leave eight visible. */
  lemma EightOpen(s: seq<Station>, d: Date)
    requires |s| == 15
    requires forall i :: 0 <= i < 15 ==> (OnOrBefore(s[i].opening, d) <==> i in {0, 2, 3, 4, 5, 10, 11, 12})
    ensures |VisibleAt(s, d)| == 8
  {
    assert VisibleAt(s[15..], d) == [];
    VisibleAtFrom(s, 14, d);
    VisibleAtFrom(s, 13, d);
    VisibleAtFrom(s, 12, d);
    VisibleAtFrom(s, 11, d);
    VisibleAtFrom(s, 10, d);
    VisibleAtFrom(s, 9, d);
    VisibleAtFrom(s, 8, d);
    VisibleAtFrom(s, 7, d);
    VisibleAtFrom(s, 6, d);
    VisibleAtFrom(s, 5, d);
    VisibleAtFrom(s, 4, d);
    VisibleAtFrom(s, 3, d);
    VisibleAtFrom(s, 2, d);
    VisibleAtFrom(s, 1, d);
    VisibleAtFrom(s, 0, d);
    assert s[0..] == s;
  }

  /** Before the first opening nothing is drawn and the legend shows its placeholder. */
  lemma BeforeTheMetro(e: Engine)
    requires e.allStations == AllStations && e.metroLines == MetroLines
    requires e.Shows(Date(1899, 12, 31))
    ensures e.markers == [] && e.segments == []
    ensures e.ShowsPlaceholder()
  {
    NothingOpenIn1899();
    ViewOfNoStations(MetroLines);
  }

  lemma NothingOpenIn1899()
    ensures VisibleAt(AllStations, Date(1899, 12, 31)) == []
  {
    VisibleAtNone(AllStations, Date(1899, 12, 31));
  }

  /** On 1910-04-24 the legend lists lines 1, 4 and 6, in that order. */
  lemma LegendOnMontparnasseOpening(e: Engine)
    requires e.allStations == AllStations && e.metroLines == MetroLines
    requires e.Shows(Date(1910, 4, 24))
    ensures EntryIds(e.legend) == ["1", "4", "6"]
  {
    MontparnasseConditions();
    LegendOfOpenStations(MetroLines, AllStations, Date(1910, 4, 24), ["1", "4", "6"], [0, 8, 6]);
  }

  lemma MontparnasseConditions()
    ensures LegendConditions(MetroLines, AllStations, Date(1910, 4, 24), ["1", "4", "6"], [0, 8, 6])
  {
    var ids := ["1", "4", "6"];
    assert forall i, j :: 0 <= i < j < |ids| ==> StrLt(ids[i], ids[j]);
    LinesRegistered(ids);
    OpenLines(Date(1910, 4, 24), ids);
    MontparnasseAnchors();
  }

  /** Every id of `ids` names a registered line. */
  lemma LinesRegistered(ids: seq<string>)
    requires forall id :: id in ids ==> id in ["1", "3", "4", "6", "13"]
    ensures forall id :: id in ids ==> Lookup(MetroLines, id).Some?
  {
    assert MetroLines[0].id == "1" && MetroLines[2].id == "3" && MetroLines[3].id == "4";
    assert MetroLines[5].id == "6" && MetroLines[12].id == "13";
  }

  /** The stations open on `d` all belong to the lines `ids`. */
  lemma OpenLines(d: Date, ids: seq<string>)
    requires d == Date(1910, 4, 24) || d == Date(1910, 11, 5)
    requires ids == (if d == Date(1910, 4, 24) then ["1", "4", "6"] else ["1", "13", "3", "4", "6"])
    ensures forall i ::
              0 <= i < |AllStations| && OnOrBefore(AllStations[i].opening, d) ==>
                AllStations[i].line != [] && AllDigits(AllStations[i].line) && AllStations[i].line in ids
  {
  }

  lemma MontparnasseAnchors()
    ensures forall k :: 0 <= k < 3 ==> Anchors(AllStations, Date(1910, 4, 24), [0, 8, 6][k], ["1", "4", "6"][k])
  {
    LinesOneAndSixAlone();
    LineFourAlone();
  }

  /** No other line shares the positions of Porte Maillot (line 1) and Trocadéro (line 6). */
  lemma LinesOneAndSixAlone()
    ensures SoleLineAt(AllStations, 0, "1") && SoleLineAt(AllStations, 6, "6")
  {
  }

  /** No other line shares the position of Montparnasse - Bienvenüe (line 4). */
  lemma LineFourAlone()
    ensures SoleLineAt(AllStations, 8, "4")
  {
  }

  /** No other line shares the positions of Opéra (line 3) and Saint-Lazare (line 13). */
  lemma LinesThreeAndThirteenAlone()
    ensures SoleLineAt(AllStations, 13, "3") && SoleLineAt(AllStations, 14, "13")
  {
  }

  /** Once lines 3 and 13 open, the legend is in string order: "13" before "3". */
  lemma LegendInStringOrder(e: Engine)
    requires e.allStations == AllStations && e.metroLines == MetroLines
    requires e.Shows(Date(1910, 11, 5))
    ensures EntryIds(e.legend) == ["1", "13", "3", "4", "6"]
  {
    OperaConditions();
    LegendOfOpenStations(MetroLines, AllStations, Date(1910, 11, 5), ["1", "13", "3", "4", "6"], [0, 14, 13, 8, 6]);
  }

  lemma OperaConditions()
    ensures LegendConditions(MetroLines, AllStations, Date(1910, 11, 5), ["1", "13", "3", "4", "6"], [0, 14, 13, 8, 6])
  {
    var ids := ["1", "13", "3", "4", "6"];
    OperaIdsOrdered();
    LinesRegistered(ids);
    OpenLines(Date(1910, 11, 5), ids);
    OperaAnchors();
  }

  /** "1" < "13" < "3" < "4" < "6" in string order. */
  lemma OperaIdsOrdered()
    ensures var ids := ["1", "13", "3", "4", "6"];
      forall i, j :: 0 <= i < j < |ids| ==> StrLt(ids[i], ids[j])
  {
    var ids := ["1", "13", "3", "4", "6"];
    assert StrLt("1", "13") && StrLt("13", "3") && StrLt("3", "4") && StrLt("4", "6");
    forall i, j | 0 <= i < j < |ids| ensures StrLt(ids[i], ids[j]) {
      if j > i + 1 {
        StrictChain(ids, i, j);
      }
    }
  }

  /** In a list where each string is below the next, each is below every later one. */
  lemma {:induction false} StrictChain(ids: seq<string>, i: int, j: int)
    requires forall k :: 0 <= k < |ids| - 1 ==> StrLt(ids[k], ids[k + 1])
    requires 0 <= i < j < |ids|
    ensures StrLt(ids[i], ids[j])
    decreases j - i
  {
    if j > i + 1 {
      StrictChain(ids, i + 1, j);
      StrLtTransitive(ids[i], ids[i + 1], ids[j]);
    }
  }

  lemma OperaAnchors()
    ensures forall k :: 0 <= k < 5 ==> Anchors(AllStations, Date(1910, 11, 5), [0, 14, 13, 8, 6][k], ["1", "13", "3", "4", "6"][k])
  {
    LinesOneAndSixAlone();
    LineFourAlone();
    LinesThreeAndThirteenAlone();
  }

  /** The timeline receives twenty events: six historical ones, then fourteen line openings. */
  lemma TimelineHasTwentyEvents()
    ensures |TimelineEvents(HistoricalEvents, MetroLines)| == 20
    ensures TimelineEvents(HistoricalEvents, MetroLines)[..6] == HistoricalEvents
  {
    TimelineEventsShape(HistoricalEvents, MetroLines);
  }

  /** The slide dated April 1910 without a day sends the engine the first of April 1910. */
  lemma FloodSlideDate()
    ensures ParseIso(SlideDateString(HistoricalEvents[1].start)) == Some(Date(1910, 4, 1))
  {
    var start := StartDate(Int(1910), Some(4), None);
    assert HistoricalEvents[1].start == start;
    SlideDateRoundTrip(start);
    assert SlideDay(start) == Some(Date(1910, 4, 1));
  }

  /** The "🆕 Ligne 11" slide shows line 11's colour in the information panel. */
  lemma LineElevenPanel()
    ensures InfoPanelColor(MetroLines, HistoricalEvents[2].headline) == Some("#704B1C")
  {
    var prefix := "🆕 Ligne ";
    assert HistoricalEvents[2].headline == prefix + MetroLines[10].id + "";
    PanelColorOfKeyedHeadline(MetroLines, prefix, 2, 10, "");
  }

  /** The "🤖 Ligne 14 Automatique" slide, whose headline goes on after the number, shows line 14's colour. */
  lemma AutomaticLinePanel()
    ensures InfoPanelColor(MetroLines, HistoricalEvents[4].headline) == Some("#62259D")
  {
    FourteenHeadlines();
    PanelOfLineFourteen("🤖 Ligne ", 2, " Automatique");
  }

  /** The "🚀 Extension Ligne 14" slide shows line 14's colour. */
  lemma ExtensionPanel()
    ensures InfoPanelColor(MetroLines, HistoricalEvents[5].headline) == Some("#62259D")
  {
    FourteenHeadlines();
    PanelOfLineFourteen("🚀 Extension Ligne ", 12, "");
  }

  /** No line before line 14 in the registry has its key. */
  lemma LineFourteenIsFirst()
    ensures MetroLines[13].id == "14" && forall j :: 0 <= j < 13 ==> MetroLines[j].id != MetroLines[13].id
  {
  }

  lemma FourteenHeadlines()
    ensures HistoricalEvents[4].headline == "🤖 Ligne " + "14" + " Automatique"
    ensures HistoricalEvents[5].headline == "🚀 Extension Ligne " + "14" + ""
  {
  }

  /** A digit-free headline text mentioning "Ligne" at `at`, then "14", then a non-digit, shows line 14's colour. */
  lemma PanelOfLineFourteen(prefix: string, at: int, suffix: string)
    requires 0 <= at <= |prefix| && "Ligne" <= prefix[at..]
    requires forall j :: 0 <= j < |prefix| ==> !IsDigit(prefix[j])
    requires suffix == [] || !IsDigit(suffix[0])
    ensures InfoPanelColor(MetroLines, prefix + "14" + suffix) == Some("#62259D")
  {
    LineFourteenIsFirst();
    PanelColorOfKeyedHeadline(MetroLines, prefix, at, 13, suffix);
  }
}
