/** The heuristic analysis (`generateBasicAnalysis`): from the aggregate
    statistics, the position-combination rows, the location rows and the
    recent history it builds a suggestion for the next encounter, the pattern
    report and the insight list. The clock is the parameter `now`. */
module BasicAnalysis {
  import opened Wrappers
  import opened Text
  import opened Patterns
  import opened DatePrediction
  import opened LookupTables
  import opened Insights
  import JsValues

  /** The aggregate row of the statistics query, after the driver's strings
      are read as numbers: the encounter count, the average rating and
      duration, and the latest and earliest encounter dates. */
  datatype Stats = Stats(count: nat, ratingAverage: real, durationAverage: real,
                         last: Option<int>, first: Option<int>)

  datatype Suggestion = Suggestion(
    summary: string,
    date: DateValue,
    location: string,
    positions: seq<string>,
    duration: int,
    recommendation: string,
    scenario: Scenario,
    tips: seq<string>)

  /** `estadisticas` of the pattern report. */
  datatype Statistics = Statistics(ratingAverage: real, durationAverage: int, totalEncounters: int)

  datatype PatternReport = PatternReport(
    topPositions: seq<Entry>,
    frequentLocations: seq<LocationRow>,
    statistics: Statistics)

  datatype Analysis = Analysis(suggestion: Suggestion, patterns: PatternReport, insights: seq<Insight>)

  const FirstSummary := "Como es tu primer encuentro con este Top, aquí tienes algunas sugerencias iniciales."

  /** The summary sentence. With encounters it states the count followed by
      "encuentro", with an "s" when `plural` holds. */
  function SummaryText(count: nat, plural: bool): (s: string)
    ensures count == 0 <==> s == FirstSummary
  {
    if count > 0 then
      var s := "Basado en tu historial de " + IntToString(count) + " encuentro" + (if plural then "s" else "")
        + ", aquí tienes recomendaciones personalizadas.";
      assert s[|s| - 3] == 'a' && FirstSummary[|FirstSummary| - 3] == 'e';
      s
    else FirstSummary
  }

  /** The plural test of the summary as written, `total_encuentros !== 1`:
      strict inequality, under which values of different types always
      differ. The driver delivers the count as a string. */
  function SummaryPluralAsWritten(total: JsValues.JsValue): (plural: bool)
    ensures total.Str? ==> plural
    ensures total.Num? ==> (plural <==> total.x != 1.0)
  {
    total != JsValues.Num(1.0)
  }

  /** The summary as written, for the count as the driver delivers it. */
  function SummaryAsWritten(count: nat): string {
    SummaryText(count, SummaryPluralAsWritten(JsValues.Str(IntToString(count))))
  }

  /** The summary as intended: plural exactly when the count is not one. */
  function Summary(count: nat): string {
    SummaryText(count, count != 1)
  }

  /** The plural "s" adds exactly one character to a summary with encounters. */
  lemma PluralLength(count: nat)
    requires count > 0
    ensures |SummaryText(count, true)| == |SummaryText(count, false)| + 1
  {
  }

  /** The written summary disagrees with the intended one for a single
      encounter: it pluralises "1 encuentro". */
  lemma SummaryAsWrittenMisreadsOne()
    ensures SummaryPluralAsWritten(JsValues.Str(IntToString(1)))
    ensures SummaryAsWritten(1) == SummaryText(1, true) && Summary(1) == SummaryText(1, false)
    ensures SummaryAsWritten(1) != Summary(1)
  {
    PluralLength(1);
  }

  /** The intended summary agrees with the count insight, which tests
      `total_encuentros > 1`: both are plural for exactly the same counts. */
  lemma SummaryAgreesWithInsight(count: nat)
    requires count > 0
    ensures Summary(count) == SummaryText(count, InsightsFor(count, 0.0, [], [], [])[0].plural)
  {
  }

  /** The written test is the intended one on a numeric count: only the
      type of the driver's value makes it misread a single encounter. */
  lemma NumericCountIsRead(count: nat)
    ensures SummaryText(count, SummaryPluralAsWritten(JsValues.Num(count as real))) == Summary(count)
  {
  }

  function RecommendationOpening(withHistory: bool): string {
    if withHistory then "Basado en tus encuentros previos, te recomendamos probar \""
    else "Para tu primer encuentro, te sugerimos comenzar con \""
  }

  /** The recommendation sentence naming the position, the location and the
      duration; its opening depends only on whether there are encounters. */
  function Recommendation(count: nat, position: string, location: string, duration: int): string {
    RecommendationOpening(count > 0)
      + position + "\" en \"" + location + "\" por aproximadamente " + IntToString(duration) + " minutos."
  }

  /** The recommendation depends on the count only through its sign: two
      counts on the same side of zero give the same recommendation, and the
      two sides never do. The summary, which prints the count, is the
      first-encounter one exactly at zero. */
  lemma NarrativeBranchesOnPositiveCount(c1: nat, c2: nat, position: string, location: string, duration: int)
    ensures (c1 > 0) == (c2 > 0) ==> Recommendation(c1, position, location, duration) == Recommendation(c2, position, location, duration)
    ensures (c1 > 0) != (c2 > 0) ==> Recommendation(c1, position, location, duration) != Recommendation(c2, position, location, duration)
    ensures (c1 == 0) == (Summary(c1) == FirstSummary)
  {
    if (c1 > 0) != (c2 > 0) {
      assert |RecommendationOpening(true)| == |RecommendationOpening(false)| + 5;
    }
  }

  /** The heuristic analysis (see `AnalysisFacts` for what it promises). */
  function GenerateBasicAnalysis(stats: Stats, rows: seq<PositionRow>, locations: seq<LocationRow>,
                                 history: seq<HistoryRow>, now: int): (r: Analysis)
    ensures r.suggestion.date.Valid? ==> r.suggestion.date.ms >= now
    ensures stats.count == 0 <==> r.suggestion.summary == FirstSummary
    ensures stats.count == 0 <==> r.insights == [FirstEncounter]
  {
    NeverInThePast(stats.count, stats.first, stats.last, now);
    var top := TopPositions(rows);
    var location := DominantLocation(locations);
    var position := DominantPosition(top);
    var date := PredictNextDate(stats.count, stats.first, stats.last, now);
    var duration := SuggestedDuration(stats.durationAverage);
    var insights := InsightsFor(stats.count, stats.ratingAverage, locations, top, history);
    var suggestion := Suggestion(
      Summary(stats.count),
      date,
      location,
      if position != "" then [position] else [],
      duration,
      Recommendation(stats.count, position, location, duration),
      ScenarioFor(location),
      TipsFor(position));
    var statistics := Statistics(stats.ratingAverage, Round(stats.durationAverage), stats.count);
    Analysis(suggestion, PatternReport(top, locations, statistics), insights)
  }

  /** The suggestion of the analysis: the dominant location (never empty), a
      one-element position list holding the dominant position, the cadence
      prediction for the date (never in the past), the rounded average
      duration (never zero), the scenario of the suggested location, the five
      tips of the suggested position, and the recommendation naming that
      position, location and duration. */
  lemma SuggestionFacts(stats: Stats, rows: seq<PositionRow>, locations: seq<LocationRow>,
                        history: seq<HistoryRow>, now: int)
    ensures var s := GenerateBasicAnalysis(stats, rows, locations, history, now).suggestion;
      && s.summary == Summary(stats.count)
      && s.location == DominantLocation(locations) && s.location != ""
      && s.positions == [DominantPosition(TopPositions(rows))]
      && s.date == PredictNextDate(stats.count, stats.first, stats.last, now)
      && (s.date.Valid? ==> s.date.ms >= now)
      && s.duration == SuggestedDuration(stats.durationAverage) && s.duration != 0
      && s.scenario == ScenarioFor(s.location)
      && s.tips == TipsFor(s.positions[0]) && |s.tips| == 5
      && s.recommendation == Recommendation(stats.count, s.positions[0], s.location, s.duration)
  {
    NeverInThePast(stats.count, stats.first, stats.last, now);
  }

  /** The pattern report passes the location rows through unchanged, ranks
      at most five positions, best first, each with its total, and carries
      the average rating, the rounded average duration and the count; the
      insight list has one to five sentences, and is the single
      first-encounter sentence exactly when there are no encounters
      (`AnalysisInsightsAreReported` says which sentences it holds). */
  lemma AnalysisFacts(stats: Stats, rows: seq<PositionRow>, locations: seq<LocationRow>,
                      history: seq<HistoryRow>, now: int)
    ensures var a := GenerateBasicAnalysis(stats, rows, locations, history, now);
      && a.patterns.frequentLocations == locations
      && a.patterns.topPositions == TopPositions(rows)
      && |a.patterns.topPositions| <= TopCount
      && NonIncreasing(a.patterns.topPositions)
      && (forall e :: e in a.patterns.topPositions ==> e.times == TokenTotal(rows, e.name))
      && a.patterns.statistics == Statistics(stats.ratingAverage, Round(stats.durationAverage), stats.count)
      && 1 <= |a.insights| <= 5
      && (stats.count == 0 <==> a.insights == [FirstEncounter])
  {
    TopPositionsFacts(rows);
  }

  /** The insights of the analysis are exactly the sentences that report
      these rows: the count, the rating band, the dominant location, the
      dominant ranked position and the first highly rated encounter. */
  lemma AnalysisInsightsAreReported(stats: Stats, rows: seq<PositionRow>, locations: seq<LocationRow>,
                                    history: seq<HistoryRow>, now: int, x: Insight)
    ensures var a := GenerateBasicAnalysis(stats, rows, locations, history, now);
      x in a.insights <==> Reports(x, stats.count, stats.ratingAverage, locations, a.patterns.topPositions, history)
  {
    InsightsAreReported(stats.count, stats.ratingAverage, locations, TopPositions(rows), history, x);
  }
}
