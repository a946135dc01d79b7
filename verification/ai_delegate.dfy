/** Delegation to the generative service and the choice between its answer
    and the heuristic analysis. The service itself, the prompt it is sent and
    `JSON.parse` are outside the model: the service's reply and the parser are
    parameters, a reply of `None` standing for any exception on the way. */
module AiDelegate {
  import opened Wrappers
  import opened Patterns
  import opened Insights
  import opened BasicAnalysis

  /** A match of `/\{[\s\S]*\}/` spanning `text[i..j + 1]`: an opening brace
      at `i` and a closing brace at `j` after it. */
  predicate MatchAt(text: string, i: int, j: int) {
    0 <= i < j < |text| && text[i] == '{' && text[j] == '}'
  }

  /** The index of the first occurrence of `c`. */
  function FirstIndex(text: string, c: char): (r: Option<nat>)
    ensures r.None? <==> forall k :: 0 <= k < |text| ==> text[k] != c
    ensures r.Some? ==> r.value < |text| && text[r.value] == c && forall k :: 0 <= k < r.value ==> text[k] != c
  {
    if |text| == 0 then None
    else if text[0] == c then Some(0)
    else
      var rest := FirstIndex(text[1..], c);
      assert forall k :: 1 <= k < |text| ==> text[k] == text[1..][k - 1];
      match rest
      case None => None
      case Some(k) => Some(k + 1)
  }

  /** The index of the last occurrence of `c`. */
  function LastIndex(text: string, c: char): (r: Option<nat>)
    ensures r.None? <==> forall k :: 0 <= k < |text| ==> text[k] != c
    ensures r.Some? ==> r.value < |text| && text[r.value] == c && forall k :: r.value < k < |text| ==> text[k] != c
  {
    if |text| == 0 then None
    else if text[|text| - 1] == c then Some(|text| - 1)
    else
      var rest := LastIndex(text[..|text| - 1], c);
      assert forall k :: 0 <= k < |text| - 1 ==> text[k] == text[..|text| - 1][k];
      rest
  }

  /** The text `responseText.match(/\{[\s\S]*\}/)` finds: from the first
      opening brace to the last closing brace, provided the latter comes
      after the former. */
  function JsonSpan(text: string): (r: Option<string>)
    ensures r.Some? <==> exists i, j :: MatchAt(text, i, j)
    ensures r.Some? ==> 2 <= |r.value| && r.value[0] == '{' && r.value[|r.value| - 1] == '}'
  {
    match (FirstIndex(text, '{'), LastIndex(text, '}'))
    case (Some(i), Some(j)) =>
      if i < j then
        assert MatchAt(text, i, j);
        Some(text[i..j + 1])
      else
        MatchBounds(text, i, j);
        None
    case (_, _) => None
  }

  /** Every match starts at or after the first opening brace and ends at or
      before the last closing brace. */
  lemma MatchBounds(text: string, i: nat, j: nat)
    requires FirstIndex(text, '{') == Some(i) && LastIndex(text, '}') == Some(j)
    ensures forall a, b :: MatchAt(text, a, b) ==> i <= a && b <= j
  {
  }

  /** The regular expression's own reading: the engine takes the leftmost
      start at which a match exists and, `[\s\S]*` being greedy, the longest
      match from there. The span found is the match whose start precedes
      every other match's start and whose end follows every other match's
      end. */
  lemma JsonSpanIsLeftmostLongest(text: string, i: int, j: int)
    requires MatchAt(text, i, j)
    requires forall a, b :: MatchAt(text, a, b) ==> i <= a && b <= j
    ensures JsonSpan(text) == Some(text[i..j + 1])
  {
    var first := FirstIndex(text, '{');
    var last := LastIndex(text, '}');
    assert first.Some? && last.Some?;
    assert MatchAt(text, first.value, j);
    assert MatchAt(text, i, last.value);
  }

  /** `callAIService` as far as its result goes. A missing or empty key gives
      `null` before anything is sent; otherwise the reply (or `None` when the
      call throws) is searched for a span, and the span is parsed, a parse
      error being caught and giving `null`. */
  function CallAIService<J>(apiKey: Option<string>, reply: Option<string>, parse: string -> Option<J>): (r: Option<J>)
    ensures (apiKey.None? || apiKey == Some("")) ==> r.None?
    ensures reply.None? ==> r.None?
    ensures r.Some? ==> exists span :: JsonSpan(reply.value) == Some(span) && parse(span) == r
  {
    if apiKey.None? || apiKey.value == "" then None
    else match reply
      case None => None
      case Some(text) =>
        match JsonSpan(text)
        case None => None
        case Some(span) => parse(span)
  }

  /** The service answers exactly when a key is set, the call returns, the
      reply holds a span and the span parses; the answer is the parsed span. */
  lemma ServiceAnswersIff<J>(apiKey: Option<string>, reply: Option<string>, parse: string -> Option<J>, j: J)
    ensures CallAIService(apiKey, reply, parse) == Some(j) <==>
      && apiKey.Some? && apiKey.value != ""
      && reply.Some?
      && JsonSpan(reply.value).Some?
      && parse(JsonSpan(reply.value).value) == Some(j)
  {
  }

  /** The route parameter: the literal "all" asks for the analysis across
      every catalyst, anything else names one catalyst. */
  datatype CatalystParam = All | One(id: string)

  /** `catalystId === 'all'`. */
  function ParamOf(catalystId: string): (p: CatalystParam)
    ensures p.All? <==> catalystId == "all"
    ensures p.One? ==> p.id == catalystId
  {
    if catalystId == "all" then All else One(catalystId)
  }

  /** Outcome of the catalyst query (`SELECT * FROM catalysts WHERE ...`). */
  datatype CatalystLookup = Found | Missing | QueryFailed

  /** The rows the statistics helpers return. */
  datatype Inputs = Inputs(stats: Stats, rows: seq<PositionRow>, locations: seq<LocationRow>, history: seq<HistoryRow>)

  /** The body of a successful answer: the service's object verbatim, or the
      heuristic analysis. */
  datatype Body<J> = FromService(parsed: J) | Heuristic(analysis: Analysis)

  datatype Response<J> = Ok(body: Body<J>) | NotFound | ServerError

  /** The `GET /:catalystId` handler. For a single catalyst the catalyst is
      looked up first: a failed query is a 500 and no row is a 404. Then the
      statistics are read (`None` when a query throws, a 500), and the
      service's answer is sent if there is one, the heuristic analysis
      otherwise. */
  function GetAnalysis<J>(param: CatalystParam, lookup: CatalystLookup, data: Option<Inputs>,
                          service: Option<J>, now: int): (r: Response<J>)
    ensures r.NotFound? <==> param.One? && lookup == Missing
    ensures r.Ok? <==> (param.All? || lookup == Found) && data.Some?
  {
    if param.One? && lookup != Found then
      if lookup == Missing then NotFound else ServerError
    else match data
      case None => ServerError
      case Some(d) =>
        match service
        case Some(j) => Ok(FromService(j))
        case None => Ok(Heuristic(GenerateBasicAnalysis(d.stats, d.rows, d.locations, d.history, now)))
  }

  /** The two strategies are never merged: a successful answer is the
      service's object exactly when the service answered, and otherwise the
      heuristic analysis of the same rows. */
  lemma StrategySelection<J>(param: CatalystParam, lookup: CatalystLookup, data: Option<Inputs>,
                             service: Option<J>, now: int)
    requires (param.All? || lookup == Found) && data.Some?
    ensures service.Some? ==> GetAnalysis(param, lookup, data, service, now) == Ok(FromService(service.value))
    ensures service.None? ==>
      var d := data.value;
      GetAnalysis(param, lookup, data, service, now) == Ok(Heuristic(GenerateBasicAnalysis(d.stats, d.rows, d.locations, d.history, now)))
  {
  }

  /** An unknown catalyst is answered with 404 whatever the statistics and
      the service would have produced. */
  lemma UnknownCatalystShortCircuits<J>(id: string, data1: Option<Inputs>, data2: Option<Inputs>,
                                        service1: Option<J>, service2: Option<J>, now: int)
    ensures GetAnalysis(One(id), Missing, data1, service1, now) == GetAnalysis(One(id), Missing, data2, service2, now)
  {
  }

  /** Without a key the route always falls back to the heuristic analysis. */
  lemma NoKeyMeansHeuristic<J>(param: CatalystParam, lookup: CatalystLookup, inputs: Inputs,
                               reply: Option<string>, parse: string -> Option<J>, now: int)
    requires param.All? || lookup == Found
    ensures GetAnalysis(param, lookup, Some(inputs), CallAIService(None, reply, parse), now).body.Heuristic?
    ensures GetAnalysis(param, lookup, Some(inputs), CallAIService(Some(""), reply, parse), now).body.Heuristic?
  {
  }
}
