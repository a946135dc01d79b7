# Encounter tracker: recommendation engine, form rules and validators

This project is a Dafny model of the logic at the centre of an encounter-tracking
application (an Express backend with a React Native client). Each part is a pure
function over immutable data, and its contract and lemmas say what the code
promises. The parts are:

- **The heuristic recommendation engine** (`generateBasicAnalysis` in
  `backend/routes/aiAnalysis.js`). Its inputs are the aggregate statistics of
  past encounters, the ranked position-combination rows, the ranked location
  rows and the recent history. Its outputs are:
  - a per-position ranking;
  - the dominant location and position, with their fallbacks;
  - a cadence-based prediction of the next date;
  - a suggested duration;
  - the insight sentences;
  - the scenario and tips lookup tables;
  - the summary and recommendation texts.
- **Delegation to the generative service.** This covers recovering the JSON
  object from the service's reply (first `{` to last `}`), the `null` returned
  on every failure, and the route's choice:
  - 404 for an unknown catalyst;
  - the service's object verbatim when there is one;
  - the heuristic analysis otherwise.
- **The multi-value picker codec** (`MultiPickerSelect.js`): parsing a
  comma-separated field, toggling a value, and the labels shown.
- **The new-encounter form** (`NewEncounterScreen.js`). Applying suggestions
  whitelists the location and clothing, joins the positions, reads the duration
  with `parseInt`, and parses a Spanish date with a regular expression and a
  month table. Submitting runs three ordered checks.
- **The registration screen's validation chain** (`RegisterScreen.js`).
- **The authentication routes** (`backend/routes/auth.js`): register, login and
  refresh validation. The database is a sequence of user rows. Password
  comparison and token verification are parameters.
- **The encounter routes** (`backend/routes/encounters.js`): required fields,
  defaults filled with `||`, and 404 for an unknown id.

How the source's conventions appear in the model:

- Times are integer milliseconds. "Now" is a parameter.
- Averages and ratings are exact `real`s.
- Request bodies and suggestion objects are JavaScript values. The `JsValue`
  datatype models their truthiness, `||`, `ToString`, `parseInt` and `.length`.
- How a number is rendered as a string is a parameter (`render`).
- Strings are sequences of characters.
- `.length` of a string counts UTF-16 code units.
- The source's regular expressions are written out as scans. The proofs show
  that each scan finds the leftmost match of the expression.

Modules, one per file:

- `Wrappers` and `Text`: `Option`, trimming, splitting, joining, lower case,
  decimal rendering and `parseInt`.
- `JsValues`.
- `Patterns`: the row mapping, the per-token tally, the sort by count, the top
  five and the dominant entries.
- `DatePrediction`.
- `LookupTables`.
- `Insights`.
- `BasicAnalysis`.
- `AiDelegate`.
- `MultiPicker`.
- `SpanishDate`.
- `EncounterForm`.
- `RegisterScreen`.
- `AuthRoutes`.
- `EncounterRoutes`.

## Model

| member | source | states |
|---|---|---|
| Patterns.ToPositionRow | backend/routes/aiAnalysis.js:36-42 | A stored combination becomes one trimmed piece per comma-separated part (the comma count plus one, empty parts kept), each the trim of the corresponding split part, with the row's count |
| Patterns.BumpFacts | backend/routes/aiAnalysis.js:158 | `counts[pos] = (counts[pos] \|\| 0) + veces` adds the amount to that key only, adds the key to the key set, and keeps keys distinct |
| Patterns.AddTokensLookup | backend/routes/aiAnalysis.js:157-159 | Crediting a row's positions adds, for every name, its number of occurrences times the row's count |
| Patterns.TallyCounts | backend/routes/aiAnalysis.js:155-160 | The tally has exactly one entry per position occurring in the rows, and its count is the reference total: the sum over rows of occurrences times the row's count |
| Patterns.Insert | backend/routes/aiAnalysis.js:163 | Inserting into a non-increasing list keeps it non-increasing and is a permutation of the list plus the new entry |
| Patterns.SortByTimes | backend/routes/aiAnalysis.js:163 | The sort by descending count returns a non-increasing permutation of its input |
| Patterns.SortedFacts | backend/routes/aiAnalysis.js:162-163 | After sorting, the names are still distinct, still exactly the positions of the rows, and each still carries its total |
| Patterns.TopPositionsFacts | backend/routes/aiAnalysis.js:162-165 | The ranked list has at most five entries, is non-increasing, lists each position once, and each listed position has its total from the rows |
| Patterns.TopPositionsAreTheBest | backend/routes/aiAnalysis.js:162-165 | A position of the rows that is not listed has a total no larger than any listed one |
| Patterns.DominantPosition | backend/routes/aiAnalysis.js:169 | The first ranked name when it is non-empty, "Misionero" otherwise; never empty |
| Patterns.DominantLocation | backend/routes/aiAnalysis.js:168 | The first location row's name when it is non-empty, "Hotel" otherwise; never empty |
| Patterns.DominantPositionIsMostFrequent | backend/routes/aiAnalysis.js:162-169 | Unless it fell back, the dominant position occurs in the rows and has the greatest total of all positions |
| DatePrediction.Trunc | backend/routes/aiAnalysis.js:177 | Truncation toward zero, as the Date constructor applies to a time value: within one of the input, never further from zero |
| DatePrediction.TimeClip | backend/routes/aiAnalysis.js:177 | A time value is valid exactly when it lies within 8.64e15 ms of the epoch, and then its truncation is in range |
| DatePrediction.NoHistoryIsThreeDaysAhead | backend/routes/aiAnalysis.js:182-185 | With no encounters, or no last date, the prediction is exactly now plus three days |
| DatePrediction.SingleEncounterIsInvalid | backend/routes/aiAnalysis.js:173-181 | With one encounter the gap divides zero by zero and the prediction is the Invalid Date, which the past-date check does not replace |
| DatePrediction.NeverInThePast | backend/routes/aiAnalysis.js:171-185 | Whatever the inputs, a valid prediction is at or after now |
| DatePrediction.CadenceProjection | backend/routes/aiAnalysis.js:173-181 | With at least two encounters, the prediction is last + (last - first)/(count - 1) when that is not before now, and now plus seven days otherwise |
| DatePrediction.Round | backend/routes/aiAnalysis.js:187 | `Math.round` gives the integer within half of the input, with halves rounded up |
| DatePrediction.SuggestedDurationIsNearest | backend/routes/aiAnalysis.js:187 | The suggested duration is the integer nearest the average, or 60 when the average rounds to zero |
| LookupTables.FindScenario | backend/routes/aiAnalysis.js:225-256 | The scenario table lookup finds an entry exactly when some row has that venue, and returns that row's scenario |
| LookupTables.ScenarioFor | backend/routes/aiAnalysis.js:258 | A listed venue gets its own scenario, and any other key gets the Hotel scenario |
| LookupTables.ScenarioIsHotelIff | backend/routes/aiAnalysis.js:225-258 | The Hotel scenario is chosen exactly for "Hotel" and for unlisted venues |
| LookupTables.TipsFor | backend/routes/aiAnalysis.js:261-312 | There are always five tips: the listed position's row, or the generic list exactly when the position is not listed |
| LookupTables.TipsTableShape | backend/routes/aiAnalysis.js:261-304 | Every tips row has five items and differs from the generic list, and no position is listed twice |
| Insights.BestRating | backend/routes/aiAnalysis.js:208 | The rating of the first history row rated 8 or more, and none exactly when no row is |
| Insights.InsightsFor | backend/routes/aiAnalysis.js:190-214 | One to five sentences, one per rank in the push order. Count 0 gives exactly the first-encounter sentence; otherwise the count sentence, with its plural, comes first |
| Insights.InsightsAreReported | backend/routes/aiAnalysis.js:190-214 | With encounters, the list holds exactly: the count with its plural; the average when above 7 (excellent) or above 5; the dominant location with the first location row's count; the dominant position with the top entry's count; the rating of the first history row rated 8 or more. With none, only the first-encounter sentence |
| Insights.InsightTriggers | backend/routes/aiAnalysis.js:191-211 | Each sentence appears exactly when its condition holds: rating above 5 (excellent above 7), a location row, a ranked position, a history row rated 8 or more. Each then carries the average, the dominant location or position with its count, or the first rating of 8 or more |
| Insights.InsightRanks | backend/routes/aiAnalysis.js:191-211 | With encounters, the sentences present are exactly the count sentence and those whose conditions hold |
| Insights.ExcellentInsight | backend/routes/aiAnalysis.js:194-195 | The excellent-rating sentence appears exactly when there are encounters and the average is above 7 |
| BasicAnalysis.SummaryText | backend/routes/aiAnalysis.js:216-218 | The first-encounter summary is given exactly when the count is zero |
| BasicAnalysis.PluralLength | backend/routes/aiAnalysis.js:217 | The plural summary is the singular one with one more character |
| BasicAnalysis.SummaryPluralAsWritten | backend/routes/aiAnalysis.js:217 | `total_encuentros !== 1` is true for every string count, and for a number exactly when it is not 1 |
| BasicAnalysis.SummaryAsWrittenMisreadsOne | backend/routes/aiAnalysis.js:217 | With the count delivered as the string "1", the strict inequality holds, so a single encounter is summarised in the plural, unlike the intended summary |
| BasicAnalysis.NumericCountIsRead | backend/routes/aiAnalysis.js:217 | On a numeric count the written test gives the intended summary, so only the count's type causes the misreading |
| BasicAnalysis.SummaryAgreesWithInsight | backend/routes/aiAnalysis.js:192-217 | The corrected summary uses the same plural as the count insight |
| BasicAnalysis.NarrativeBranchesOnPositiveCount | backend/routes/aiAnalysis.js:216-222 | The recommendation depends on the count only through its sign, and the two sides never give the same recommendation; the summary, which prints the count, is the first-encounter one exactly at zero |
| BasicAnalysis.GenerateBasicAnalysis | backend/routes/aiAnalysis.js:153-341 | The assembled analysis suggests a date that, when valid, is not before now, and gives the first-encounter summary and the single first-encounter insight exactly when there are no encounters; its summary uses the corrected plural (SuggestionFacts and AnalysisFacts state how each field is derived from its part) |
| BasicAnalysis.SuggestionFacts | backend/routes/aiAnalysis.js:314-330 | The suggestion carries the intended summary, the dominant location (never empty), a one-element list with the dominant position, the cadence prediction as its date (when valid, not before now), the rounded average duration (never zero), the scenario of that location, the five tips of that position, and the recommendation naming that position, location and duration |
| BasicAnalysis.AnalysisFacts | backend/routes/aiAnalysis.js:331-341 | The report passes the location rows through unchanged, holds the ranked positions (at most five, non-increasing, each with its total) and the statistics (average rating, rounded average duration, count); the insights are one to five, only the first-encounter one exactly when the count is zero |
| BasicAnalysis.AnalysisInsightsAreReported | backend/routes/aiAnalysis.js:189-214 | A sentence is among the analysis's insights exactly when it reports these rows: the count with its plural, the rating band, the dominant location, the dominant ranked position or the first highly rated encounter, and only the first-encounter sentence at count zero |
| AiDelegate.FirstIndex | backend/routes/aiAnalysis.js:482 | The first occurrence of a character, or none exactly when it does not occur |
| AiDelegate.LastIndex | backend/routes/aiAnalysis.js:482 | The last occurrence of a character, or none exactly when it does not occur |
| AiDelegate.JsonSpan | backend/routes/aiAnalysis.js:482-483 | A span is found exactly when some `{` precedes a `}`, and it starts with `{` and ends with `}` |
| AiDelegate.MatchBounds | backend/routes/aiAnalysis.js:482 | Every match of the pattern lies between the first `{` and the last `}` |
| AiDelegate.JsonSpanIsLeftmostLongest | backend/routes/aiAnalysis.js:482-484 | The span recovered is the leftmost-longest match of `\{[\s\S]*\}` |
| AiDelegate.CallAIService | backend/routes/aiAnalysis.js:345-497 | No key, no reply, no span or a failed parse all give null; an answer is the parse of the recovered span |
| AiDelegate.ServiceAnswersIff | backend/routes/aiAnalysis.js:345-497 | The service answers with an object exactly when a key is set, the call returns, a span is found and it parses to that object |
| AiDelegate.ParamOf | backend/routes/aiAnalysis.js:517 | The path parameter selects all catalysts exactly when it is the literal "all" |
| AiDelegate.GetAnalysis | backend/routes/aiAnalysis.js:501-561 | 404 exactly for a single catalyst that does not exist; an answer exactly when the catalyst is known (or all) and the statistics were read |
| AiDelegate.StrategySelection | backend/routes/aiAnalysis.js:554-561 | The answer is the service's object verbatim when there is one, and the heuristic analysis of the same inputs otherwise, never a merge |
| AiDelegate.UnknownCatalystShortCircuits | backend/routes/aiAnalysis.js:531-533 | An unknown catalyst gets the same 404 whatever the statistics and the service would give |
| AiDelegate.NoKeyMeansHeuristic | backend/routes/aiAnalysis.js:554-559 | Without a key, or with an empty one, the service gives null and the route always answers with the heuristic analysis |
| MultiPicker.ParseSelected | src/components/MultiPickerSelect.js:11 | An empty value selects nothing. Otherwise the result is non-empty, comma-free, trimmed tokens, no more than the comma count plus one |
| MultiPicker.ParseIsTrimmedPieces | src/components/MultiPickerSelect.js:11 | The values read are a subsequence of the trimmed comma-separated pieces with as many entries as there are non-empty pieces, so exactly the non-empty trimmed pieces in order; a string is read exactly when it is one of them |
| MultiPicker.BareCommaPairIsRead | src/components/MultiPickerSelect.js:11 | Two values joined by a bare comma, with no space, are read as those two values |
| MultiPicker.ParseJoin | src/components/MultiPickerSelect.js:11-30 | Tokens joined with ", " parse back to the same list |
| MultiPicker.ToggleList | src/components/MultiPickerSelect.js:17-27 | An absent value is appended. A present value loses exactly its first occurrence and the rest keep their order |
| MultiPicker.ParseAfterToggle | src/components/MultiPickerSelect.js:11-31 | Reading the field after a toggle gives the toggled list |
| MultiPicker.ToggleTwice | src/components/MultiPickerSelect.js:17-31 | Toggling an absent value twice restores the field's text |
| MultiPicker.SelectedOptions | src/components/MultiPickerSelect.js:14 | The options kept are exactly those whose value is selected, in the options' order, each as many times as it occurs in the option list |
| MultiPicker.SelectedLabelsExact | src/components/MultiPickerSelect.js:11-15 | A label is shown exactly when some option with that label is ticked |
| JsValues.Or | backend/routes/encounters.js:91-104 | `a \|\| b` is `a` when `a` is truthy and `b` when it is falsy |
| JsValues.LengthAndTruthiness | src/screens/NewEncounterScreen.js:186 | For strings and arrays, a positive `length` is the same as being non-empty |
| JsValues.ParseIntOfString | src/screens/NewEncounterScreen.js:205 | `parseInt` of a string, or of a one-element array of it, reads the string itself |
| SpanishDate.GreedyIsTheMatch | src/screens/NewEncounterScreen.js:212 | At a given start, the greedy scan succeeds with certain groups exactly when the groups match the pattern's pieces in turn: the regular expression's match is the scan's |
| SpanishDate.SearchFrom | src/screens/NewEncounterScreen.js:212 | The search returns the first start at which the pattern matches, and none exactly when it matches nowhere |
| SpanishDate.FindDate | src/screens/NewEncounterScreen.js:212-213 | A match is found exactly when the pattern matches somewhere in the text |
| SpanishDate.FindDateIsLeftmost | src/screens/NewEncounterScreen.js:212 | The groups read are those of the leftmost match |
| SpanishDate.MonthLookup | src/screens/NewEncounterScreen.js:214-219 | The twelve lower-case Spanish names give months 0 to 11. The two names every object inherits are found but are not months. Anything else is absent |
| SpanishDate.ReadGroups | src/screens/NewEncounterScreen.js:218-223 | The month is unknown exactly when its lower-cased name is absent, and a reading names a month whose name is that group |
| SpanishDate.KnownMonthIsRead | src/screens/NewEncounterScreen.js:218-224 | A match with a known month always yields numbers, because the numeric groups are digit strings |
| SpanishDate.RenderedDateReadsBack | src/screens/NewEncounterScreen.js:212-224 | A date written in the requested shape, "d de mes de yyyy, HH:MM", reads back as the same year, month, day, hour and minute |
| EncounterForm.FindChoice | src/screens/NewEncounterScreen.js:177-179 | The first option whose label or value strictly equals the suggestion, and none exactly when no option does |
| EncounterForm.FindSelfLabelled | src/screens/NewEncounterScreen.js:177-182 | With self-labelled options, an option is found exactly when the suggestion is a string among the labels, and its value is the suggestion |
| EncounterForm.ApplySuggestions | src/screens/NewEncounterScreen.js:172-234 | Only the location, positions, clothing, duration and date can differ from the form |
| EncounterForm.PickersTakeListedValues | src/screens/NewEncounterScreen.js:176-201 | A location or clothing suggestion is taken exactly when it is one of the listed options, and otherwise the field is unchanged |
| EncounterForm.PositionsFromStrings | src/screens/NewEncounterScreen.js:186-191 | Only a non-empty string or array replaces the positions, and a string is taken as it is |
| EncounterForm.PositionsFromArray | src/screens/NewEncounterScreen.js:186-191 | A non-empty array of strings is joined with ", " |
| EncounterForm.DurationRule | src/screens/NewEncounterScreen.js:204-206 | The duration becomes the parsed integer when it is not zero (an integer string is read as itself), and is kept otherwise |
| EncounterForm.DateRule | src/screens/NewEncounterScreen.js:209-230 | The date changes only for a string in which a date is found with a month that is not absent. It becomes the Invalid Date only for a name every object inherits |
| EncounterForm.RenderedDateApplies | src/screens/NewEncounterScreen.js:209-226 | A suggested date in the requested shape sets the form's date to those local components |
| EncounterForm.ApplyIsIdempotent | src/screens/NewEncounterScreen.js:172-234 | Applying the same suggestions twice gives the same form as applying them once |
| EncounterForm.NoSuggestionsNoChange | src/screens/NewEncounterScreen.js:172-234 | An empty suggestion object leaves the form as it was |
| EncounterForm.HandleSubmit | src/screens/NewEncounterScreen.js:115-144 | The form is sent exactly when the catalyst is set, the size and condom are chosen and the date is not the Invalid Date; it is sent unchanged |
| EncounterForm.SubmitChecksInOrder | src/screens/NewEncounterScreen.js:115-133 | Each alert is shown exactly when its check fails and every earlier check passes |
| EncounterForm.SuggestionsKeepRequiredChoices | src/screens/NewEncounterScreen.js:172-234 | Suggestions never supply a required choice, and a sendable form stays sendable unless its date becomes invalid |
| RegisterScreen.HandleRegister | src/screens/RegisterScreen.js:29-57 | Sign-up happens exactly when all four checks pass, and receives the trimmed username and e-mail and the password as typed |
| RegisterScreen.FirstFailureWins | src/screens/RegisterScreen.js:30-48 | Each message is shown exactly when its check fails and every earlier check passes |
| RegisterScreen.SignUpArguments | src/screens/RegisterScreen.js:35-51 | Sign-up receives a trimmed username of at least 3 UTF-16 units, a trimmed non-empty e-mail, and the confirmation verbatim as password (at least 8 units, not all white space) |
| RegisterScreen.TrimmingAppliesToUsernameOnly | src/screens/RegisterScreen.js:35-48 | Leading white space rescues a short password but never a short username |
| AuthRoutes.EmailShapeIsPattern | backend/routes/auth.js:18-19 | The regular expression `^[^\s@]+@[^\s@]+\.[^\s@]+$` accepts exactly the space-free strings with one '@', a non-empty local part and a '.' that is not at either end of the domain |
| AuthRoutes.Register | backend/routes/auth.js:8-49 | A user is created exactly when the fields are present, the e-mail has the right shape, the password has at least 8 units and the lower-cased e-mail is not registered. The row stores the lower-cased e-mail |
| AuthRoutes.RegisterChecksInOrder | backend/routes/auth.js:13-34 | The 400 reasons come in order (missing, format, length, duplicate), each exactly when its check fails and every earlier check passes; the duplicate check needs a string e-mail, because `toLowerCase` throws on anything else |
| AuthRoutes.DuplicateIsCaseInsensitive | backend/routes/auth.js:30-49 | After a registration, an e-mail differing only in letter case is rejected as taken |
| AuthRoutes.FindByEmail | backend/routes/auth.js:102-103 | Some stored user with the e-mail, and none exactly when there is none; the query fixes no order, so which matching row is returned is not stated |
| AuthRoutes.Login | backend/routes/auth.js:97-116 | Login succeeds exactly for a registered lower-cased e-mail whose stored hash matches the password, and the id is that user's. 400 is given exactly when a field is missing |
| AuthRoutes.LoginFailuresIndistinguishable | backend/routes/auth.js:105-116 | An unknown e-mail and a wrong password give the same 401 |
| AuthRoutes.Refresh | backend/routes/auth.js:161-185 | 400 exactly without a token. A refresh succeeds exactly when the token verifies to a user holding that token unexpired |
| AuthRoutes.RefreshNeedsStoredToken | backend/routes/auth.js:173-185 | A token that verifies but is not the stored, unexpired token of its user gives 401 |
| EncounterRoutes.CreateEncounter | backend/routes/encounters.js:71-75 | 400 exactly when one of the four required fields is falsy |
| EncounterRoutes.CreateFillsDefaults | backend/routes/encounters.js:88-105 | Required fields pass through. Every other field is its supplied value when truthy, else its default: 60, 5 for each score, 5.0 for the rating, null for texts |
| EncounterRoutes.CreateNormalises | backend/routes/encounters.js:88-105 | A stored row has only truthy numbers and truthy-or-null texts, and creating from it again stores it unchanged |
| EncounterRoutes.FalsyValuesAreOverwritten | backend/routes/encounters.js:98-104 | An explicit zero rating or score, or an empty note, is replaced by the default |
| EncounterRoutes.FindEncounter | backend/routes/encounters.js:36-40 | 404 exactly when no row has the id; otherwise a stored row with that id |
| EncounterRoutes.FindAfterInsert | backend/routes/encounters.js:36-40 | A row inserted under a new id is found by it, and other ids are found as before |

## Left out

- The SQL queries are left out: counting, averaging, grouping, ordering and limiting. Their result rows are inputs, and the driver's string columns are given as numbers.
- The prompt text and the call to the generative service are left out. The service's reply and `JSON.parse` are parameters.
- Locale formatting is left out: `toLocaleDateString` of the predicted date and `toFixed` in the rating sentences. Sentences carry their numbers, not rendered text.
- Object.prototype names are left out where the source uses plain objects as maps:
  - as keys of the position tally;
  - in the scenario and tips tables.
  The month table is the exception: there the inherited names "constructor" and "__proto__" are modelled.
- The normalisation done by `new Date(year, month, day, hour, minute)` is left out. This includes overflowing fields and two-digit years, such as "0099" meaning 1999. The form holds the constructor's arguments.
- The conversion of a local date to ISO text and the time zone are left out. Submission is modelled only as far as whether the conversion throws.
- How a number is rendered by `ToString` is the parameter `render`. Numbers are exact reals, so NaN, the infinities and floating-point rounding are left out.
- Objects with a `length` property, and other objects with properties, are left out: `JsValue.Obj` carries no properties.
- Pg's casting of the `:id` path parameter to the column type is left out: ids are integers.
- Credential internals are left out: bcrypt hashing and comparison, and signing and verifying JWTs. Comparison and verification are parameters. Issuing and storing tokens, logout, `/me` and the middleware are not modelled.
- Text.ToLower: lower-cases ASCII letters only, because the month names and the e-mails of interest are ASCII; `toLowerCase` on other letters is not modelled.
- `parseInt` precision is not modelled: digit strings longer than a double can hold are read exactly.
- The client plumbing is left out: the API wrapper, the authentication context, navigation, alerts and loading flags. This includes the username the client sends to a backend that ignores it.
- DatePrediction.CadenceProjection: proved only when the last date, twice the last date minus the first, and now plus seven days lie in the time range (±8.64e15 ms), which keeps the projection in range; beyond that the clipping of TimeClip decides the result, and NeverInThePast still covers it.
- BasicAnalysis.GenerateBasicAnalysis: builds the summary with the corrected plural (`Summary`), not the as-written test of line 217 (`SummaryAsWritten`). For one encounter the source's summary reads "1 encuentros" and the model's "1 encuentro"; the discrepancy is recorded under Findings. Elsewhere the driver's string columns are given as numbers, and this is the only place where that changes a result.
- DatePrediction.PredictNextDate: one clock reading `now` stands for the separate `Date.now()` and `new Date()` calls at lines 172-184, which are taken microseconds apart.
- Patterns.Tally: keys are kept in first-seen order. `Object.entries` lists array-index keys (such as "12") first, in ascending order, so the order of positions with equal counts can differ for such names; the ordering of ties is left open anyway.
- SpanishDate.RenderedDateReadsBack: proved for days, hours and minutes below 100 and years below 10000, the widths the pattern accepts.
- EncounterForm.PositionsFromArray: stated for arrays of strings; other elements are rendered through `render`, as `ElementStrings` defines.

## Findings

| source | as written | input that shows it | evidently intended | confidence | as-written member | corrected member |
|---|---|---|---|---|---|---|
| backend/routes/aiAnalysis.js:217 | `stats.total_encuentros !== 1` compares the driver's string count with the number 1, which is always unequal | a catalyst with one encounter (`total_encuentros` is "1") gets "1 encuentros" in the summary | plural exactly when the count is not one, as the insight at line 192 does | not executed | BasicAnalysis.SummaryAsWrittenMisreadsOne | BasicAnalysis.SummaryAgreesWithInsight |
