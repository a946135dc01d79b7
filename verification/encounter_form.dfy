/** The new-encounter form of the app: applying the suggestions of the
    analysis to the form, and the checks run before the form is sent. The
    form is a value; the screen's state updates and alert dialogs become the
    returned form or outcome. */
module EncounterForm {
  import opened Wrappers
  import opened Text
  import opened JsValues
  import opened SpanishDate

  /** The date held by the form: an instant chosen with the picker (or the
      moment the form opened), a date built from local components, or the
      Invalid Date that the `Date` constructor returns for a non-numeric
      month. */
  datatype FormDate =
    | At(ms: int)
    | Local(year: int, month: int, day: int, hour: int, minute: int)
    | InvalidDate

  datatype Form = Form(
    catalystId: JsValue,
    date: FormDate,
    duration: int,
    location: string,
    size: string,
    condom: string,
    positions: string,
    finish: string,
    clothing: string,
    roughness: int,
    anchor: int,
    share: int,
    oralMine: int,
    oralTheirs: int,
    rating: real,
    notes: string)

  /** The fields of a suggestion object that the form reads; any of them may
      be missing (`Undefined`) or of an unexpected type. */
  datatype Suggestions = Suggestions(
    location: JsValue,
    positions: JsValue,
    clothing: JsValue,
    duration: JsValue,
    date: JsValue)

  /** An option of a picker. */
  datatype Choice = Choice(title: string, value: string)

  const LocationChoices: seq<Choice> := [
    Choice("Hotel", "Hotel"), Choice("Mi casa", "Mi casa"), Choice("Su casa", "Su casa"),
    Choice("Coche", "Coche"), Choice("Motel", "Motel")]

  const ClothingChoices: seq<Choice> := [
    Choice("Liguero completo", "Liguero completo"), Choice("Tanga", "Tanga"), Choice("Medias", "Medias"),
    Choice("Hilo", "Hilo"), Choice("Panties", "Panties"), Choice("Suspensorio", "Suspensorio"),
    Choice("Boxer", "Boxer")]

  // ---------------------------------------------------------------------------
  // Picking an option
  // ---------------------------------------------------------------------------

  /** `v` is strictly equal to the option's label (`title`) or to its value. */
  predicate Names(c: Choice, v: JsValue) {
    v == Str(c.title) || v == Str(c.value)
  }

  /** `options.find(...)`: the first option that `v` names. */
  function FindChoice(choices: seq<Choice>, v: JsValue): (r: Option<Choice>)
    ensures r.None? <==> forall i :: 0 <= i < |choices| ==> !Names(choices[i], v)
    ensures r.Some? ==>
      exists i :: (&& 0 <= i < |choices| && choices[i] == r.value && Names(r.value, v)
                   && forall j :: 0 <= j < i ==> !Names(choices[j], v))
  {
    if |choices| == 0 then None
    else if Names(choices[0], v) then
      assert choices[0] == choices[0];
      Some(choices[0])
    else
      var r := FindChoice(choices[1..], v);
      assert forall i :: 1 <= i < |choices| ==> choices[i] == choices[1..][i - 1];
      if r.Some? then
        var i :| 0 <= i < |choices[1..]| && choices[1..][i] == r.value && Names(r.value, v)
          && forall j :: 0 <= j < i ==> !Names(choices[1..][j], v);
        assert choices[i + 1] == r.value;
        r
      else r
  }

  /** The labels of a picker's options. */
  function Labels(choices: seq<Choice>): (r: seq<string>)
    ensures |r| == |choices|
    ensures forall i :: 0 <= i < |choices| ==> r[i] == choices[i].title
  {
    if |choices| == 0 then [] else [choices[0].title] + Labels(choices[1..])
  }

  /** Options whose label is their value, and never empty. */
  predicate SelfLabelled(choices: seq<Choice>) {
    forall i :: 0 <= i < |choices| ==> choices[i].title == choices[i].value != ""
  }

  /** With self-labelled options, the option found for `v` is `v` itself, and
      one is found exactly when `v` is a string among the labels. */
  lemma FindSelfLabelled(choices: seq<Choice>, v: JsValue)
    requires SelfLabelled(choices)
    ensures FindChoice(choices, v).Some? <==> v.Str? && v.s in Labels(choices)
    ensures FindChoice(choices, v).Some? ==> FindChoice(choices, v).value.value == v.s
  {
    var r := FindChoice(choices, v);
    if v.Str? && v.s in Labels(choices) {
      var i :| 0 <= i < |choices| && Labels(choices)[i] == v.s;
      assert Names(choices[i], v);
    }
  }

  lemma ChoicesAreSelfLabelled()
    ensures SelfLabelled(LocationChoices) && SelfLabelled(ClothingChoices)
  {
  }

  /** A picker field after a suggestion: the value of the option it names,
      or the field unchanged. */
  function PickField(choices: seq<Choice>, suggested: JsValue, current: string): string {
    if !Truthy(suggested) then current
    else match FindChoice(choices, suggested)
      case Some(c) => c.value
      case None => current
  }

  // ---------------------------------------------------------------------------
  // The other fields
  // ---------------------------------------------------------------------------

  /** The positions: a non-empty array joined with ", ", a non-empty string
      taken as a one-element array, anything else ignored (its `length` is
      undefined or zero). */
  function PositionsField(suggested: JsValue, current: string, render: real -> string): string {
    var n := LengthOf(suggested);
    if Truthy(suggested) && n.Some? && n.value > 0 then
      var items := if suggested.Arr? then suggested else Arr([suggested]);
      Join(ElementStrings(items, render), ", ")
    else current
  }

  /** The duration: `parseInt(v) || current`, so NaN and zero keep it. */
  function DurationField(suggested: JsValue, current: int, render: real -> string): int {
    if !Truthy(suggested) then current
    else match ParseIntOf(suggested, render)
      case Some(n) => if n != 0 then n else current
      case None => current
  }

  /** The date: a Spanish date found in a string suggestion replaces it; a
      missing match, an unknown month or a suggestion that is not a string
      (whose `match` throws and is caught) keep it. */
  function DateField(suggested: JsValue, current: FormDate): FormDate {
    if !Truthy(suggested) || !suggested.Str? then current
    else match ReadSpanishDate(suggested.s)
      case Parsed(year, month, day, hour, minute) => Local(year, month, day, hour, minute)
      case NotANumber => InvalidDate
      case _ => current
  }

  /** `applySuggestions`: the five suggested fields, each by its own rule, and
      nothing else. */
  function ApplySuggestions(form: Form, sugg: Suggestions, render: real -> string): (r: Form)
    ensures r == form.(location := r.location, positions := r.positions, clothing := r.clothing,
                       duration := r.duration, date := r.date)
  {
    form.(
      location := PickField(LocationChoices, sugg.location, form.location),
      positions := PositionsField(sugg.positions, form.positions, render),
      clothing := PickField(ClothingChoices, sugg.clothing, form.clothing),
      duration := DurationField(sugg.duration, form.duration, render),
      date := DateField(sugg.date, form.date))
  }

  /** With self-labelled options a picker field takes the suggestion exactly
      when it is a string among the labels, and keeps its value otherwise. */
  lemma PickFieldRule(choices: seq<Choice>, suggested: JsValue, current: string)
    requires SelfLabelled(choices)
    ensures PickField(choices, suggested, current)
         == if suggested.Str? && suggested.s in Labels(choices) then suggested.s else current
  {
    FindSelfLabelled(choices, suggested);
  }

  /** A location or clothing suggestion is taken exactly when it is one of
      the picker's labels; otherwise the field keeps its value. */
  lemma PickersTakeListedValues(form: Form, sugg: Suggestions, render: real -> string)
    ensures var r := ApplySuggestions(form, sugg, render);
      && r.location == (if sugg.location.Str? && sugg.location.s in Labels(LocationChoices)
                        then sugg.location.s else form.location)
      && r.clothing == (if sugg.clothing.Str? && sugg.clothing.s in Labels(ClothingChoices)
                        then sugg.clothing.s else form.clothing)
  {
    ChoicesAreSelfLabelled();
    PickFieldRule(LocationChoices, sugg.location, form.location);
    PickFieldRule(ClothingChoices, sugg.clothing, form.clothing);
  }

  /** The positions are replaced only by a non-empty string or a non-empty
      array, and a non-empty string is taken as it is. */
  lemma PositionsFromStrings(suggested: JsValue, current: string, render: real -> string)
    ensures var r := PositionsField(suggested, current, render);
      && ((suggested.Str? && suggested.s != "") || (suggested.Arr? && |suggested.items| > 0) || r == current)
      && (suggested.Str? && suggested.s != "" ==> r == suggested.s)
  {
    if suggested.Str? && suggested.s != "" {
      assert ElementStrings(Arr([suggested]), render) == [suggested.s];
    }
  }

  /** A non-empty array of strings is joined with ", ". */
  lemma PositionsFromArray(suggested: JsValue, names: seq<string>, current: string, render: real -> string)
    requires suggested.Arr? && |suggested.items| == |names| > 0
    requires forall i :: 0 <= i < |names| ==> suggested.items[i] == Str(names[i])
    ensures PositionsField(suggested, current, render) == Join(names, ", ")
  {
    assert ElementStrings(suggested, render) == names;
  }

  /** The duration becomes the integer read from the suggestion when that
      integer is not zero, and is kept otherwise; in particular a suggestion
      written as an integer string is taken as that integer. */
  lemma DurationRule(form: Form, sugg: Suggestions, render: real -> string, n: int)
    ensures var r := ApplySuggestions(form, sugg, render);
      && (r.duration == form.duration ||
          (Truthy(sugg.duration) && ParseIntOf(sugg.duration, render) == Some(r.duration) && r.duration != 0))
      && (Truthy(sugg.duration) && ParseIntOf(sugg.duration, render) == Some(n) && n != 0 ==> r.duration == n)
      && (sugg.duration == Str(IntToString(n)) && n != 0 ==> r.duration == n)
  {
    if sugg.duration == Str(IntToString(n)) && n != 0 {
      ParseIntOfIntToString(n);
      ParseIntOfString(IntToString(n), render);
    }
  }

  /** The date changes only for a string suggestion in which the pattern is
      found with a known month name (or a name inherited by every object,
      which yields the Invalid Date); a date written as "d de mes de yyyy,
      HH:MM" becomes those local components. */
  lemma DateRule(form: Form, sugg: Suggestions, render: real -> string)
    ensures var r := ApplySuggestions(form, sugg, render);
      && (r.date != form.date ==>
            && sugg.date.Str? && FindDate(sugg.date.s).Some?
            && !MonthLookup(ToLower(FindDate(sugg.date.s).value.month)).Absent?)
      && (r.date == InvalidDate && form.date != InvalidDate ==>
            && sugg.date.Str? && FindDate(sugg.date.s).Some?
            && MonthLookup(ToLower(FindDate(sugg.date.s).value.month)).Inherited?)
  {
    var v := sugg.date;
    if v.Str? && Truthy(v) {
      var reading := ReadSpanishDate(v.s);
      if reading.Parsed? || reading.NotANumber? {
        var g := FindDate(v.s).value;
        if MonthLookup(ToLower(g.month)).Month? {
          KnownMonthIsRead(v.s);
        }
      }
    }
  }

  /** A suggested date in the requested shape is applied as those components. */
  lemma RenderedDateApplies(form: Form, sugg: Suggestions, render: real -> string,
                            day: nat, month: nat, year: nat, hour: nat, minute: nat)
    requires day < 100 && month < 12 && year < 10000 && hour < 100 && minute < 100
    requires sugg.date == Str(RenderDate(day, month, year, hour, minute))
    ensures ApplySuggestions(form, sugg, render).date == Local(year, month, day, hour, minute)
  {
    RenderedDateReadsBack(day, month, year, hour, minute);
    ParsedDateApplies(form.date, RenderDate(day, month, year, hour, minute));
  }

  /** A string suggestion read as a date sets the form's date to it. */
  lemma ParsedDateApplies(current: FormDate, text: string)
    requires ReadSpanishDate(text).Parsed?
    ensures var d := ReadSpanishDate(text);
      DateField(Str(text), current) == Local(d.year, d.month, d.day, d.hour, d.minute)
  {
    var d := ReadSpanishDate(text);
    EmptyTextHasNoDate();
    assert text != "" by {
      assert ReadSpanishDate(text) != ReadSpanishDate("");
    }
    assert Truthy(Str(text));
  }

  /** The empty string holds no date. */
  lemma EmptyTextHasNoDate()
    ensures ReadSpanishDate("") == NoMatch
  {
    assert !MatchesAt("", DatePattern, 0);
  }

  /** Applying the same suggestions a second time changes nothing. */
  lemma ApplyIsIdempotent(form: Form, sugg: Suggestions, render: real -> string)
    ensures var once := ApplySuggestions(form, sugg, render);
      ApplySuggestions(once, sugg, render) == once
  {
  }

  /** An empty suggestion object leaves the form as it was. */
  lemma NoSuggestionsNoChange(form: Form, render: real -> string)
    ensures ApplySuggestions(form, Suggestions(Undefined, Undefined, Undefined, Undefined, Undefined), render) == form
  {
  }

  // ---------------------------------------------------------------------------
  // Submitting
  // ---------------------------------------------------------------------------

  datatype SubmitOutcome =
    | NoCatalyst   // "Por favor selecciona un Top"
    | NoSize       // "Por favor selecciona el tamaño"
    | NoCondom     // "Por favor selecciona el tipo de condón"
    | Failed       // "No se pudo registrar el encuentro"
    | Sent(form: Form)

  /** `handleSubmit`: the three required choices in order, then the date is
      converted to ISO text (which throws for the Invalid Date) and the form
      is sent. Whether the request itself succeeds is outside the model. */
  function HandleSubmit(form: Form): (r: SubmitOutcome)
    ensures r.Sent? <==> Truthy(form.catalystId) && form.size != "" && form.condom != "" && !form.date.InvalidDate?
    ensures r.Sent? ==> r.form == form
  {
    if !Truthy(form.catalystId) then NoCatalyst
    else if form.size == "" then NoSize
    else if form.condom == "" then NoCondom
    else if form.date.InvalidDate? then Failed
    else Sent(form)
  }

  /** Each alert is shown exactly when its check fails and every earlier one
      passes. */
  lemma SubmitChecksInOrder(form: Form)
    ensures var r := HandleSubmit(form);
      && (r == NoCatalyst <==> !Truthy(form.catalystId))
      && (r == NoSize <==> Truthy(form.catalystId) && form.size == "")
      && (r == NoCondom <==> Truthy(form.catalystId) && form.size != "" && form.condom == "")
      && (r == Failed <==> Truthy(form.catalystId) && form.size != "" && form.condom != ""
                           && form.date.InvalidDate?)
  {
  }

  /** Suggestions never fill a required choice: the form can be sent after
      applying them only if its catalyst, size and condom were already set,
      and a form that could be sent stays sendable unless the date becomes
      the Invalid Date. */
  lemma SuggestionsKeepRequiredChoices(form: Form, sugg: Suggestions, render: real -> string)
    ensures var after := HandleSubmit(ApplySuggestions(form, sugg, render));
      && (after.Sent? ==> Truthy(form.catalystId) && form.size != "" && form.condom != "")
      && (HandleSubmit(form).Sent? ==> after.Sent? || ApplySuggestions(form, sugg, render).date.InvalidDate?)
  {
  }
}
