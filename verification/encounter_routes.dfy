/** The encounter routes: creating an encounter (required fields and the
    defaults filled in with `||`) and reading one back by id. The database is
    a sequence of stored rows; what the INSERT statement receives is the
    result of the create handler. */
module EncounterRoutes {
  import opened JsValues

  /** The sixteen columns of an encounter, in the order of the INSERT
      statement; the same shape serves for the request body. */
  datatype Encounter = Encounter(
    catalystId: JsValue,
    date: JsValue,
    duration: JsValue,
    location: JsValue,
    size: JsValue,
    condom: JsValue,
    positions: JsValue,
    finish: JsValue,
    clothing: JsValue,
    roughness: JsValue,
    anchor: JsValue,
    share: JsValue,
    oralMine: JsValue,
    oralTheirs: JsValue,
    rating: JsValue,
    notes: JsValue)

  const DefaultDuration: real := 60.0
  const DefaultScore: real := 5.0
  const DefaultRating: real := 5.0

  datatype CreateResult = MissingRequired | Insert(row: Encounter)

  /** The four fields without which the handler answers 400. */
  predicate HasRequired(body: Encounter) {
    Truthy(body.catalystId) && Truthy(body.date) && Truthy(body.size) && Truthy(body.condom)
  }

  /** `POST /`: 400 unless the four required fields are truthy; otherwise the
      values bound to the INSERT statement. */
  function CreateEncounter(body: Encounter): (r: CreateResult)
    ensures r.MissingRequired? <==> !HasRequired(body)
  {
    if !HasRequired(body) then MissingRequired
    else Insert(Encounter(
      body.catalystId,
      body.date,
      Or(body.duration, Num(DefaultDuration)),
      Or(body.location, Null),
      body.size,
      body.condom,
      Or(body.positions, Null),
      Or(body.finish, Null),
      Or(body.clothing, Null),
      Or(body.roughness, Num(DefaultScore)),
      Or(body.anchor, Num(DefaultScore)),
      Or(body.share, Num(DefaultScore)),
      Or(body.oralMine, Num(DefaultScore)),
      Or(body.oralTheirs, Num(DefaultScore)),
      Or(body.rating, Num(DefaultRating)),
      Or(body.notes, Null)))
  }

  /** A field that `||` fills: its supplied value when truthy, the default
      otherwise. */
  predicate FilledFrom(stored: JsValue, supplied: JsValue, default: JsValue) {
    if Truthy(supplied) then stored == supplied else stored == default
  }

  /** What the stored row holds: the required fields as supplied, every other
      field as supplied when truthy and its default otherwise (a duration of
      60, scores and rating of 5, and null for the optional texts). */
  lemma CreateFillsDefaults(body: Encounter)
    requires HasRequired(body)
    ensures var row := CreateEncounter(body).row;
      && row.catalystId == body.catalystId && row.date == body.date
      && row.size == body.size && row.condom == body.condom
      && FilledFrom(row.duration, body.duration, Num(DefaultDuration))
      && FilledFrom(row.location, body.location, Null)
      && FilledFrom(row.positions, body.positions, Null)
      && FilledFrom(row.finish, body.finish, Null)
      && FilledFrom(row.clothing, body.clothing, Null)
      && FilledFrom(row.roughness, body.roughness, Num(DefaultScore))
      && FilledFrom(row.anchor, body.anchor, Num(DefaultScore))
      && FilledFrom(row.share, body.share, Num(DefaultScore))
      && FilledFrom(row.oralMine, body.oralMine, Num(DefaultScore))
      && FilledFrom(row.oralTheirs, body.oralTheirs, Num(DefaultScore))
      && FilledFrom(row.rating, body.rating, Num(DefaultRating))
      && FilledFrom(row.notes, body.notes, Null)
  {
  }

  /** Every numeric column of a stored row is truthy, and every optional text
      column is truthy or null: no falsy value other than null survives. */
  predicate Normalised(row: Encounter) {
    && Truthy(row.duration)
    && Truthy(row.roughness) && Truthy(row.anchor) && Truthy(row.share)
    && Truthy(row.oralMine) && Truthy(row.oralTheirs) && Truthy(row.rating)
    && (Truthy(row.location) || row.location == Null)
    && (Truthy(row.positions) || row.positions == Null)
    && (Truthy(row.finish) || row.finish == Null)
    && (Truthy(row.clothing) || row.clothing == Null)
    && (Truthy(row.notes) || row.notes == Null)
  }

  /** The defaults leave a normalised row, and creating from a stored row
      stores it unchanged: filling the defaults is idempotent. */
  lemma CreateNormalises(body: Encounter)
    requires HasRequired(body)
    ensures Normalised(CreateEncounter(body).row)
    ensures CreateEncounter(CreateEncounter(body).row) == CreateEncounter(body)
  {
  }

  /** `||` tests truthiness, not presence: an explicit zero rating or score
      (or an empty text) is replaced by the default like a missing one. */
  lemma FalsyValuesAreOverwritten(body: Encounter)
    requires HasRequired(body)
    requires body.rating == Num(0.0) && body.roughness == Num(0.0) && body.notes == Str("")
    ensures CreateEncounter(body).row.rating == Num(DefaultRating)
    ensures CreateEncounter(body).row.roughness == Num(DefaultScore)
    ensures CreateEncounter(body).row.notes == Null
  {
  }

  /** A stored row of the joined query, keyed by `encounter_id`. */
  datatype Stored = Stored(encounterId: int, data: Encounter)

  datatype FindResult = NotFound | Found(row: Stored)

  /** `GET /:id`: the first row with the given id, 404 when there is none.
      The conversion of the path parameter to the column's integer type is
      outside the model. */
  function FindEncounter(rows: seq<Stored>, id: int): (r: FindResult)
    ensures r.NotFound? <==> forall i :: 0 <= i < |rows| ==> rows[i].encounterId != id
    ensures r.Found? ==> r.row.encounterId == id && r.row in rows
  {
    if |rows| == 0 then NotFound
    else if rows[0].encounterId == id then Found(rows[0])
    else
      var rest := FindEncounter(rows[1..], id);
      assert forall i :: 1 <= i < |rows| ==> rows[i] == rows[1..][i - 1];
      rest
  }

  /** A row stored under a new id is found again by that id, and the rows
      already stored are still found as before. */
  lemma {:induction false} FindAfterInsert(rows: seq<Stored>, newId: int, row: Encounter, id: int)
    requires forall i :: 0 <= i < |rows| ==> rows[i].encounterId != newId
    ensures FindEncounter(rows + [Stored(newId, row)], newId) == Found(Stored(newId, row))
    ensures id != newId ==> FindEncounter(rows + [Stored(newId, row)], id) == FindEncounter(rows, id)
  {
    if |rows| > 0 {
      assert (rows + [Stored(newId, row)])[1..] == rows[1..] + [Stored(newId, row)];
      FindAfterInsert(rows[1..], newId, row, id);
    }
  }
}
