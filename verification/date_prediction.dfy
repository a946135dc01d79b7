/** The cadence-based date suggestion and the suggested duration of the
    recommendation engine. Time values are integer milliseconds since the
    epoch; the clock reading `now` is a parameter. A date object is either a
    valid time value or the invalid date that ECMAScript produces for NaN,
    infinities and values beyond the representable range. */
module DatePrediction {
  import opened Wrappers

  /** Milliseconds in a day (`24 * 60 * 60 * 1000`). */
  const DayMs: int := 86_400_000

  /** The largest magnitude of a time value (8.64e15 ms, one hundred million
      days either side of the epoch). */
  const MaxTimeMs: int := 8_640_000_000_000_000

  datatype DateValue = Valid(ms: int) | Invalid

  predicate InRange(t: int) {
    -MaxTimeMs <= t <= MaxTimeMs
  }

  /** Rounding toward zero (the ToIntegerOrInfinity step of TimeClip). */
  function Trunc(x: real): (n: int)
    ensures x >= 0.0 ==> n as real <= x < n as real + 1.0
    ensures x < 0.0 ==> n as real - 1.0 < x <= n as real
  {
    if x >= 0.0 then x.Floor else -((-x).Floor)
  }

  /** `new Date(x)` for a finite number `x`: beyond the range the date is
      invalid, otherwise the time value is `x` truncated toward zero. */
  function TimeClip(x: real): (d: DateValue)
    ensures d.Valid? <==> -MaxTimeMs as real <= x <= MaxTimeMs as real
    ensures d.Valid? ==> InRange(d.ms)
  {
    if x < -MaxTimeMs as real || x > MaxTimeMs as real then Invalid else Valid(Trunc(x))
  }

  lemma TimeClipOfInt(t: int)
    ensures TimeClip(t as real) == (if InRange(t) then Valid(t) else Invalid)
  {
  }

  /** `date < new Date()`: comparing with an invalid date is false. */
  predicate Before(d: DateValue, now: int) {
    d.Valid? && d.ms < now
  }

  /** The date suggested by the cadence of past encounters. With no encounters
      (or no recorded last date) it is three days from now. Otherwise the
      average gap `(last - first) / (count - 1)` is added to the last date; a
      missing first date reads as the epoch (`new Date(null)`). With a single
      encounter the gap divides by zero, which yields NaN or an infinity and so
      an invalid date, and the comparison with now cannot correct it. A valid
      date earlier than now is replaced by seven days from now. */
  function PredictNextDate(count: nat, first: Option<int>, last: Option<int>, now: int): (d: DateValue)
  {
    if count > 0 && last.Some? then
      var candidate :=
        if count == 1 then Invalid
        else
          var gap := (last.value - first.GetOr(0)) as real / (count - 1) as real;
          TimeClip(last.value as real + gap);
      if Before(candidate, now) then TimeClip((now + 7 * DayMs) as real) else candidate
    else TimeClip((now + 3 * DayMs) as real)
  }

  /** With no history the suggestion is exactly three days ahead. */
  lemma NoHistoryIsThreeDaysAhead(count: nat, first: Option<int>, last: Option<int>, now: int)
    requires count == 0 || last.None?
    requires InRange(now + 3 * DayMs)
    ensures PredictNextDate(count, first, last, now) == Valid(now + 3 * DayMs)
  {
    TimeClipOfInt(now + 3 * DayMs);
  }

  /** A single recorded encounter gives an invalid date. */
  lemma SingleEncounterIsInvalid(first: Option<int>, last: int, now: int)
    ensures PredictNextDate(1, first, Some(last), now) == Invalid
  {
  }

  /** A suggested date is never in the past: whatever the inputs, a valid
      result is at or after now. */
  lemma NeverInThePast(count: nat, first: Option<int>, last: Option<int>, now: int)
    ensures PredictNextDate(count, first, last, now).Valid? ==> PredictNextDate(count, first, last, now).ms >= now
  {
    TimeClipOfInt(now + 3 * DayMs);
    TimeClipOfInt(now + 7 * DayMs);
  }

  /** With at least two encounters, the suggestion is the projected date when
      that is not in the past, and seven days from now otherwise. Stated for
      dates whose doubled cadence (`2 * last - first`) stays in the time
      range, so that the projection, which lies between `last` and that
      value, does too. */
  lemma CadenceProjection(count: nat, first: int, last: int, now: int)
    requires count > 1
    requires InRange(last) && InRange(2 * last - first)
    requires InRange(now + 7 * DayMs)
    ensures var projected := Trunc(last as real + (last - first) as real / (count - 1) as real);
      PredictNextDate(count, Some(first), Some(last), now)
        == if projected < now then Valid(now + 7 * DayMs) else Valid(projected)
  {
    var x := last as real + (last - first) as real / (count - 1) as real;
    ProjectionInRange(count, first, last);
    assert TimeClip(x) == Valid(Trunc(x));
    TimeClipOfInt(now + 7 * DayMs);
  }

  /** The projection lies between `last` and `2 * last - first`. */
  lemma ProjectionInRange(count: nat, first: int, last: int)
    requires count > 1
    requires InRange(last) && InRange(2 * last - first)
    ensures -MaxTimeMs as real <= last as real + (last - first) as real / (count - 1) as real <= MaxTimeMs as real
  {
    DivisionShrinks((last - first) as real, (count - 1) as real);
  }

  /** Dividing by at least one moves a value toward zero, never past it. */
  lemma DivisionShrinks(a: real, d: real)
    requires d >= 1.0
    ensures a >= 0.0 ==> 0.0 <= a / d <= a
    ensures a < 0.0 ==> a <= a / d <= 0.0
  {
    if a >= 0.0 {
      assert a / d * d == a;
    } else {
      assert a / d * d == a;
    }
  }

  /** `Math.round`: the nearest integer, halves rounded up. */
  function Round(x: real): (n: int)
    ensures n as real - 0.5 <= x < n as real + 0.5
  {
    (x + 0.5).Floor
  }

  /** `Math.round(average) || 60`: a rounding to zero (or minus zero) is
      falsy and gives 60 minutes. */
  function SuggestedDuration(average: real): (minutes: int)
    ensures minutes != 0
  {
    var r := Round(average);
    if r == 0 then 60 else r
  }

  /** The suggested duration is the integer nearest the average, unless the
      average lies in [-0.5, 0.5), where it is 60. */
  lemma SuggestedDurationIsNearest(average: real, n: int)
    ensures SuggestedDuration(average) == n <==>
      if -0.5 <= average < 0.5 then n == 60 else n as real - 0.5 <= average < n as real + 0.5
  {
  }
}
