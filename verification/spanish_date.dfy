/** The Spanish date reader of the encounter form: the regular expression
    `/(\d{1,2})\s+de\s+(\w+)\s+de\s+(\d{4}),\s+(\d{1,2}):(\d{2})/`, the
    month table keyed by lower-cased month names, and `parseInt` of the
    numeric groups.

    The expression is a sequence of pieces, each a character class repeated
    within bounds or one literal character. In this pattern a class
    repetition either has a fixed length or is followed by a piece that can
    only start with a character outside the class, so at a given start there
    is at most one way to match it, and the greedy scan `Greedy` finds it
    (`GreedyIsTheMatch`); a backtracking engine can therefore return nothing
    else. `String.prototype.match` tries the starts from left to right. */
module SpanishDate {
  import opened Wrappers
  import opened Text

  // ---------------------------------------------------------------------------
  // Pieces of a pattern
  // ---------------------------------------------------------------------------

  /** `\d`, `\s` and `\w` (without the `u` flag). */
  datatype Class = Digit | Space | Word

  predicate IsWordChar(c: char) {
    ('a' <= c <= 'z') || ('A' <= c <= 'Z') || ('0' <= c <= '9') || c == '_'
  }

  predicate InClass(c: char, k: Class) {
    match k
    case Digit => IsDigit(c)
    case Space => IsSpace(c)
    case Word => IsWordChar(c)
  }

  /** A class repeated between `lo` and `hi` times (unbounded when `hi` is
      None), or one literal character. */
  datatype Piece = Repeat(k: Class, lo: nat, hi: Option<nat>) | Lit(c: char)

  /** The date pattern; the capturing groups are pieces 0 (day), 5 (month),
      10 (year), 13 (hour) and 15 (minute). */
  const DatePattern: seq<Piece> := [
    Repeat(Digit, 1, Some(2)), Repeat(Space, 1, None), Lit('d'), Lit('e'), Repeat(Space, 1, None),
    Repeat(Word, 1, None), Repeat(Space, 1, None), Lit('d'), Lit('e'), Repeat(Space, 1, None),
    Repeat(Digit, 4, Some(4)), Lit(','), Repeat(Space, 1, None), Repeat(Digit, 1, Some(2)), Lit(':'),
    Repeat(Digit, 2, Some(2))]

  // ---------------------------------------------------------------------------
  // The pattern as a language
  // ---------------------------------------------------------------------------

  /** The texts a piece matches. */
  predicate Accepts(p: Piece, t: string) {
    match p
    case Lit(c) => t == [c]
    case Repeat(k, lo, hi) =>
      && lo <= |t| && (hi.None? || |t| <= hi.value)
      && forall i :: 0 <= i < |t| ==> InClass(t[i], k)
  }

  function Concat(gs: seq<string>): string {
    if |gs| == 0 then "" else gs[0] + Concat(gs[1..])
  }

  /** `gs` are texts accepted by the pieces, one each, that laid end to end
      form a prefix of `s`: a match of the pattern at the start of `s`. */
  predicate Decomposes(s: string, ps: seq<Piece>, gs: seq<string>) {
    && |gs| == |ps|
    && (forall i :: 0 <= i < |ps| ==> Accepts(ps[i], gs[i]))
    && Concat(gs) <= s
  }

  // ---------------------------------------------------------------------------
  // The greedy scan
  // ---------------------------------------------------------------------------

  /** The length of the longest prefix of `s` in the class. */
  function ClassRun(s: string, k: Class): (n: nat)
    ensures n <= |s|
  {
    if |s| > 0 && InClass(s[0], k) then 1 + ClassRun(s[1..], k) else 0
  }

  lemma {:induction false} ClassRunIsLongest(s: string, k: Class)
    ensures forall i :: 0 <= i < ClassRun(s, k) ==> InClass(s[i], k)
    ensures ClassRun(s, k) < |s| ==> !InClass(s[ClassRun(s, k)], k)
  {
    if |s| > 0 && InClass(s[0], k) {
      ClassRunIsLongest(s[1..], k);
      assert forall i :: 0 < i < ClassRun(s, k) ==> s[i] == s[1..][i - 1];
    }
  }

  /** How much of `s` a piece consumes when matched greedily. */
  function Consume(s: string, p: Piece): (n: Option<nat>)
    ensures n.Some? ==> n.value <= |s|
  {
    match p
    case Lit(c) => if |s| > 0 && s[0] == c then Some(1) else None
    case Repeat(k, lo, hi) =>
      var run := ClassRun(s, k);
      var m := if hi.Some? && hi.value < run then hi.value else run;
      if m >= lo then Some(m) else None
  }

  /** Every piece matched greedily in turn, without backtracking. */
  function Greedy(s: string, ps: seq<Piece>): (r: Option<seq<string>>)
    ensures r.Some? ==> |r.value| == |ps|
    decreases |ps|
  {
    if |ps| == 0 then Some([])
    else match Consume(s, ps[0])
      case None => None
      case Some(n) =>
        match Greedy(s[n..], ps[1..])
        case None => None
        case Some(gs) => Some([s[..n]] + gs)
  }

  // ---------------------------------------------------------------------------
  // The scan finds the one match
  // ---------------------------------------------------------------------------

  predicate Fixed(p: Piece) {
    p.Lit? || p.hi == Some(p.lo)
  }

  predicate NonEmpty(p: Piece) {
    p.Lit? || p.lo >= 1
  }

  /** No text of `q` starts with a character of class `k`. */
  predicate StopsAt(k: Class, q: Piece) {
    match q
    case Lit(c) => !InClass(c, k)
    case Repeat(k2, _, _) => (k == Space) != (k2 == Space)
  }

  /** Every piece matches something, and each repetition either has a fixed
      length or is followed by a piece that stops it. */
  predicate Deterministic(ps: seq<Piece>)
    decreases |ps|
  {
    || |ps| == 0
    || (&& NonEmpty(ps[0])
        && (Fixed(ps[0]) || (ps[0].Repeat? && |ps| > 1 && StopsAt(ps[0].k, ps[1])))
        && Deterministic(ps[1..]))
  }

  lemma SpaceIsNotWord(c: char)
    requires IsSpace(c)
    ensures !IsDigit(c) && !IsWordChar(c)
  {
  }

  /** A non-empty text of `q` starts outside a class that `q` stops. */
  lemma StopsAtFirst(k: Class, q: Piece, t: string)
    requires StopsAt(k, q) && Accepts(q, t) && |t| > 0
    ensures !InClass(t[0], k)
  {
    if q.Repeat? && InClass(t[0], k) {
      if k == Space {
        SpaceIsNotWord(t[0]);
      } else {
        SpaceIsNotWord(t[0]);
      }
    }
  }

  /** Putting a piece in front of a deterministic pattern. */
  lemma DeterministicCons(p: Piece, ps: seq<Piece>)
    requires NonEmpty(p) && (Fixed(p) || (p.Repeat? && |ps| > 0 && StopsAt(p.k, ps[0])))
    requires Deterministic(ps)
    ensures Deterministic([p] + ps)
  {
    assert ([p] + ps)[1..] == ps;
  }

  /** `(\d{4}),\s+(\d{1,2}):(\d{2})`, the year and the time. */
  const YearAndTime: seq<Piece> := [
    Repeat(Digit, 4, Some(4)), Lit(','), Repeat(Space, 1, None), Repeat(Digit, 1, Some(2)), Lit(':'),
    Repeat(Digit, 2, Some(2))]

  /** A group followed by `\s+de\s+`. */
  function BeforeDe(group: Piece): seq<Piece> {
    [group, Repeat(Space, 1, None), Lit('d'), Lit('e'), Repeat(Space, 1, None)]
  }

  /** The pattern is the day and the month, each followed by `\s+de\s+`,
      then the year and the time. */
  lemma DatePatternParts()
    ensures DatePattern == BeforeDe(Repeat(Digit, 1, Some(2))) + BeforeDe(Repeat(Word, 1, None)) + YearAndTime
  {
  }

  lemma YearAndTimeAreDeterministic()
    ensures Deterministic(YearAndTime)
  {
    var tail: seq<Piece> := [];
    DeterministicCons(Repeat(Digit, 2, Some(2)), tail);
    tail := [Repeat(Digit, 2, Some(2))] + tail;
    DeterministicCons(Lit(':'), tail);
    tail := [Lit(':')] + tail;
    DeterministicCons(Repeat(Digit, 1, Some(2)), tail);
    tail := [Repeat(Digit, 1, Some(2))] + tail;
    DeterministicCons(Repeat(Space, 1, None), tail);
    tail := [Repeat(Space, 1, None)] + tail;
    DeterministicCons(Lit(','), tail);
    tail := [Lit(',')] + tail;
    DeterministicCons(Repeat(Digit, 4, Some(4)), tail);
    tail := [Repeat(Digit, 4, Some(4))] + tail;
    assert tail == YearAndTime;
  }

  /** A repetition that a space stops, then `\s+de\s+`, in front of a
      deterministic pattern that starts outside white space. */
  lemma BeforeDeIsDeterministic(group: Piece, ps: seq<Piece>)
    requires group.Repeat? && group.lo >= 1 && group.k != Space
    requires Deterministic(ps) && |ps| > 0 && StopsAt(Space, ps[0])
    ensures Deterministic(BeforeDe(group) + ps)
  {
    var tail := ps;
    DeterministicCons(Repeat(Space, 1, None), tail);
    tail := [Repeat(Space, 1, None)] + tail;
    DeterministicCons(Lit('e'), tail);
    tail := [Lit('e')] + tail;
    DeterministicCons(Lit('d'), tail);
    tail := [Lit('d')] + tail;
    DeterministicCons(Repeat(Space, 1, None), tail);
    tail := [Repeat(Space, 1, None)] + tail;
    DeterministicCons(group, tail);
    tail := [group] + tail;
    assert tail == BeforeDe(group) + ps;
  }

  lemma DatePatternIsDeterministic()
    ensures Deterministic(DatePattern)
  {
    var month := BeforeDe(Repeat(Word, 1, None));
    YearAndTimeAreDeterministic();
    BeforeDeIsDeterministic(Repeat(Word, 1, None), YearAndTime);
    BeforeDeIsDeterministic(Repeat(Digit, 1, Some(2)), month + YearAndTime);
    DatePatternParts();
    assert BeforeDe(Repeat(Digit, 1, Some(2))) + month + YearAndTime
        == BeforeDe(Repeat(Digit, 1, Some(2))) + (month + YearAndTime);
  }

  lemma ConsumeAccepts(s: string, p: Piece)
    requires Consume(s, p).Some?
    ensures Accepts(p, s[..Consume(s, p).value])
  {
    if p.Repeat? {
      ClassRunIsLongest(s, p.k);
    }
  }

  /** A piece consumes exactly a prefix it accepts, when the piece has a fixed
      length or the character after the prefix is outside its class. */
  lemma ConsumeExact(s: string, p: Piece, m: nat)
    requires m <= |s| && Accepts(p, s[..m])
    requires Fixed(p) || (p.Repeat? && m < |s| && !InClass(s[m], p.k))
    ensures Consume(s, p) == Some(m)
  {
    if p.Repeat? {
      ClassRunIsLongest(s, p.k);
      var run := ClassRun(s, p.k);
      assert run >= m;
      if !Fixed(p) {
        assert run == m;
      }
    }
  }

  lemma ConcatCons(gs: seq<string>)
    requires |gs| > 0
    ensures Concat(gs) == gs[0] + Concat(gs[1..])
  {
  }

  /** What the scan returns is a match. */
  lemma {:induction false} GreedyDecomposes(s: string, ps: seq<Piece>)
    requires Greedy(s, ps).Some?
    ensures Decomposes(s, ps, Greedy(s, ps).value)
    decreases |ps|
  {
    if |ps| > 0 {
      var n := Consume(s, ps[0]).value;
      var rest := Greedy(s[n..], ps[1..]).value;
      GreedyDecomposes(s[n..], ps[1..]);
      ConsumeAccepts(s, ps[0]);
      var gs := Greedy(s, ps).value;
      assert gs[1..] == rest;
      assert Concat(gs) == s[..n] + Concat(rest);
      assert s == s[..n] + s[n..];
      forall i | 0 <= i < |ps|
        ensures Accepts(ps[i], gs[i])
      {
        if i > 0 {
          assert gs[i] == rest[i - 1];
        }
      }
    }
  }

  /** Every match of a deterministic pattern is what the scan returns. */
  lemma {:induction false} DecompositionIsGreedy(s: string, ps: seq<Piece>, gs: seq<string>)
    requires Deterministic(ps) && Decomposes(s, ps, gs)
    ensures Greedy(s, ps) == Some(gs)
    decreases |ps|
  {
    if |ps| > 0 {
      var t := gs[0];
      var m := |t|;
      ConcatCons(gs);
      var tail := Concat(gs[1..]);
      assert s[..m] == t;
      assert tail <= s[m..];
      if !Fixed(ps[0]) {
        assert |gs[1]| > 0;
        ConcatCons(gs[1..]);
        assert s[m] == gs[1][0];
        StopsAtFirst(ps[0].k, ps[1], gs[1]);
      }
      ConsumeExact(s, ps[0], m);
      assert Decomposes(s[m..], ps[1..], gs[1..]) by {
        forall i | 0 <= i < |ps[1..]|
          ensures Accepts(ps[1..][i], gs[1..][i])
        {
          assert ps[1..][i] == ps[i + 1];
        }
      }
      DecompositionIsGreedy(s[m..], ps[1..], gs[1..]);
      assert [s[..m]] + gs[1..] == gs;
    }
  }

  /** At a given start the pattern matches at most one way, and the scan
      returns exactly that match. */
  lemma GreedyIsTheMatch(s: string, gs: seq<string>)
    ensures Greedy(s, DatePattern) == Some(gs) <==> Decomposes(s, DatePattern, gs)
  {
    DatePatternIsDeterministic();
    if Greedy(s, DatePattern) == Some(gs) {
      GreedyDecomposes(s, DatePattern);
    }
    if Decomposes(s, DatePattern, gs) {
      DecompositionIsGreedy(s, DatePattern, gs);
    }
  }

  // ---------------------------------------------------------------------------
  // Leftmost search
  // ---------------------------------------------------------------------------

  /** The pattern matches at start `q` of `text`. */
  predicate MatchesAt(text: string, ps: seq<Piece>, q: nat) {
    q <= |text| && Greedy(text[q..], ps).Some?
  }

  /** The first position from `p` up to `last` that satisfies `test`. */
  function FirstFrom(test: nat -> bool, last: nat, p: nat): (r: Option<nat>)
    requires p <= last
    ensures r.None? <==> forall q :: p <= q <= last ==> !test(q)
    ensures r.Some? ==> p <= r.value <= last && test(r.value)
    ensures r.Some? ==> forall q :: p <= q < r.value ==> !test(q)
    decreases last - p
  {
    if test(p) then Some(p)
    else if p == last then None
    else FirstFrom(test, last, p + 1)
  }

  /** The leftmost start at which the pattern matches. */
  function SearchFrom(text: string, ps: seq<Piece>, p: nat): (r: Option<nat>)
    requires p <= |text|
    ensures r.None? <==> forall q :: p <= q <= |text| ==> !MatchesAt(text, ps, q)
    ensures r.Some? ==> p <= r.value <= |text| && MatchesAt(text, ps, r.value)
    ensures r.Some? ==> forall q :: p <= q < r.value ==> !MatchesAt(text, ps, q)
  {
    var test := (q: nat) => MatchesAt(text, ps, q);
    assert forall q: nat :: test(q) == MatchesAt(text, ps, q);
    FirstFrom(test, |text|, p)
  }

  /** The texts of the five groups. */
  datatype DateText = DateText(day: string, month: string, year: string, hour: string, minute: string)

  function GroupsOf(gs: seq<string>): DateText
    requires |gs| == |DatePattern|
  {
    DateText(gs[0], gs[5], gs[10], gs[13], gs[15])
  }

  /** `text.match(pattern)`: the groups of the leftmost match. */
  function FindDate(text: string): (r: Option<DateText>)
    ensures r.Some? <==> exists q :: 0 <= q <= |text| && MatchesAt(text, DatePattern, q)
  {
    match SearchFrom(text, DatePattern, 0)
    case None => None
    case Some(start) => Some(GroupsOf(Greedy(text[start..], DatePattern).value))
  }

  /** The groups found are those of the match at the leftmost start. */
  lemma FindDateIsLeftmost(text: string, q: nat)
    requires MatchesAt(text, DatePattern, q)
    requires forall p :: 0 <= p < q ==> !MatchesAt(text, DatePattern, p)
    ensures FindDate(text) == Some(GroupsOf(Greedy(text[q..], DatePattern).value))
  {
    var r := SearchFrom(text, DatePattern, 0);
    assert r.Some?;
    assert r.value == q;
  }

  // ---------------------------------------------------------------------------
  // The month table
  // ---------------------------------------------------------------------------

  const MonthNames: seq<string> := [
    "enero", "febrero", "marzo", "abril", "mayo", "junio",
    "julio", "agosto", "septiembre", "octubre", "noviembre", "diciembre"]

  /** Looking a key up in the `meses` object literal: one of its own twelve
      properties, a property every object inherits (the only ones spelled in
      lower case are `constructor` and `__proto__`; their values are not
      numbers), or nothing. */
  datatype MonthEntry = Month(index: nat) | Inherited | Absent

  function IndexOf(xs: seq<string>, key: string): (r: Option<nat>)
    ensures r.None? <==> key !in xs
    ensures r.Some? ==> r.value < |xs| && xs[r.value] == key && forall j :: 0 <= j < r.value ==> xs[j] != key
  {
    if |xs| == 0 then None
    else if xs[0] == key then Some(0)
    else
      var rest := IndexOf(xs[1..], key);
      assert forall j :: 1 <= j < |xs| ==> xs[j] == xs[1..][j - 1];
      match rest
      case None => None
      case Some(j) => Some(j + 1)
  }

  function MonthLookup(key: string): (r: MonthEntry)
    ensures r.Month? <==> key in MonthNames
    ensures r.Month? ==> r.index < 12 && MonthNames[r.index] == key
    ensures r.Inherited? <==> key == "constructor" || key == "__proto__"
  {
    if key == "constructor" || key == "__proto__" then Inherited
    else match IndexOf(MonthNames, key)
      case Some(i) => Month(i)
      case None => Absent
  }

  lemma MonthNamesDistinct()
    ensures forall i, j :: 0 <= i < j < |MonthNames| ==> MonthNames[i] != MonthNames[j]
  {
  }

  // ---------------------------------------------------------------------------
  // Reading the date
  // ---------------------------------------------------------------------------

  /** The outcome of the reader: no match, a month the table does not know,
      arguments that make `new Date` invalid (`NaN`), or the five arguments
      of `new Date(año, mes, dia, hora, minuto)`. */
  datatype DateReading =
    | NoMatch
    | UnknownMonth
    | NotANumber
    | Parsed(year: int, month: nat, day: int, hour: int, minute: int)

  /** The month looked up in lower case, the numbers read with `parseInt`. */
  function ReadGroups(g: DateText): (r: DateReading)
    ensures r.UnknownMonth? <==> MonthLookup(ToLower(g.month)).Absent?
    ensures r.Parsed? ==> r.month < 12 && MonthNames[r.month] == ToLower(g.month)
  {
    match MonthLookup(ToLower(g.month))
    case Absent => UnknownMonth
    case Inherited => NotANumber
    case Month(m) =>
      match (ParseInt(g.day), ParseInt(g.year), ParseInt(g.hour), ParseInt(g.minute))
      case (Some(d), Some(y), Some(h), Some(mi)) => Parsed(y, m, d, h, mi)
      case _ => NotANumber
  }

  function ReadSpanishDate(text: string): (r: DateReading)
    ensures r.NoMatch? <==> FindDate(text).None?
  {
    match FindDate(text)
    case None => NoMatch
    case Some(g) => ReadGroups(g)
  }

  /** Digit groups of a match. */
  predicate DigitGroups(g: DateText) {
    && 1 <= |g.day| <= 2 && AllDigits(g.day)
    && |g.year| == 4 && AllDigits(g.year)
    && 1 <= |g.hour| <= 2 && AllDigits(g.hour)
    && |g.minute| == 2 && AllDigits(g.minute)
  }

  /** The numeric groups of a match are digit strings of the pattern's lengths. */
  lemma GroupsAreDigits(s: string)
    requires Greedy(s, DatePattern).Some?
    ensures DigitGroups(GroupsOf(Greedy(s, DatePattern).value))
  {
    var gs := Greedy(s, DatePattern).value;
    GreedyDecomposes(s, DatePattern);
    assert Accepts(DatePattern[0], gs[0]) && Accepts(DatePattern[10], gs[10]);
    assert Accepts(DatePattern[13], gs[13]) && Accepts(DatePattern[15], gs[15]);
  }

  lemma FoundGroupsAreDigits(text: string)
    requires FindDate(text).Some?
    ensures DigitGroups(FindDate(text).value)
  {
    var start := SearchFrom(text, DatePattern, 0).value;
    GroupsAreDigits(text[start..]);
  }

  /** `parseInt` reads a non-empty digit string in full. */
  lemma DigitGroupValue(s: string)
    requires |s| > 0 && AllDigits(s)
    ensures InBase(s, 10) && ParseInt(s) == Some(DigitsValue(s, 10))
  {
    ParseIntOfUnsigned(s);
  }

  /** `parseInt` reads each digit group in full. */
  lemma GroupsAreNumbers(g: DateText)
    requires DigitGroups(g)
    ensures && InBase(g.day, 10) && ParseInt(g.day) == Some(DigitsValue(g.day, 10))
            && InBase(g.year, 10) && ParseInt(g.year) == Some(DigitsValue(g.year, 10))
            && InBase(g.hour, 10) && ParseInt(g.hour) == Some(DigitsValue(g.hour, 10))
            && InBase(g.minute, 10) && ParseInt(g.minute) == Some(DigitsValue(g.minute, 10))
  {
    DigitGroupValue(g.day);
    DigitGroupValue(g.year);
    DigitGroupValue(g.hour);
    DigitGroupValue(g.minute);
  }

  /** A match with a known month always yields a reading: the date stays
      unchanged only when nothing matches or the month is unknown. */
  lemma KnownMonthIsRead(text: string)
    requires FindDate(text).Some? && MonthLookup(ToLower(FindDate(text).value.month)).Month?
    ensures ReadSpanishDate(text).Parsed?
  {
    var g := FindDate(text).value;
    FoundGroupsAreDigits(text);
    DigitGroupsAreRead(g);
    ReadFoundGroups(text);
  }

  /** The reader of a text with a match reads the groups of that match. */
  lemma ReadFoundGroups(text: string)
    requires FindDate(text).Some?
    ensures ReadSpanishDate(text) == ReadGroups(FindDate(text).value)
  {
  }

  /** Digit groups with a known month are read as numbers. */
  lemma DigitGroupsAreRead(g: DateText)
    requires DigitGroups(g) && MonthLookup(ToLower(g.month)).Month?
    ensures ReadGroups(g).Parsed?
  {
    GroupsAreNumbers(g);
    ReadGroupsParsed(g, DigitsValue(g.year, 10), MonthLookup(ToLower(g.month)).index,
                     DigitsValue(g.day, 10), DigitsValue(g.hour, 10), DigitsValue(g.minute, 10));
  }

  // ---------------------------------------------------------------------------
  // Round trip with the requested shape
  // ---------------------------------------------------------------------------

  /** The pieces of a date written as "d de mes de yyyy, HH:MM": the day
      without padding, the month name, the year in four digits and the hour
      and minute in two, separated by single spaces, "de", a comma and a
      colon. */
  function RenderPieces(day: nat, month: nat, year: nat, hour: nat, minute: nat): (gs: seq<string>)
    requires month < 12
    ensures |gs| == |DatePattern|
  {
    [NatToString(day), " ", "d", "e", " ", MonthNames[month], " ", "d", "e", " ",
     PadDigits(year, 4), ",", " ", PadDigits(hour, 2), ":", PadDigits(minute, 2)]
  }

  function RenderDate(day: nat, month: nat, year: nat, hour: nat, minute: nat): string
    requires month < 12
  {
    Concat(RenderPieces(day, month, year, hour, minute))
  }

  /** The month names are non-empty runs of lower-case ASCII letters. */
  predicate LowerWord(s: string) {
    |s| > 0 && forall i :: 0 <= i < |s| ==> 'a' <= s[i] <= 'z'
  }

  lemma MonthNamesAreLowerWords()
    ensures forall m :: 0 <= m < |MonthNames| ==> LowerWord(MonthNames[m])
  {
  }

  lemma LowerWordIsLowerCase(s: string)
    requires LowerWord(s)
    ensures ToLower(s) == s
  {
  }

  lemma SmallNatWidth(n: nat)
    requires n < 100
    ensures 1 <= |NatToString(n)| <= 2
  {
  }

  lemma RenderedPiecesAccepted(day: nat, month: nat, year: nat, hour: nat, minute: nat)
    requires day < 100 && month < 12
    ensures var gs := RenderPieces(day, month, year, hour, minute);
      forall i :: 0 <= i < |DatePattern| ==> Accepts(DatePattern[i], gs[i])
  {
    SmallNatWidth(day);
    MonthNamesAreLowerWords();
    assert LowerWord(MonthNames[month]);
  }

  /** A rendered date is found whole, at its start. */
  lemma RenderedDateIsFound(day: nat, month: nat, year: nat, hour: nat, minute: nat)
    requires day < 100 && month < 12
    ensures FindDate(RenderDate(day, month, year, hour, minute))
         == Some(DateText(NatToString(day), MonthNames[month], PadDigits(year, 4), PadDigits(hour, 2), PadDigits(minute, 2)))
  {
    var gs := RenderPieces(day, month, year, hour, minute);
    var text := RenderDate(day, month, year, hour, minute);
    RenderedPiecesAccepted(day, month, year, hour, minute);
    assert Decomposes(text, DatePattern, gs);
    GreedyIsTheMatch(text, gs);
    assert text[0..] == text;
    assert MatchesAt(text, DatePattern, 0);
    FindDateIsLeftmost(text, 0);
  }

  /** The month table maps each name to its position. */
  lemma MonthLookupOfName(month: nat)
    requires month < 12
    ensures MonthLookup(MonthNames[month]) == Month(month)
  {
    MonthNamesDistinct();
    MonthNamesAreLowerWords();
    assert LowerWord(MonthNames[month]);
  }

  /** `parseInt` reads a padded rendering back. */
  lemma PaddedReadsBack(n: nat, w: nat)
    requires w > 0 && n < Pow10(w)
    ensures ParseInt(PadDigits(n, w)) == Some(n)
  {
    PadDigitsValue(n, w);
    DigitGroupValue(PadDigits(n, w));
  }

  lemma UnpaddedReadsBack(n: nat)
    ensures ParseInt(NatToString(n)) == Some(n)
  {
    NatToStringValue(n);
    DigitGroupValue(NatToString(n));
  }

  lemma ReadGroupsParsed(g: DateText, year: int, month: nat, day: int, hour: int, minute: int)
    requires MonthLookup(ToLower(g.month)) == Month(month)
    requires ParseInt(g.day) == Some(day) && ParseInt(g.year) == Some(year)
    requires ParseInt(g.hour) == Some(hour) && ParseInt(g.minute) == Some(minute)
    ensures ReadGroups(g) == Parsed(year, month, day, hour, minute)
  {
  }

  /** The groups of a rendered date read back as the numbers rendered. */
  lemma RenderedGroupsRead(day: nat, month: nat, year: nat, hour: nat, minute: nat)
    requires day < 100 && month < 12 && year < 10000 && hour < 100 && minute < 100
    ensures ReadGroups(DateText(NatToString(day), MonthNames[month], PadDigits(year, 4), PadDigits(hour, 2), PadDigits(minute, 2)))
         == Parsed(year, month, day, hour, minute)
  {
    MonthNamesAreLowerWords();
    LowerWordIsLowerCase(MonthNames[month]);
    MonthLookupOfName(month);
    UnpaddedReadsBack(day);
    assert Pow10(4) == 10000 && Pow10(2) == 100;
    PaddedReadsBack(year, 4);
    PaddedReadsBack(hour, 2);
    PaddedReadsBack(minute, 2);
    ReadGroupsParsed(DateText(NatToString(day), MonthNames[month], PadDigits(year, 4), PadDigits(hour, 2), PadDigits(minute, 2)),
                     year, month, day, hour, minute);
  }

  /** A date written in the requested shape reads back as the same day,
      month, year, hour and minute. */
  lemma RenderedDateReadsBack(day: nat, month: nat, year: nat, hour: nat, minute: nat)
    requires day < 100 && month < 12 && year < 10000 && hour < 100 && minute < 100
    ensures ReadSpanishDate(RenderDate(day, month, year, hour, minute)) == Parsed(year, month, day, hour, minute)
  {
    RenderedDateIsFound(day, month, year, hour, minute);
    RenderedGroupsRead(day, month, year, hour, minute);
  }
}
