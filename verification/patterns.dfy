/** The pattern extractor of the recommendation engine. The store returns at
    most five position-combination rows (the comma-joined `posiciones` column
    grouped with its occurrence count) and at most five location rows; the
    engine explodes every combination into its individual positions, credits
    each position with the whole count of its row, ranks the positions by total
    count and keeps the first five. */
module Patterns {
  import opened Text

  /** A position-combination row after its mapping: the trimmed pieces of the
      comma-joined combination, and how many encounters used it. */
  datatype PositionRow = PositionRow(positions: seq<string>, times: nat)

  /** A location row as the store returns it (`{ nombre, veces }`). */
  datatype LocationRow = LocationRow(name: string, times: nat)

  /** An entry of the per-position tally and of the ranked list (`{ nombre, veces }`). */
  datatype Entry = Entry(name: string, times: int)

  /** The mapping applied to each stored combination: split on ',' and trim
      every piece. Empty pieces are kept. */
  function ToPositionRow(combination: string, times: nat): (row: PositionRow)
    ensures |row.positions| == Occurrences(combination, ',') + 1
    ensures forall i :: 0 <= i < |row.positions| ==> IsTrimmed(row.positions[i])
    ensures forall i :: 0 <= i < |row.positions| ==> row.positions[i] == Trim(Split(combination, ',')[i])
    ensures row.times == times
  {
    var parts := Split(combination, ',');
    PositionRow(seq(|parts|, i requires 0 <= i < |parts| => Trim(parts[i])), times)
  }

  // ---------------------------------------------------------------------------
  // The tally: a map from position to total count, kept in first-seen order
  // ---------------------------------------------------------------------------

  /** `counts[name] || 0`: the count recorded for `name`, or 0. */
  function Lookup(entries: seq<Entry>, name: string): int {
    if |entries| == 0 then 0
    else if entries[0].name == name then entries[0].times
    else Lookup(entries[1..], name)
  }

  function Names(entries: seq<Entry>): set<string> {
    if |entries| == 0 then {} else {entries[0].name} + Names(entries[1..])
  }

  /** No name is recorded twice: the keys of an object are distinct. */
  predicate DistinctNames(entries: seq<Entry>) {
    |entries| == 0 || (entries[0].name !in Names(entries[1..]) && DistinctNames(entries[1..]))
  }

  lemma {:induction false} NamesMember(entries: seq<Entry>, name: string)
    ensures name in Names(entries) <==> exists i :: 0 <= i < |entries| && entries[i].name == name
  {
    if |entries| > 0 {
      NamesMember(entries[1..], name);
      if exists i :: 0 <= i < |entries| && entries[i].name == name {
        var i :| 0 <= i < |entries| && entries[i].name == name;
        if i > 0 { assert entries[1..][i - 1].name == name; }
      }
      if exists i :: 0 <= i < |entries[1..]| && entries[1..][i].name == name {
        var i :| 0 <= i < |entries[1..]| && entries[1..][i].name == name;
        assert entries[i + 1].name == name;
      }
    }
  }

  /** `counts[name] = (counts[name] || 0) + amount`: an existing key keeps its
      place, a new key is appended. */
  function Bump(entries: seq<Entry>, name: string, amount: int): seq<Entry> {
    if |entries| == 0 then [Entry(name, amount)]
    else if entries[0].name == name then [Entry(name, entries[0].times + amount)] + entries[1..]
    else [entries[0]] + Bump(entries[1..], name, amount)
  }

  lemma {:induction false} BumpFacts(entries: seq<Entry>, name: string, amount: int)
    ensures Lookup(Bump(entries, name, amount), name) == Lookup(entries, name) + amount
    ensures forall m :: m != name ==> Lookup(Bump(entries, name, amount), m) == Lookup(entries, m)
    ensures Names(Bump(entries, name, amount)) == Names(entries) + {name}
    ensures DistinctNames(entries) ==> DistinctNames(Bump(entries, name, amount))
  {
    if |entries| > 0 {
      var r := Bump(entries, name, amount);
      if entries[0].name == name {
        assert r[1..] == entries[1..];
      } else {
        BumpFacts(entries[1..], name, amount);
        assert r[1..] == Bump(entries[1..], name, amount);
      }
    }
  }

  /** How many times `name` occurs among `tokens`. */
  function Count(tokens: seq<string>, name: string): nat {
    multiset(tokens)[name]
  }

  /** Crediting every token of one combination with the combination's count. */
  function AddTokens(entries: seq<Entry>, tokens: seq<string>, amount: int): seq<Entry>
    decreases |tokens|
  {
    if |tokens| == 0 then entries
    else AddTokens(Bump(entries, tokens[0], amount), tokens[1..], amount)
  }

  lemma CountCons(tokens: seq<string>, name: string)
    requires |tokens| > 0
    ensures Count(tokens, name) == Count(tokens[1..], name) + (if tokens[0] == name then 1 else 0)
  {
    assert tokens == [tokens[0]] + tokens[1..];
  }

  lemma MulSucc(c: nat, amount: int)
    ensures (c + 1) * amount == c * amount + amount
  {
  }

  lemma {:induction false} AddTokensLookup(entries: seq<Entry>, tokens: seq<string>, amount: int, m: string)
    ensures Lookup(AddTokens(entries, tokens, amount), m) == Lookup(entries, m) + Count(tokens, m) * amount
    decreases |tokens|
  {
    if |tokens| > 0 {
      var t := tokens[0];
      var bumped := Bump(entries, t, amount);
      AddTokensLookup(bumped, tokens[1..], amount, m);
      CountCons(tokens, m);
      var c := Count(tokens[1..], m);
      assert Lookup(bumped, m) == Lookup(entries, m) + (if t == m then amount else 0) by {
        BumpFacts(entries, t, amount);
      }
      if t == m {
        MulSucc(c, amount);
      }
    }
  }

  lemma {:induction false} AddTokensNames(entries: seq<Entry>, tokens: seq<string>, amount: int)
    ensures Names(AddTokens(entries, tokens, amount)) == Names(entries) + set t | t in tokens
    ensures DistinctNames(entries) ==> DistinctNames(AddTokens(entries, tokens, amount))
    decreases |tokens|
  {
    if |tokens| > 0 {
      BumpFacts(entries, tokens[0], amount);
      AddTokensNames(Bump(entries, tokens[0], amount), tokens[1..], amount);
      assert tokens == [tokens[0]] + tokens[1..];
      assert (set t | t in tokens) == {tokens[0]} + set t | t in tokens[1..];
    }
  }

  /** Every position that occurs in some row. */
  function TokensOf(rows: seq<PositionRow>): set<string> {
    if |rows| == 0 then {} else (set t | t in rows[0].positions) + TokensOf(rows[1..])
  }

  /** The reference count of a position: the sum, over the rows, of the
      position's occurrences in the row times the row's count. */
  function TokenTotal(rows: seq<PositionRow>, name: string): int {
    if |rows| == 0 then 0
    else Count(rows[0].positions, name) * rows[0].times + TokenTotal(rows[1..], name)
  }

  /** The `forEach` over the rows, continuing from the counts gathered so far. */
  function TallyFrom(entries: seq<Entry>, rows: seq<PositionRow>): seq<Entry>
    decreases |rows|
  {
    if |rows| == 0 then entries
    else TallyFrom(AddTokens(entries, rows[0].positions, rows[0].times), rows[1..])
  }

  lemma {:induction false} TallyFromFacts(entries: seq<Entry>, rows: seq<PositionRow>)
    ensures forall m :: Lookup(TallyFrom(entries, rows), m) == Lookup(entries, m) + TokenTotal(rows, m)
    ensures Names(TallyFrom(entries, rows)) == Names(entries) + TokensOf(rows)
    ensures DistinctNames(entries) ==> DistinctNames(TallyFrom(entries, rows))
    decreases |rows|
  {
    if |rows| > 0 {
      forall m ensures Lookup(AddTokens(entries, rows[0].positions, rows[0].times), m) == Lookup(entries, m) + Count(rows[0].positions, m) * rows[0].times {
        AddTokensLookup(entries, rows[0].positions, rows[0].times, m);
      }
      AddTokensNames(entries, rows[0].positions, rows[0].times);
      TallyFromFacts(AddTokens(entries, rows[0].positions, rows[0].times), rows[1..]);
    }
  }

  /** `posicionesCount`, its keys in the order they are first seen, which is
      the order `Object.entries` gives keys that are not array indices. */
  function Tally(rows: seq<PositionRow>): seq<Entry> {
    TallyFrom([], rows)
  }

  /** Per-token counting: every position occurring in the rows has one entry,
      whose count is the sum of the counts of the rows it occurs in (once per
      occurrence); nothing else has an entry. */
  lemma TallyCounts(rows: seq<PositionRow>)
    ensures forall m :: Lookup(Tally(rows), m) == TokenTotal(rows, m)
    ensures Names(Tally(rows)) == TokensOf(rows)
    ensures DistinctNames(Tally(rows))
  {
    TallyFromFacts([], rows);
  }

  /** With distinct names, an entry's count is what the lookup returns. */
  lemma {:induction false} LookupOfMember(entries: seq<Entry>, i: nat)
    requires DistinctNames(entries) && i < |entries|
    ensures Lookup(entries, entries[i].name) == entries[i].times
  {
    if i > 0 {
      NamesMember(entries[1..], entries[i].name);
      assert entries[1..][i - 1] == entries[i];
      LookupOfMember(entries[1..], i - 1);
    }
  }

  lemma {:induction false} DistinctNamesIndexed(entries: seq<Entry>)
    requires DistinctNames(entries)
    ensures forall i, j :: 0 <= i < j < |entries| ==> entries[i].name != entries[j].name
  {
    if |entries| > 0 {
      DistinctNamesIndexed(entries[1..]);
      NamesMember(entries[1..], entries[0].name);
      forall i, j | 0 <= i < j < |entries| ensures entries[i].name != entries[j].name {
        if i == 0 {
          assert entries[1..][j - 1] == entries[j];
        } else {
          assert entries[1..][i - 1] == entries[i] && entries[1..][j - 1] == entries[j];
        }
      }
    }
  }

  // ---------------------------------------------------------------------------
  // Ranking
  // ---------------------------------------------------------------------------

  /** Each entry's count is at least the next one's. */
  predicate NonIncreasing(entries: seq<Entry>) {
    forall i :: 0 < i < |entries| ==> entries[i - 1].times >= entries[i].times
  }

  lemma {:induction false} NonIncreasingPairwise(entries: seq<Entry>, i: nat, j: nat)
    requires NonIncreasing(entries) && i <= j < |entries|
    ensures entries[i].times >= entries[j].times
    decreases j - i
  {
    if i < j {
      NonIncreasingPairwise(entries, i, j - 1);
    }
  }

  /** Places `e` before the first entry whose count is not larger. */
  function Insert(e: Entry, sorted: seq<Entry>): (r: seq<Entry>)
    requires NonIncreasing(sorted)
    ensures NonIncreasing(r)
    ensures |r| == |sorted| + 1
    ensures r[0] == e || (|sorted| > 0 && r[0] == sorted[0])
    ensures multiset(r) == multiset(sorted) + multiset{e}
  {
    if |sorted| == 0 || e.times >= sorted[0].times then [e] + sorted
    else
      var rest := Insert(e, sorted[1..]);
      assert sorted == [sorted[0]] + sorted[1..];
      assert |sorted| > 1 ==> sorted[0].times >= sorted[1].times;
      [sorted[0]] + rest
  }

  /** `sort((a, b) => b[1] - a[1])`: a sort into non-increasing count. */
  function SortByTimes(entries: seq<Entry>): (r: seq<Entry>)
    ensures NonIncreasing(r)
    ensures multiset(r) == multiset(entries)
  {
    if |entries| == 0 then []
    else
      assert entries == [entries[0]] + entries[1..];
      Insert(entries[0], SortByTimes(entries[1..]))
  }

  /** The maximum number of entries a ranked list keeps (`slice(0, 5)`). */
  const TopCount := 5

  /** `topPosicionesList`: the tally sorted by count, cut to five entries. */
  function TopPositions(rows: seq<PositionRow>): seq<Entry> {
    var sorted := SortByTimes(Tally(rows));
    if |sorted| <= TopCount then sorted else sorted[..TopCount]
  }

  lemma {:induction false} DistinctAtMostOnce(entries: seq<Entry>, x: Entry)
    requires DistinctNames(entries)
    ensures multiset(entries)[x] <= 1
  {
    if |entries| > 0 {
      DistinctAtMostOnce(entries[1..], x);
      assert entries == [entries[0]] + entries[1..];
      if x == entries[0] {
        NamesMember(entries[1..], x.name);
        assert x !in entries[1..];
      }
    }
  }

  lemma {:induction false} DistinctFromIndexed(entries: seq<Entry>)
    requires forall i, j :: 0 <= i < j < |entries| ==> entries[i].name != entries[j].name
    ensures DistinctNames(entries)
  {
    if |entries| > 0 {
      DistinctFromIndexed(entries[1..]);
      forall k | 0 <= k < |entries[1..]| ensures entries[1..][k].name != entries[0].name {
        assert entries[1..][k] == entries[k + 1];
      }
      NamesMember(entries[1..], entries[0].name);
    }
  }

  /** Sorting keeps the tally's entries, so every sorted entry carries its
      position's total count. */
  lemma SortedTotals(rows: seq<PositionRow>)
    ensures forall e :: e in SortByTimes(Tally(rows)) ==> e in Tally(rows) && e.times == TokenTotal(rows, e.name)
  {
    var tally := Tally(rows);
    var sorted := SortByTimes(tally);
    TallyCounts(rows);
    forall e | e in sorted ensures e in tally && e.times == TokenTotal(rows, e.name) {
      assert e in multiset(sorted);
      var k :| 0 <= k < |tally| && tally[k] == e;
      LookupOfMember(tally, k);
    }
  }

  /** An element found at two positions occurs at least twice. */
  lemma RepeatedElement(xs: seq<Entry>, i: nat, j: nat)
    requires i < j < |xs| && xs[i] == xs[j]
    ensures multiset(xs)[xs[i]] >= 2
  {
    var x := xs[i];
    assert xs == xs[..j] + [x] + xs[j + 1..];
    assert x in xs[..j];
  }

  lemma SortedDistinct(rows: seq<PositionRow>)
    ensures DistinctNames(SortByTimes(Tally(rows)))
  {
    var tally := Tally(rows);
    var sorted := SortByTimes(tally);
    TallyCounts(rows);
    SortedTotals(rows);
    forall i, j | 0 <= i < j < |sorted| ensures sorted[i].name != sorted[j].name {
      if sorted[i].name == sorted[j].name {
        assert sorted[i] in sorted && sorted[j] in sorted;
        RepeatedElement(sorted, i, j);
        DistinctAtMostOnce(tally, sorted[i]);
        assert false;
      }
    }
    DistinctFromIndexed(sorted);
  }

  lemma SortedNames(rows: seq<PositionRow>)
    ensures Names(SortByTimes(Tally(rows))) == TokensOf(rows)
  {
    var tally := Tally(rows);
    var sorted := SortByTimes(tally);
    TallyCounts(rows);
    forall n ensures n in Names(sorted) <==> n in Names(tally) {
      NamesMember(sorted, n);
      NamesMember(tally, n);
      if n in Names(tally) {
        var k :| 0 <= k < |tally| && tally[k].name == n;
        assert tally[k] in multiset(sorted);
      }
      if n in Names(sorted) {
        var k :| 0 <= k < |sorted| && sorted[k].name == n;
        assert sorted[k] in multiset(tally);
      }
    }
  }

  /** Facts about the sorted tally that the ranked list inherits. */
  lemma SortedFacts(rows: seq<PositionRow>)
    ensures DistinctNames(SortByTimes(Tally(rows)))
    ensures Names(SortByTimes(Tally(rows))) == TokensOf(rows)
    ensures forall e :: e in SortByTimes(Tally(rows)) ==> e.times == TokenTotal(rows, e.name)
  {
    SortedTotals(rows);
    SortedDistinct(rows);
    SortedNames(rows);
  }

  lemma {:induction false} DistinctPrefix(entries: seq<Entry>, n: nat)
    requires DistinctNames(entries) && n <= |entries|
    ensures DistinctNames(entries[..n])
  {
    DistinctNamesIndexed(entries);
    DistinctFromIndexed(entries[..n]);
  }

  /** The ranked position list: at most five entries, in non-increasing count,
      each position listed once with its total count from the rows. */
  lemma TopPositionsFacts(rows: seq<PositionRow>)
    ensures |TopPositions(rows)| <= TopCount
    ensures NonIncreasing(TopPositions(rows))
    ensures DistinctNames(TopPositions(rows))
    ensures forall e :: e in TopPositions(rows) ==> e.name in TokensOf(rows) && e.times == TokenTotal(rows, e.name)
  {
    var sorted := SortByTimes(Tally(rows));
    var top := TopPositions(rows);
    assert top == sorted[..|top|];
    SortedFacts(rows);
    DistinctPrefix(sorted, |top|);
    forall e | e in top ensures e.name in TokensOf(rows) && e.times == TokenTotal(rows, e.name) {
      assert e in sorted;
      var i :| 0 <= i < |sorted| && sorted[i] == e;
      NamesMember(sorted, e.name);
    }
  }

  /** The ranked list really holds the best-counted positions: a position that
      occurs in the rows but did not make the list has a total no larger than
      that of any listed position. */
  lemma TopPositionsAreTheBest(rows: seq<PositionRow>, name: string)
    requires name in TokensOf(rows)
    requires forall e :: e in TopPositions(rows) ==> e.name != name
    ensures forall e :: e in TopPositions(rows) ==> TokenTotal(rows, name) <= e.times
  {
    var sorted := SortByTimes(Tally(rows));
    var top := TopPositions(rows);
    SortedFacts(rows);
    NamesMember(sorted, name);
    var k :| 0 <= k < |sorted| && sorted[k].name == name;
    forall e | e in top ensures TokenTotal(rows, name) <= e.times {
      var i :| 0 <= i < |top| && top[i] == e;
      assert sorted[i] == e;
      NonIncreasingPairwise(sorted, i, k);
      assert sorted[k] in sorted;
    }
  }

  /** `topPosicionesList[0]?.nombre || 'Misionero'`. */
  function DominantPosition(top: seq<Entry>): (name: string)
    ensures name != ""
    ensures |top| > 0 && top[0].name != "" ==> name == top[0].name
    ensures |top| == 0 || top[0].name == "" ==> name == "Misionero"
  {
    if |top| > 0 && top[0].name != "" then top[0].name else "Misionero"
  }

  /** `lugaresFrecuentes[0]?.nombre || 'Hotel'`. */
  function DominantLocation(locations: seq<LocationRow>): (name: string)
    ensures name != ""
    ensures |locations| > 0 && locations[0].name != "" ==> name == locations[0].name
    ensures |locations| == 0 || locations[0].name == "" ==> name == "Hotel"
  {
    if |locations| > 0 && locations[0].name != "" then locations[0].name else "Hotel"
  }

  /** Unless it fell back to the default, the dominant position is a position
      of greatest total count among all positions in the rows. */
  lemma DominantPositionIsMostFrequent(rows: seq<PositionRow>, other: string)
    requires |TopPositions(rows)| > 0 && TopPositions(rows)[0].name != ""
    requires other in TokensOf(rows)
    ensures DominantPosition(TopPositions(rows)) in TokensOf(rows)
    ensures TokenTotal(rows, other) <= TokenTotal(rows, DominantPosition(TopPositions(rows)))
  {
    var top := TopPositions(rows);
    TopPositionsFacts(rows);
    assert top[0] in top;
    if exists i :: 0 <= i < |top| && top[i].name == other {
      var i :| 0 <= i < |top| && top[i].name == other;
      NonIncreasingPairwise(top, 0, i);
      assert top[i] in top;
    } else {
      forall e | e in top ensures e.name != other {
        var i :| 0 <= i < |top| && top[i] == e;
      }
      TopPositionsAreTheBest(rows, other);
    }
  }
}
