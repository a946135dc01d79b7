/** The insight sentences of the recommendation engine. Each sentence is
    represented by the data it reports; the wording and the one-decimal
    formatting of ratings are not modelled. */
module Insights {
  import opened Wrappers
  import opened Patterns

  /** A history row as far as the engine reads it: `parseFloat(rating_general)`,
      None when the rating does not parse (a missing rating gives NaN). */
  datatype HistoryRow = HistoryRow(rating: Option<real>)

  datatype Insight =
    | FirstEncounter
    | EncounterCount(count: nat, plural: bool)
    | ExcellentRating(average: real)
    | GoodRating(average: real)
    | FavoriteLocation(name: string, times: int)
    | FavoritePosition(name: string, times: int)
    | BestEncounter(rating: real)

  /** The place of an insight in the list: the sentences are pushed in this
      order, and the first-encounter sentence only ever stands alone. */
  function Rank(i: Insight): nat {
    match i
    case FirstEncounter => 0
    case EncounterCount(_, _) => 1
    case ExcellentRating(_) => 2
    case GoodRating(_) => 2
    case FavoriteLocation(_, _) => 3
    case FavoritePosition(_, _) => 4
    case BestEncounter(_) => 5
  }

  /** The threshold of a "best encounter". */
  const BestRatingThreshold: real := 8.0

  predicate IsBest(row: HistoryRow) {
    row.rating.Some? && row.rating.value >= BestRatingThreshold
  }

  /** `history.find(e => parseFloat(e.rating_general) >= 8)`: the rating of the
      first row rated at least 8. */
  function BestRating(history: seq<HistoryRow>): (r: Option<real>)
    ensures r.None? <==> forall i :: 0 <= i < |history| ==> !IsBest(history[i])
    ensures r.Some? ==> exists i :: 0 <= i < |history| && IsBest(history[i]) && history[i].rating == r &&
                                    forall j :: 0 <= j < i ==> !IsBest(history[j])
  {
    if |history| == 0 then None
    else if IsBest(history[0]) then history[0].rating
    else
      var rest := BestRating(history[1..]);
      assert forall i :: 0 <= i < |history[1..]| ==> history[1..][i] == history[i + 1];
      rest
  }

  /** The rating sentence: excellent above 7, plain above 5, none otherwise. */
  function RatingInsight(average: real): seq<Insight> {
    if average > 7.0 then [ExcellentRating(average)]
    else if average > 5.0 then [GoodRating(average)]
    else []
  }

  /** The favourite-location sentence, from the most frequent location row. */
  function LocationInsight(locations: seq<LocationRow>): seq<Insight> {
    if |locations| > 0 then [FavoriteLocation(DominantLocation(locations), locations[0].times)] else []
  }

  /** The favourite-position sentence, from the best ranked position. */
  function PositionInsight(top: seq<Entry>): seq<Insight> {
    if |top| > 0 then [FavoritePosition(DominantPosition(top), top[0].times)] else []
  }

  /** The best-encounter sentence, from the first row rated 8 or more. */
  function BestInsight(history: seq<HistoryRow>): seq<Insight> {
    match BestRating(history)
    case Some(b) => [BestEncounter(b)]
    case None => []
  }

  /** The sentences the engine reports for the given inputs, each with what
      it carries: with no encounters only the first-encounter sentence;
      otherwise the count, the average rating when above 5 (excellent above
      7), the dominant location with the first location row's count, the
      dominant position with the top entry's count, and the rating of the
      first history row rated 8 or more. */
  predicate Reports(x: Insight, count: nat, ratingAverage: real, locations: seq<LocationRow>,
                    top: seq<Entry>, history: seq<HistoryRow>) {
    if count == 0 then x == FirstEncounter
    else
      || x == EncounterCount(count, count > 1)
      || (ratingAverage > 7.0 && x == ExcellentRating(ratingAverage))
      || (5.0 < ratingAverage <= 7.0 && x == GoodRating(ratingAverage))
      || (|locations| > 0 && x == FavoriteLocation(DominantLocation(locations), locations[0].times))
      || (|top| > 0 && x == FavoritePosition(DominantPosition(top), top[0].times))
      || (BestRating(history).Some? && x == BestEncounter(BestRating(history).value))
  }

  /** The insights for the given aggregate count and average rating, the
      location rows, the ranked positions and the history, one per rank, in
      the push order (`InsightsAreReported` says which). */
  function InsightsFor(count: nat, ratingAverage: real, locations: seq<LocationRow>,
                       top: seq<Entry>, history: seq<HistoryRow>): (r: seq<Insight>)
    ensures 1 <= |r| <= 5
    ensures count == 0 <==> r == [FirstEncounter]
    ensures count > 0 ==> r[0] == EncounterCount(count, count > 1)
    ensures forall i :: 0 < i < |r| ==> Rank(r[i - 1]) < Rank(r[i])
  {
    if count > 0 then
      var r := [EncounterCount(count, count > 1)] + RatingInsight(ratingAverage)
        + LocationInsight(locations) + PositionInsight(top) + BestInsight(history);
      assert r[0] != FirstEncounter;
      r
    else [FirstEncounter]
  }

  /** The list holds exactly the reported sentences; as their ranks strictly
      increase, this fixes the list. */
  lemma InsightsAreReported(count: nat, ratingAverage: real, locations: seq<LocationRow>,
                            top: seq<Entry>, history: seq<HistoryRow>, x: Insight)
    ensures x in InsightsFor(count, ratingAverage, locations, top, history)
        <==> Reports(x, count, ratingAverage, locations, top, history)
  {
    if count > 0 {
      var a := [EncounterCount(count, count > 1)];
      var b := RatingInsight(ratingAverage);
      var c := LocationInsight(locations);
      var d := PositionInsight(top);
      var e := BestInsight(history);
      assert InsightsFor(count, ratingAverage, locations, top, history) == a + b + c + d + e;
      assert x in a + b + c + d + e <==> x in a || x in b || x in c || x in d || x in e;
    }
  }

  /** The ranks of a list of insights, in order. */
  function Ranks(xs: seq<Insight>): (ks: seq<nat>)
    ensures |ks| == |xs|
  {
    if |xs| == 0 then [] else [Rank(xs[0])] + Ranks(xs[1..])
  }

  lemma {:induction false} RanksAppend(xs: seq<Insight>, ys: seq<Insight>)
    ensures Ranks(xs + ys) == Ranks(xs) + Ranks(ys)
  {
    if |xs| > 0 {
      assert (xs + ys)[1..] == xs[1..] + ys;
      RanksAppend(xs[1..], ys);
    } else {
      assert xs + ys == ys;
    }
  }

  /** Some insight of the list has the given rank. */
  predicate HasRank(xs: seq<Insight>, k: nat) {
    k in Ranks(xs)
  }

  /** With encounters, the ranks present are 1 and one rank per sentence
      whose trigger holds. */
  lemma InsightRanks(count: nat, ratingAverage: real, locations: seq<LocationRow>,
                     top: seq<Entry>, history: seq<HistoryRow>, k: nat)
    requires count > 0
    ensures HasRank(InsightsFor(count, ratingAverage, locations, top, history), k) <==>
      || k == 1
      || (k == 2 && ratingAverage > 5.0)
      || (k == 3 && |locations| > 0)
      || (k == 4 && |top| > 0)
      || (k == 5 && BestRating(history).Some?)
  {
    var a := [EncounterCount(count, count > 1)];
    var b := RatingInsight(ratingAverage);
    var c := LocationInsight(locations);
    var d := PositionInsight(top);
    var e := BestInsight(history);
    RanksAppend(a, b);
    RanksAppend(a + b, c);
    RanksAppend(a + b + c, d);
    RanksAppend(a + b + c + d, e);
    var ranks := Ranks(a) + Ranks(b) + Ranks(c) + Ranks(d) + Ranks(e);
    assert k in ranks <==> k in Ranks(a) || k in Ranks(b) || k in Ranks(c) || k in Ranks(d) || k in Ranks(e);
  }

  /** The excellent-rating sentence appears iff there are encounters and the
      average exceeds 7; it is then the second sentence. */
  lemma ExcellentInsight(count: nat, ratingAverage: real, locations: seq<LocationRow>,
                         top: seq<Entry>, history: seq<HistoryRow>)
    ensures var r := InsightsFor(count, ratingAverage, locations, top, history);
      (exists i :: 0 <= i < |r| && r[i].ExcellentRating?) <==> count > 0 && ratingAverage > 7.0
  {
    var r := InsightsFor(count, ratingAverage, locations, top, history);
    if exists i :: 0 <= i < |r| && r[i].ExcellentRating? {
      var i :| 0 <= i < |r| && r[i].ExcellentRating?;
      assert count > 0;
      assert r == [r[0]] + RatingInsight(ratingAverage) + LocationInsight(locations) + PositionInsight(top) + BestInsight(history);
      assert i == 1;
    }
    if count > 0 && ratingAverage > 7.0 {
      assert r[1].ExcellentRating?;
    }
  }

  /** Which sentences appear, each stated as an equivalence with its trigger:
      a rating sentence iff there are encounters and the average exceeds 5
      (the excellent one iff it exceeds 7), a location sentence iff there are
      encounters and location rows, a position sentence iff there are
      encounters and ranked positions, and a best-encounter sentence iff there
      are encounters and some history row is rated 8 or more. Each sentence
      that appears carries its data: the average, the dominant location and
      position with their counts, and the first rating of 8 or more. */
  lemma InsightTriggers(count: nat, ratingAverage: real, locations: seq<LocationRow>,
                        top: seq<Entry>, history: seq<HistoryRow>)
    ensures var r := InsightsFor(count, ratingAverage, locations, top, history);
      && (HasRank(r, 2) <==> count > 0 && ratingAverage > 5.0)
      && ((exists i :: 0 <= i < |r| && r[i].ExcellentRating?) <==> count > 0 && ratingAverage > 7.0)
      && (HasRank(r, 3) <==> count > 0 && |locations| > 0)
      && (HasRank(r, 4) <==> count > 0 && |top| > 0)
      && (HasRank(r, 5) <==> count > 0 && exists i :: 0 <= i < |history| && IsBest(history[i]))
    ensures var r := InsightsFor(count, ratingAverage, locations, top, history);
      && (count > 0 && ratingAverage > 7.0 ==> ExcellentRating(ratingAverage) in r)
      && (count > 0 && 5.0 < ratingAverage <= 7.0 ==> GoodRating(ratingAverage) in r)
      && (count > 0 && |locations| > 0 ==> FavoriteLocation(DominantLocation(locations), locations[0].times) in r)
      && (count > 0 && |top| > 0 ==> FavoritePosition(DominantPosition(top), top[0].times) in r)
      && (count > 0 && BestRating(history).Some? ==> BestEncounter(BestRating(history).value) in r)
  {
    var r := InsightsFor(count, ratingAverage, locations, top, history);
    ExcellentInsight(count, ratingAverage, locations, top, history);
    if count > 0 {
      InsightsAreReported(count, ratingAverage, locations, top, history, ExcellentRating(ratingAverage));
      InsightsAreReported(count, ratingAverage, locations, top, history, GoodRating(ratingAverage));
      if |locations| > 0 {
        InsightsAreReported(count, ratingAverage, locations, top, history,
                            FavoriteLocation(DominantLocation(locations), locations[0].times));
      }
      if |top| > 0 {
        InsightsAreReported(count, ratingAverage, locations, top, history,
                            FavoritePosition(DominantPosition(top), top[0].times));
      }
      if BestRating(history).Some? {
        InsightsAreReported(count, ratingAverage, locations, top, history, BestEncounter(BestRating(history).value));
      }
    }
    if count > 0 {
      InsightRanks(count, ratingAverage, locations, top, history, 2);
      InsightRanks(count, ratingAverage, locations, top, history, 3);
      InsightRanks(count, ratingAverage, locations, top, history, 4);
      InsightRanks(count, ratingAverage, locations, top, history, 5);
    } else {
      assert Ranks(r) == [0];
    }
  }
}
