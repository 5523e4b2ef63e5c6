/**
 * `player_position_stats.py`: the passes-per-minute ranking of positions.
 * The positions arrive as the `items()` of the statistics dictionary, in its
 * insertion order, because the stable sort keeps that order among equal
 * averages.  Averages are exact ratios rather than floats.
 */
module PlayerPositionStats {
  import opened Stats
  import opened Sorting

  /** `passes / minutes`, or `0` when the position has no positive minutes. */
  function Average(t: Totals): (avg: real)
    ensures t.minutes <= 0 ==> avg == 0.0
    ensures t.minutes > 0 ==> avg * t.minutes as real == t.passes as real
  {
    if t.minutes > 0 then t.passes as real / t.minutes as real else 0.0
  }

  /** The sort key of a `(position, average)` pair. */
  function AverageOf(p: (string, real)): real
  {
    p.1
  }

  function PositionOf<T>(p: (string, T)): string
  {
    p.0
  }

  /** The pair appended for one dictionary item. */
  function SummaryPair(item: (string, Totals)): (string, real)
  {
    (item.0, Average(item.1))
  }

  /**
   * `calculate_average_passes(positions)`: one `(position, average)` pair per
   * item, ranked by non-increasing average, ties in input order.
   */
  method CalculateAveragePasses(positions: seq<(string, Totals)>) returns (ranked: seq<(string, real)>)
    ensures ranked == SortDesc(MapSeq(positions, SummaryPair), AverageOf)
    ensures |ranked| == |positions|
    ensures multiset(MapSeq(ranked, PositionOf)) == multiset(MapSeq(positions, PositionOf))
    ensures multiset(ranked) == multiset(MapSeq(positions, SummaryPair))
    ensures NonIncreasing(ranked, AverageOf)
    ensures forall v :: WithKey(ranked, AverageOf, v) == WithKey(MapSeq(positions, SummaryPair), AverageOf, v)
  {
    var summary: seq<(string, real)> := [];
    var i := 0;
    while i < |positions|
      invariant 0 <= i <= |positions|
      invariant summary == MapSeq(positions[..i], SummaryPair)
    {
      var (position, stats) := positions[i];
      var value: real;
      if stats.minutes > 0 {
        value := stats.passes as real / stats.minutes as real;
      } else {
        value := 0.0;
      }
      summary := summary + [(position, value)];
      i := i + 1;
    }
    assert positions[..i] == positions;
    ranked := SortDesc(summary, AverageOf);
    RankingProperties(summary);
    assert MapSeq(summary, PositionOf) == MapSeq(positions, PositionOf);
  }

  /** What the stable descending sort gives the summary list. */
  lemma RankingProperties(summary: seq<(string, real)>)
    ensures |SortDesc(summary, AverageOf)| == |summary|
    ensures multiset(MapSeq(SortDesc(summary, AverageOf), PositionOf)) == multiset(MapSeq(summary, PositionOf))
    ensures multiset(SortDesc(summary, AverageOf)) == multiset(summary)
    ensures NonIncreasing(SortDesc(summary, AverageOf), AverageOf)
    ensures forall v :: WithKey(SortDesc(summary, AverageOf), AverageOf, v) == WithKey(summary, AverageOf, v)
  {
    SortDescPermutes(summary, AverageOf, PositionOf);
    SortDescPermutation(summary, AverageOf);
    SortDescNonIncreasing(summary, AverageOf);
    forall v {
      SortDescStable(summary, AverageOf, v);
    }
  }

  /** A position without minutes ranks with average 0, whatever its passes: `{"CM": 25/0}` gives `[("CM", 0)]`. */
  method ZeroMinutesExample() returns (ranked: seq<(string, real)>)
    ensures ranked == [("CM", 0.0)]
  {
    ranked := CalculateAveragePasses([("CM", Totals(25, 0))]);
    assert MapSeq([("CM", Totals(25, 0))], SummaryPair) == [("CM", 0.0)];
    SortDescSortedUnchanged([("CM", 0.0)], AverageOf);
  }

  /** An empty dictionary ranks to an empty list. */
  method EmptyExample() returns (ranked: seq<(string, real)>)
    ensures ranked == []
  {
    ranked := CalculateAveragePasses([]);
  }
}
