/**
 * `bar_chart.py`: `_prepare_data`, which turns a `{position: value}` mapping
 * into the two tuples the bar chart is drawn from.  Every name of
 * `POSITIONS` gets its value (0.0 when missing), names outside `POSITIONS`
 * are dropped, and the pairs are ranked by non-increasing value with the
 * stable `sorted(..., reverse=True)`, ties keeping `POSITIONS` order.
 */
module BarChart {
  import opened Wrappers
  import opened Sorting

  /** `POSITIONS`: the 25 positions, in the order used to fill and to break ties. */
  const Positions: seq<string> := [
    "Goalkeeper",
    "Center Back",
    "Left Center Back",
    "Right Center Back",
    "Left Back",
    "Right Back",
    "Left Wing Back",
    "Right Wing Back",
    "Center Defensive Midfield",
    "Left Defensive Midfield",
    "Right Defensive Midfield",
    "Center Midfield",
    "Left Center Midfield",
    "Right Center Midfield",
    "Left Midfield",
    "Right Midfield",
    "Center Attacking Midfield",
    "Left Attacking Midfield",
    "Right Attacking Midfield",
    "Left Wing",
    "Right Wing",
    "Center Forward",
    "Left Center Forward",
    "Right Center Forward",
    "Secondary Striker"
  ]

  /** The message of the `ValueError` for an empty ranking. */
  const NoPositions := "No positions to plot."

  /** `values.get(position, 0.0)`. */
  function ValueOf(values: map<string, real>, position: string): real
  {
    if position in values then values[position] else 0.0
  }

  function PairPosition(p: (string, real)): string
  {
    p.0
  }

  function PairValue(p: (string, real)): real
  {
    p.1
  }

  /**
   * `{pos: float(values.get(pos, 0.0)) for pos in names}.items()`: one pair
   * per name, in the order of `names` (the names of `POSITIONS` are
   * distinct, so the dictionary keeps all of them).
   */
  function Filled(names: seq<string>, values: map<string, real>): (data: seq<(string, real)>)
    ensures |data| == |names|
    ensures forall i :: 0 <= i < |data| ==> data[i] == (names[i], ValueOf(values, names[i]))
  {
    MapSeq(names, (p: string) => (p, ValueOf(values, p)))
  }

  /** The filled pairs ranked by value, descending, then unzipped; an empty ranking is an error. */
  function Rank(names: seq<string>, values: map<string, real>): Result<(seq<string>, seq<real>), string>
  {
    var sortedData := SortDesc(Filled(names, values), PairValue);
    if sortedData == [] then Failure(NoPositions)
    else Success((MapSeq(sortedData, PairPosition), MapSeq(sortedData, PairValue)))
  }

  /**
   * `_prepare_data(values)`: the pairs of `POSITIONS` ranked by value,
   * descending, and unzipped into the positions and the values; an empty
   * ranking is the `ValueError` "No positions to plot.".
   */
  function PrepareData(values: map<string, real>): Result<(seq<string>, seq<real>), string>
  {
    Rank(Positions, values)
  }

  /** No name occurs twice in `POSITIONS`. */
  lemma PositionsDistinct()
    ensures forall i, j :: 0 <= i < j < |Positions| ==> Positions[i] != Positions[j]
  {
  }

  /** The projection of the filled pairs on their names is the names themselves. */
  lemma FilledNames(names: seq<string>, values: map<string, real>)
    ensures MapSeq(Filled(names, values), PairPosition) == names
  {
  }

  /**
   * `positions` and `vals` rank `names`: as many positions and values as
   * names, the positions a permutation of the names, each value the input
   * value of its position (or 0.0), the values non-increasing.
   */
  predicate Ranked(names: seq<string>, values: map<string, real>, positions: seq<string>, vals: seq<real>)
  {
    && |positions| == |names| && |vals| == |names|
    && multiset(positions) == multiset(names)
    && (forall i :: 0 <= i < |vals| ==> vals[i] == ValueOf(values, positions[i]))
    && (forall i, j :: 0 <= i < j < |vals| ==> vals[i] >= vals[j])
  }

  /** The ranking of non-empty names never fails, and it ranks them. */
  lemma RankMeaning(names: seq<string>, values: map<string, real>)
    requires names != []
    ensures Rank(names, values).Success?
    ensures Ranked(names, values, Rank(names, values).value.0, Rank(names, values).value.1)
  {
    var data := Filled(names, values);
    var sortedData := SortDesc(data, PairValue);
    SortDescPermutes(data, PairValue, PairPosition);
    FilledNames(names, values);
    SortDescPermutation(data, PairValue);
    SortDescNonIncreasing(data, PairValue);
    forall i | 0 <= i < |sortedData|
      ensures sortedData[i].1 == ValueOf(values, sortedData[i].0)
    {
      assert sortedData[i] in multiset(data);
    }
  }

  /**
   * What `_prepare_data` returns: never the error (`POSITIONS` is not
   * empty), and a ranking of `POSITIONS`: 25 positions and 25 values, the
   * positions a permutation of `POSITIONS`, each value the input value of
   * its position or 0.0, the values non-increasing.
   */
  lemma PrepareDataMeaning(values: map<string, real>)
    ensures PrepareData(values).Success?
    ensures Ranked(Positions, values, PrepareData(values).value.0, PrepareData(values).value.1)
  {
    assert PrepareData(values) == Rank(Positions, values);
    RankMeaning(Positions, values);
  }

  /** `len(POSITIONS) == 25`. */
  lemma PositionsCount()
    ensures |Positions| == 25
  {
  }

  /** A ranked name is shown exactly when it is one of the names. */
  lemma RankShows(names: seq<string>, values: map<string, real>, p: string)
    requires names != []
    ensures Rank(names, values).Success? && (p in Rank(names, values).value.0 <==> p in names)
  {
    RankMeaning(names, values);
    var positions := Rank(names, values).value.0;
    assert p in positions <==> p in multiset(positions);
  }

  /** A name is shown exactly when it is one of `POSITIONS`: other input keys are dropped. */
  lemma PrepareDataShows(values: map<string, real>, p: string)
    ensures PrepareData(values).Success? && (p in PrepareData(values).value.0 <==> p in Positions)
  {
    assert PrepareData(values) == Rank(Positions, values);
    RankShows(Positions, values, p);
  }

  /**
   * Input that gives none of the names a value: the names, in their own
   * order (the sort is stable), each with 0.0.
   */
  lemma RankNoValues(names: seq<string>, values: map<string, real>)
    requires names != []
    requires forall p :: p in values ==> p !in names
    ensures Rank(names, values) == Success((names, seq(|names|, _ => 0.0)))
  {
    var data := Filled(names, values);
    assert forall i :: 0 <= i < |data| ==> PairValue(data[i]) == 0.0;
    SortDescSortedUnchanged(data, PairValue);
    FilledNames(names, values);
    assert MapSeq(data, PairValue) == seq(|names|, _ => 0.0);
  }

  /** Input that gives no position a value (an empty mapping, say): 25 zeros, in `POSITIONS` order. */
  lemma PrepareDataNoValues(values: map<string, real>)
    requires forall p :: p in values ==> p !in Positions
    ensures PrepareData(values) == Success((Positions, seq(25, _ => 0.0)))
  {
    RankNoValues(Positions, values);
  }
}
