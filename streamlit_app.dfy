/**
 * `streamlit_app.py`: the data-side helpers of the dashboard.  The
 * competition-id text box is parsed into integers, the granular database is
 * filtered by year and competition and summed on the fly, and the summed
 * statistics are turned into table rows ranked by passes per minute.
 */
module StreamlitApp {
  import opened Wrappers
  import opened Stats
  import opened Text
  import opened Sorting
  import opened App
  import opened PlayerPositionStats

  // ---------------------------------------------------------------------------
  // parse_competition_ids
  // ---------------------------------------------------------------------------

  /** The message of the `ValueError` raised for a piece that is not an integer. */
  const InvalidIdFormat := "Invalid ID format. Please use numbers separated by commas."

  /** A piece that takes part in the result: one that is not blank once stripped. */
  predicate Kept(piece: string)
  {
    Strip(piece) != []
  }

  /** A piece that makes `int(x.strip())` raise. */
  predicate Malformed(piece: string)
  {
    Kept(piece) && ParseSigned(Strip(piece)).None?
  }

  /** Every kept piece is an integer. */
  predicate AllIntegers(pieces: seq<string>)
  {
    forall i :: 0 <= i < |pieces| ==> !Malformed(pieces[i])
  }

  /**
   * `[int(x.strip()) for x in pieces if x.strip()]`, with `None` when some
   * kept piece is not an integer (the comprehension then yields no list).
   */
  function ParsePieces(pieces: seq<string>): (r: Option<seq<int>>)
    ensures r.Some? ==> |r.value| <= |pieces|
    decreases |pieces|
  {
    if pieces == [] then Some([])
    else
      var rest := ParsePieces(pieces[1..]);
      var t := Strip(pieces[0]);
      if t == [] then rest
      else
        match ParseSigned(t)
        case None => None
        case Some(v) => if rest.None? then None else Some([v] + rest.value)
  }

  /**
   * `parse_competition_ids(id_string)`: split on `,`, drop blank pieces,
   * parse the rest in order; a piece that is not an integer raises
   * `ValueError` with the message above.
   */
  function ParseCompetitionIds(idString: string): (r: Result<seq<int>, string>)
    ensures r.Failure? <==> !AllIntegers(SplitOn(idString, ','))
    ensures r.Failure? ==> r.error == InvalidIdFormat
    ensures r.Success? ==> |r.value| <= |SplitOn(idString, ',')|
  {
    ParsePiecesDefined(SplitOn(idString, ','));
    match ParsePieces(SplitOn(idString, ','))
    case None => Failure(InvalidIdFormat)
    case Some(ids) => Success(ids)
  }

  /** The comprehension yields a list exactly when every kept piece is an integer. */
  lemma {:induction false} ParsePiecesDefined(pieces: seq<string>)
    ensures ParsePieces(pieces).Some? <==> AllIntegers(pieces)
    decreases |pieces|
  {
    if pieces != [] {
      ParsePiecesDefined(pieces[1..]);
      AllIntegersCons(pieces);
    }
  }

  /** Every kept piece is an integer exactly when the first one is and every later one is. */
  lemma AllIntegersCons(pieces: seq<string>)
    requires pieces != []
    ensures AllIntegers(pieces) <==> !Malformed(pieces[0]) && AllIntegers(pieces[1..])
  {
    assert forall i :: 1 <= i < |pieces| ==> pieces[i] == pieces[1..][i - 1];
  }

  /** The pieces that take part in the result, in their order. */
  function KeptPieces(pieces: seq<string>): (kept: seq<string>)
    ensures |kept| <= |pieces|
    ensures forall i :: 0 <= i < |kept| ==> Kept(kept[i]) && kept[i] in pieces
    ensures forall x :: x in pieces && Kept(x) ==> x in kept
    decreases |pieces|
  {
    if pieces == [] then []
    else if Kept(pieces[0]) then [pieces[0]] + KeptPieces(pieces[1..])
    else KeptPieces(pieces[1..])
  }

  /** A list from the comprehension holds `int()` of each kept piece, in order. */
  lemma {:induction false} ParsePiecesMeaning(pieces: seq<string>)
    requires ParsePieces(pieces).Some?
    ensures |ParsePieces(pieces).value| == |KeptPieces(pieces)|
    ensures forall i :: 0 <= i < |KeptPieces(pieces)| ==>
      ParseInt(KeptPieces(pieces)[i]) == Some(ParsePieces(pieces).value[i])
    decreases |pieces|
  {
    if pieces != [] {
      var ids, rest := ParsePieces(pieces), ParsePieces(pieces[1..]);
      var kept, keptRest := KeptPieces(pieces), KeptPieces(pieces[1..]);
      assert rest.Some?;
      ParsePiecesMeaning(pieces[1..]);
      if Kept(pieces[0]) {
        ParsePiecesMeaningStep(pieces[0], ParseSigned(Strip(pieces[0])).value, keptRest, rest.value);
      } else {
        assert ids == rest && kept == keptRest;
      }
    }
  }

  /** One more kept piece in front adds its value in front. */
  lemma ParsePiecesMeaningStep(piece: string, v: int, kept: seq<string>, ids: seq<int>)
    requires ParseInt(piece) == Some(v)
    requires |ids| == |kept| && forall i :: 0 <= i < |kept| ==> ParseInt(kept[i]) == Some(ids[i])
    ensures var k, r := [piece] + kept, [v] + ids;
      |r| == |k| && forall i :: 0 <= i < |k| ==> ParseInt(k[i]) == Some(r[i])
  {
    var k, r := [piece] + kept, [v] + ids;
    forall i | 0 <= i < |k|
      ensures ParseInt(k[i]) == Some(r[i])
    {
      if i > 0 {
        assert k[i] == kept[i - 1] && r[i] == ids[i - 1];
      }
    }
  }

  /**
   * A successful `parse_competition_ids` is the `int()` of every piece
   * between commas that is not blank, in order.
   */
  lemma ParseCompetitionIdsMeaning(idString: string)
    requires ParseCompetitionIds(idString).Success?
    ensures var kept := KeptPieces(SplitOn(idString, ','));
      var ids := ParseCompetitionIds(idString).value;
      |ids| == |kept| && forall i :: 0 <= i < |kept| ==> ParseInt(kept[i]) == Some(ids[i])
  {
    ParsePiecesMeaning(SplitOn(idString, ','));
  }

  /** Every character of a piece occurs in the joined text. */
  lemma {:induction false} JoinWithContains(pieces: seq<string>, sep: char, i: int, c: char)
    requires 0 <= i < |pieces| && c in pieces[i]
    ensures c in JoinWith(pieces, sep)
    decreases |pieces|
  {
    if i > 0 {
      JoinWithContains(pieces[1..], sep, i - 1, c);
    } else if |pieces| > 1 {
      assert JoinWith(pieces, sep) == pieces[0] + [sep] + JoinWith(pieces[1..], sep);
    }
  }

  /** Pieces that are all blank give the empty list. */
  lemma {:induction false} ParsePiecesBlank(pieces: seq<string>)
    requires forall i :: 0 <= i < |pieces| ==> !Kept(pieces[i])
    ensures ParsePieces(pieces) == Some([])
    decreases |pieces|
  {
    if pieces != [] {
      ParsePiecesBlank(pieces[1..]);
    }
  }

  /** A blank or comma-only string yields `[]`. */
  lemma BlankIdsParseEmpty(idString: string)
    requires forall k :: 0 <= k < |idString| ==> IsSpace(idString[k]) || idString[k] == ','
    ensures ParseCompetitionIds(idString) == Success([])
  {
    var pieces := SplitOn(idString, ',');
    forall i | 0 <= i < |pieces| ensures !Kept(pieces[i]) {
      forall k | 0 <= k < |pieces[i]| ensures IsSpace(pieces[i][k]) {
        JoinWithContains(pieces, ',', i, pieces[i][k]);
      }
    }
    ParsePiecesBlank(pieces);
  }

  /** A printed number is a kept piece that parses back to the number. */
  lemma PrintedPiece(n: int)
    ensures Kept(IntToString(n)) && ParseSigned(Strip(IntToString(n))) == Some(n)
  {
    ParseIntToString(n);
  }

  /** `pieces` are the printed `ids`, one for one. */
  predicate PrintedIds(pieces: seq<string>, ids: seq<int>)
  {
    |pieces| == |ids| && forall i :: 0 <= i < |ids| ==> pieces[i] == IntToString(ids[i])
  }

  /** Printed numbers parse back, in order. */
  lemma {:induction false} ParsePiecesPrinted(pieces: seq<string>, ids: seq<int>)
    requires PrintedIds(pieces, ids)
    ensures ParsePieces(pieces) == Some(ids)
    decreases |ids|
  {
    if ids != [] {
      PrintedIdsTail(pieces, ids);
      ParsePiecesPrinted(pieces[1..], ids[1..]);
      PrintedHead(pieces, ids[0], ids[1..]);
      assert [ids[0]] + ids[1..] == ids;
    }
  }

  lemma PrintedIdsTail(pieces: seq<string>, ids: seq<int>)
    requires ids != [] && PrintedIds(pieces, ids)
    ensures pieces[0] == IntToString(ids[0]) && PrintedIds(pieces[1..], ids[1..])
  {
  }

  /** A printed number in front of pieces that parse to `vs` gives `[v] + vs`. */
  lemma PrintedHead(pieces: seq<string>, v: int, vs: seq<int>)
    requires pieces != [] && pieces[0] == IntToString(v) && ParsePieces(pieces[1..]) == Some(vs)
    ensures ParsePieces(pieces) == Some([v] + vs)
  {
    PrintedPiece(v);
    ParsePiecesCons(pieces, v, vs);
  }

  /** A kept piece that parses to `v`, before pieces that parse to `vs`, gives `[v] + vs`. */
  lemma ParsePiecesCons(pieces: seq<string>, v: int, vs: seq<int>)
    requires pieces != [] && Kept(pieces[0]) && ParseSigned(Strip(pieces[0])) == Some(v)
    requires ParsePieces(pieces[1..]) == Some(vs)
    ensures ParsePieces(pieces) == Some([v] + vs)
  {
  }

  /** `parse_competition_ids(",".join(map(str, ids))) == ids`: printing and parsing are inverse. */
  lemma ParseCompetitionIdsRoundTrip(ids: seq<int>)
    ensures ParseCompetitionIds(JoinWith(MapSeq(ids, IntToString), ',')) == Success(ids)
  {
    var pieces := MapSeq(ids, IntToString);
    if ids == [] {
      assert JoinWith(pieces, ',') == [];
      BlankIdsParseEmpty([]);
    } else {
      forall i | 0 <= i < |pieces| ensures ',' !in pieces[i] {
        IntToStringPlain(ids[i]);
      }
      SplitJoin(pieces, ',');
      ParsePiecesPrinted(pieces, ids);
    }
  }

  /** `"9, 16, 55"` gives `[9, 16, 55]`: the blanks around each id are stripped. */
  lemma ParseCompetitionIdsExample(idString: string)
    requires idString == "9, 16, 55"
    ensures ParseCompetitionIds(idString) == Success([9, 16, 55])
  {
    var pieces := ["9", " 16", " 55"];
    assert JoinWith(pieces, ',') == idString by {
      assert pieces[1..] == [" 16", " 55"];
      assert pieces[1..][1..] == [" 55"];
    }
    SplitJoin(pieces, ',');
    ExamplePiece("9", 9);
    ExamplePiece(" 16", 16);
    ExamplePiece(" 55", 55);
    ParsePiecesOfThree("9", " 16", " 55", 9, 16, 55);
  }

  lemma ParsePiecesOfThree(a: string, b: string, c: string, x: int, y: int, z: int)
    requires Kept(a) && ParseSigned(Strip(a)) == Some(x)
    requires Kept(b) && ParseSigned(Strip(b)) == Some(y)
    requires Kept(c) && ParseSigned(Strip(c)) == Some(z)
    ensures ParsePieces([a, b, c]) == Some([x, y, z])
  {
    var p3 := [c];
    assert p3[1..] == [];
    ParsePiecesCons(p3, z, []);
    var p2 := [b] + p3;
    assert p2[1..] == p3;
    ParsePiecesCons(p2, y, [z] + []);
    var p1 := [a] + p2;
    assert p1[1..] == p2;
    ParsePiecesCons(p1, x, [y] + ([z] + []));
    assert p1 == [a, b, c];
    assert [x] + ([y] + ([z] + [])) == [x, y, z];
  }

  lemma ExamplePiece(piece: string, v: int)
    requires (piece, v) == ("9", 9) || (piece, v) == (" 16", 16) || (piece, v) == (" 55", 55)
    ensures Kept(piece) && ParseSigned(Strip(piece)) == Some(v)
  {
    ExampleYearDigits();
    var t := IntToString(v);
    ExampleStrip(piece, t);
    PrintedParses(t, v);
  }

  lemma ExampleStrip(piece: string, t: string)
    requires (piece, t) == ("9", "9") || (piece, t) == (" 16", "16") || (piece, t) == (" 55", "55")
    ensures Strip(piece) == t
  {
    assert t != [] && !IsSpace(t[0]) && !IsSpace(t[|t| - 1]);
    assert piece == t || piece == " " + t;
    StripPadded(piece, t);
  }

  /** A text without blank ends, alone or after one blank, strips to itself. */
  lemma StripPadded(piece: string, t: string)
    requires t != [] && !IsSpace(t[0]) && !IsSpace(t[|t| - 1])
    requires piece == t || piece == " " + t
    ensures Strip(piece) == t
  {
    StripNoOp(t);
    if piece != t {
      StripLeadingBlank(t);
    }
  }

  lemma PrintedParses(t: string, v: int)
    requires t == IntToString(v)
    ensures t != [] && ParseSigned(t) == Some(v)
  {
    PrintedPiece(v);
    StripNoOp(t);
  }

  lemma ExampleYearDigits()
    ensures IntToString(9) == "9" && IntToString(16) == "16" && IntToString(55) == "55"
  {
    assert NatToString(1) == "1";
    assert NatToString(5) == "5";
  }

  /** A blank in front of a stripped text is stripped too. */
  lemma StripLeadingBlank(t: string)
    requires Strip(t) == t
    ensures Strip(" " + t) == t
  {
    StripSpaceFront(' ', t);
  }

  // ---------------------------------------------------------------------------
  // _filter_and_aggregate_database
  // ---------------------------------------------------------------------------

  /** The filter of the dashboard: year in the inclusive range and a selected competition. */
  predicate Selected(entry: SeasonRecord, startYear: int, endYear: int, selectedCompIds: seq<int>)
  {
    startYear <= entry.meta.year <= endYear && entry.meta.competitionId in selectedCompIds
  }

  /** The entries that pass the filter, in database order. */
  function Matching(database: seq<SeasonRecord>, startYear: int, endYear: int, selectedCompIds: seq<int>): seq<SeasonRecord>
  {
    FlatMap(database, entry => if Selected(entry, startYear, endYear, selectedCompIds) then [entry] else [])
  }

  lemma MatchingPrefix(database: seq<SeasonRecord>, i: int, s: int, e: int, ids: seq<int>)
    requires 0 <= i < |database|
    ensures Matching(database[..i + 1], s, e, ids)
         == Matching(database[..i], s, e, ids) + (if Selected(database[i], s, e, ids) then [database[i]] else [])
  {
    assert database[..i + 1][..i] == database[..i];
  }

  /**
   * `_filter_and_aggregate_database(database, start_year, end_year,
   * selected_comp_ids)`: the sum of the selected seasons' statistics and how
   * many seasons were selected.
   */
  method FilterAndAggregateDatabase(database: seq<SeasonRecord>, startYear: int, endYear: int, selectedCompIds: seq<int>)
    returns (aggregated: StatsMap, processedCount: nat)
    ensures processedCount == |Matching(database, startYear, endYear, selectedCompIds)|
    ensures aggregated == SumInto(EmptyStats(), StatsOf(Matching(database, startYear, endYear, selectedCompIds)))
  {
    var acc := new Accumulator();
    processedCount := 0;
    var i := 0;
    while i < |database|
      invariant 0 <= i <= |database|
      invariant processedCount == |Matching(database[..i], startYear, endYear, selectedCompIds)|
      invariant acc.totals == SumInto(EmptyStats(), StatsOf(Matching(database[..i], startYear, endYear, selectedCompIds)))
    {
      var entry := database[i];
      ghost var done := Matching(database[..i], startYear, endYear, selectedCompIds);
      MatchingPrefix(database, i, startYear, endYear, selectedCompIds);
      var meta := entry.meta;
      if startYear <= meta.year <= endYear && meta.competitionId in selectedCompIds {
        processedCount := processedCount + 1;
        var seasonStats := entry.stats;
        assert StatsOf(done + [entry]) == StatsOf(done) + [seasonStats];
        SumIntoSnoc(EmptyStats(), StatsOf(done), seasonStats);
        acc.AddPositions(seasonStats);
        assert Matching(database[..i + 1], startYear, endYear, selectedCompIds) == done + [entry];
      } else {
        assert Matching(database[..i + 1], startYear, endYear, selectedCompIds) == done + [];
        assert done + [] == done;
      }
      i := i + 1;
    }
    assert database[..i] == database;
    aggregated := acc.totals;
  }

  /** An entry is counted exactly when it is in the database and passes the filter. */
  lemma MatchingMembership(database: seq<SeasonRecord>, s: int, e: int, ids: seq<int>, entry: SeasonRecord)
    ensures entry in Matching(database, s, e, ids) <==> entry in database && Selected(entry, s, e, ids)
  {
    FlatMapMembership(database, x => if Selected(x, s, e, ids) then [x] else [], entry);
  }

  /** The count never exceeds the number of stored seasons. */
  lemma {:induction false} MatchingLength(database: seq<SeasonRecord>, s: int, e: int, ids: seq<int>)
    ensures |Matching(database, s, e, ids)| <= |database|
    decreases |database|
  {
    if database != [] {
      MatchingLength(database[..|database| - 1], s, e, ids);
    }
  }

  /** When every season passes the filter, the dashboard shows the offline aggregate of `app.py`. */
  lemma {:induction false} MatchingEverything(database: seq<SeasonRecord>, s: int, e: int, ids: seq<int>)
    requires forall i :: 0 <= i < |database| ==> Selected(database[i], s, e, ids)
    ensures Matching(database, s, e, ids) == database
    decreases |database|
  {
    if database != [] {
      var front := database[..|database| - 1];
      MatchingEverything(front, s, e, ids);
      assert front + [database[|database| - 1]] == database;
    }
  }

  /** No season selected: nothing to show, and the count is 0. */
  lemma {:induction false} MatchingNothing(database: seq<SeasonRecord>, s: int, e: int, ids: seq<int>)
    requires forall i :: 0 <= i < |database| ==> !Selected(database[i], s, e, ids)
    ensures Matching(database, s, e, ids) == []
    ensures SumInto(EmptyStats(), StatsOf(Matching(database, s, e, ids))) == map[]
    decreases |database|
  {
    if database != [] {
      MatchingNothing(database[..|database| - 1], s, e, ids);
    }
    assert StatsOf([]) == [];
  }

  /**
   * The database of the docstring example: CM 100/200 in 2020 and CM 50/100
   * with ST 30/80 in 2021, both of competition 9, and CM 70/150 in 2019 of
   * competition 7.
   */
  function ExampleDatabase(): seq<SeasonRecord>
  {
    [ SeasonRecord(SeasonMeta(9, 0, "", "", 2020), map["CM" := Totals(100, 200)]),
      SeasonRecord(SeasonMeta(9, 0, "", "", 2021), map["CM" := Totals(50, 100), "ST" := Totals(30, 80)]),
      SeasonRecord(SeasonMeta(7, 0, "", "", 2019), map["CM" := Totals(70, 150)]) ]
  }

  /**
   * The docstring example of `_filter_and_aggregate_database`: the years
   * 2020 to 2021 of competition 9 select two seasons, CM 150/300 and ST 30/80.
   */
  method DatabaseExample(database: seq<SeasonRecord>) returns (aggregated: StatsMap, processedCount: nat)
    requires database == ExampleDatabase()
    ensures processedCount == 2
    ensures aggregated.Keys == {"CM", "ST"}
    ensures Get(aggregated, "CM") == Totals(150, 300) && Get(aggregated, "ST") == Totals(30, 80)
  {
    aggregated, processedCount := FilterAndAggregateDatabase(database, 2020, 2021, [9]);
    ExampleDatabaseMatching(database);
    var a, b := database[0].stats, database[1].stats;
    assert StatsOf([database[0], database[1]]) == [a, b];
    SumOfTwo(a, b, "CM");
    SumOfTwo(a, b, "ST");
    ExampleSeasonReads(a, b);
  }

  /** The filter keeps the first two seasons of the example, in order. */
  lemma ExampleDatabaseMatching(database: seq<SeasonRecord>)
    requires database == ExampleDatabase()
    ensures Matching(database, 2020, 2021, [9]) == [database[0], database[1]]
  {
    assert Selected(database[0], 2020, 2021, [9]);
    assert Selected(database[1], 2020, 2021, [9]);
    assert !Selected(database[2], 2020, 2021, [9]);
    assert database[..0] == [];
    MatchingPrefix(database, 0, 2020, 2021, [9]);
    MatchingPrefix(database, 1, 2020, 2021, [9]);
    MatchingPrefix(database, 2, 2020, 2021, [9]);
    assert database[..3] == database;
  }

  /** Two seasons summed from nothing: their keys, and the elementwise sum at `pos`. */
  lemma SumOfTwo(a: StatsMap, b: StatsMap, pos: string)
    ensures SumInto(EmptyStats(), [a, b]).Keys == a.Keys + b.Keys
    ensures Get(SumInto(EmptyStats(), [a, b]), pos) == Plus(Get(a, pos), Get(b, pos))
  {
    SumOfTwoUnfolds(a, b);
  }

  lemma SumOfTwoUnfolds(a: StatsMap, b: StatsMap)
    ensures SumInto(EmptyStats(), [a, b]) == Combine(Combine(EmptyStats(), a), b)
  {
    var e := EmptyStats();
    assert [a, b] == [a] + [b] && [a] == [] + [a];
    SumIntoSnoc(e, [], a);
    SumIntoSnoc(e, [a], b);
  }

  lemma ExampleSeasonReads(a: StatsMap, b: StatsMap)
    requires a == map["CM" := Totals(100, 200)]
    requires b == map["CM" := Totals(50, 100), "ST" := Totals(30, 80)]
    ensures a.Keys + b.Keys == {"CM", "ST"}
    ensures Plus(Get(a, "CM"), Get(b, "CM")) == Totals(150, 300)
    ensures Plus(Get(a, "ST"), Get(b, "ST")) == Totals(30, 80)
  {
  }

  // ---------------------------------------------------------------------------
  // prepare_table_data
  // ---------------------------------------------------------------------------

  /** One row of the data table: position, total passes, total minutes, passes per minute. */
  datatype Row = Row(position: string, passes: int, minutes: int, average: real)

  /** The row built for one dictionary item. */
  function RowOf(item: (string, Totals)): (row: Row)
    ensures row.position == item.0 && row.passes == item.1.passes && row.minutes == item.1.minutes
    ensures item.1.minutes > 0 ==> row.average * item.1.minutes as real == item.1.passes as real
    ensures item.1.minutes <= 0 ==> row.average == 0.0
  {
    Row(item.0, item.1.passes, item.1.minutes, Average(item.1))
  }

  function RowAverage(row: Row): real
  {
    row.average
  }

  /**
   * `prepare_table_data(processed_data)`: one row per item, then
   * `list.sort(key=average, reverse=True)`: ranked by non-increasing
   * average, ties in input order.
   */
  method PrepareTableData(processedData: seq<(string, Totals)>) returns (rows: seq<Row>)
    ensures rows == SortDesc(MapSeq(processedData, RowOf), RowAverage)
    ensures |rows| == |processedData|
    ensures multiset(rows) == multiset(MapSeq(processedData, RowOf))
    ensures NonIncreasing(rows, RowAverage)
    ensures forall v :: WithKey(rows, RowAverage, v) == WithKey(MapSeq(processedData, RowOf), RowAverage, v)
  {
    rows := [];
    var i := 0;
    while i < |processedData|
      invariant 0 <= i <= |processedData|
      invariant rows == MapSeq(processedData[..i], RowOf)
    {
      var (positionName, statistics) := processedData[i];
      var averagePasses := if statistics.minutes > 0 then statistics.passes as real / statistics.minutes as real else 0.0;
      rows := rows + [Row(positionName, statistics.passes, statistics.minutes, averagePasses)];
      i := i + 1;
    }
    assert processedData[..i] == processedData;
    ghost var unsorted := rows;
    rows := SortDesc(rows, RowAverage);
    SortDescPermutes(unsorted, RowAverage, (r: Row) => r);
    SortDescPermutation(unsorted, RowAverage);
    SortDescNonIncreasing(unsorted, RowAverage);
    forall v {
      SortDescStable(unsorted, RowAverage, v);
    }
  }

  /**
   * The docstring example: CM 100/200 and ST 50/100 tie at 0.5 and keep
   * their order, GK 10/200 (0.05) comes last.
   */
  method TableExample() returns (rows: seq<Row>)
    ensures rows == [Row("CM", 100, 200, 0.5), Row("ST", 50, 100, 0.5), Row("GK", 10, 200, 0.05)]
  {
    var processed := [("CM", Totals(100, 200)), ("ST", Totals(50, 100)), ("GK", Totals(10, 200))];
    rows := PrepareTableData(processed);
    var expected := [Row("CM", 100, 200, 0.5), Row("ST", 50, 100, 0.5), Row("GK", 10, 200, 0.05)];
    ExampleRows(processed, expected);
    ExampleRowsRanked(expected);
  }

  lemma ExampleRows(processed: seq<(string, Totals)>, expected: seq<Row>)
    requires processed == [("CM", Totals(100, 200)), ("ST", Totals(50, 100)), ("GK", Totals(10, 200))]
    requires expected == [Row("CM", 100, 200, 0.5), Row("ST", 50, 100, 0.5), Row("GK", 10, 200, 0.05)]
    ensures MapSeq(processed, RowOf) == expected
  {
  }

  lemma ExampleRowsRanked(expected: seq<Row>)
    requires expected == [Row("CM", 100, 200, 0.5), Row("ST", 50, 100, 0.5), Row("GK", 10, 200, 0.05)]
    ensures SortDesc(expected, RowAverage) == expected
  {
    assert NonIncreasing(expected, RowAverage);
    SortDescSortedUnchanged(expected, RowAverage);
  }
}
