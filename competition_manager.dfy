/**
 * `competition_manager.py`: the season names a year range stands for, and the
 * selection of `(competition_id, season_id)` pairs from the competition list.
 * The list itself, fetched over HTTP in the original, is a parameter here.
 */
module CompetitionManager {
  import opened Text

  /** One entry of the competition list: a season of a competition. */
  datatype Competition = Competition(competitionId: int, seasonId: int, seasonName: string, competitionName: string)

  /** `f"{year}/{year + 1}"`. */
  function SeasonName(year: int): string
  {
    IntToString(year) + "/" + IntToString(year + 1)
  }

  /** The number of years in `range(start_year, end_year + 1)`. */
  function YearCount(startYear: int, endYear: int): nat
  {
    if startYear <= endYear then endYear - startYear + 1 else 0
  }

  /**
   * `_generate_seasons_and_years`: every season name of the range, then
   * every plain year of the range, both in increasing year order.
   */
  function GenerateSeasonsAndYears(startYear: int, endYear: int): (names: seq<string>)
    ensures |names| == 2 * YearCount(startYear, endYear)
    ensures startYear > endYear ==> names == []
    ensures forall i :: 0 <= i < YearCount(startYear, endYear) ==> names[i] == SeasonName(startYear + i)
    ensures forall j :: YearCount(startYear, endYear) <= j < |names| ==>
      names[j] == IntToString(startYear + (j - YearCount(startYear, endYear)))
  {
    var n := YearCount(startYear, endYear);
    var seasons := seq(n, i requires 0 <= i < n => SeasonName(startYear + i));
    var years := seq(n, i requires 0 <= i < n => IntToString(startYear + i));
    seasons + years
  }

  /** Every name in the list is a season name or a plain year of the range. */
  lemma SeasonNamesSound(startYear: int, endYear: int, i: int)
    requires 0 <= i < |GenerateSeasonsAndYears(startYear, endYear)|
    ensures var name := GenerateSeasonsAndYears(startYear, endYear)[i];
      var n := YearCount(startYear, endYear);
      if i < n then name == SeasonName(startYear + i) && startYear + i <= endYear
      else name == IntToString(startYear + (i - n)) && startYear + (i - n) <= endYear
  {
  }

  /** `name` is the season name or the plain year of `year`. */
  predicate NamesYear(name: string, year: int)
  {
    name == SeasonName(year) || name == IntToString(year)
  }

  /** Every name in the list is the season name or the plain year of a year of the range. */
  lemma GeneratedNameForm(name: string, startYear: int, endYear: int)
    requires name in GenerateSeasonsAndYears(startYear, endYear)
    ensures exists y :: startYear <= y <= endYear && NamesYear(name, y)
  {
    var names := GenerateSeasonsAndYears(startYear, endYear);
    var i :| 0 <= i < |names| && names[i] == name;
    var n := YearCount(startYear, endYear);
    var y := if i < n then startYear + i else startYear + (i - n);
    assert startYear <= y <= endYear && NamesYear(name, y);
  }

  /** Every season name and every plain year of the range is in the list. */
  lemma SeasonNamesComplete(startYear: int, endYear: int, y: int)
    requires startYear <= y <= endYear
    ensures SeasonName(y) in GenerateSeasonsAndYears(startYear, endYear)
    ensures IntToString(y) in GenerateSeasonsAndYears(startYear, endYear)
  {
    var names := GenerateSeasonsAndYears(startYear, endYear);
    var n := YearCount(startYear, endYear);
    assert names[y - startYear] == SeasonName(y);
    assert names[n + (y - startYear)] == IntToString(y);
  }

  /** A season name splits at its `/` into the two years it spans. */
  lemma SeasonNameSplits(year: int)
    ensures SplitOn(SeasonName(year), '/') == [IntToString(year), IntToString(year + 1)]
  {
    var pieces := [IntToString(year), IntToString(year + 1)];
    IntToStringPlain(year);
    IntToStringPlain(year + 1);
    assert pieces[1..] == [IntToString(year + 1)];
    assert JoinWith(pieces, '/') == SeasonName(year);
    SplitJoin(pieces, '/');
  }

  /** Different years give different season names. */
  lemma SeasonNameInjective(a: int, b: int)
    requires a != b
    ensures SeasonName(a) != SeasonName(b)
  {
    SeasonNameSplits(a);
    SeasonNameSplits(b);
    IntToStringDiffer(a, b);
  }

  lemma IntToStringDiffer(a: int, b: int)
    requires a != b
    ensures IntToString(a) != IntToString(b)
  {
    ParseIntToString(a);
    ParseIntToString(b);
  }

  /** A season name is never a plain year: only the former holds a `/`. */
  lemma SeasonNameNotYear(a: int, b: int)
    ensures SeasonName(a) != IntToString(b)
  {
    IntToStringPlain(b);
    assert SeasonName(a)[|IntToString(a)|] == '/';
  }

  /** No name occurs twice in the list. */
  lemma SeasonNamesDistinct(startYear: int, endYear: int, i: int, j: int)
    requires 0 <= i < j < |GenerateSeasonsAndYears(startYear, endYear)|
    ensures GenerateSeasonsAndYears(startYear, endYear)[i] != GenerateSeasonsAndYears(startYear, endYear)[j]
  {
    var n := YearCount(startYear, endYear);
    if j < n {
      SeasonNameInjective(startYear + i, startYear + j);
    } else if i < n {
      DistinctAcrossHalves(startYear, endYear, i, j);
    } else {
      DistinctYears(startYear, endYear, i, j);
    }
  }

  lemma DistinctAcrossHalves(startYear: int, endYear: int, i: int, j: int)
    requires 0 <= i < YearCount(startYear, endYear) <= j < |GenerateSeasonsAndYears(startYear, endYear)|
    ensures GenerateSeasonsAndYears(startYear, endYear)[i] != GenerateSeasonsAndYears(startYear, endYear)[j]
  {
    SlashInSeasonNames(startYear, endYear, i);
    NoSlashInYears(startYear, endYear, j);
  }

  lemma SlashInSeasonNames(startYear: int, endYear: int, i: int)
    requires 0 <= i < YearCount(startYear, endYear)
    ensures '/' in GenerateSeasonsAndYears(startYear, endYear)[i]
  {
    var x := startYear + i;
    assert SeasonName(x)[|IntToString(x)|] == '/';
  }

  lemma NoSlashInYears(startYear: int, endYear: int, j: int)
    requires YearCount(startYear, endYear) <= j < |GenerateSeasonsAndYears(startYear, endYear)|
    ensures '/' !in GenerateSeasonsAndYears(startYear, endYear)[j]
  {
    IntToStringPlain(startYear + (j - YearCount(startYear, endYear)));
  }

  lemma DistinctYears(startYear: int, endYear: int, i: int, j: int)
    requires YearCount(startYear, endYear) <= i < j < |GenerateSeasonsAndYears(startYear, endYear)|
    ensures GenerateSeasonsAndYears(startYear, endYear)[i] != GenerateSeasonsAndYears(startYear, endYear)[j]
  {
    var names := GenerateSeasonsAndYears(startYear, endYear);
    var n := YearCount(startYear, endYear);
    var a, b := startYear + (i - n), startYear + (j - n);
    assert names[i] == IntToString(a);
    assert names[j] == IntToString(b);
    IntToStringDiffer(a, b);
  }

  /** The printed years the examples below use. */
  lemma ExampleYearStrings()
    ensures IntToString(2018) == "2018" && IntToString(2019) == "2019"
    ensures IntToString(2020) == "2020" && IntToString(2021) == "2021"
    ensures IntToString(2022) == "2022"
  {
    assert NatToString(2) == "2";
    assert NatToString(20) == "20";
    assert NatToString(201) == "201";
    assert NatToString(202) == "202";
  }

  /** The single-year test case. */
  lemma SingleYearNames()
    ensures GenerateSeasonsAndYears(2020, 2020) == ["2020/2021", "2020"]
  {
    ExampleYearStrings();
    var names := GenerateSeasonsAndYears(2020, 2020);
    assert names[0] == SeasonName(2020) && names[1] == IntToString(2020);
    assert "2020" + "/" + "2021" == "2020/2021";
  }

  // ---------------------------------------------------------------------------
  // get_competition_seasons
  // ---------------------------------------------------------------------------

  /** The filter condition of `get_competition_seasons`. */
  predicate Wanted(c: Competition, targetCompIds: seq<int>, seasonNames: seq<string>)
  {
    c.competitionId in targetCompIds && c.seasonName in seasonNames
  }

  /** The pairs the filtering loop has appended after reading `comps`. */
  function Filtered(comps: seq<Competition>, targetCompIds: seq<int>, seasonNames: seq<string>): seq<(int, int)>
    decreases |comps|
  {
    if comps == [] then []
    else
      var c := comps[|comps| - 1];
      Filtered(comps[..|comps| - 1], targetCompIds, seasonNames)
        + (if Wanted(c, targetCompIds, seasonNames) then [(c.competitionId, c.seasonId)] else [])
  }

  /**
   * `get_competition_seasons(start_year, end_year, target_comp_ids)` over
   * the competition list `competitions`.
   */
  method GetCompetitionSeasons(startYear: int, endYear: int, targetCompIds: seq<int>, competitions: seq<Competition>)
    returns (filtered: seq<(int, int)>)
    ensures filtered == Filtered(competitions, targetCompIds, GenerateSeasonsAndYears(startYear, endYear))
  {
    var seasonNames := GenerateSeasonsAndYears(startYear, endYear);
    filtered := [];
    var i := 0;
    while i < |competitions|
      invariant 0 <= i <= |competitions|
      invariant filtered == Filtered(competitions[..i], targetCompIds, seasonNames)
    {
      var comp := competitions[i];
      assert competitions[..i + 1][..i] == competitions[..i];
      if comp.competitionId in targetCompIds && comp.seasonName in seasonNames {
        filtered := filtered + [(comp.competitionId, comp.seasonId)];
      }
      i := i + 1;
    }
    assert competitions[..i] == competitions;
  }

  /** Filtering a concatenation filters each part, in order. */
  lemma {:induction false} FilteredAppend(a: seq<Competition>, b: seq<Competition>, ids: seq<int>, names: seq<string>)
    ensures Filtered(a + b, ids, names) == Filtered(a, ids, names) + Filtered(b, ids, names)
    decreases |b|
  {
    if b == [] {
      assert a + b == a;
    } else {
      var front := b[..|b| - 1];
      assert (a + b)[..|a + b| - 1] == a + front;
      assert (a + b)[|a + b| - 1] == b[|b| - 1];
      FilteredAppend(a, front, ids, names);
    }
  }

  /** A pair is returned exactly when some wanted entry carries it. */
  lemma {:induction false} FilteredMembership(comps: seq<Competition>, ids: seq<int>, names: seq<string>, p: (int, int))
    ensures p in Filtered(comps, ids, names) <==>
      exists i :: 0 <= i < |comps| && Wanted(comps[i], ids, names) && p == (comps[i].competitionId, comps[i].seasonId)
    decreases |comps|
  {
    if comps != [] {
      var front := comps[..|comps| - 1];
      FilteredMembership(front, ids, names, p);
      assert forall i :: 0 <= i < |front| ==> front[i] == comps[i];
    }
  }

  /** The result is never longer than the competition list. */
  lemma {:induction false} FilteredLength(comps: seq<Competition>, ids: seq<int>, names: seq<string>)
    ensures |Filtered(comps, ids, names)| <= |comps|
    decreases |comps|
  {
    if comps != [] {
      FilteredLength(comps[..|comps| - 1], ids, names);
    }
  }

  /** With no wanted entry, nothing is returned. */
  lemma {:induction false} FilteredNone(comps: seq<Competition>, ids: seq<int>, names: seq<string>)
    requires forall i :: 0 <= i < |comps| ==> !Wanted(comps[i], ids, names)
    ensures Filtered(comps, ids, names) == []
    decreases |comps|
  {
    if comps != [] {
      FilteredNone(comps[..|comps| - 1], ids, names);
    }
  }

  /** An inverted year range yields no names, hence no pairs, whatever the competitions are. */
  lemma InvertedRangeSelectsNothing(startYear: int, endYear: int, ids: seq<int>, comps: seq<Competition>)
    requires startYear > endYear
    ensures Filtered(comps, ids, GenerateSeasonsAndYears(startYear, endYear)) == []
  {
    FilteredNone(comps, ids, GenerateSeasonsAndYears(startYear, endYear));
  }

  /** The several-years test case: the range 2019 to 2021. */
  lemma ThreeYearNames()
    ensures GenerateSeasonsAndYears(2019, 2021)
      == ["2019/2020", "2020/2021", "2021/2022", "2019", "2020", "2021"]
  {
    ExampleYearStrings();
    var names := GenerateSeasonsAndYears(2019, 2021);
    assert |names| == 6;
    assert "2019" + "/" + "2020" == "2019/2020";
    assert "2020" + "/" + "2021" == "2020/2021";
    assert "2021" + "/" + "2022" == "2021/2022";
    assert names[0] == "2019/2020" && names[1] == "2020/2021" && names[2] == "2021/2022";
    assert names[3] == "2019" && names[4] == "2020" && names[5] == "2021";
    assert names == [names[0], names[1], names[2], names[3], names[4], names[5]];
  }

  /** The names of the range 2019 to 2020, used by the filtering test. */
  lemma TwoYearNames()
    ensures GenerateSeasonsAndYears(2019, 2020) == ["2019/2020", "2020/2021", "2019", "2020"]
  {
    ExampleYearStrings();
    var names := GenerateSeasonsAndYears(2019, 2020);
    assert |names| == 4;
    assert "2019" + "/" + "2020" == "2019/2020";
    assert "2020" + "/" + "2021" == "2020/2021";
    assert names[0] == "2019/2020" && names[1] == "2020/2021";
    assert names[2] == "2019" && names[3] == "2020";
    assert names == [names[0], names[1], names[2], names[3]];
  }

  /**
   * The filtering test: of four entries, the one with an untargeted id and
   * the one whose season lies before the range are dropped.
   */
  lemma FilterExample(comps: seq<Competition>, names: seq<string>)
    requires comps == [Competition(9, 101, "2019/2020", ""), Competition(16, 202, "2020", ""),
                       Competition(999, 303, "2019/2020", ""), Competition(9, 404, "2018/2019", "")]
    requires names == GenerateSeasonsAndYears(2019, 2020)
    ensures Filtered(comps, [9, 16], names) == [(9, 101), (16, 202)]
  {
    TwoYearNames();
    ExampleWanted(comps, names);
    FilteredOfFourWanted(comps, [9, 16], names);
  }

  lemma FilteredOfFourWanted(comps: seq<Competition>, ids: seq<int>, names: seq<string>)
    requires |comps| == 4
    requires Wanted(comps[0], ids, names) && Wanted(comps[1], ids, names)
    requires !Wanted(comps[2], ids, names) && !Wanted(comps[3], ids, names)
    ensures Filtered(comps, ids, names) == [(comps[0].competitionId, comps[0].seasonId), (comps[1].competitionId, comps[1].seasonId)]
  {
    FilteredOfFour(comps, ids, names);
    FilteredSingle(comps[0], ids, names);
    FilteredSingle(comps[1], ids, names);
    FilteredSingle(comps[2], ids, names);
    FilteredSingle(comps[3], ids, names);
  }

  lemma ExampleWanted(comps: seq<Competition>, names: seq<string>)
    requires comps == [Competition(9, 101, "2019/2020", ""), Competition(16, 202, "2020", ""),
                       Competition(999, 303, "2019/2020", ""), Competition(9, 404, "2018/2019", "")]
    requires names == ["2019/2020", "2020/2021", "2019", "2020"]
    ensures Wanted(comps[0], [9, 16], names) && Wanted(comps[1], [9, 16], names)
    ensures !Wanted(comps[2], [9, 16], names) && !Wanted(comps[3], [9, 16], names)
  {
    assert names[0] == "2019/2020" && names[3] == "2020";
    assert "2018/2019"[3] != "2019/2020"[3] && "2018/2019"[3] != "2020/2021"[3];
    assert |"2018/2019"| != |"2019"|;
  }

  lemma FilteredSingle(c: Competition, ids: seq<int>, names: seq<string>)
    ensures Filtered([c], ids, names) == if Wanted(c, ids, names) then [(c.competitionId, c.seasonId)] else []
  {
    assert [c][..0] == [];
  }

  /** `Filtered` of a four-entry list, entry by entry. */
  lemma FilteredOfFour(comps: seq<Competition>, ids: seq<int>, names: seq<string>)
    requires |comps| == 4
    ensures Filtered(comps, ids, names)
         == Filtered([comps[0]], ids, names) + Filtered([comps[1]], ids, names)
          + Filtered([comps[2]], ids, names) + Filtered([comps[3]], ids, names)
  {
    assert comps == [comps[0]] + [comps[1]] + [comps[2]] + [comps[3]];
    FilteredAppend([comps[0]] + [comps[1]] + [comps[2]], [comps[3]], ids, names);
    FilteredAppend([comps[0]] + [comps[1]], [comps[2]], ids, names);
    FilteredAppend([comps[0]], [comps[1]], ids, names);
  }
}
