/**
 * `app.py`: which seasons the offline database is built from, and how the
 * finished database is flattened into one statistics map.  The competition
 * list is a parameter (`None` stands for a failed fetch); the database is a
 * list of season records, as `build_granular_database` writes them.
 */
module App {
  import opened Wrappers
  import opened Stats
  import opened Text
  import opened CompetitionManager
  import opened Sorting

  /** The metadata kept for a selected season: the competition entry's fields plus the parsed year. */
  datatype SeasonMeta = SeasonMeta(competitionId: int, seasonId: int, seasonName: string, competitionName: string, year: int)

  /** One entry of the granular database: `{"meta": ..., "stats": ...}`. */
  datatype SeasonRecord = SeasonRecord(meta: SeasonMeta, stats: StatsMap)

  // ---------------------------------------------------------------------------
  // fetch_and_filter_seasons
  // ---------------------------------------------------------------------------

  /**
   * `season_name.split("/")[0] if "/" in season_name else season_name`: the
   * text before the first `/`, or the whole name when it has none.
   */
  function YearText(seasonName: string): (t: string)
    ensures |t| <= |seasonName| && seasonName[..|t|] == t && '/' !in t
    ensures |t| == |seasonName| || seasonName[|t|] == '/'
  {
    SplitFirst(seasonName, '/');
    if '/' in seasonName then SplitOn(seasonName, '/')[0] else seasonName
  }

  /** `int(year_str)`, with `None` for the `ValueError` that skips the entry. */
  function YearOf(seasonName: string): Option<int>
  {
    ParseInt(YearText(seasonName))
  }

  /** The criterion an entry with a parsed year must meet. */
  predicate InRange(competitionId: int, year: int, startYear: int, endYear: int, targetIds: seq<int>)
  {
    competitionId in targetIds && startYear <= year <= endYear
  }

  function MetaOf(c: Competition, year: int): SeasonMeta
  {
    SeasonMeta(c.competitionId, c.seasonId, c.seasonName, c.competitionName, year)
  }

  /** What the loop appends for one competition entry. */
  function Selection(c: Competition, startYear: int, endYear: int, targetIds: seq<int>): seq<SeasonMeta>
  {
    match YearOf(c.seasonName)
    case None => []
    case Some(year) => if InRange(c.competitionId, year, startYear, endYear, targetIds) then [MetaOf(c, year)] else []
  }

  /** `xs` mapped through `f` and flattened: what a loop appending `f(x)` for each `x` builds. */
  function FlatMap<T, U>(xs: seq<T>, f: T -> seq<U>): seq<U>
    decreases |xs|
  {
    if xs == [] then [] else FlatMap(xs[..|xs| - 1], f) + f(xs[|xs| - 1])
  }

  lemma {:induction false} FlatMapAppend<T, U>(a: seq<T>, b: seq<T>, f: T -> seq<U>)
    ensures FlatMap(a + b, f) == FlatMap(a, f) + FlatMap(b, f)
    decreases |b|
  {
    if b == [] {
      assert a + b == a;
    } else {
      var front := b[..|b| - 1];
      assert (a + b)[..|a + b| - 1] == a + front;
      assert (a + b)[|a + b| - 1] == b[|b| - 1];
      FlatMapAppend(a, front, f);
    }
  }

  lemma {:induction false} FlatMapMembership<T, U>(xs: seq<T>, f: T -> seq<U>, m: U)
    ensures m in FlatMap(xs, f) <==> exists i :: 0 <= i < |xs| && m in f(xs[i])
    decreases |xs|
  {
    if xs != [] {
      var front := xs[..|xs| - 1];
      FlatMapMembership(front, f, m);
      assert forall i :: 0 <= i < |front| ==> front[i] == xs[i];
    }
  }

  /** The `tasks_metadata` list after reading `comps`. */
  function SeasonsSelected(comps: seq<Competition>, startYear: int, endYear: int, targetIds: seq<int>): seq<SeasonMeta>
  {
    FlatMap(comps, c => Selection(c, startYear, endYear, targetIds))
  }

  /** `fetch_and_filter_seasons(start_year, end_year, target_ids)` with the fetch result as input. */
  method FetchAndFilterSeasons(startYear: int, endYear: int, targetIds: seq<int>, fetched: Option<seq<Competition>>)
    returns (tasks: seq<SeasonMeta>)
    ensures fetched.None? ==> tasks == []
    ensures fetched.Some? ==> tasks == SeasonsSelected(fetched.value, startYear, endYear, targetIds)
  {
    if fetched.None? {
      return [];
    }
    var all := fetched.value;
    tasks := [];
    var i := 0;
    while i < |all|
      invariant 0 <= i <= |all|
      invariant tasks == SeasonsSelected(all[..i], startYear, endYear, targetIds)
    {
      var kept := SelectSeason(all[i], startYear, endYear, targetIds);
      tasks := tasks + kept;
      SeasonsSelectedPrefix(all, i, startYear, endYear, targetIds);
      i := i + 1;
    }
    assert all[..i] == all;
  }

  /**
   * The body of the loop for one entry: parse the year, skip the entry on a
   * `ValueError`, keep it with its year when it meets the criterion.
   */
  method SelectSeason(comp: Competition, startYear: int, endYear: int, targetIds: seq<int>) returns (kept: seq<SeasonMeta>)
    ensures |kept| <= 1
    ensures kept != [] <==> YearOf(comp.seasonName).Some?
                            && InRange(comp.competitionId, YearOf(comp.seasonName).value, startYear, endYear, targetIds)
    ensures kept == Selection(comp, startYear, endYear, targetIds)
  {
    kept := [];
    var seasonName := comp.seasonName;
    var yearStr := if '/' in seasonName then SplitOn(seasonName, '/')[0] else seasonName;
    var parsed := ParseInt(yearStr);
    if parsed.None? {
      return;
    }
    var year := parsed.value;
    if comp.competitionId in targetIds && startYear <= year <= endYear {
      kept := [SeasonMeta(comp.competitionId, comp.seasonId, seasonName, comp.competitionName, year)];
    }
  }

  /** One more entry read by the loop appends its selection. */
  lemma SeasonsSelectedPrefix(all: seq<Competition>, i: int, s: int, e: int, ids: seq<int>)
    requires 0 <= i < |all|
    ensures SeasonsSelected(all[..i + 1], s, e, ids) == SeasonsSelected(all[..i], s, e, ids) + Selection(all[i], s, e, ids)
  {
    assert all[..i + 1][..i] == all[..i];
  }

  /** Selection distributes over concatenation, so kept entries stay in input order. */
  lemma SeasonsSelectedAppend(a: seq<Competition>, b: seq<Competition>, s: int, e: int, ids: seq<int>)
    ensures SeasonsSelected(a + b, s, e, ids) == SeasonsSelected(a, s, e, ids) + SeasonsSelected(b, s, e, ids)
  {
    FlatMapAppend(a, b, c => Selection(c, s, e, ids));
  }

  /** What one entry contributes: its metadata exactly when its year parses and meets the criterion. */
  predicate Keeps(c: Competition, s: int, e: int, ids: seq<int>, m: SeasonMeta)
  {
    YearOf(c.seasonName).Some?
    && InRange(c.competitionId, YearOf(c.seasonName).value, s, e, ids)
    && m == MetaOf(c, YearOf(c.seasonName).value)
  }

  lemma SelectionMeaning(c: Competition, s: int, e: int, ids: seq<int>, m: SeasonMeta)
    ensures m in Selection(c, s, e, ids) <==> Keeps(c, s, e, ids, m)
  {
  }

  /**
   * A season is kept exactly when its year parses, its competition is a
   * target and its year is in range; it is kept with its fields and year.
   */
  lemma SeasonsSelectedMembership(comps: seq<Competition>, s: int, e: int, ids: seq<int>, m: SeasonMeta)
    ensures m in SeasonsSelected(comps, s, e, ids) <==> exists i :: 0 <= i < |comps| && Keeps(comps[i], s, e, ids, m)
  {
    FlatMapMembership(comps, c => Selection(c, s, e, ids), m);
    forall i | 0 <= i < |comps| {
      SelectionMeaning(comps[i], s, e, ids, m);
    }
  }

  /** An entry whose year does not parse is skipped, and the rest of the call goes on. */
  lemma UnparsableSkipped(a: seq<Competition>, c: Competition, b: seq<Competition>, s: int, e: int, ids: seq<int>)
    requires YearOf(c.seasonName).None?
    ensures SeasonsSelected(a + [c] + b, s, e, ids) == SeasonsSelected(a, s, e, ids) + SeasonsSelected(b, s, e, ids)
  {
    var ac := a + [c];
    SeasonsSelectedAppend(ac, b, s, e, ids);
    SeasonsSelectedAppend(a, [c], s, e, ids);
    UnparsableSelectsNothing(c, s, e, ids);
  }

  lemma UnparsableSelectsNothing(c: Competition, s: int, e: int, ids: seq<int>)
    requires YearOf(c.seasonName).None?
    ensures SeasonsSelected([c], s, e, ids) == []
  {
    SeasonsSelectedSingle(c, s, e, ids);
  }

  lemma SeasonsSelectedSingle(c: Competition, s: int, e: int, ids: seq<int>)
    ensures SeasonsSelected([c], s, e, ids) == Selection(c, s, e, ids)
  {
    var f := (x: Competition) => Selection(x, s, e, ids);
    assert [c][..0] == [];
    assert FlatMap([c], f) == FlatMap([], f) + f(c);
  }

  /** `"2018/2019"` is read as 2018. */
  lemma YearOfSeasonExample(name: string)
    requires name == "2018/2019"
    ensures YearOf(name) == Some(2018)
  {
    ExampleYearStrings();
    assert SeasonName(2018) == name;
    SeasonYear(2018, name);
  }

  /** `"2018"` is read as 2018. */
  lemma YearOfPlainExample(name: string)
    requires name == "2018"
    ensures YearOf(name) == Some(2018)
  {
    ExampleYearStrings();
    PlainYear(2018, name);
  }

  /** `"Season"` has no year, so its entry is skipped. */
  lemma YearOfUnparsableExample()
    ensures YearOf("Season") == None
  {
    assert '/' !in "Season";
    assert YearText("Season") == "Season";
    assert !IsSpace('S') && !IsSpace('n');
    assert StripLeft("Season") == "Season";
    assert StripRight("Season") == "Season";
    assert !IsDigit('S');
  }

  /** A season name yields its first year. */
  lemma SeasonYear(year: int, name: string)
    requires name == SeasonName(year)
    ensures YearOf(name) == Some(year)
  {
    SeasonNameSplits(year);
    assert name[|IntToString(year)|] == '/';
    ParseIntToString(year);
  }

  /** A plain year yields itself. */
  lemma PlainYear(year: int, name: string)
    requires name == IntToString(year)
    ensures YearOf(name) == Some(year)
  {
    IntToStringPlain(year);
    ParseIntToString(year);
  }

  /**
   * The two selections agree on what the season manager selects: every entry
   * `get_competition_seasons` would keep for a range is also kept here, with
   * its year in that range.
   */
  lemma ManagerSelectionKept(c: Competition, s: int, e: int, ids: seq<int>)
    requires Wanted(c, ids, GenerateSeasonsAndYears(s, e))
    ensures YearOf(c.seasonName).Some? && InRange(c.competitionId, YearOf(c.seasonName).value, s, e, ids)
    ensures Selection(c, s, e, ids) == [MetaOf(c, YearOf(c.seasonName).value)]
  {
    GeneratedNameYear(c.seasonName, s, e);
    SelectionKept(c, YearOf(c.seasonName).value, s, e, ids);
  }

  /** Every generated name, season or plain year, reads back as a year of the range. */
  lemma GeneratedNameYear(name: string, s: int, e: int)
    requires name in GenerateSeasonsAndYears(s, e)
    ensures YearOf(name).Some? && s <= YearOf(name).value <= e
  {
    GeneratedNameForm(name, s, e);
    var y :| s <= y <= e && NamesYear(name, y);
    KnownYear(name, y);
  }

  /** A season name or a plain year reads back as its year. */
  lemma KnownYear(name: string, y: int)
    requires name == SeasonName(y) || name == IntToString(y)
    ensures YearOf(name) == Some(y)
  {
    if name == SeasonName(y) {
      SeasonYear(y, name);
    } else {
      PlainYear(y, name);
    }
  }

  lemma SelectionKept(c: Competition, y: int, s: int, e: int, ids: seq<int>)
    requires YearOf(c.seasonName) == Some(y) && InRange(c.competitionId, y, s, e, ids)
    ensures Selection(c, s, e, ids) == [MetaOf(c, y)]
  {
  }

  // ---------------------------------------------------------------------------
  // aggregate_statistics
  // ---------------------------------------------------------------------------

  /** `[entry["stats"] for entry in database]`. */
  function StatsOf(db: seq<SeasonRecord>): (ps: seq<StatsMap>)
    ensures |ps| == |db| && forall i :: 0 <= i < |db| ==> ps[i] == db[i].stats
  {
    seq(|db|, i requires 0 <= i < |db| => db[i].stats)
  }

  /** `aggregate_statistics(database)`: every season's map added into one `defaultdict`. */
  method AggregateStatistics(database: seq<SeasonRecord>) returns (aggregated: StatsMap)
    ensures aggregated == SumInto(EmptyStats(), StatsOf(database))
  {
    var acc := new Accumulator();
    var i := 0;
    while i < |database|
      invariant 0 <= i <= |database|
      invariant acc.totals == SumInto(EmptyStats(), StatsOf(database[..i]))
    {
      assert StatsOf(database[..i + 1]) == StatsOf(database[..i]) + [database[i].stats];
      SumIntoSnoc(EmptyStats(), StatsOf(database[..i]), database[i].stats);
      acc.AddPositions(database[i].stats);
      i := i + 1;
    }
    assert database[..i] == database;
    aggregated := acc.totals;
  }

  /**
   * Each position gets the sum of its passes and the sum of its minutes over
   * all entries, and exactly the positions some entry has appear.
   */
  lemma AggregateMeaning(database: seq<SeasonRecord>, pos: string)
    ensures SumInto(EmptyStats(), StatsOf(database)).Keys == KeysOf(StatsOf(database))
    ensures Get(SumInto(EmptyStats(), StatsOf(database)), pos) == SumAt(StatsOf(database), pos)
  {
    SumIntoMeaning(EmptyStats(), StatsOf(database));
  }

  /** An empty database aggregates to an empty map. */
  lemma AggregateEmpty()
    ensures SumInto(EmptyStats(), StatsOf([])) == map[]
  {
    assert StatsOf([]) == [];
  }

  /** The order in which seasons finished, and so were stored, does not matter. */
  lemma AggregateAnyOrder(db1: seq<SeasonRecord>, db2: seq<SeasonRecord>)
    requires multiset(db1) == multiset(db2)
    ensures SumInto(EmptyStats(), StatsOf(db1)) == SumInto(EmptyStats(), StatsOf(db2))
  {
    StatsOfPermutes(db1, db2);
    SumIntoAnyOrder(EmptyStats(), StatsOf(db1), StatsOf(db2));
  }

  lemma StatsOfPermutes(db1: seq<SeasonRecord>, db2: seq<SeasonRecord>)
    requires multiset(db1) == multiset(db2)
    ensures multiset(StatsOf(db1)) == multiset(StatsOf(db2))
  {
    var stats := (r: SeasonRecord) => r.stats;
    MapSeqPermutes(db1, db2, stats);
    assert StatsOf(db1) == MapSeq(db1, stats);
    assert StatsOf(db2) == MapSeq(db2, stats);
  }
}
