/**
 * The bookkeeping of `competition_processor.py` around the thread pool: the
 * match ids read from a season's match list, the per-match retry counter of
 * `_handle_error_or_retry`, and the summing of per-match position maps into
 * the competition's totals (`Stats.Accumulator.AddPositions`, which is
 * `_aggregate_positions`).  The executor is abstracted away: a submitted
 * future is the match id it was submitted for, appended to `pending`.
 */
module CompetitionProcessing {
  import opened Wrappers
  import opened Stats
  import opened Text

  /** `MAX_MATCH_RETRIES`. */
  const MaxMatchRetries: nat := 3

  // ---------------------------------------------------------------------------
  // _extract_match_ids
  // ---------------------------------------------------------------------------

  /** One record of a season's match list; only `match_id` is read, and it may be missing. */
  datatype MatchSummary = MatchSummary(matchId: Option<int>)

  /**
   * `[match["match_id"] for match in matches]`: one id per match in input
   * order, or the `KeyError` of the first record without one.
   */
  function ExtractMatchIds(matches: seq<MatchSummary>): (r: Result<seq<int>, string>)
    ensures r.Success? <==> forall i :: 0 <= i < |matches| ==> matches[i].matchId.Some?
    ensures r.Success? ==> |r.value| == |matches|
    ensures r.Success? ==> forall i :: 0 <= i < |matches| ==> r.value[i] == matches[i].matchId.value
    ensures r.Failure? ==> r.error == "match_id"
    decreases |matches|
  {
    if matches == [] then Success([])
    else if matches[0].matchId.None? then Failure("match_id")
    else
      match ExtractMatchIds(matches[1..])
      case Failure(e) => Failure(e)
      case Success(rest) =>
        assert forall i :: 1 <= i < |matches| ==> matches[i] == matches[1..][i - 1];
        Success([matches[0].matchId.value] + rest)
  }

  /** Extraction distributes over concatenation of match lists. */
  lemma {:induction false} ExtractMatchIdsAppend(a: seq<MatchSummary>, b: seq<MatchSummary>)
    requires ExtractMatchIds(a).Success? && ExtractMatchIds(b).Success?
    ensures ExtractMatchIds(a + b) == Success(ExtractMatchIds(a).value + ExtractMatchIds(b).value)
  {
    var r := ExtractMatchIds(a + b);
    assert forall i :: 0 <= i < |a + b| ==> (a + b)[i].matchId.Some? by {
      forall i | 0 <= i < |a + b| ensures (a + b)[i].matchId.Some? {
        if i < |a| { assert (a + b)[i] == a[i]; } else { assert (a + b)[i] == b[i - |a|]; }
      }
    }
    assert r.value == ExtractMatchIds(a).value + ExtractMatchIds(b).value;
  }

  /** The two cases of the extraction test: ids come back in order, and no matches give no ids. */
  lemma ExtractMatchIdsExamples()
    ensures ExtractMatchIds([MatchSummary(Some(10)), MatchSummary(Some(11))]) == Success([10, 11])
    ensures ExtractMatchIds([]) == Success([])
  {
    var ms := [MatchSummary(Some(10)), MatchSummary(Some(11))];
    var r := ExtractMatchIds(ms);
    assert ms[0].matchId.Some? && ms[1].matchId.Some?;
    assert r.Success? && |r.value| == 2;
    assert r.value[0] == 10 && r.value[1] == 11;
    assert r.value == [10, 11];
  }

  // ---------------------------------------------------------------------------
  // _aggregate_positions: Stats.Accumulator.AddPositions
  // ---------------------------------------------------------------------------

  /** The aggregation test: two partial maps added into a fresh `_empty_stats()`. */
  method AggregatePositionsExample(partialA: StatsMap, partialB: StatsMap) returns (gk: Totals, cb: Totals, lb: Totals)
    requires partialA == map["GK" := Totals(5, 90), "CB" := Totals(10, 90)]
    requires partialB == map["GK" := Totals(2, 45), "LB" := Totals(3, 30)]
    ensures gk == Totals(7, 135) && cb == Totals(10, 90) && lb == Totals(3, 30)
  {
    var total := new Accumulator();
    total.AddPositions(partialA);
    total.AddPositions(partialB);
    var t := total.totals;
    assert t == Combine(Combine(EmptyStats(), partialA), partialB);
    AggregateExampleReads(partialA, partialB);
    AggregateExampleTotals(partialA, partialB);
    gk, cb, lb := Get(t, "GK"), Get(t, "CB"), Get(t, "LB");
  }

  lemma AggregateExampleReads(a: StatsMap, b: StatsMap)
    requires a == map["GK" := Totals(5, 90), "CB" := Totals(10, 90)]
    requires b == map["GK" := Totals(2, 45), "LB" := Totals(3, 30)]
    ensures Get(a, "GK") == Totals(5, 90) && Get(a, "CB") == Totals(10, 90) && Get(a, "LB") == Zero
    ensures Get(b, "GK") == Totals(2, 45) && Get(b, "CB") == Zero && Get(b, "LB") == Totals(3, 30)
  {
    assert "GK"[0] != "CB"[0] && "GK"[0] != "LB"[0] && "CB"[0] != "LB"[0];
  }

  lemma AggregateExampleTotals(a: StatsMap, b: StatsMap)
    requires Get(a, "GK") == Totals(5, 90) && Get(a, "CB") == Totals(10, 90) && Get(a, "LB") == Zero
    requires Get(b, "GK") == Totals(2, 45) && Get(b, "CB") == Zero && Get(b, "LB") == Totals(3, 30)
    ensures Get(Combine(Combine(EmptyStats(), a), b), "GK") == Totals(7, 135)
    ensures Get(Combine(Combine(EmptyStats(), a), b), "CB") == Totals(10, 90)
    ensures Get(Combine(Combine(EmptyStats(), a), b), "LB") == Totals(3, 30)
  {
    AddedTwice(a, b, "GK");
    AddedTwice(a, b, "CB");
    AddedTwice(a, b, "LB");
  }

  lemma AddedTwice(a: StatsMap, b: StatsMap, pos: string)
    ensures Get(Combine(Combine(EmptyStats(), a), b), pos) == Plus(Get(a, pos), Get(b, pos))
  {
  }

  /**
   * The end-to-end competition test: matches 1, 2 and 3 return `p1`, `p2`
   * and `p3`; whichever order the results come back in, the totals are
   * GK 12/180 and CB 5/95 and nothing else.
   */
  lemma CompetitionExample(p1: StatsMap, p2: StatsMap, p3: StatsMap, completion: seq<StatsMap>)
    requires p1 == map["GK" := Totals(5, 90)]
    requires p2 == map["GK" := Totals(7, 90), "CB" := Totals(3, 45)]
    requires p3 == map["CB" := Totals(2, 50)]
    requires multiset(completion) == multiset([p1, p2, p3])
    ensures SumInto(EmptyStats(), completion).Keys == {"GK", "CB"}
    ensures Get(SumInto(EmptyStats(), completion), "GK") == Totals(12, 180)
    ensures Get(SumInto(EmptyStats(), completion), "CB") == Totals(5, 95)
  {
    SumOfThree(p1, p2, p3, completion, "GK");
    SumOfThree(p1, p2, p3, completion, "CB");
  }

  /** Three partial maps summed in any order. */
  lemma SumOfThree(a: StatsMap, b: StatsMap, c: StatsMap, completion: seq<StatsMap>, pos: string)
    requires multiset(completion) == multiset([a, b, c])
    ensures SumInto(EmptyStats(), completion).Keys == a.Keys + b.Keys + c.Keys
    ensures Get(SumInto(EmptyStats(), completion), pos) == Plus(Plus(Get(a, pos), Get(b, pos)), Get(c, pos))
  {
    SumIntoAnyOrder(EmptyStats(), completion, [a, b, c]);
    SumOfThreeInOrder(a, b, c, pos);
  }

  lemma SumOfThreeInOrder(a: StatsMap, b: StatsMap, c: StatsMap, pos: string)
    ensures SumInto(EmptyStats(), [a, b, c]).Keys == a.Keys + b.Keys + c.Keys
    ensures Get(SumInto(EmptyStats(), [a, b, c]), pos) == Plus(Plus(Get(a, pos), Get(b, pos)), Get(c, pos))
  {
    SumOfThreeUnfolds(a, b, c);
    CombineThree(a, b, c, pos);
  }

  lemma CombineThree(a: StatsMap, b: StatsMap, c: StatsMap, pos: string)
    ensures Combine(Combine(Combine(EmptyStats(), a), b), c).Keys == a.Keys + b.Keys + c.Keys
    ensures Get(Combine(Combine(Combine(EmptyStats(), a), b), c), pos) == Plus(Plus(Get(a, pos), Get(b, pos)), Get(c, pos))
  {
  }

  lemma SumOfThreeUnfolds(a: StatsMap, b: StatsMap, c: StatsMap)
    ensures SumInto(EmptyStats(), [a, b, c]) == Combine(Combine(Combine(EmptyStats(), a), b), c)
  {
    var e := EmptyStats();
    assert [a, b, c] == [a, b] + [c] && [a, b] == [a] + [b] && [a] == [] + [a];
    SumIntoSnoc(e, [], a);
    SumIntoSnoc(e, [a], b);
    SumIntoSnoc(e, [a, b], c);
  }

  // ---------------------------------------------------------------------------
  // _handle_error_or_retry
  // ---------------------------------------------------------------------------

  /** `attempts[match_id]` on the `defaultdict(int)`: a match never retried reads as 0. */
  function AttemptsOf(attempts: map<int, nat>, id: int): nat
  {
    if id in attempts then attempts[id] else 0
  }

  /** The retry counters and the ids of the futures still to be drained. */
  datatype RetryState = RetryState(attempts: map<int, nat>, pending: seq<int>)

  /** The `RuntimeError` raised once a match has used up its retries. */
  function RetryMessage(id: int): string
  {
    "Failed to process match " + IntToString(id) + " after " + IntToString(MaxMatchRetries) + " retries"
  }

  /**
   * One failed processing of match `id`: while its counter is below the
   * limit, the counter goes up by one and the match is submitted once more;
   * otherwise the error is raised and nothing changes.
   */
  function Retry(s: RetryState, id: int): (r: Result<RetryState, string>)
    ensures r.Success? <==> AttemptsOf(s.attempts, id) < MaxMatchRetries
    ensures r.Success? ==> AttemptsOf(r.value.attempts, id) == AttemptsOf(s.attempts, id) + 1
    ensures r.Success? ==> forall other :: other != id ==> AttemptsOf(r.value.attempts, other) == AttemptsOf(s.attempts, other)
    ensures r.Success? ==> r.value.attempts.Keys == s.attempts.Keys + {id}
    ensures r.Success? ==> |r.value.pending| == |s.pending| + 1 && r.value.pending[..|s.pending|] == s.pending
    ensures r.Success? ==> r.value.pending[|s.pending|] == id
    ensures r.Failure? ==> r.error == RetryMessage(id)
  {
    var n := AttemptsOf(s.attempts, id);
    if n < MaxMatchRetries then
      Success(RetryState(s.attempts[id := n + 1], s.pending + [id]))
    else
      Failure(RetryMessage(id))
  }

  /** `k` copies of `id`. */
  function Repeat(id: int, k: nat): (r: seq<int>)
    ensures |r| == k && forall i :: 0 <= i < k ==> r[i] == id
  {
    seq(k, _ => id)
  }

  /** The outcome of `k` consecutive failures of match `id`. */
  function FailRepeatedly(s: RetryState, id: int, k: nat): Result<RetryState, string>
    decreases k
  {
    if k == 0 then Success(s)
    else
      match Retry(s, id)
      case Failure(e) => Failure(e)
      case Success(next) => FailRepeatedly(next, id, k - 1)
  }

  /**
   * `k` failures in a row are all absorbed exactly when the counter has room
   * for `k` more retries; then the counter has grown by `k` and `k` new
   * futures for the match are pending.  Otherwise the error names the match.
   */
  lemma {:induction false} FailRepeatedlyMeaning(s: RetryState, id: int, k: nat)
    requires AttemptsOf(s.attempts, id) <= MaxMatchRetries
    ensures FailRepeatedly(s, id, k).Success? <==> AttemptsOf(s.attempts, id) + k <= MaxMatchRetries
    ensures FailRepeatedly(s, id, k).Success? ==>
      AttemptsOf(FailRepeatedly(s, id, k).value.attempts, id) == AttemptsOf(s.attempts, id) + k
    ensures FailRepeatedly(s, id, k).Success? ==> FailRepeatedly(s, id, k).value.pending == s.pending + Repeat(id, k)
    ensures FailRepeatedly(s, id, k).Failure? ==> FailRepeatedly(s, id, k).error == RetryMessage(id)
    decreases k
  {
    if k > 0 {
      var r := Retry(s, id);
      if r.Failure? {
        assert FailRepeatedly(s, id, k) == Failure(r.error);
      } else {
        FailOnce(s, id, k);
        FailRepeatedlyMeaning(r.value, id, k - 1);
        assert s.pending + [id] + Repeat(id, k - 1) == s.pending + Repeat(id, k);
      }
    }
  }

  /** A retry that is absorbed leaves `k - 1` failures to go, with one more pending future. */
  lemma FailOnce(s: RetryState, id: int, k: nat)
    requires k > 0 && Retry(s, id).Success?
    ensures FailRepeatedly(s, id, k) == FailRepeatedly(Retry(s, id).value, id, k - 1)
    ensures Retry(s, id).value.pending == s.pending + [id]
    ensures Repeat(id, k) == [id] + Repeat(id, k - 1)
  {
  }

  /**
   * Counters start at zero in every drain, so a match that keeps failing is
   * resubmitted exactly `MAX_MATCH_RETRIES` times and the next failure raises.
   */
  lemma AtMostMaxRetries(pending: seq<int>, id: int)
    ensures FailRepeatedly(RetryState(map[], pending), id, MaxMatchRetries)
         == Success(RetryState(map[id := MaxMatchRetries], pending + Repeat(id, MaxMatchRetries)))
    ensures FailRepeatedly(RetryState(map[], pending), id, MaxMatchRetries + 1) == Failure(RetryMessage(id))
  {
    var s := RetryState(map[], pending);
    FailRepeatedlyMeaning(s, id, MaxMatchRetries);
    FailRepeatedlyMeaning(s, id, MaxMatchRetries + 1);
    var s1 := Retry(s, id).value;
    var s2 := Retry(s1, id).value;
    var s3 := Retry(s2, id).value;
    assert s3.attempts == map[id := MaxMatchRetries];
  }

  /** Failures of other matches never use up the retries of `id`. */
  lemma RetryIndependent(s: RetryState, other: int, id: int)
    requires other != id && Retry(s, other).Success?
    ensures Retry(Retry(s, other).value, id).Success? == Retry(s, id).Success?
  {
  }

  /** The test's error message names the match. */
  lemma RetryMessageExample()
    ensures RetryMessage(99) == "Failed to process match 99 after 3 retries"
  {
    assert NatToString(9) == "9";
    assert NatToString(99) == "99";
    assert IntToString(3) == "3";
  }

  /**
   * The `attempts` counters of one drain loop and the futures still pending,
   * with the executor abstracted away.
   */
  class RetryBook {
    var attempts: map<int, nat>
    var pending: seq<int>

    /** `attempts: defaultdict[int, int] = defaultdict(int)` over the futures already submitted. */
    constructor(submitted: seq<int>)
      ensures attempts == map[] && pending == submitted
    {
      attempts := map[];
      pending := submitted;
    }

    /** `_handle_error_or_retry(executor, futures, attempts, match_id, exception)`. */
    method HandleErrorOrRetry(id: int) returns (res: Result<(), string>)
      modifies this
      ensures var r := Retry(RetryState(old(attempts), old(pending)), id);
        if r.Success? then res.Success? && RetryState(attempts, pending) == r.value
        else res == Failure(r.error) && attempts == old(attempts) && pending == old(pending)
    {
      var n := if id in attempts then attempts[id] else 0;
      if n < MaxMatchRetries {
        attempts := attempts[id := n + 1];
        pending := pending + [id];
        res := Success(());
      } else {
        res := Failure("Failed to process match " + IntToString(id) + " after " + IntToString(MaxMatchRetries) + " retries");
      }
    }
  }
}
