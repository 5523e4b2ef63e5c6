/**
 * The per-match position-timeline engine of `MatchProcessor`
 * (passes_counter/match_processor.py).  One match's ordered event list is
 * turned into a timeline of position intervals per player (Starting XI,
 * substitutions, in-place position changes); the open intervals are closed
 * at match end, every interval's clamped length is added to its position's
 * minutes, and every Pass is credited to the position whose closed interval
 * `[start, end)` contains the pass minute.
 */
module MatchProcessing {
  import opened Wrappers
  import opened Stats

  type PlayerId = int
  type Position = string

  /** A position interval `[start, end)` in match minutes; `end` is `None` while it is still open. */
  datatype Interval = Interval(position: Position, start: int, end: Option<int>)

  type Timeline = seq<Interval>

  /** One entry of `tactics.lineup` in a Starting XI event. */
  datatype LineupEntry = LineupEntry(player: PlayerId, position: Position)

  /** The event's `type.name`, as far as the processor tells kinds apart. */
  datatype EventType = StartingXi | Substitution | Pass | OtherType

  /**
   * The fields of a match event that the processor reads.  `None` stands for
   * a missing `minute`, `player`, `tactics` or `substitution` key, and for a
   * `position` that is missing or empty (`if not position_obj`); the keys
   * nested inside those objects are taken to be present.
   */
  datatype Event = Event(
    kind: EventType,
    minute: Option<int>,
    player: Option<PlayerId>,
    position: Option<Position>,
    lineup: Option<seq<LineupEntry>>,
    replacement: Option<PlayerId>)

  /** The exceptions that abort `process_match`: a missing key, or `[-1]` on an empty list. */
  datatype MatchError = KeyError(key: string) | IndexError

  /** The match end used when the event list is empty. */
  const DefaultMatchEnd := 90

  // ---------------------------------------------------------------------------
  // player_positions: a dict from player id to timeline, in insertion order
  // ---------------------------------------------------------------------------

  datatype Entry = Entry(player: PlayerId, timeline: Timeline)

  type Roster = seq<Entry>

  function Players(r: Roster): set<PlayerId>
  {
    set i | 0 <= i < |r| :: r[i].player
  }

  /** No player occurs twice, as in a dict. */
  predicate DistinctPlayers(r: Roster)
  {
    forall i, j :: 0 <= i < j < |r| ==> r[i].player != r[j].player
  }

  /** The index of the first entry for player `p`, if any. */
  function IndexOf(r: Roster, p: PlayerId): (k: Option<nat>)
    ensures k.None? <==> p !in Players(r)
    ensures k.Some? ==> k.value < |r| && r[k.value].player == p
    ensures k.Some? ==> forall j :: 0 <= j < k.value ==> r[j].player != p
    decreases |r|
  {
    if r == [] then None
    else if r[0].player == p then Some(0)
    else
      var k := IndexOf(r[1..], p);
      assert forall j :: 0 < j < |r| ==> r[j] == r[1..][j - 1];
      if k.None? then None
      else Some(k.value + 1)
  }

  /** Rosters with the same players in the same order find every player at the same index. */
  lemma IndexOfSamePlayers(r: Roster, r': Roster, q: PlayerId)
    requires |r'| == |r|
    requires forall i :: 0 <= i < |r| ==> r'[i].player == r[i].player
    ensures IndexOf(r', q) == IndexOf(r, q)
  {
    assert Players(r') == Players(r) by {
      forall x | x in Players(r) ensures x in Players(r') {
        var i :| 0 <= i < |r| && r[i].player == x;
        assert r'[i].player == x;
      }
    }
  }

  /** `player_positions.get(p)`. */
  function Lookup(r: Roster, p: PlayerId): (t: Option<Timeline>)
    ensures t.Some? <==> p in Players(r)
  {
    match IndexOf(r, p)
    case None => None
    case Some(k) => Some(r[k].timeline)
  }

  /** `player_positions[p] = tl`: an existing key keeps its place, a new key goes last. */
  function Put(r: Roster, p: PlayerId, tl: Timeline): (r': Roster)
    ensures p in Players(r) ==> |r'| == |r| && forall i :: 0 <= i < |r| ==> r'[i].player == r[i].player
    ensures p !in Players(r) ==> r' == r + [Entry(p, tl)]
  {
    match IndexOf(r, p)
    case None => r + [Entry(p, tl)]
    case Some(k) => r[k := Entry(p, tl)]
  }

  /** What `Put` does, seen through `Lookup`: `p` now reads `tl`, every other player reads as before. */
  lemma PutLookup(r: Roster, p: PlayerId, tl: Timeline)
    ensures Lookup(Put(r, p, tl), p) == Some(tl)
    ensures forall q :: q != p ==> Lookup(Put(r, p, tl), q) == Lookup(r, q)
    ensures Players(Put(r, p, tl)) == Players(r) + {p}
  {
    var r' := Put(r, p, tl);
    match IndexOf(r, p)
    case Some(k) =>
      forall q ensures IndexOf(r', q) == IndexOf(r, q) {
        IndexOfSamePlayers(r, r', q);
      }
      assert r'[k] == Entry(p, tl);
      assert Players(r') == Players(r) + {p} by {
        assert Players(r') == Players(r) by {
          forall x | x in Players(r) ensures x in Players(r') {
            var i :| 0 <= i < |r| && r[i].player == x;
            assert r'[i].player == x;
          }
        }
      }
    case None =>
      forall q | q != p ensures Lookup(r', q) == Lookup(r, q) {
        match IndexOf(r, q)
        case Some(k) =>
          assert r'[k] == r[k];
          assert forall j :: 0 <= j < k ==> r'[j] == r[j];
        case None =>
      }
      assert forall j :: 0 <= j < |r| ==> r'[j] == r[j];
      assert r'[|r|] == Entry(p, tl);
      assert Players(r') == Players(r) + {p} by {
        forall x | x in Players(r') ensures x in Players(r) + {p} {
          var i :| 0 <= i < |r'| && r'[i].player == x;
          if i < |r| { assert r[i].player == x; }
        }
        forall x | x in Players(r) ensures x in Players(r') {
          var i :| 0 <= i < |r| && r[i].player == x;
          assert r'[i].player == x;
        }
      }
  }

  /** `Put` keeps the keys distinct, and every entry it leaves is old or the new one. */
  lemma PutDistinct(r: Roster, p: PlayerId, tl: Timeline)
    ensures DistinctPlayers(r) ==> DistinctPlayers(Put(r, p, tl))
    ensures forall x :: x in Put(r, p, tl) ==> x == Entry(p, tl) || x in r
  {
    var r' := Put(r, p, tl);
    match IndexOf(r, p)
    case Some(k) =>
      forall x | x in r' ensures x == Entry(p, tl) || x in r {
        var i :| 0 <= i < |r'| && r'[i] == x;
        if i != k { assert r[i] == x; }
      }
    case None =>
      if DistinctPlayers(r) {
        forall i, j | 0 <= i < j < |r'| ensures r'[i].player != r'[j].player {
          if j == |r| { assert r[i].player in Players(r); }
        }
      }
  }

  /** `Put` of a valid timeline keeps every timeline of the roster valid and the keys distinct. */
  lemma PutValid(r: Roster, p: PlayerId, tl: Timeline)
    requires ValidRoster(r) && ValidTimeline(tl)
    ensures ValidRoster(Put(r, p, tl))
  {
    PutDistinct(r, p, tl);
    var r' := Put(r, p, tl);
    forall i | 0 <= i < |r'| ensures ValidTimeline(r'[i].timeline) {
      assert r'[i] in r';
    }
  }

  /** Every timeline reachable through `Lookup` of a valid roster is valid. */
  lemma LookupValid(r: Roster, p: PlayerId)
    requires ValidRoster(r) && Lookup(r, p).Some?
    ensures ValidTimeline(Lookup(r, p).value)
  {
  }

  // ---------------------------------------------------------------------------
  // Timelines
  // ---------------------------------------------------------------------------

  /**
   * The builder invariant: a timeline is non-empty, and every interval but the
   * last is closed exactly where the next one starts.
   */
  predicate ValidTimeline(tl: Timeline)
  {
    |tl| > 0 && forall k :: 0 <= k < |tl| - 1 ==> tl[k].end == Some(tl[k + 1].start)
  }

  predicate ValidRoster(r: Roster)
  {
    DistinctPlayers(r) && forall i :: 0 <= i < |r| ==> ValidTimeline(r[i].timeline)
  }

  /** Only the last interval may still be open. */
  predicate OnlyLastOpen(tl: Timeline)
  {
    forall k :: 0 <= k < |tl| - 1 ==> tl[k].end.Some?
  }

  predicate Closed(tl: Timeline)
  {
    forall k :: 0 <= k < |tl| ==> tl[k].end.Some?
  }

  /** `tl[-1]`. */
  function Last(tl: Timeline): Interval
    requires tl != []
  {
    tl[|tl| - 1]
  }

  /** `tl[-1]["end_time"] = m`. */
  function CloseLast(tl: Timeline, m: int): (c: Timeline)
    requires tl != []
    ensures |c| == |tl| && c[..|tl| - 1] == tl[..|tl| - 1]
    ensures Last(c) == Interval(Last(tl).position, Last(tl).start, Some(m))
  {
    tl[..|tl| - 1] + [Interval(Last(tl).position, Last(tl).start, Some(m))]
  }

  // ---------------------------------------------------------------------------
  // Starting XI
  // ---------------------------------------------------------------------------

  /** The one open interval a lineup gives a player: its lineup position from minute 0. */
  function StartingTimeline(position: Position): Timeline
  {
    [Interval(position, 0, None)]
  }

  /** The roster after the lineup loop of `_extract_starting_xi` has run over `lineup`. */
  function ApplyLineup(r: Roster, lineup: seq<LineupEntry>): Roster
  {
    if lineup == [] then r
    else
      var x := lineup[|lineup| - 1];
      Put(ApplyLineup(r, lineup[..|lineup| - 1]), x.player, StartingTimeline(x.position))
  }

  /** The position of the last lineup entry for `q`, which is the one that wins. */
  function LineupPosition(lineup: seq<LineupEntry>, q: PlayerId): Option<Position>
  {
    if lineup == [] then None
    else if lineup[|lineup| - 1].player == q then Some(lineup[|lineup| - 1].position)
    else LineupPosition(lineup[..|lineup| - 1], q)
  }

  /**
   * Every lineup player's timeline becomes exactly one open interval from minute
   * 0, overwriting what was there; every other player is untouched.
   */
  lemma {:induction false} LineupLookup(r: Roster, lineup: seq<LineupEntry>, q: PlayerId)
    ensures LineupPosition(lineup, q).Some? ==>
      Lookup(ApplyLineup(r, lineup), q) == Some(StartingTimeline(LineupPosition(lineup, q).value))
    ensures LineupPosition(lineup, q).None? ==> Lookup(ApplyLineup(r, lineup), q) == Lookup(r, q)
    decreases |lineup|
  {
    if lineup != [] {
      var x := lineup[|lineup| - 1];
      LineupLookup(r, lineup[..|lineup| - 1], q);
      PutLookup(ApplyLineup(r, lineup[..|lineup| - 1]), x.player, StartingTimeline(x.position));
    }
  }

  lemma {:induction false} ApplyLineupValid(r: Roster, lineup: seq<LineupEntry>)
    requires ValidRoster(r)
    ensures ValidRoster(ApplyLineup(r, lineup))
    decreases |lineup|
  {
    if lineup != [] {
      var x := lineup[|lineup| - 1];
      ApplyLineupValid(r, lineup[..|lineup| - 1]);
      PutValid(ApplyLineup(r, lineup[..|lineup| - 1]), x.player, StartingTimeline(x.position));
    }
  }

  /** `_extract_starting_xi`: one `player_positions[id] = [...]` per lineup entry, in lineup order. */
  method ExtractStartingXi(lineup: seq<LineupEntry>, r: Roster) returns (r': Roster)
    ensures r' == ApplyLineup(r, lineup)
  {
    r' := r;
    for i := 0 to |lineup|
      invariant r' == ApplyLineup(r, lineup[..i])
    {
      assert lineup[..i + 1][..i] == lineup[..i];
      r' := Put(r', lineup[i].player, StartingTimeline(lineup[i].position));
    }
    assert lineup[..|lineup|] == lineup;
  }

  // ---------------------------------------------------------------------------
  // Substitutions and in-place position changes
  // ---------------------------------------------------------------------------

  /** The event carries everything `_handle_substitution` reads. */
  predicate SubstitutionReadable(e: Event)
  {
    e.player.Some? && e.replacement.Some? && e.minute.Some?
  }

  /**
   * A tracked substitution at minute `m` with outgoing timeline `tl`: the
   * incoming player gets one open interval in the outgoing player's position,
   * the outgoing player's last interval is closed at `m`, nothing else changes.
   */
  ghost predicate Substituted(r: Roster, r': Roster, outgoing: PlayerId, incoming: PlayerId, m: int, tl: Timeline)
    requires tl != []
  {
    && Lookup(r', incoming) == Some([Interval(Last(tl).position, m, None)])
    && (incoming != outgoing ==> Lookup(r', outgoing) == Some(CloseLast(tl, m)))
    && (forall q :: q != incoming && q != outgoing ==> Lookup(r', q) == Lookup(r, q))
    && Players(r') == Players(r) + {incoming}
  }

  /** `_handle_substitution`. */
  function HandleSubstitution(e: Event, r: Roster): (res: Result<Roster, MatchError>)
    ensures e.player.None? ==> res == Failure(KeyError("player"))
    ensures e.player.Some? && e.replacement.None? ==> res == Failure(KeyError("substitution"))
    ensures e.player.Some? && e.replacement.Some? && e.minute.None? ==> res == Failure(KeyError("minute"))
    ensures SubstitutionReadable(e) ==>
      var t := Lookup(r, e.player.value);
      && (t.None? ==> res == Success(r))
      && (t == Some([]) ==> res == Failure(IndexError))
      && (t.Some? && t.value != [] ==>
            res.Success? && Substituted(r, res.value, e.player.value, e.replacement.value, e.minute.value, t.value))
  {
    if e.player.None? then Failure(KeyError("player"))
    else if e.replacement.None? then Failure(KeyError("substitution"))
    else if e.minute.None? then Failure(KeyError("minute"))
    else
      var outgoing, incoming, m := e.player.value, e.replacement.value, e.minute.value;
      match Lookup(r, outgoing)
      case None => Success(r)
      case Some(tl) =>
        if tl == [] then Failure(IndexError)
        else
          var r1 := Put(r, outgoing, CloseLast(tl, m));
          var entering := [Interval(Last(tl).position, m, None)];
          PutLookup(r, outgoing, CloseLast(tl, m));
          PutLookup(r1, incoming, entering);
          Success(Put(r1, incoming, entering))
  }

  /** The event carries everything `_update_player_positions` reads before looking the player up. */
  predicate PositionReadable(e: Event)
  {
    e.player.Some? && e.position.Some? && e.minute.Some?
  }

  /** The timeline after a position change to `pos` at minute `m`. */
  function Moved(tl: Timeline, pos: Position, m: int): Timeline
    requires tl != []
  {
    CloseLast(tl, m) + [Interval(pos, m, None)]
  }

  /** `_update_player_positions`. */
  function UpdatePlayerPositions(e: Event, r: Roster): (res: Result<Roster, MatchError>)
    ensures e.player.None? ==> res == Failure(KeyError("player"))
    ensures e.player.Some? && e.position.None? ==> res == Success(r)
    ensures e.player.Some? && e.position.Some? && e.minute.None? ==> res == Failure(KeyError("minute"))
    ensures PositionReadable(e) ==>
      var p, pos, m := e.player.value, e.position.value, e.minute.value;
      var t := Lookup(r, p);
      && (t.None? ==> res == Success(r))
      && (t == Some([]) ==> res == Failure(IndexError))
      && (t.Some? && t.value != [] && Last(t.value).position == pos ==> res == Success(r))
      && (t.Some? && t.value != [] && Last(t.value).position != pos ==>
            && res.Success?
            && Lookup(res.value, p) == Some(Moved(t.value, pos, m))
            && (forall q :: q != p ==> Lookup(res.value, q) == Lookup(r, q))
            && Players(res.value) == Players(r))
  {
    if e.player.None? then Failure(KeyError("player"))
    else if e.position.None? then Success(r)
    else if e.minute.None? then Failure(KeyError("minute"))
    else
      var p, pos, m := e.player.value, e.position.value, e.minute.value;
      match Lookup(r, p)
      case None => Success(r)
      case Some(tl) =>
        if tl == [] then Failure(IndexError)
        else if Last(tl).position == pos then Success(r)
        else
          PutLookup(r, p, Moved(tl, pos, m));
          Success(Put(r, p, Moved(tl, pos, m)))
  }

  /** A position change keeps the new interval chained to the one it closes. */
  lemma MovedValid(tl: Timeline, pos: Position, m: int)
    requires ValidTimeline(tl)
    ensures ValidTimeline(Moved(tl, pos, m))
  {
    var c := Moved(tl, pos, m);
    forall k | 0 <= k < |c| - 1 ensures c[k].end == Some(c[k + 1].start) {
      if k < |tl| - 1 {
        assert c[k] == tl[k] && c[k + 1] == CloseLast(tl, m)[k + 1];
      }
    }
  }

  lemma CloseLastValid(tl: Timeline, m: int)
    requires ValidTimeline(tl)
    ensures ValidTimeline(CloseLast(tl, m))
  {
    var c := CloseLast(tl, m);
    forall k | 0 <= k < |c| - 1 ensures c[k].end == Some(c[k + 1].start) {
      assert c[k] == tl[k];
      if k + 1 < |tl| - 1 { assert c[k + 1] == tl[k + 1]; }
    }
  }

  lemma HandleSubstitutionValid(e: Event, r: Roster)
    requires ValidRoster(r)
    ensures HandleSubstitution(e, r) != Failure(IndexError)
    ensures HandleSubstitution(e, r).Success? ==> ValidRoster(HandleSubstitution(e, r).value)
  {
    if SubstitutionReadable(e) && Lookup(r, e.player.value).Some? {
      var outgoing, incoming, m := e.player.value, e.replacement.value, e.minute.value;
      var tl := Lookup(r, outgoing).value;
      LookupValid(r, outgoing);
      CloseLastValid(tl, m);
      PutValid(r, outgoing, CloseLast(tl, m));
      PutValid(Put(r, outgoing, CloseLast(tl, m)), incoming, [Interval(Last(tl).position, m, None)]);
    }
  }

  lemma UpdatePlayerPositionsValid(e: Event, r: Roster)
    requires ValidRoster(r)
    ensures UpdatePlayerPositions(e, r) != Failure(IndexError)
    ensures UpdatePlayerPositions(e, r).Success? ==> ValidRoster(UpdatePlayerPositions(e, r).value)
  {
    if PositionReadable(e) && Lookup(r, e.player.value).Some? {
      var p, pos, m := e.player.value, e.position.value, e.minute.value;
      var tl := Lookup(r, p).value;
      LookupValid(r, p);
      MovedValid(tl, pos, m);
      PutValid(r, p, Moved(tl, pos, m));
    }
  }

  // ---------------------------------------------------------------------------
  // The event loop of process_match
  // ---------------------------------------------------------------------------

  /**
   * One iteration of the event loop: the Starting XI or Substitution rule, then
   * the position-change rule on the same event whenever it names a player.
   */
  function ApplyEvent(r: Roster, e: Event): Result<Roster, MatchError>
  {
    var first :=
      if e.kind == StartingXi then
        (if e.lineup.None? then Failure(KeyError("tactics")) else Success(ApplyLineup(r, e.lineup.value)))
      else if e.kind == Substitution then HandleSubstitution(e, r)
      else Success(r);
    if first.Failure? then first
    else if e.player.Some? then UpdatePlayerPositions(e, first.value)
    else first
  }

  /**
   * `player_positions` after the event loop has run over `events` starting from
   * `r`, or the exception that stopped it.
   */
  function BuildFrom(r: Roster, events: seq<Event>): Result<Roster, MatchError>
    decreases |events|
  {
    if events == [] then Success(r)
    else
      match ApplyEvent(r, events[0])
      case Failure(err) => Failure(err)
      case Success(r') => BuildFrom(r', events[1..])
  }

  /** The loop starts from an empty `player_positions`. */
  function BuildRoster(events: seq<Event>): Result<Roster, MatchError>
  {
    BuildFrom([], events)
  }

  lemma ApplyEventValid(r: Roster, e: Event)
    requires ValidRoster(r)
    ensures ApplyEvent(r, e) != Failure(IndexError)
    ensures ApplyEvent(r, e).Success? ==> ValidRoster(ApplyEvent(r, e).value)
  {
    var first :=
      if e.kind == StartingXi then
        (if e.lineup.None? then Failure(KeyError("tactics")) else Success(ApplyLineup(r, e.lineup.value)))
      else if e.kind == Substitution then HandleSubstitution(e, r)
      else Success(r);
    if e.kind == StartingXi && e.lineup.Some? {
      ApplyLineupValid(r, e.lineup.value);
    } else if e.kind == Substitution {
      HandleSubstitutionValid(e, r);
    }
    if first.Success? {
      UpdatePlayerPositionsValid(e, first.value);
    }
  }

  /**
   * The builder invariant holds after any run of the event loop that starts
   * from a valid roster: timelines are non-empty and chained, so only the last
   * interval can be open, and the `[-1]` reads never fail.
   */
  lemma {:induction false} BuildFromValid(r: Roster, events: seq<Event>)
    requires ValidRoster(r)
    ensures BuildFrom(r, events) != Failure(IndexError)
    ensures BuildFrom(r, events).Success? ==> ValidRoster(BuildFrom(r, events).value)
    decreases |events|
  {
    if events != [] {
      ApplyEventValid(r, events[0]);
      if ApplyEvent(r, events[0]).Success? {
        BuildFromValid(ApplyEvent(r, events[0]).value, events[1..]);
      }
    }
  }

  lemma BuildRosterValid(events: seq<Event>)
    ensures BuildRoster(events) != Failure(IndexError)
    ensures BuildRoster(events).Success? ==> ValidRoster(BuildRoster(events).value)
  {
    BuildFromValid([], events);
  }

  /** Lines 203-215 of `process_match`: the event loop that builds `player_positions`. */
  method BuildTimelines(events: seq<Event>) returns (res: Result<Roster, MatchError>)
    ensures res == BuildRoster(events)
  {
    var r: Roster := [];
    for i := 0 to |events|
      invariant BuildFrom(r, events[i..]) == BuildRoster(events)
    {
      assert events[i..][1..] == events[i + 1..];
      var e := events[i];
      if e.kind == StartingXi {
        if e.lineup.None? {
          return Failure(KeyError("tactics"));
        }
        r := ExtractStartingXi(e.lineup.value, r);
      } else if e.kind == Substitution {
        var s := HandleSubstitution(e, r);
        if s.Failure? {
          return s;
        }
        r := s.value;
      }
      if e.player.Some? {
        var u := UpdatePlayerPositions(e, r);
        if u.Failure? {
          return u;
        }
        r := u.value;
      }
    }
    return Success(r);
  }

  // ---------------------------------------------------------------------------
  // _finalize_process: match end, closing, minutes
  // ---------------------------------------------------------------------------

  /** `event.get("minute", 0)`. */
  function MinuteOr0(e: Event): int
  {
    if e.minute.Some? then e.minute.value else 0
  }

  /**
   * The minute at which still-open intervals are closed: the largest
   * `minute` among the events, a missing one counting as 0, or 90 when there
   * are no events at all.
   */
  function MatchEnd(events: seq<Event>): (m: int)
    ensures events == [] ==> m == DefaultMatchEnd
    ensures events != [] ==> forall i :: 0 <= i < |events| ==> MinuteOr0(events[i]) <= m
    ensures events != [] ==> exists i :: 0 <= i < |events| && MinuteOr0(events[i]) == m
    decreases |events|
  {
    if events == [] then DefaultMatchEnd
    else if |events| == 1 then MinuteOr0(events[0])
    else
      var rest := MatchEnd(events[1..]);
      assert forall i :: 1 <= i < |events| ==> events[i] == events[1..][i - 1];
      if MinuteOr0(events[0]) >= rest then MinuteOr0(events[0]) else rest
  }

  /** Close the last interval at `end` if it is still open. */
  function CloseOpen(tl: Timeline, end: int): (c: Timeline)
    ensures OnlyLastOpen(tl) ==> Closed(c)
    ensures |c| == |tl| && forall k :: 0 <= k < |tl| - 1 ==> c[k] == tl[k]
    ensures tl != [] && Last(tl).end.None? ==> Last(c) == Interval(Last(tl).position, Last(tl).start, Some(end))
    ensures tl != [] && Last(tl).end.Some? ==> Last(c) == Last(tl)
  {
    if tl != [] && Last(tl).end.None? then CloseLast(tl, end) else tl
  }

  predicate AllClosed(r: Roster)
  {
    forall i :: 0 <= i < |r| ==> Closed(r[i].timeline)
  }

  /** `player_positions` after the closing step of `_finalize_process`. */
  function CloseAll(r: Roster, end: int): (c: Roster)
    ensures |c| == |r|
    ensures forall i :: 0 <= i < |r| ==> c[i] == Entry(r[i].player, CloseOpen(r[i].timeline, end))
  {
    seq(|r|, i requires 0 <= i < |r| => Entry(r[i].player, CloseOpen(r[i].timeline, end)))
  }

  /** The minutes a closed interval adds: its length, clamped at 0. */
  function Duration(iv: Interval): nat
    requires iv.end.Some?
  {
    Clamped(iv.end.value - iv.start)
  }

  /** `max(0, d)`: the safeguard against an interval that ends before it starts. */
  function Clamped(d: int): nat
  {
    if d < 0 then 0 else d
  }

  /** `match_positions` after the inner minutes loop has run over the closed timeline `tl`. */
  function AddTimelineMinutes(m: StatsMap, tl: Timeline): StatsMap
    requires Closed(tl)
  {
    if tl == [] then m
    else Credit(AddTimelineMinutes(m, tl[..|tl| - 1]), Last(tl).position, Totals(0, Duration(Last(tl))))
  }

  /** `match_positions` after the minutes loops have run over the closed roster `c`, in dict order. */
  function AddRosterMinutes(m: StatsMap, c: Roster): StatsMap
    requires AllClosed(c)
  {
    if c == [] then m
    else AddTimelineMinutes(AddRosterMinutes(m, c[..|c| - 1]), c[|c| - 1].timeline)
  }

  /** The played minutes a closed timeline contributes to one position. */
  function MinutesAt(tl: Timeline, pos: Position): int
    requires Closed(tl)
  {
    if tl == [] then 0
    else MinutesAt(tl[..|tl| - 1], pos) + (if Last(tl).position == pos then Duration(Last(tl)) else 0)
  }

  function PositionsOf(tl: Timeline): set<Position>
  {
    set k | 0 <= k < |tl| :: tl[k].position
  }

  lemma PositionsOfSnoc(tl: Timeline)
    requires tl != []
    ensures PositionsOf(tl) == PositionsOf(tl[..|tl| - 1]) + {Last(tl).position}
  {
    var front := tl[..|tl| - 1];
    forall y | y in PositionsOf(tl) ensures y in PositionsOf(front) + {Last(tl).position} {
      var k :| 0 <= k < |tl| && tl[k].position == y;
      if k < |tl| - 1 { assert front[k].position == y; }
    }
    forall y | y in PositionsOf(front) ensures y in PositionsOf(tl) {
      var k :| 0 <= k < |front| && front[k].position == y;
      assert tl[k].position == y;
    }
  }

  /** One step of the inner minutes loop. */
  lemma AddTimelineMinutesStep(m: StatsMap, tl: Timeline, j: nat)
    requires Closed(tl) && j < |tl|
    ensures Closed(tl[..j]) && Closed(tl[..j + 1])
    ensures AddTimelineMinutes(m, tl[..j + 1]) ==
      Credit(AddTimelineMinutes(m, tl[..j]), tl[j].position, Totals(0, Duration(tl[j])))
  {
    var s := tl[..j + 1];
    assert s != [] && s[..|s| - 1] == tl[..j] && Last(s) == tl[j];
    assert Closed(s[..|s| - 1]);
    assert AddTimelineMinutes(m, s) ==
      Credit(AddTimelineMinutes(m, s[..|s| - 1]), Last(s).position, Totals(0, Duration(Last(s))));
  }

  /** One step of the outer minutes loop. */
  lemma AddRosterMinutesStep(m: StatsMap, c: Roster, x: Entry)
    requires AllClosed(c) && Closed(x.timeline)
    ensures AllClosed(c + [x])
    ensures AddRosterMinutes(m, c + [x]) == AddTimelineMinutes(AddRosterMinutes(m, c), x.timeline)
  {
    assert (c + [x])[..|c|] == c;
  }

  /** Every interval's position becomes a key of the inner minutes loop's result, even with 0 minutes. */
  lemma {:induction false} AddTimelineMinutesKeys(m: StatsMap, tl: Timeline)
    requires Closed(tl)
    ensures AddTimelineMinutes(m, tl).Keys == m.Keys + PositionsOf(tl)
    decreases |tl|
  {
    if tl != [] {
      var front := tl[..|tl| - 1];
      assert Closed(front);
      var x := Last(tl);
      assert AddTimelineMinutes(m, tl) == Credit(AddTimelineMinutes(m, front), x.position, Totals(0, Duration(x)));
      AddTimelineMinutesKeys(m, front);
      PositionsOfSnoc(tl);
    } else {
      assert AddTimelineMinutes(m, tl) == m;
    }
  }

  /** The inner minutes loop adds to each position the clamped lengths of its intervals and leaves passes alone. */
  lemma {:induction false} AddTimelineMinutesMeaning(m: StatsMap, tl: Timeline, pos: Position)
    requires Closed(tl)
    ensures Get(AddTimelineMinutes(m, tl), pos).passes == Get(m, pos).passes
    ensures Get(AddTimelineMinutes(m, tl), pos).minutes == Get(m, pos).minutes + MinutesAt(tl, pos)
    decreases |tl|
  {
    if tl != [] {
      var front := tl[..|tl| - 1];
      assert Closed(front);
      var x := Last(tl);
      assert AddTimelineMinutes(m, tl) == Credit(AddTimelineMinutes(m, front), x.position, Totals(0, Duration(x)));
      assert MinutesAt(tl, pos) == MinutesAt(front, pos) + (if x.position == pos then Duration(x) else 0);
      AddTimelineMinutesMeaning(m, front, pos);
      var prev := AddTimelineMinutes(m, front);
      if x.position == pos {
        assert Get(AddTimelineMinutes(m, tl), pos).minutes == Get(prev, pos).minutes + Duration(x);
      } else {
        assert Get(AddTimelineMinutes(m, tl), pos) == Get(prev, pos);
      }
    } else {
      assert AddTimelineMinutes(m, tl) == m;
    }
  }

  /** The played minutes the closed roster `c` contributes to one position, summed over its entries. */
  function RosterMinutesAt(c: Roster, pos: Position): int
    requires AllClosed(c)
  {
    if c == [] then 0
    else
      assert AllClosed(c[..|c| - 1]);
      RosterMinutesAt(c[..|c| - 1], pos) + MinutesAt(c[|c| - 1].timeline, pos)
  }

  /**
   * The nested minutes loops add to each position the clamped lengths of its
   * intervals over every player, and leave passes alone.
   */
  lemma {:induction false} AddRosterMinutesMeaning(m: StatsMap, c: Roster, pos: Position)
    requires AllClosed(c)
    ensures Get(AddRosterMinutes(m, c), pos).passes == Get(m, pos).passes
    ensures Get(AddRosterMinutes(m, c), pos).minutes == Get(m, pos).minutes + RosterMinutesAt(c, pos)
    decreases |c|
  {
    if c != [] {
      var front, x := c[..|c| - 1], c[|c| - 1];
      assert AllClosed(front) && Closed(x.timeline);
      var prev := AddRosterMinutes(m, front);
      assert AddRosterMinutes(m, c) == AddTimelineMinutes(prev, x.timeline);
      assert RosterMinutesAt(c, pos) == RosterMinutesAt(front, pos) + MinutesAt(x.timeline, pos);
      AddRosterMinutesMeaning(m, front, pos);
      AddTimelineMinutesMeaning(prev, x.timeline, pos);
    } else {
      assert AddRosterMinutes(m, c) == m;
    }
  }

  /** The total a closed timeline contributes over all positions. */
  function TotalMinutes(tl: Timeline): int
    requires Closed(tl)
  {
    if tl == [] then 0 else TotalMinutes(tl[..|tl| - 1]) + Duration(Last(tl))
  }

  /** No interval ends before it starts. */
  predicate Monotone(tl: Timeline)
  {
    forall k :: 0 <= k < |tl| && tl[k].end.Some? ==> tl[k].start <= tl[k].end.value
  }

  /**
   * A chained timeline, once closed, counts a player's time on the pitch once:
   * with no interval running backwards, its minutes telescope to last end
   * minus first start.
   */
  lemma {:induction false} TimelineTelescopes(tl: Timeline)
    requires ValidTimeline(tl) && Closed(tl) && Monotone(tl)
    ensures TotalMinutes(tl) == Last(tl).end.value - tl[0].start
    decreases |tl|
  {
    if |tl| > 1 {
      var front := tl[..|tl| - 1];
      assert ValidTimeline(front) by {
        forall k | 0 <= k < |front| - 1 ensures front[k].end == Some(front[k + 1].start) {
          assert front[k] == tl[k] && front[k + 1] == tl[k + 1];
        }
      }
      TimelineTelescopes(front);
      assert Last(front) == tl[|tl| - 2];
    } else {
      assert tl[..|tl| - 1] == [];
    }
  }

  /** In a built roster only last intervals can be open. */
  lemma ValidRosterOnlyLastOpen(r: Roster)
    requires ValidRoster(r)
    ensures forall i :: 0 <= i < |r| ==> OnlyLastOpen(r[i].timeline)
  {
    forall i, k | 0 <= i < |r| && 0 <= k < |r[i].timeline| - 1 ensures r[i].timeline[k].end.Some? {
      assert ValidTimeline(r[i].timeline);
      assert r[i].timeline[k].end == Some(r[i].timeline[k + 1].start);
    }
  }

  /** Closing is what makes every interval of a built roster countable. */
  lemma CloseAllClosed(r: Roster, end: int)
    requires ValidRoster(r)
    ensures AllClosed(CloseAll(r, end))
  {
    ValidRosterOnlyLastOpen(r);
  }

  /** `_finalize_process`: close the open last intervals, then sum each interval's minutes. */
  method FinalizeProcess(r: Roster, m: StatsMap, events: seq<Event>) returns (closed: Roster, m': StatsMap)
    requires forall i :: 0 <= i < |r| ==> OnlyLastOpen(r[i].timeline)
    ensures closed == CloseAll(r, MatchEnd(events)) && AllClosed(closed)
    ensures m' == AddRosterMinutes(m, closed)
  {
    var end := if events != [] then MatchEnd(events) else DefaultMatchEnd;
    ghost var all := CloseAll(r, end);
    closed := [];
    m' := m;
    for i := 0 to |r|
      invariant closed == all[..i]
      invariant AllClosed(closed)
      invariant m' == AddRosterMinutes(m, closed)
    {
      var tl := r[i].timeline;
      if tl != [] && Last(tl).end.None? {
        tl := CloseLast(tl, end);
      }
      assert tl == all[i].timeline && Closed(tl);
      m' := AddIntervalMinutes(m', tl);
      AddRosterMinutesStep(m, closed, all[i]);
      TakeOneMore(all, i);
      closed := closed + [Entry(r[i].player, tl)];
    }
    assert all[..|r|] == all;
  }

  lemma TakeOneMore<T>(s: seq<T>, i: nat)
    requires i < |s|
    ensures s[..i + 1] == s[..i] + [s[i]]
  {
  }

  /** The inner loop of `_finalize_process`: each interval of one closed timeline adds its clamped length. */
  method AddIntervalMinutes(m: StatsMap, tl: Timeline) returns (m': StatsMap)
    requires Closed(tl)
    ensures m' == AddTimelineMinutes(m, tl)
  {
    m' := m;
    assert tl[..0] == [];
    for j := 0 to |tl|
      invariant Closed(tl[..j])
      invariant m' == AddTimelineMinutes(m, tl[..j])
    {
      AddTimelineMinutesStep(m, tl, j);
      var minutesPlayed := tl[j].end.value - tl[j].start;
      if minutesPlayed < 0 {
        minutesPlayed := 0;
      }
      m' := Credit(m', tl[j].position, Totals(0, minutesPlayed));
    }
    assert tl[..|tl|] == tl;
  }

  // ---------------------------------------------------------------------------
  // _aggregate_pass_data
  // ---------------------------------------------------------------------------

  /** A closed interval `[start, end)` contains `minute`; an open one contains nothing. */
  predicate Covers(iv: Interval, minute: int)
  {
    iv.end.Some? && iv.start <= minute < iv.end.value
  }

  /** The first interval of `tl` that contains `minute`, the one the scan stops at. */
  function FirstCovering(tl: Timeline, minute: int): (k: Option<nat>)
    ensures k.Some? ==> k.value < |tl| && Covers(tl[k.value], minute)
    ensures k.Some? ==> forall j :: 0 <= j < k.value ==> !Covers(tl[j], minute)
    ensures k.None? ==> forall j :: 0 <= j < |tl| ==> !Covers(tl[j], minute)
    decreases |tl|
  {
    if tl == [] then None
    else if Covers(tl[0], minute) then Some(0)
    else
      var k := FirstCovering(tl[1..], minute);
      assert forall j :: 1 <= j < |tl| ==> tl[j] == tl[1..][j - 1];
      if k.None? then None else Some(k.value + 1)
  }

  /** The event is a Pass that names a player. */
  predicate IsCountedPass(e: Event)
  {
    e.kind == Pass && e.player.Some?
  }

  /**
   * The position a Pass event is credited to: that of the first closed interval
   * of the passer's timeline that contains the pass minute (missing minute: 0).
   * Non-passes, untracked players and passes outside every closed interval are
   * credited to nothing.
   */
  function Attribution(e: Event, r: Roster): (a: Option<Position>)
    ensures a.Some? ==> IsCountedPass(e) && Lookup(r, e.player.value).Some?
    ensures a.Some? ==>
      var tl := Lookup(r, e.player.value).value;
      exists k :: 0 <= k < |tl| && Covers(tl[k], MinuteOr0(e)) && tl[k].position == a.value &&
        forall j :: 0 <= j < k ==> !Covers(tl[j], MinuteOr0(e))
    ensures a.None? && IsCountedPass(e) && Lookup(r, e.player.value).Some? ==>
      var tl := Lookup(r, e.player.value).value;
      forall k :: 0 <= k < |tl| ==> !Covers(tl[k], MinuteOr0(e))
  {
    if !IsCountedPass(e) then None
    else
      match Lookup(r, e.player.value)
      case None => None
      case Some(tl) =>
        match FirstCovering(tl, MinuteOr0(e))
        case None => None
        case Some(k) => Some(tl[k].position)
  }

  /** `match_positions` after the pass loop has run over `events`. */
  function CreditPasses(m: StatsMap, events: seq<Event>, r: Roster): StatsMap
  {
    if events == [] then m
    else
      var m1 := CreditPasses(m, events[..|events| - 1], r);
      match Attribution(events[|events| - 1], r)
      case None => m1
      case Some(pos) => Credit(m1, pos, Totals(1, 0))
  }

  /** `_aggregate_pass_data`: each Pass adds 1 to at most one position and then the scan stops. */
  method AggregatePassData(events: seq<Event>, m: StatsMap, r: Roster) returns (m': StatsMap)
    ensures m' == CreditPasses(m, events, r)
  {
    m' := m;
    for i := 0 to |events|
      invariant m' == CreditPasses(m, events[..i], r)
    {
      assert events[..i + 1][..i] == events[..i];
      var e := events[i];
      if e.kind == Pass && e.player.Some? {
        var minute := MinuteOr0(e);
        var t := Lookup(r, e.player.value);
        if t.Some? {
          var tl := t.value;
          var j := 0;
          while j < |tl|
            invariant 0 <= j <= |tl|
            invariant forall k :: 0 <= k < j ==> !Covers(tl[k], minute)
            invariant m' == CreditPasses(m, events[..i], r)
          {
            if tl[j].end.None? {
              j := j + 1;
              continue;
            }
            if tl[j].start <= minute < tl[j].end.value {
              m' := Credit(m', tl[j].position, Totals(1, 0));
              break;
            }
            j := j + 1;
          }
        }
      }
    }
    assert events[..|events|] == events;
  }

  /** The number of events credited to `pos`. */
  function CountAttributed(events: seq<Event>, r: Roster, pos: Position): nat
  {
    if events == [] then 0
    else CountAttributed(events[..|events| - 1], r, pos) + (if Attribution(events[|events| - 1], r) == Some(pos) then 1 else 0)
  }

  function AttributedPositions(events: seq<Event>, r: Roster): set<Position>
  {
    set i | 0 <= i < |events| && Attribution(events[i], r).Some? :: Attribution(events[i], r).value
  }

  /** The pass loop creates exactly the positions it credits. */
  lemma {:induction false} CreditPassesKeys(m: StatsMap, events: seq<Event>, r: Roster)
    ensures CreditPasses(m, events, r).Keys == m.Keys + AttributedPositions(events, r)
    decreases |events|
  {
    if events != [] {
      var front := events[..|events| - 1];
      CreditPassesKeys(m, front, r);
      var a := Attribution(events[|events| - 1], r);
      if a.None? {
        assert CreditPasses(m, events, r) == CreditPasses(m, front, r);
      } else {
        assert CreditPasses(m, events, r) == Credit(CreditPasses(m, front, r), a.value, Totals(1, 0));
      }
      AttributedPositionsSnoc(events, r);
    }
  }

  lemma AttributedPositionsSnoc(events: seq<Event>, r: Roster)
    requires events != []
    ensures var a := Attribution(events[|events| - 1], r);
      AttributedPositions(events, r) == AttributedPositions(events[..|events| - 1], r) + (if a.Some? then {a.value} else {})
  {
    var front := events[..|events| - 1];
    var a := Attribution(events[|events| - 1], r);
    forall x | x in AttributedPositions(events, r)
      ensures x in AttributedPositions(front, r) + (if a.Some? then {a.value} else {})
    {
      var i :| 0 <= i < |events| && Attribution(events[i], r).Some? && Attribution(events[i], r).value == x;
      if i < |events| - 1 { assert front[i] == events[i]; }
    }
    forall x | x in AttributedPositions(front, r) ensures x in AttributedPositions(events, r) {
      var i :| 0 <= i < |front| && Attribution(front[i], r).Some? && Attribution(front[i], r).value == x;
      assert events[i] == front[i];
    }
  }

  /** The pass loop adds to each position the number of Pass events attributed to it and leaves minutes alone. */
  lemma {:induction false} CreditPassesMeaning(m: StatsMap, events: seq<Event>, r: Roster, pos: Position)
    ensures Get(CreditPasses(m, events, r), pos).passes == Get(m, pos).passes + CountAttributed(events, r, pos)
    ensures Get(CreditPasses(m, events, r), pos).minutes == Get(m, pos).minutes
    decreases |events|
  {
    if events != [] {
      var front := events[..|events| - 1];
      var prev := CreditPasses(m, front, r);
      CreditPassesMeaning(m, front, r, pos);
      var a := Attribution(events[|events| - 1], r);
      assert CountAttributed(events, r, pos) == CountAttributed(front, r, pos) + (if a == Some(pos) then 1 else 0);
      match a
      case None =>
        assert CreditPasses(m, events, r) == prev;
      case Some(q) =>
        assert CreditPasses(m, events, r) == Credit(prev, q, Totals(1, 0));
        if q == pos {
          assert Get(CreditPasses(m, events, r), pos).passes == Get(prev, pos).passes + 1;
        } else {
          assert Get(CreditPasses(m, events, r), pos) == Get(prev, pos);
        }
    } else {
      assert CreditPasses(m, events, r) == m;
    }
  }

  /** The number of Pass events that name a player. */
  function CountedPasses(events: seq<Event>): nat
  {
    if events == [] then 0
    else CountedPasses(events[..|events| - 1]) + (if IsCountedPass(events[|events| - 1]) then 1 else 0)
  }

  /** The passes credited to the positions `ps`, summed. */
  function SumAttributed(events: seq<Event>, r: Roster, ps: seq<Position>): nat
  {
    if ps == [] then 0 else CountAttributed(events, r, ps[0]) + SumAttributed(events, r, ps[1..])
  }

  /** How many of the positions `ps` the event is credited to. */
  function Hits(e: Event, r: Roster, ps: seq<Position>): nat
  {
    if ps == [] then 0 else (if Attribution(e, r) == Some(ps[0]) then 1 else 0) + Hits(e, r, ps[1..])
  }

  lemma {:induction false} HitsAbsent(e: Event, r: Roster, ps: seq<Position>)
    requires Attribution(e, r).None? || Attribution(e, r).value !in ps
    ensures Hits(e, r, ps) == 0
    decreases |ps|
  {
    if ps != [] {
      assert ps[1..] <= ps[1..] && forall x :: x in ps[1..] ==> x in ps;
      HitsAbsent(e, r, ps[1..]);
    }
  }

  lemma {:induction false} HitsAtMostOne(e: Event, r: Roster, ps: seq<Position>)
    requires forall i, j :: 0 <= i < j < |ps| ==> ps[i] != ps[j]
    ensures Hits(e, r, ps) <= (if IsCountedPass(e) then 1 else 0)
    decreases |ps|
  {
    if ps != [] {
      if Attribution(e, r) == Some(ps[0]) {
        HitsAbsent(e, r, ps[1..]);
      } else {
        HitsAtMostOne(e, r, ps[1..]);
      }
    }
  }

  lemma {:induction false} SumAttributedStep(events: seq<Event>, r: Roster, ps: seq<Position>)
    requires events != []
    ensures SumAttributed(events, r, ps) ==
      SumAttributed(events[..|events| - 1], r, ps) + Hits(events[|events| - 1], r, ps)
    decreases |ps|
  {
    if ps != [] {
      SumAttributedStep(events, r, ps[1..]);
    }
  }

  /**
   * Each Pass is credited at most once: over any distinct positions, the
   * credited passes add up to no more than the Pass events that name a player.
   */
  lemma {:induction false} PassesNeverExceedPassEvents(events: seq<Event>, r: Roster, ps: seq<Position>)
    requires forall i, j :: 0 <= i < j < |ps| ==> ps[i] != ps[j]
    ensures SumAttributed(events, r, ps) <= CountedPasses(events)
    decreases |events|
  {
    if events == [] {
      EmptySumAttributed(r, ps);
    } else {
      SumAttributedStep(events, r, ps);
      PassesNeverExceedPassEvents(events[..|events| - 1], r, ps);
      HitsAtMostOne(events[|events| - 1], r, ps);
    }
  }

  lemma {:induction false} EmptySumAttributed(r: Roster, ps: seq<Position>)
    ensures SumAttributed([], r, ps) == 0
    decreases |ps|
  {
    if ps != [] {
      EmptySumAttributed(r, ps[1..]);
    }
  }

  /** In a chained timeline with no interval running backwards, every earlier interval ends by where a later one starts. */
  lemma {:induction false} EndsBeforeLaterStart(tl: Timeline, j: nat, k: nat)
    requires ValidTimeline(tl) && Monotone(tl)
    requires j < k < |tl|
    ensures tl[j].end.Some? && tl[j].end.value <= tl[k].start
    decreases k - j
  {
    assert tl[j].end == Some(tl[j + 1].start);
    if j + 1 < k {
      EndsBeforeLaterStart(tl, j + 1, k);
      assert tl[j + 1].start <= tl[j + 1].end.value;
    }
  }

  /**
   * A pass at the minute where one interval ends and the next begins goes to
   * the later interval.
   */
  lemma BoundaryPassGoesToLaterInterval(tl: Timeline, k: nat)
    requires ValidTimeline(tl) && Monotone(tl)
    requires 0 < k < |tl| && Covers(tl[k], tl[k].start)
    ensures FirstCovering(tl, tl[k].start) == Some(k)
  {
    forall j | 0 <= j < k ensures !Covers(tl[j], tl[k].start) {
      EndsBeforeLaterStart(tl, j, k);
    }
  }

  // ---------------------------------------------------------------------------
  // process_match
  // ---------------------------------------------------------------------------

  /**
   * The statistics `process_match` returns for `events`: the timeline loop,
   * then finalize, then the pass loop, or the exception that aborted it.
   */
  function MatchStats(events: seq<Event>): (res: Result<StatsMap, MatchError>)
    ensures res != Failure(IndexError)
  {
    match BuildRoster(events)
    case Failure(err) => BuildRosterValid(events); Failure(err)
    case Success(r) =>
      BuildRosterValid(events);
      CloseAllClosed(r, MatchEnd(events));
      var c := CloseAll(r, MatchEnd(events));
      Success(CreditPasses(AddRosterMinutes(EmptyStats(), c), events, c))
  }

  /** The per-match processor; it counts the matches it has processed. */
  class MatchProcessor {
    var matchCounter: nat

    constructor()
      ensures matchCounter == 0
    {
      matchCounter := 0;
    }

    /** `get_match_counter`. */
    function GetMatchCounter(): nat
      reads this
    {
      matchCounter
    }

    /**
     * `process_match` on the event list the fetch would have returned: it
     * returns the match's statistics and counts the match once, or raises
     * without counting it.
     */
    method ProcessMatch(events: seq<Event>) returns (res: Result<StatsMap, MatchError>)
      modifies this
      ensures res == MatchStats(events)
      ensures GetMatchCounter() == old(GetMatchCounter()) + (if res.Success? then 1 else 0)
    {
      var built := BuildTimelines(events);
      if built.Failure? {
        BuildRosterValid(events);
        return Failure(built.error);
      }
      BuildRosterValid(events);
      ValidRosterOnlyLastOpen(built.value);
      var closed, stats := FinalizeProcess(built.value, EmptyStats(), events);
      stats := AggregatePassData(events, stats, closed);
      matchCounter := matchCounter + 1;
      return Success(stats);
    }
  }

  // ---------------------------------------------------------------------------
  // Properties of a whole match
  // ---------------------------------------------------------------------------

  /** A roster with no players stays empty under every event but a Starting XI. */
  lemma {:induction false} NoLineupKeepsRosterEmpty(events: seq<Event>)
    requires forall i :: 0 <= i < |events| ==> events[i].kind != StartingXi
    ensures BuildFrom([], events).Success? ==> BuildFrom([], events).value == []
    decreases |events|
  {
    if events != [] {
      var e := events[0];
      assert Players([]) == {};
      assert ApplyEvent([], e).Success? ==> ApplyEvent([], e).value == [];
      NoLineupKeepsRosterEmpty(events[1..]);
    }
  }

  /** With nobody tracked, no pass is credited. */
  lemma {:induction false} CreditPassesNobodyTracked(m: StatsMap, events: seq<Event>)
    ensures CreditPasses(m, events, []) == m
    decreases |events|
  {
    if events != [] {
      assert Players([]) == {};
      assert Attribution(events[|events| - 1], []).None?;
      CreditPassesNobodyTracked(m, events[..|events| - 1]);
    }
  }

  /** A match without a Starting XI yields an empty result (when it does not raise). */
  lemma NoStartingXiGivesEmptyStats(events: seq<Event>)
    requires forall i :: 0 <= i < |events| ==> events[i].kind != StartingXi
    ensures MatchStats(events).Success? ==> MatchStats(events).value == map[]
  {
    NoLineupKeepsRosterEmpty(events);
    if BuildRoster(events).Success? {
      var c := CloseAll([], MatchEnd(events));
      assert c == [];
      assert AddRosterMinutes(EmptyStats(), c) == map[];
      CreditPassesNobodyTracked(map[], events);
    }
  }
}
