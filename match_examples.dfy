// Concrete matches worked through the model: the scenarios the repository's
// own test suite uses for `_finalize_process`, `_aggregate_pass_data` and
// `process_match`.
module MatchExamples {
  import opened Wrappers
  import opened Stats
  import opened MatchProcessing

  /** An event that carries nothing but its minute. */
  function Tick(minute: int): Event
  {
    Event(OtherType, Some(minute), None, None, None, None)
  }

  /** A Pass by `player` at `minute`. */
  function PassBy(player: PlayerId, minute: int): Event
  {
    Event(Pass, Some(minute), Some(player), None, None, None)
  }

  /**
   * A goalkeeper closed at 90 and a player moved from CB to RB at 30, with
   * the last event at 92: GK 90, CB 30 and RB 62 minutes.
   */
  lemma FinalizeClosesAtLastMinute()
    ensures MatchEnd([Tick(10), Tick(50), Tick(92)]) == 92
    ensures var c := CloseAll([Entry(1, [Interval("GK", 0, Some(90))]),
                               Entry(2, [Interval("CB", 0, Some(30)), Interval("RB", 30, None)])], 92);
      AllClosed(c) &&
      var m := AddRosterMinutes(EmptyStats(), c);
      Get(m, "GK").minutes == 90 && Get(m, "CB").minutes == 30 && Get(m, "RB").minutes == 62
  {
    EndOfThreeTicks(10, 50, 92);
    LastMinuteMinutes();
    CreditThreeDistinct("GK", "CB", "RB", Totals(0, 90), Totals(0, 30), Totals(0, 62));
  }

  /** The minutes loops over the roster of `FinalizeClosesAtLastMinute`, closed at 92. */
  lemma LastMinuteMinutes()
    ensures var c := CloseAll([Entry(1, [Interval("GK", 0, Some(90))]),
                               Entry(2, [Interval("CB", 0, Some(30)), Interval("RB", 30, None)])], 92);
      AllClosed(c) &&
      AddRosterMinutes(EmptyStats(), c) ==
        Credit(Credit(Credit(EmptyStats(), "GK", Totals(0, 90)), "CB", Totals(0, 30)), "RB", Totals(0, 62))
  {
    var gk := Interval("GK", 0, Some(90));
    var cb := Interval("CB", 0, Some(30));
    var rb := Interval("RB", 30, None);
    var rbClosed := Interval("RB", 30, Some(92));
    CloseTwo(Entry(1, [gk]), Entry(2, [cb, rb]), 92);
    assert CloseOpen([gk], 92) == [gk];
    assert CloseOpen([cb, rb], 92) == [cb, rbClosed];
    var e := EmptyStats();
    TwoEntries(e, Entry(1, [gk]), Entry(2, [cb, rbClosed]));
    SingleIntervalMinutes(e, gk);
    TwoIntervalMinutes(AddTimelineMinutes(e, [gk]), cb, rbClosed);
  }

  /** Three credits to three different positions of an empty map. */
  lemma CreditThreeDistinct(p: string, q: string, s: string, a: Totals, b: Totals, c: Totals)
    requires p != q && q != s && p != s
    ensures var m := Credit(Credit(Credit(EmptyStats(), p, a), q, b), s, c);
      m.Keys == {p, q, s} && Get(m, p) == a && Get(m, q) == b && Get(m, s) == c
  {
  }

  /** Three ticks whose last is the latest end the match at the last one. */
  lemma EndOfThreeTicks(a: int, b: int, c: int)
    requires a <= c && b <= c
    ensures MatchEnd([Tick(a), Tick(b), Tick(c)]) == c
  {
    var events := [Tick(a), Tick(b), Tick(c)];
    assert MinuteOr0(events[0]) == a && MinuteOr0(events[1]) == b && MinuteOr0(events[2]) == c;
  }

  /** Closing a two-player roster closes each timeline in place. */
  lemma CloseTwo(a: Entry, b: Entry, end: int)
    ensures CloseAll([a, b], end) == [Entry(a.player, CloseOpen(a.timeline, end)), Entry(b.player, CloseOpen(b.timeline, end))]
  {
  }

  /** A two-interval closed timeline credits both lengths, in order, to any map. */
  lemma TwoIntervalMinutes(m: StatsMap, a: Interval, b: Interval)
    requires a.end.Some? && b.end.Some?
    ensures Closed([a, b])
    ensures AddTimelineMinutes(m, [a, b]) ==
      Credit(Credit(m, a.position, Totals(0, Duration(a))), b.position, Totals(0, Duration(b)))
  {
    assert [a, b][..1] == [a] && [a][..0] == [];
    assert AddTimelineMinutes(m, [a]) == Credit(m, a.position, Totals(0, Duration(a)));
  }

  /** `AddRosterMinutes` on a two-player roster, one timeline after the other. */
  lemma TwoEntries(m: StatsMap, a: Entry, b: Entry)
    requires Closed(a.timeline) && Closed(b.timeline)
    ensures AllClosed([a, b])
    ensures AddRosterMinutes(m, [a, b]) == AddTimelineMinutes(AddTimelineMinutes(m, a.timeline), b.timeline)
  {
    assert [a, b][..1] == [a] && [a][..0] == [];
    assert AddRosterMinutes(m, [a]) == AddTimelineMinutes(m, a.timeline);
  }

  /** With no events at all an interval opened at 10 closes at 90: LW 80 minutes. */
  lemma FinalizeDefaultsToNinety()
    ensures MatchEnd([]) == 90
    ensures var c := CloseAll([Entry(7, [Interval("LW", 10, None)])], 90);
      AllClosed(c) && Get(AddRosterMinutes(EmptyStats(), c), "LW").minutes == 80
  {
    var iv := Interval("LW", 10, None);
    var closed := Interval("LW", 10, Some(90));
    CloseOne(Entry(7, [iv]), 90);
    assert CloseOpen([iv], 90) == [closed];
    var e := EmptyStats();
    OneEntry(e, Entry(7, [closed]));
    SingleIntervalMinutes(e, closed);
  }

  /** An interval that ends before it starts counts 0 minutes, and its position still appears. */
  lemma FinalizeClampsNegativeLengths()
    ensures MatchEnd([Tick(60)]) == 60
    ensures var c := CloseAll([Entry(8, [Interval("CM", 50, Some(30))])], 60);
      AllClosed(c) &&
      var m := AddRosterMinutes(EmptyStats(), c);
      "CM" in m && Get(m, "CM").minutes == 0
  {
    EndOfOneTick(60);
    var iv := Interval("CM", 50, Some(30));
    CloseOne(Entry(8, [iv]), 60);
    assert CloseOpen([iv], 60) == [iv];
    var e := EmptyStats();
    OneEntry(e, Entry(8, [iv]));
    SingleIntervalMinutes(e, iv);
    assert Duration(iv) == 0;
    ZeroCredit(e, "CM");
  }

  /** A single tick ends the match at its minute. */
  lemma EndOfOneTick(a: int)
    ensures MatchEnd([Tick(a)]) == a
  {
  }

  /** Crediting nothing to a fresh position creates its key with zero totals. */
  lemma ZeroCredit(m: StatsMap, pos: string)
    requires pos !in m
    ensures pos in Credit(m, pos, Totals(0, 0)) && Get(Credit(m, pos, Totals(0, 0)), pos) == Zero
  {
  }

  /** Closing a one-player roster closes its timeline. */
  lemma CloseOne(a: Entry, end: int)
    ensures CloseAll([a], end) == [Entry(a.player, CloseOpen(a.timeline, end))]
  {
  }

  /** `AddRosterMinutes` on a one-player roster is that player's timeline. */
  lemma OneEntry(m: StatsMap, a: Entry)
    requires Closed(a.timeline)
    ensures AllClosed([a])
    ensures AddRosterMinutes(m, [a]) == AddTimelineMinutes(m, a.timeline)
  {
    assert [a][..0] == [];
  }

  function ExampleTimeline(): Timeline
  {
    [Interval("CM", 0, Some(30)), Interval("CAM", 30, Some(60))]
  }

  function ExamplePasses(): seq<Event>
  {
    [PassBy(10, 0), PassBy(10, 29), PassBy(10, 30), PassBy(10, 59), PassBy(999, 10),
     Event(OtherType, Some(15), Some(10), None, None, None)]
  }

  /** Where each event of `ExamplePasses` is credited. */
  lemma ExampleAttributions()
    ensures var r := [Entry(10, ExampleTimeline())];
      var events := ExamplePasses();
      Attribution(events[0], r) == Some("CM") && Attribution(events[1], r) == Some("CM") &&
      Attribution(events[2], r) == Some("CAM") && Attribution(events[3], r) == Some("CAM") &&
      Attribution(events[4], r) == None && Attribution(events[5], r) == None
  {
    var tl := ExampleTimeline();
    LookupSingle(10, tl, 10);
    LookupSingle(10, tl, 999);
    ExampleCoverings();
  }

  /** The lookup in a one-player roster. */
  lemma LookupSingle(p: PlayerId, tl: Timeline, q: PlayerId)
    ensures Lookup([Entry(p, tl)], q) == if q == p then Some(tl) else None
  {
  }

  /** Minutes 0 and 29 fall in CM [0, 30); 30 and 59 in CAM [30, 60). */
  lemma ExampleCoverings()
    ensures var tl := ExampleTimeline();
      FirstCovering(tl, 0) == Some(0) && FirstCovering(tl, 29) == Some(0) &&
      FirstCovering(tl, 30) == Some(1) && FirstCovering(tl, 59) == Some(1)
  {
    var tl := ExampleTimeline();
    assert FirstCovering(tl[1..], 30) == Some(0) && FirstCovering(tl[1..], 59) == Some(0);
  }

  /**
   * Passes at 0 and 29 go to CM [0, 30); the pass at the boundary 30 and the
   * one at 59 go to CAM [30, 60); an untracked passer and a non-pass event
   * are credited to nothing.
   */
  lemma PassesFollowPositionIntervals()
    ensures var m := CreditPasses(EmptyStats(), ExamplePasses(), [Entry(10, ExampleTimeline())]);
      Get(m, "CM").passes == 2 && Get(m, "CAM").passes == 2 && m.Keys == {"CM", "CAM"}
  {
    var r := [Entry(10, ExampleTimeline())];
    var x := ExamplePasses();
    ExampleAttributions();
    var e := EmptyStats();
    assert x == [x[0], x[1], x[2]] + [x[3], x[4], x[5]];
    CreditPassesAppend(e, [x[0], x[1], x[2]], [x[3], x[4], x[5]], r);
    CreditPassesThree(e, x[0], x[1], x[2], r);
    var m3 := Credit(Credit(Credit(e, "CM", Totals(1, 0)), "CM", Totals(1, 0)), "CAM", Totals(1, 0));
    CreditPassesThree(m3, x[3], x[4], x[5], r);
    TwoPassesEach("CM", "CAM");
  }

  /** Two passes to each of two positions of an empty map. */
  lemma TwoPassesEach(p: string, q: string)
    requires p != q
    ensures var one := Totals(1, 0);
      var m := Credit(Credit(Credit(Credit(EmptyStats(), p, one), p, one), q, one), q, one);
      Get(m, p).passes == 2 && Get(m, q).passes == 2 && m.Keys == {p, q}
  {
  }

  /** What one event adds in the pass loop, given its attribution. */
  function CreditOne(m: StatsMap, a: Option<Position>): StatsMap
  {
    if a.Some? then Credit(m, a.value, Totals(1, 0)) else m
  }

  /** The pass loop over one event. */
  lemma CreditPassesOne(m: StatsMap, x: Event, r: Roster)
    ensures CreditPasses(m, [x], r) == CreditOne(m, Attribution(x, r))
  {
    assert [x][..0] == [];
  }

  /** The pass loop over three events. */
  lemma CreditPassesThree(m: StatsMap, x: Event, y: Event, z: Event, r: Roster)
    ensures CreditPasses(m, [x, y, z], r) ==
      CreditOne(CreditOne(CreditOne(m, Attribution(x, r)), Attribution(y, r)), Attribution(z, r))
  {
    CreditPassesOne(m, x, r);
    assert [x] + [y] == [x, y];
    CreditPassesSnoc(m, [x], y, r);
    assert [x, y] + [z] == [x, y, z];
    CreditPassesSnoc(m, [x, y], z, r);
  }

  /** The pass loop over `s + [x]` is the loop over `s`, then `x`. */
  lemma CreditPassesSnoc(m: StatsMap, s: seq<Event>, x: Event, r: Roster)
    ensures CreditPasses(m, s + [x], r) == CreditOne(CreditPasses(m, s, r), Attribution(x, r))
  {
    assert (s + [x])[..|s|] == s;
  }

  /** The pass loop over `a + b` runs over `a`, then over `b`. */
  lemma {:induction false} CreditPassesAppend(m: StatsMap, a: seq<Event>, b: seq<Event>, r: Roster)
    ensures CreditPasses(m, a + b, r) == CreditPasses(CreditPasses(m, a, r), b, r)
    decreases |b|
  {
    if b == [] {
      assert a + b == a;
    } else {
      var front := b[..|b| - 1];
      CreditPassesAppend(m, a, front, r);
      assert (a + b)[..|a + b| - 1] == a + front;
      assert (a + b)[|a + b| - 1] == b[|b| - 1];
    }
  }

  /** A pass inside a still-open interval is not credited. */
  lemma OpenIntervalEarnsNoPass()
    ensures var m := CreditPasses(EmptyStats(), [PassBy(5, 10)], [Entry(5, [Interval("RW", 0, None)])]);
      Get(m, "RW").passes == 0
  {
    var r := [Entry(5, [Interval("RW", 0, None)])];
    assert Lookup(r, 5) == Some([Interval("RW", 0, None)]);
    assert FirstCovering([Interval("RW", 0, None)], 10) == None;
    assert [PassBy(5, 10)][..0] == [];
  }

  // ---------------------------------------------------------------------------
  // A whole match
  // ---------------------------------------------------------------------------

  /**
   * Starting XI with player 1 in goal and player 2 at CB; player 2 moves to
   * RB at 15 and passes at 20; player 3 replaces player 2 at 30 and passes at
   * 40 and 70; the last event is at 80.
   */
  function ExampleMatch(): seq<Event>
  {
    [Event(StartingXi, None, None, None, Some([LineupEntry(1, "GK"), LineupEntry(2, "CB")]), None),
     Event(OtherType, Some(15), Some(2), Some("RB"), None, None),
     PassBy(2, 20),
     Event(Substitution, Some(30), Some(2), None, None, Some(3)),
     PassBy(3, 40),
     PassBy(3, 70),
     Tick(80)]
  }

  /** The timelines the event loop builds for `ExampleMatch`. */
  function ExampleRoster(): Roster
  {
    [Entry(1, [Interval("GK", 0, None)]),
     Entry(2, [Interval("CB", 0, Some(15)), Interval("RB", 15, Some(30))]),
     Entry(3, [Interval("RB", 30, None)])]
  }

  /** After the Starting XI. */
  function AfterLineup(): Roster
  {
    [Entry(1, [Interval("GK", 0, None)]), Entry(2, [Interval("CB", 0, None)])]
  }

  /** After player 2 moves to RB. */
  function AfterMove(): Roster
  {
    [Entry(1, [Interval("GK", 0, None)]), Entry(2, [Interval("CB", 0, Some(15)), Interval("RB", 15, None)])]
  }

  lemma ExampleLineupStep()
    ensures ApplyEvent([], ExampleMatch()[0]) == Success(AfterLineup())
  {
    var lineup := [LineupEntry(1, "GK"), LineupEntry(2, "CB")];
    assert ExampleMatch()[0].lineup == Some(lineup);
    assert lineup[..1][..0] == [] && lineup[..1] == [lineup[0]];
    assert ApplyLineup([], lineup[..1][..0]) == [];
    assert Put([], 1, StartingTimeline("GK")) == [Entry(1, [Interval("GK", 0, None)])];
    assert ApplyLineup([], lineup[..1]) == [Entry(1, [Interval("GK", 0, None)])];
    assert IndexOf([Entry(1, [Interval("GK", 0, None)])], 2) == None;
    assert Put([Entry(1, [Interval("GK", 0, None)])], 2, StartingTimeline("CB")) == AfterLineup();
    assert ApplyLineup([], lineup) == AfterLineup();
  }

  lemma ExampleMoveStep()
    ensures ApplyEvent(AfterLineup(), ExampleMatch()[1]) == Success(AfterMove())
  {
    var r1 := AfterLineup();
    assert IndexOf(r1, 2) == Some(1);
    assert Lookup(r1, 2) == Some([Interval("CB", 0, None)]);
    var moved := Moved([Interval("CB", 0, None)], "RB", 15);
    assert moved == [Interval("CB", 0, Some(15)), Interval("RB", 15, None)];
    assert Put(r1, 2, moved) == AfterMove();
  }

  lemma ExamplePassStep()
    ensures ApplyEvent(AfterMove(), ExampleMatch()[2]) == Success(AfterMove())
  {
  }

  lemma ExampleSubstitutionStep()
    ensures ApplyEvent(AfterMove(), ExampleMatch()[3]) == Success(ExampleRoster())
  {
    var r2 := AfterMove();
    var out := [Interval("CB", 0, Some(15)), Interval("RB", 15, None)];
    assert IndexOf(r2, 2) == Some(1);
    assert Lookup(r2, 2) == Some(out);
    var closed := CloseLast(out, 30);
    assert closed == [Interval("CB", 0, Some(15)), Interval("RB", 15, Some(30))];
    var r3 := Put(r2, 2, closed);
    assert r3 == [Entry(1, [Interval("GK", 0, None)]), Entry(2, closed)];
    assert IndexOf(r3, 3) == None;
    assert Put(r3, 3, [Interval("RB", 30, None)]) == ExampleRoster();
  }

  lemma ExampleMatchRoster()
    ensures BuildRoster(ExampleMatch()) == Success(ExampleRoster())
  {
    var events := ExampleMatch();
    var r4 := ExampleRoster();
    ExampleLineupStep();
    ExampleMoveStep();
    ExamplePassStep();
    ExampleSubstitutionStep();
    assert ApplyEvent(r4, events[4]) == Success(r4);
    assert ApplyEvent(r4, events[5]) == Success(r4);
    assert ApplyEvent(r4, events[6]) == Success(r4);
    assert BuildFrom(r4, events[7..]) == Success(r4);
    assert events[6..][1..] == events[7..];
    assert BuildFrom(r4, events[6..]) == Success(r4);
    assert events[5..][1..] == events[6..];
    assert BuildFrom(r4, events[5..]) == Success(r4);
    assert events[4..][1..] == events[5..];
    assert BuildFrom(r4, events[4..]) == Success(r4);
    assert events[3..][1..] == events[4..];
    assert BuildFrom(AfterMove(), events[3..]) == Success(r4);
    assert events[2..][1..] == events[3..];
    assert BuildFrom(AfterMove(), events[2..]) == Success(r4);
    assert events[1..][1..] == events[2..];
    assert BuildFrom(AfterLineup(), events[1..]) == Success(r4);
  }

  lemma ExampleMatchEnd()
    ensures MatchEnd(ExampleMatch()) == 80
  {
    var events := ExampleMatch();
    assert MatchEnd(events[6..]) == 80;
    assert events[5..][1..] == events[6..];
    assert MatchEnd(events[5..]) == 80;
    assert events[4..][1..] == events[5..];
    assert MatchEnd(events[4..]) == 80;
    assert events[3..][1..] == events[4..];
    assert MatchEnd(events[3..]) == 80;
    assert events[2..][1..] == events[3..];
    assert MatchEnd(events[2..]) == 80;
    assert events[1..][1..] == events[2..];
    assert MatchEnd(events[1..]) == 80;
  }

  /** The example roster closed at the match end. */
  function ExampleClosed(): Roster
  {
    [Entry(1, [Interval("GK", 0, Some(80))]),
     Entry(2, [Interval("CB", 0, Some(15)), Interval("RB", 15, Some(30))]),
     Entry(3, [Interval("RB", 30, Some(80))])]
  }

  lemma ExampleMatchClosed()
    ensures CloseAll(ExampleRoster(), 80) == ExampleClosed()
  {
    var r := ExampleRoster();
    var c := CloseAll(r, 80);
    var want := ExampleClosed();
    assert c[0] == want[0] by {
      assert CloseOpen(r[0].timeline, 80) == [Interval("GK", 0, Some(80))];
    }
    assert c[1] == want[1] by {
      assert CloseOpen(r[1].timeline, 80) == r[1].timeline;
    }
    assert c[2] == want[2] by {
      assert CloseOpen(r[2].timeline, 80) == [Interval("RB", 30, Some(80))];
    }
  }

  /** A one-interval closed timeline adds its length to its position in any map. */
  lemma SingleIntervalMinutes(m: StatsMap, iv: Interval)
    requires iv.end.Some?
    ensures Closed([iv])
    ensures AddTimelineMinutes(m, [iv]) == Credit(m, iv.position, Totals(0, Duration(iv)))
  {
    assert [iv][..0] == [];
  }

  /** `AddRosterMinutes` on a three-player roster, one timeline after the other. */
  lemma ThreeEntries(m: StatsMap, a: Entry, b: Entry, c: Entry)
    requires Closed(a.timeline) && Closed(b.timeline) && Closed(c.timeline)
    ensures AllClosed([a, b, c])
    ensures AddRosterMinutes(m, [a, b, c]) ==
      AddTimelineMinutes(AddTimelineMinutes(AddTimelineMinutes(m, a.timeline), b.timeline), c.timeline)
  {
    assert [a, b, c][..2] == [a, b] && [a, b][..1] == [a] && [a][..0] == [];
    assert AddRosterMinutes(m, [a]) == AddTimelineMinutes(m, a.timeline);
    assert AddRosterMinutes(m, [a, b]) == AddTimelineMinutes(AddTimelineMinutes(m, a.timeline), b.timeline);
  }

  /** The minutes `_finalize_process` adds to any map for the example: GK 80, CB 15, RB 15 + 50. */
  lemma ExampleMatchMinutes(m0: StatsMap)
    ensures AllClosed(ExampleClosed())
    ensures var m := AddRosterMinutes(m0, ExampleClosed());
      && m.Keys == m0.Keys + {"GK", "CB", "RB"}
      && Get(m, "GK") == Plus(Get(m0, "GK"), Totals(0, 80))
      && Get(m, "CB") == Plus(Get(m0, "CB"), Totals(0, 15))
      && Get(m, "RB") == Plus(Get(m0, "RB"), Totals(0, 65))
  {
    ExampleMinuteChain(m0);
    CreditFour(m0, "GK", "CB", "RB", Totals(0, 80), Totals(0, 15), Totals(0, 15), Totals(0, 50));
  }

  /** The four minute credits of the example, in roster order. */
  lemma ExampleMinuteChain(m0: StatsMap)
    ensures AllClosed(ExampleClosed())
    ensures AddRosterMinutes(m0, ExampleClosed()) ==
      Credit(Credit(Credit(Credit(m0, "GK", Totals(0, 80)), "CB", Totals(0, 15)), "RB", Totals(0, 15)), "RB", Totals(0, 50))
  {
    var gk := Interval("GK", 0, Some(80));
    var cb := Interval("CB", 0, Some(15));
    var rb := Interval("RB", 15, Some(30));
    var late := Interval("RB", 30, Some(80));
    assert ExampleClosed() == [Entry(1, [gk]), Entry(2, [cb, rb]), Entry(3, [late])];
    ThreeEntries(m0, Entry(1, [gk]), Entry(2, [cb, rb]), Entry(3, [late]));
    SingleIntervalMinutes(m0, gk);
    var m1 := Credit(m0, "GK", Totals(0, 80));
    TwoIntervalMinutes(m1, cb, rb);
    SingleIntervalMinutes(Credit(Credit(m1, "CB", Totals(0, 15)), "RB", Totals(0, 15)), late);
  }

  /** Credits to three different positions, then one more to the last. */
  lemma CreditFour(m0: StatsMap, p: string, q: string, s: string, a: Totals, b: Totals, c: Totals, d: Totals)
    requires p != q && q != s && p != s
    ensures var m := Credit(Credit(Credit(Credit(m0, p, a), q, b), s, c), s, d);
      && m.Keys == m0.Keys + {p, q, s}
      && Get(m, p) == Plus(Get(m0, p), a) && Get(m, q) == Plus(Get(m0, q), b)
      && Get(m, s) == Plus(Plus(Get(m0, s), c), d)
  {
  }

  /** Where the pass loop credits each event of the example. */
  lemma ExampleMatchAttributions()
    ensures var events, c := ExampleMatch(), ExampleClosed();
      && Attribution(events[0], c) == None && Attribution(events[1], c) == None
      && Attribution(events[2], c) == Some("RB") && Attribution(events[3], c) == None
      && Attribution(events[4], c) == Some("RB") && Attribution(events[5], c) == Some("RB")
      && Attribution(events[6], c) == None
  {
    var two := [Interval("CB", 0, Some(15)), Interval("RB", 15, Some(30))];
    var three := [Interval("RB", 30, Some(80))];
    ExampleClosedLookups();
    assert FirstCovering(two, 20) == Some(1) by {
      assert FirstCovering(two[1..], 20) == Some(0);
    }
    assert FirstCovering(three, 40) == Some(0) && FirstCovering(three, 70) == Some(0);
  }

  /** The closed timelines of the two players who pass. */
  lemma ExampleClosedLookups()
    ensures Lookup(ExampleClosed(), 2) == Some([Interval("CB", 0, Some(15)), Interval("RB", 15, Some(30))])
    ensures Lookup(ExampleClosed(), 3) == Some([Interval("RB", 30, Some(80))])
  {
    var c := ExampleClosed();
    assert IndexOf(c, 2) == Some(1) && IndexOf(c, 3) == Some(2);
  }

  /** The pass loop over the example adds three passes at RB to any map, and nothing else. */
  lemma ExampleMatchPasses(m: StatsMap)
    ensures var m' := CreditPasses(m, ExampleMatch(), ExampleClosed());
      && m'.Keys == m.Keys + {"RB"}
      && Get(m', "RB").passes == Get(m, "RB").passes + 3 && Get(m', "RB").minutes == Get(m, "RB").minutes
      && forall q :: q != "RB" ==> Get(m', q) == Get(m, q)
  {
    var x := ExampleMatch();
    var c := ExampleClosed();
    ExampleMatchAttributions();
    var front := [x[0], x[1], x[2]] + [x[3], x[4], x[5]];
    assert x == front + [x[6]];
    CreditPassesAppend(m, front, [x[6]], c);
    CreditPassesAppend(m, [x[0], x[1], x[2]], [x[3], x[4], x[5]], c);
    CreditPassesThree(m, x[0], x[1], x[2], c);
    var p1 := Credit(m, "RB", Totals(1, 0));
    CreditPassesThree(p1, x[3], x[4], x[5], c);
    var p3 := Credit(Credit(p1, "RB", Totals(1, 0)), "RB", Totals(1, 0));
    CreditPassesOne(p3, x[6], c);
    ThreePassesAt(m, "RB");
  }

  /** Three passes credited to one position of any map. */
  lemma ThreePassesAt(m: StatsMap, p: string)
    ensures var one := Totals(1, 0);
      var m' := Credit(Credit(Credit(m, p, one), p, one), p, one);
      && m'.Keys == m.Keys + {p}
      && Get(m', p).passes == Get(m, p).passes + 3 && Get(m', p).minutes == Get(m, p).minutes
      && forall q :: q != p ==> Get(m', q) == Get(m, q)
  {
  }

  /** GK 80 minutes, CB 15 minutes, RB 65 minutes and all 3 passes. */
  lemma ExampleMatchStats(events: seq<Event>)
    requires events == ExampleMatch()
    ensures MatchStats(events).Success?
    ensures var m := MatchStats(events).value;
      && m.Keys == {"GK", "CB", "RB"}
      && Get(m, "GK") == Totals(0, 80)
      && Get(m, "CB") == Totals(0, 15)
      && Get(m, "RB") == Totals(3, 65)
  {
    var e := EmptyStats();
    ExampleMatchResult(events, ExampleClosed(), e);
    var minutes := AddRosterMinutes(e, ExampleClosed());
    ExampleMatchTotals(e, minutes, MatchStats(events).value);
  }

  /** The totals of the pass loop over the example, after the minutes loops from no statistics. */
  lemma ExampleMatchTotals(e: StatsMap, minutes: StatsMap, m: StatsMap)
    requires e.Keys == {}
    requires minutes == AddRosterMinutes(e, ExampleClosed())
    requires m == CreditPasses(minutes, ExampleMatch(), ExampleClosed())
    ensures m.Keys == {"GK", "CB", "RB"}
    ensures Get(m, "GK") == Totals(0, 80) && Get(m, "CB") == Totals(0, 15) && Get(m, "RB") == Totals(3, 65)
  {
    ExampleMinutesFromNothing(e, minutes);
    ExampleMatchPasses(minutes);
    ThreePassesOnTop(minutes, m);
  }

  /** The minutes loops over the example, from no statistics. */
  lemma ExampleMinutesFromNothing(e: StatsMap, minutes: StatsMap)
    requires e.Keys == {}
    requires minutes == AddRosterMinutes(e, ExampleClosed())
    ensures minutes.Keys == {"GK", "CB", "RB"}
    ensures Get(minutes, "GK") == Totals(0, 80) && Get(minutes, "CB") == Totals(0, 15) && Get(minutes, "RB") == Totals(0, 65)
  {
    ExampleMatchMinutes(e);
    MinutesOnNothing(e, minutes);
  }

  /** Minutes added to no statistics are the minutes themselves. */
  lemma MinutesOnNothing(e: StatsMap, minutes: StatsMap)
    requires e.Keys == {}
    requires minutes.Keys == e.Keys + {"GK", "CB", "RB"}
    requires Get(minutes, "GK") == Plus(Get(e, "GK"), Totals(0, 80))
    requires Get(minutes, "CB") == Plus(Get(e, "CB"), Totals(0, 15))
    requires Get(minutes, "RB") == Plus(Get(e, "RB"), Totals(0, 65))
    ensures minutes.Keys == {"GK", "CB", "RB"}
    ensures Get(minutes, "GK") == Totals(0, 80) && Get(minutes, "CB") == Totals(0, 15) && Get(minutes, "RB") == Totals(0, 65)
  {
  }

  /** Three passes credited to "RB" on top of the example's minutes. */
  lemma ThreePassesOnTop(minutes: StatsMap, m: StatsMap)
    requires minutes.Keys == {"GK", "CB", "RB"}
    requires Get(minutes, "GK") == Totals(0, 80) && Get(minutes, "CB") == Totals(0, 15) && Get(minutes, "RB") == Totals(0, 65)
    requires m.Keys == minutes.Keys + {"RB"}
    requires Get(m, "RB").passes == Get(minutes, "RB").passes + 3 && Get(m, "RB").minutes == Get(minutes, "RB").minutes
    requires forall q :: q != "RB" ==> Get(m, q) == Get(minutes, q)
    ensures m.Keys == {"GK", "CB", "RB"}
    ensures Get(m, "GK") == Totals(0, 80) && Get(m, "CB") == Totals(0, 15) && Get(m, "RB") == Totals(3, 65)
  {
  }

  /** The example's statistics are the pass loop over the closed roster, after the minutes loops. */
  lemma ExampleMatchResult(events: seq<Event>, c: Roster, e: StatsMap)
    requires events == ExampleMatch() && c == ExampleClosed() && e == EmptyStats()
    ensures AllClosed(c)
    ensures MatchStats(events) == Success(CreditPasses(AddRosterMinutes(e, c), events, c))
  {
    ExampleMatchRoster();
    ExampleMatchEnd();
    ExampleMatchClosed();
    ExampleMatchMinutes(e);
  }

  /** A fresh processor that has processed `ExampleMatch` has counted one match. */
  method ProcessExampleMatch() returns (res: Result<StatsMap, MatchError>, counter: nat)
    ensures res.Success? && Get(res.value, "RB") == Totals(3, 65)
    ensures counter == 1
  {
    var mp := new MatchProcessor();
    res := mp.ProcessMatch(ExampleMatch());
    ExampleMatchStats(ExampleMatch());
    counter := mp.GetMatchCounter();
  }
}
