/**
 * Per-position statistics: the `{position: {"passes": p, "minutes": m}}`
 * dictionaries that every layer of the pipeline builds and sums.  Python keeps
 * them in a `defaultdict` whose factory yields `{"passes": 0, "minutes": 0}`;
 * here a missing key simply reads as `Zero` through `Get`.
 */
module Stats {

  /** The passes and minutes credited to one position. */
  datatype Totals = Totals(passes: int, minutes: int)

  const Zero := Totals(0, 0)

  function Plus(a: Totals, b: Totals): Totals
  {
    Totals(a.passes + b.passes, a.minutes + b.minutes)
  }

  type StatsMap = map<string, Totals>

  /** Reading `m[pos]` from the defaultdict: an unseen position reads as zero. */
  function Get(m: StatsMap, pos: string): Totals
  {
    if pos in m then m[pos] else Zero
  }

  /** `m[pos]["passes"] += t.passes; m[pos]["minutes"] += t.minutes`: the key is created even when `t` is zero. */
  function Credit(m: StatsMap, pos: string, t: Totals): (r: StatsMap)
    ensures r.Keys == m.Keys + {pos}
    ensures Get(r, pos).passes == Get(m, pos).passes + t.passes
    ensures Get(r, pos).minutes == Get(m, pos).minutes + t.minutes
    ensures forall q :: q != pos ==> Get(r, q) == Get(m, q)
  {
    m[pos := Totals(Get(m, pos).passes + t.passes, Get(m, pos).minutes + t.minutes)]
  }

  /** Elementwise sum over the union of the position keys. */
  function Combine(a: StatsMap, b: StatsMap): (r: StatsMap)
    ensures r.Keys == a.Keys + b.Keys
    ensures forall pos :: Get(r, pos) == Plus(Get(a, pos), Get(b, pos))
  {
    map pos | pos in a.Keys + b.Keys :: Plus(Get(a, pos), Get(b, pos))
  }

  /** Two statistics maps are equal when they have the same keys and read the same everywhere. */
  lemma Extensional(a: StatsMap, b: StatsMap)
    requires a.Keys == b.Keys
    requires forall pos :: Get(a, pos) == Get(b, pos)
    ensures a == b
  {
    forall pos | pos in a ensures a[pos] == b[pos] {
      assert Get(a, pos) == Get(b, pos);
    }
  }

  lemma CombineCommutative(a: StatsMap, b: StatsMap)
    ensures Combine(a, b) == Combine(b, a)
  {
    Extensional(Combine(a, b), Combine(b, a));
  }

  lemma CombineAssociative(a: StatsMap, b: StatsMap, c: StatsMap)
    ensures Combine(Combine(a, b), c) == Combine(a, Combine(b, c))
  {
    Extensional(Combine(Combine(a, b), c), Combine(a, Combine(b, c)));
  }

  /** The empty map is the unit of `Combine`. */
  lemma CombineEmpty(a: StatsMap)
    ensures Combine(a, map[]) == a
  {
    Extensional(Combine(a, map[]), a);
  }

  /** Adding the maps `ps` into `acc`, one after the other, left to right. */
  function SumInto(acc: StatsMap, ps: seq<StatsMap>): StatsMap
    decreases |ps|
  {
    if ps == [] then acc else SumInto(Combine(acc, ps[0]), ps[1..])
  }

  /** The sum of position `pos` over all maps in `ps`. */
  function SumAt(ps: seq<StatsMap>, pos: string): Totals
    decreases |ps|
  {
    if ps == [] then Zero else Plus(Get(ps[0], pos), SumAt(ps[1..], pos))
  }

  /** Every key that occurs in some map of `ps`. */
  function KeysOf(ps: seq<StatsMap>): set<string>
    decreases |ps|
  {
    if ps == [] then {} else ps[0].Keys + KeysOf(ps[1..])
  }

  /** The running sum has every key seen so far and, at each key, the sum of the values at it. */
  lemma {:induction false} SumIntoMeaning(acc: StatsMap, ps: seq<StatsMap>)
    ensures SumInto(acc, ps).Keys == acc.Keys + KeysOf(ps)
    ensures forall pos :: Get(SumInto(acc, ps), pos).passes == Get(acc, pos).passes + SumAt(ps, pos).passes
    ensures forall pos :: Get(SumInto(acc, ps), pos).minutes == Get(acc, pos).minutes + SumAt(ps, pos).minutes
    decreases |ps|
  {
    if ps != [] {
      SumIntoMeaning(Combine(acc, ps[0]), ps[1..]);
    }
  }

  /** Moving one summand to the front does not change the sum. */
  lemma {:induction false} SumIntoMoveFront(acc: StatsMap, a: seq<StatsMap>, x: StatsMap, b: seq<StatsMap>)
    ensures SumInto(acc, a + [x] + b) == SumInto(Combine(acc, x), a + b)
    decreases |a|
  {
    if a == [] {
      var s := [x] + b;
      assert a + [x] + b == s && a + b == b;
      assert s != [] && s[0] == x && s[1..] == b;
      assert SumInto(acc, s) == SumInto(Combine(acc, s[0]), s[1..]);
    } else {
      var s := a + [x] + b;
      var t := a + b;
      assert s[0] == a[0] && s[1..] == a[1..] + [x] + b;
      assert t[0] == a[0] && t[1..] == a[1..] + b;
      var left := Combine(acc, a[0]);
      var right := Combine(Combine(acc, x), a[0]);
      calc {
        SumInto(acc, s);
        SumInto(left, a[1..] + [x] + b);
        { SumIntoMoveFront(left, a[1..], x, b); }
        SumInto(Combine(left, x), a[1..] + b);
        { CombineSwap(acc, a[0], x); }
        SumInto(right, a[1..] + b);
        SumInto(Combine(acc, x), t);
      }
    }
  }

  /** The order in which two maps are added into a total does not matter. */
  lemma CombineSwap(acc: StatsMap, p: StatsMap, q: StatsMap)
    ensures Combine(Combine(acc, p), q) == Combine(Combine(acc, q), p)
  {
    Extensional(Combine(Combine(acc, p), q), Combine(Combine(acc, q), p));
  }

  /** Summing the same maps in any order gives the same result. */
  lemma {:induction false} SumIntoAnyOrder(acc: StatsMap, ps: seq<StatsMap>, qs: seq<StatsMap>)
    requires multiset(ps) == multiset(qs)
    ensures SumInto(acc, ps) == SumInto(acc, qs)
    decreases |ps|
  {
    if ps == [] {
      assert |qs| == |multiset(qs)| == 0;
    } else {
      var x := ps[0];
      assert x in multiset(qs);
      var j :| 0 <= j < |qs| && qs[j] == x;
      assert qs == qs[..j] + [x] + qs[j + 1..];
      var rest := qs[..j] + qs[j + 1..];
      assert ps == [x] + ps[1..];
      calc {
        multiset(ps[1..]);
        multiset(ps) - multiset{x};
        multiset(qs) - multiset{x};
        multiset(qs[..j] + [x] + qs[j + 1..]) - multiset{x};
        multiset(rest);
      }
      SumIntoAnyOrder(Combine(acc, x), ps[1..], rest);
      SumIntoMoveFront(acc, qs[..j], x, qs[j + 1..]);
    }
  }

  /** The mapping that `_empty_stats()` returns: no keys, and every position reads as zero. */
  function EmptyStats(): (m: StatsMap)
    ensures m.Keys == {}
    ensures forall pos :: Get(m, pos) == Zero
  {
    map[]
  }

  /** Adding one more map at the end of the sum. */
  lemma {:induction false} SumIntoSnoc(acc: StatsMap, ps: seq<StatsMap>, p: StatsMap)
    ensures SumInto(acc, ps + [p]) == Combine(SumInto(acc, ps), p)
    decreases |ps|
  {
    if ps == [] {
      assert ps + [p] == [p] && [p][1..] == [];
    } else {
      assert (ps + [p])[0] == ps[0] && (ps + [p])[1..] == ps[1..] + [p];
      SumIntoSnoc(Combine(acc, ps[0]), ps[1..], p);
    }
  }

  /** `m` restricted to the keys in `ks`. */
  function Restrict(m: StatsMap, ks: set<string>): (r: StatsMap)
    ensures r.Keys == m.Keys * ks
    ensures forall k :: k in r ==> r[k] == m[k]
  {
    map k | k in m.Keys && k in ks :: m[k]
  }

  /** Adding one more key of `p` into a total is one `Credit`. */
  lemma CombineRestrictStep(t: StatsMap, p: StatsMap, done: set<string>, x: string)
    requires x in p && x !in done
    ensures Combine(t, Restrict(p, done + {x})) == Credit(Combine(t, Restrict(p, done)), x, p[x])
  {
    var lhs := Combine(t, Restrict(p, done + {x}));
    var rhs := Credit(Combine(t, Restrict(p, done)), x, p[x]);
    forall pos ensures Get(lhs, pos) == Get(rhs, pos) {
      if pos == x {
        assert Get(Restrict(p, done + {x}), x) == p[x];
        assert Get(Restrict(p, done), x) == Zero;
      } else {
        assert Get(Restrict(p, done + {x}), pos) == Get(Restrict(p, done), pos);
      }
    }
    Extensional(lhs, rhs);
  }

  /** Restricting to no key adds nothing; restricting to every key changes nothing. */
  lemma RestrictEnds(start: StatsMap, partial: StatsMap)
    ensures Combine(start, Restrict(partial, partial.Keys - partial.Keys)) == start
    ensures Restrict(partial, partial.Keys - {}) == partial
  {
    assert Restrict(partial, partial.Keys - partial.Keys) == map[];
    CombineEmpty(start);
  }

  /** One turn of the loop in `Accumulator.AddPositions`: `pos` moves from to-do to done. */
  lemma AddPositionsStep(start: StatsMap, partial: StatsMap, todo: set<string>, pos: string)
    requires pos in todo && todo <= partial.Keys
    ensures Combine(start, Restrict(partial, partial.Keys - (todo - {pos})))
         == Credit(Combine(start, Restrict(partial, partial.Keys - todo)), pos, partial[pos])
  {
    assert (partial.Keys - todo) + {pos} == partial.Keys - (todo - {pos});
    CombineRestrictStep(start, partial, partial.Keys - todo, pos);
  }

  /**
   * A running totals `defaultdict` that per-match or per-season maps are added
   * into in place.
   */
  class Accumulator {
    var totals: StatsMap

    /** `defaultdict(lambda: {"passes": 0, "minutes": 0})`. */
    constructor()
      ensures totals == EmptyStats()
    {
      totals := map[];
    }

    /**
     * `for position, stats in partial.items(): total[position]["passes"] +=
     * stats["passes"]; total[position]["minutes"] += stats["minutes"]`.
     */
    method AddPositions(partial: StatsMap)
      modifies this
      ensures totals == Combine(old(totals), partial)
    {
      ghost var start := totals;
      var todo := partial.Keys;
      RestrictEnds(start, partial);
      while todo != {}
        invariant todo <= partial.Keys
        invariant totals == Combine(start, Restrict(partial, partial.Keys - todo))
        decreases |todo|
      {
        var pos :| pos in todo;
        AddPositionsStep(start, partial, todo, pos);
        totals := Credit(totals, pos, partial[pos]);
        todo := todo - {pos};
      }
    }
  }
}
