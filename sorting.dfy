/**
 * `sorted(xs, key=k, reverse=True)` and `xs.sort(key=k, reverse=True)`:
 * Python's sort is stable, and `reverse=True` keeps it stable, so the result
 * is the input reordered into non-increasing key order with elements of
 * equal key left in their input order.  `SortDesc` is that order, built by
 * insertion; the lemmas below are the three facts callers use.
 */
module Sorting {

  /** Keys never increase from left to right. */
  predicate NonIncreasing<T>(s: seq<T>, key: T -> real)
  {
    forall i, j :: 0 <= i < j < |s| ==> key(s[i]) >= key(s[j])
  }

  /** Where `x` goes in a non-increasing `s`: after every element whose key is at least its own. */
  function InsertPoint<T>(x: T, s: seq<T>, key: T -> real): (k: nat)
    ensures k <= |s|
    ensures forall i :: 0 <= i < k ==> key(s[i]) >= key(x)
    ensures k < |s| ==> key(s[k]) < key(x)
    decreases |s|
  {
    if s == [] || key(s[0]) < key(x) then 0
    else
      var k := InsertPoint(x, s[1..], key);
      assert forall i :: 1 <= i < |s| ==> s[i] == s[1..][i - 1];
      1 + k
  }

  function Insert<T>(x: T, s: seq<T>, key: T -> real): seq<T>
  {
    var k := InsertPoint(x, s, key);
    s[..k] + [x] + s[k..]
  }

  /** The stable descending sort of `s`. */
  function SortDesc<T>(s: seq<T>, key: T -> real): seq<T>
    decreases |s|
  {
    if s == [] then [] else Insert(s[|s| - 1], SortDesc(s[..|s| - 1], key), key)
  }

  // ---------------------------------------------------------------------------
  // Sorted
  // ---------------------------------------------------------------------------

  lemma InsertNonIncreasing<T>(x: T, s: seq<T>, key: T -> real)
    requires NonIncreasing(s, key)
    ensures NonIncreasing(Insert(x, s, key), key)
  {
    var k := InsertPoint(x, s, key);
    var r := Insert(x, s, key);
    forall i, j | 0 <= i < j < |r| ensures key(r[i]) >= key(r[j]) {
      if j < k {
        assert r[i] == s[i] && r[j] == s[j];
      } else if j == k {
        assert r[i] == s[i] && r[j] == x;
      } else if i < k {
        assert r[i] == s[i] && r[j] == s[j - 1];
      } else if i == k {
        assert r[i] == x && r[j] == s[j - 1];
        assert key(s[k]) >= key(s[j - 1]);
      } else {
        assert r[i] == s[i - 1] && r[j] == s[j - 1];
      }
    }
  }

  /** The result is in non-increasing key order. */
  lemma {:induction false} SortDescNonIncreasing<T>(s: seq<T>, key: T -> real)
    ensures NonIncreasing(SortDesc(s, key), key)
    decreases |s|
  {
    if s != [] {
      SortDescNonIncreasing(s[..|s| - 1], key);
      InsertNonIncreasing(s[|s| - 1], SortDesc(s[..|s| - 1], key), key);
    }
  }

  // ---------------------------------------------------------------------------
  // A permutation
  // ---------------------------------------------------------------------------

  /** `[f(x) for x in s]`. */
  function MapSeq<T, U>(s: seq<T>, f: T -> U): (r: seq<U>)
    ensures |r| == |s| && forall i :: 0 <= i < |s| ==> r[i] == f(s[i])
  {
    seq(|s|, i requires 0 <= i < |s| => f(s[i]))
  }

  lemma MapSeqAppend<T, U>(a: seq<T>, b: seq<T>, f: T -> U)
    ensures MapSeq(a + b, f) == MapSeq(a, f) + MapSeq(b, f)
  {
  }

  /** Projecting two permutations of each other gives two permutations of each other. */
  lemma {:induction false} MapSeqPermutes<T, U>(a: seq<T>, b: seq<T>, f: T -> U)
    requires multiset(a) == multiset(b)
    ensures multiset(MapSeq(a, f)) == multiset(MapSeq(b, f))
    decreases |a|
  {
    if a == [] {
      assert |b| == |multiset(b)| == 0;
    } else {
      var j := FindFirst(a, b);
      MapSeqPermutes(a[1..], b[..j] + b[j + 1..], f);
      MapSeqRemoved(a, b, j, f);
    }
  }

  /** The first element of `a` occurs in its permutation `b`, and the rests are permutations. */
  lemma FindFirst<T>(a: seq<T>, b: seq<T>) returns (j: nat)
    requires a != [] && multiset(a) == multiset(b)
    ensures j < |b| && b[j] == a[0]
    ensures multiset(a[1..]) == multiset(b[..j] + b[j + 1..])
  {
    var x := a[0];
    assert x in multiset(b);
    j :| 0 <= j < |b| && b[j] == x;
    assert b == b[..j] + [x] + b[j + 1..];
    assert a == [x] + a[1..];
    calc {
      multiset(a[1..]);
      multiset(a) - multiset{x};
      multiset(b) - multiset{x};
      multiset(b[..j] + [x] + b[j + 1..]) - multiset{x};
      multiset(b[..j] + b[j + 1..]);
    }
  }

  /** Putting the same element back in front of one and at `j` in the other keeps projections permutations. */
  lemma MapSeqRemoved<T, U>(a: seq<T>, b: seq<T>, j: nat, f: T -> U)
    requires a != [] && j < |b| && b[j] == a[0]
    requires multiset(MapSeq(a[1..], f)) == multiset(MapSeq(b[..j] + b[j + 1..], f))
    ensures multiset(MapSeq(a, f)) == multiset(MapSeq(b, f))
  {
    var x := a[0];
    assert a == [x] + a[1..];
    assert b == b[..j] + [x] + b[j + 1..];
    MapSeqAppend([x], a[1..], f);
    MapSeqAppend(b[..j], [x], f);
    MapSeqAppend(b[..j] + [x], b[j + 1..], f);
    MapSeqAppend(b[..j], b[j + 1..], f);
  }

  /** Any projection of the elements is kept as a multiset; with the identity, the sort is a permutation. */
  lemma {:induction false} SortDescPermutes<T, U>(s: seq<T>, key: T -> real, f: T -> U)
    ensures |SortDesc(s, key)| == |s|
    ensures multiset(MapSeq(SortDesc(s, key), f)) == multiset(MapSeq(s, f))
    decreases |s|
  {
    if s != [] {
      var front, x := s[..|s| - 1], s[|s| - 1];
      SortDescPermutes(front, key, f);
      InsertMapPermutes(x, SortDesc(front, key), key, f);
      assert s == front + [x];
      MapSeqSnoc(front, x, f);
    }
  }

  /** Projecting `s + [x]` adds `f(x)` to the projection of `s`. */
  lemma MapSeqSnoc<T, U>(s: seq<T>, x: T, f: T -> U)
    ensures multiset(MapSeq(s + [x], f)) == multiset(MapSeq(s, f)) + multiset{f(x)}
  {
    MapSeqAppend(s, [x], f);
    assert MapSeq([x], f) == [f(x)];
  }

  /** Inserting `x` adds one element, and `f(x)` to any projection. */
  lemma InsertMapPermutes<T, U>(x: T, t: seq<T>, key: T -> real, f: T -> U)
    ensures |Insert(x, t, key)| == |t| + 1
    ensures multiset(MapSeq(Insert(x, t, key), f)) == multiset(MapSeq(t, f)) + multiset{f(x)}
  {
    var k := InsertPoint(x, t, key);
    assert t == t[..k] + t[k..];
    MapSeqAppend(t[..k], t[k..], f);
    MapSeqAppend(t[..k] + [x], t[k..], f);
    MapSeqSnoc(t[..k], x, f);
  }

  /** The sort is a permutation of its input. */
  lemma SortDescPermutation<T>(s: seq<T>, key: T -> real)
    ensures multiset(SortDesc(s, key)) == multiset(s)
  {
    var id := (x: T) => x;
    SortDescPermutes(s, key, id);
    assert MapSeq(SortDesc(s, key), id) == SortDesc(s, key);
    assert MapSeq(s, id) == s;
  }

  // ---------------------------------------------------------------------------
  // Stable
  // ---------------------------------------------------------------------------

  /** `[x]` when the key of `x` is `v`, nothing otherwise. */
  function KeepIf<T>(x: T, key: T -> real, v: real): seq<T>
  {
    if key(x) == v then [x] else []
  }

  /** The elements of `s` whose key is `v`, in their order in `s`. */
  function WithKey<T>(s: seq<T>, key: T -> real, v: real): seq<T>
    decreases |s|
  {
    if s == [] then [] else KeepIf(s[0], key, v) + WithKey(s[1..], key, v)
  }

  lemma {:induction false} WithKeyAppend<T>(a: seq<T>, b: seq<T>, key: T -> real, v: real)
    ensures WithKey(a + b, key, v) == WithKey(a, key, v) + WithKey(b, key, v)
    decreases |a|
  {
    if a == [] {
      assert a + b == b;
    } else {
      var h := KeepIf(a[0], key, v);
      assert (a + b)[0] == a[0] && (a + b)[1..] == a[1..] + b;
      assert WithKey(a + b, key, v) == h + WithKey(a[1..] + b, key, v);
      WithKeyAppend(a[1..], b, key, v);
      assert h + (WithKey(a[1..], key, v) + WithKey(b, key, v)) == (h + WithKey(a[1..], key, v)) + WithKey(b, key, v);
    }
  }

  lemma {:induction false} WithKeyNone<T>(s: seq<T>, key: T -> real, v: real)
    requires forall i :: 0 <= i < |s| ==> key(s[i]) != v
    ensures WithKey(s, key, v) == []
    decreases |s|
  {
    if s != [] {
      WithKeyNone(s[1..], key, v);
    }
  }

  lemma InsertWithKey<T>(x: T, t: seq<T>, key: T -> real, v: real)
    requires NonIncreasing(t, key)
    ensures WithKey(Insert(x, t, key), key, v) == WithKey(t, key, v) + WithKey([x], key, v)
  {
    AfterInsertPoint(x, t, key, v);
    SplitWithKey(x, t, InsertPoint(x, t, key), key, v);
  }

  /** Putting `x` at `k` keeps it after the elements of its key, when none follows `k`. */
  lemma SplitWithKey<T>(x: T, t: seq<T>, k: nat, key: T -> real, v: real)
    requires k <= |t|
    requires key(x) == v ==> WithKey(t[k..], key, v) == []
    ensures WithKey(t[..k] + [x] + t[k..], key, v) == WithKey(t, key, v) + WithKey([x], key, v)
  {
    var a, b, c := WithKey(t[..k], key, v), WithKey([x], key, v), WithKey(t[k..], key, v);
    WithKeySplitAt(t, k, key, v);
    WithKeyAround(t[..k], x, t[k..], key, v);
    if key(x) != v {
      WithKeySingle(x, key, v);
    }
    Rearrange(a, b, c);
  }

  lemma WithKeySplitAt<T>(t: seq<T>, k: nat, key: T -> real, v: real)
    requires k <= |t|
    ensures WithKey(t, key, v) == WithKey(t[..k], key, v) + WithKey(t[k..], key, v)
  {
    assert t == t[..k] + t[k..];
    WithKeyAppend(t[..k], t[k..], key, v);
  }

  lemma WithKeyAround<T>(lo: seq<T>, x: T, hi: seq<T>, key: T -> real, v: real)
    ensures WithKey(lo + [x] + hi, key, v) == (WithKey(lo, key, v) + WithKey([x], key, v)) + WithKey(hi, key, v)
  {
    WithKeyAppend(lo + [x], hi, key, v);
    WithKeyAppend(lo, [x], key, v);
  }

  lemma Rearrange<T>(a: seq<T>, b: seq<T>, c: seq<T>)
    requires b == [] || c == []
    ensures (a + b) + c == (a + c) + b
  {
    if b == [] {
      assert a + b == a && (a + c) + b == a + c;
    } else {
      assert (a + b) + c == a + b && a + c == a;
    }
  }

  lemma WithKeySingle<T>(x: T, key: T -> real, v: real)
    ensures WithKey([x], key, v) == KeepIf(x, key, v)
  {
    assert [x][0] == x && [x][1..] == [];
    assert KeepIf(x, key, v) + [] == KeepIf(x, key, v);
  }

  /** Past the insertion point of `x` no element has the key of `x`. */
  lemma AfterInsertPoint<T>(x: T, t: seq<T>, key: T -> real, v: real)
    requires NonIncreasing(t, key)
    ensures key(x) == v ==> WithKey(t[InsertPoint(x, t, key)..], key, v) == []
  {
    var k := InsertPoint(x, t, key);
    if key(x) == v {
      forall i | 0 <= i < |t[k..]| ensures key(t[k..][i]) != v {
        assert key(t[k + i]) <= key(t[k]);
      }
      WithKeyNone(t[k..], key, v);
    }
  }

  /** Stability: for every key, the elements carrying it appear in the same order as in the input. */
  lemma {:induction false} SortDescStable<T>(s: seq<T>, key: T -> real, v: real)
    ensures WithKey(SortDesc(s, key), key, v) == WithKey(s, key, v)
    decreases |s|
  {
    if s != [] {
      var front, x := s[..|s| - 1], s[|s| - 1];
      SortDescStable(front, key, v);
      SortDescNonIncreasing(front, key);
      InsertWithKey(x, SortDesc(front, key), key, v);
      assert s == front + [x];
      WithKeyAppend(front, [x], key, v);
    }
  }

  // ---------------------------------------------------------------------------
  // Already sorted
  // ---------------------------------------------------------------------------

  /** Input that is already in non-increasing order, ties included, comes back unchanged. */
  lemma {:induction false} SortDescSortedUnchanged<T>(s: seq<T>, key: T -> real)
    requires NonIncreasing(s, key)
    ensures SortDesc(s, key) == s
    decreases |s|
  {
    if s != [] {
      var front, x := s[..|s| - 1], s[|s| - 1];
      assert NonIncreasing(front, key);
      SortDescSortedUnchanged(front, key);
      InsertAtEnd(x, front, key);
      assert s == front + [x];
    }
  }

  lemma {:induction false} InsertAtEnd<T>(x: T, s: seq<T>, key: T -> real)
    requires forall i :: 0 <= i < |s| ==> key(s[i]) >= key(x)
    ensures Insert(x, s, key) == s + [x]
  {
    var k := InsertPoint(x, s, key);
    assert k == |s|;
    assert s[..k] == s && s[k..] == [];
  }
}
