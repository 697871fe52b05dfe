/** ORDER BY / OrderBy / OrderByDescending (with ThenBy) modelled as a stable
    insertion sort on lexicographic keys. Each sort column becomes one real
    component of the key, so `OrderBy(SeasonNumber).ThenBy(EpisodeNumber)` uses
    the key [season, episode]. Ties keep the order of the input, which is what
    LINQ to Objects guarantees and what the model chooses where the database
    leaves tie order unspecified. */
module Ordering {
  import Sequences

  type Key = seq<real>

  /** Lexicographic order on keys; a proper prefix comes first. */
  predicate KeyLe(a: Key, b: Key) {
    if a == [] then true
    else if b == [] then false
    else a[0] < b[0] || (a[0] == b[0] && KeyLe(a[1..], b[1..]))
  }

  lemma {:induction false} KeyLeReflexive(a: Key)
    ensures KeyLe(a, a)
  {
    if a != [] { KeyLeReflexive(a[1..]); }
  }

  lemma {:induction false} KeyLeTotal(a: Key, b: Key)
    ensures KeyLe(a, b) || KeyLe(b, a)
  {
    if a != [] && b != [] { KeyLeTotal(a[1..], b[1..]); }
  }

  lemma {:induction false} KeyLeTransitive(a: Key, b: Key, c: Key)
    requires KeyLe(a, b) && KeyLe(b, c)
    ensures KeyLe(a, c)
  {
    if a != [] && b != [] && c != [] && a[0] == b[0] && b[0] == c[0] {
      KeyLeTransitive(a[1..], b[1..], c[1..]);
    }
  }

  lemma {:induction false} KeyLeAntisymmetric(a: Key, b: Key)
    requires KeyLe(a, b) && KeyLe(b, a)
    ensures a == b
  {
    if a != [] && b != [] {
      KeyLeAntisymmetric(a[1..], b[1..]);
      assert a == [a[0]] + a[1..] && b == [b[0]] + b[1..];
    }
  }

  /** On one-column keys the order is the order of the reals. */
  lemma OneColumn(a: real, b: real)
    ensures KeyLe([a], [b]) <==> a <= b
  {
    assert [a][1..] == [] && [b][1..] == [];
  }

  /** On two-column keys the order is "first column, then second column". */
  lemma TwoColumns(a1: real, a2: real, b1: real, b2: real)
    ensures KeyLe([a1, a2], [b1, b2]) <==> a1 < b1 || (a1 == b1 && a2 <= b2)
  {
    assert [a1, a2][1..] == [a2] && [b1, b2][1..] == [b2];
    OneColumn(a2, b2);
  }

  /** Key `a` may come before key `b` in an ascending or descending sort. */
  predicate Before(a: Key, b: Key, descending: bool) {
    if descending then KeyLe(b, a) else KeyLe(a, b)
  }

  lemma BeforeReflexive(a: Key, descending: bool)
    ensures Before(a, a, descending)
  {
    KeyLeReflexive(a);
  }

  lemma BeforeTotal(a: Key, b: Key, descending: bool)
    ensures Before(a, b, descending) || Before(b, a, descending)
  {
    KeyLeTotal(a, b);
  }

  lemma BeforeTransitive(a: Key, b: Key, c: Key, descending: bool)
    requires Before(a, b, descending) && Before(b, c, descending)
    ensures Before(a, c, descending)
  {
    if descending { KeyLeTransitive(c, b, a); } else { KeyLeTransitive(a, b, c); }
  }

  /** Every earlier element may precede every later one. */
  ghost predicate Ordered<T>(s: seq<T>, key: T -> Key, descending: bool) {
    forall i, j :: 0 <= i < j < |s| ==> Before(key(s[i]), key(s[j]), descending)
  }

  /** A slice of an ordered sequence is ordered. */
  lemma SliceOrdered<T>(s: seq<T>, key: T -> Key, descending: bool, lo: int, hi: int)
    requires Ordered(s, key, descending) && 0 <= lo <= hi <= |s|
    ensures Ordered(s[lo..hi], key, descending)
  {
    forall i, j | 0 <= i < j < hi - lo
      ensures Before(key(s[lo..hi][i]), key(s[lo..hi][j]), descending)
    {
      assert s[lo..hi][i] == s[lo + i] && s[lo..hi][j] == s[lo + j];
    }
  }

  /** Places x in front of the first element it may precede. */
  function Insert<T>(x: T, s: seq<T>, key: T -> Key, descending: bool): (r: seq<T>)
    ensures multiset(r) == multiset(s) + multiset{x}
    ensures |r| == |s| + 1
  {
    if s == [] || Before(key(x), key(s[0]), descending) then [x] + s
    else
      assert s == [s[0]] + s[1..];
      [s[0]] + Insert(x, s[1..], key, descending)
  }

  /** The stable sort: the head is inserted in front of its ties in the
      sorted tail, so equal keys keep their input order. */
  function SortBy<T>(s: seq<T>, key: T -> Key, descending: bool): (r: seq<T>)
    ensures multiset(r) == multiset(s)
    ensures |r| == |s|
  {
    if s == [] then []
    else
      assert s == [s[0]] + s[1..];
      Insert(s[0], SortBy(s[1..], key, descending), key, descending)
  }

  lemma {:induction false} InsertOrdered<T>(x: T, s: seq<T>, key: T -> Key, descending: bool)
    requires Ordered(s, key, descending)
    ensures Ordered(Insert(x, s, key, descending), key, descending)
  {
    var r := Insert(x, s, key, descending);
    if s == [] {
    } else if Before(key(x), key(s[0]), descending) {
      forall i, j | 0 <= i < j < |r| ensures Before(key(r[i]), key(r[j]), descending) {
        if i == 0 && j > 1 {
          BeforeTransitive(key(x), key(s[0]), key(s[j - 1]), descending);
        }
      }
    } else {
      var t := Insert(x, s[1..], key, descending);
      InsertOrdered(x, s[1..], key, descending);
      assert r == [s[0]] + t;
      forall j | 0 < j < |r| ensures Before(key(s[0]), key(r[j]), descending) {
        var y := r[j];
        assert y == t[j - 1];
        assert y in multiset(t);
        if y == x {
          BeforeTotal(key(x), key(s[0]), descending);
        } else {
          assert y in multiset(s[1..]);
          var k :| 0 <= k < |s[1..]| && s[1..][k] == y;
          assert s[k + 1] == y;
        }
      }
    }
  }

  /** The sort yields an ordered permutation of its input. */
  lemma {:induction false} SortByOrdered<T>(s: seq<T>, key: T -> Key, descending: bool)
    ensures Ordered(SortBy(s, key, descending), key, descending)
  {
    if s != [] {
      SortByOrdered(s[1..], key, descending);
      InsertOrdered(s[0], SortBy(s[1..], key, descending), key, descending);
    }
  }

  /** The elements whose key is exactly k, in order. */
  function Ties<T>(s: seq<T>, key: T -> Key, k: Key): (r: seq<T>)
    ensures |r| <= |s|
  {
    if s == [] then []
    else (if key(s[0]) == k then [s[0]] else []) + Ties(s[1..], key, k)
  }

  lemma {:induction false} TiesAppend<T>(a: seq<T>, b: seq<T>, key: T -> Key, k: Key)
    ensures Ties(a + b, key, k) == Ties(a, key, k) + Ties(b, key, k)
  {
    if a != [] {
      assert (a + b)[0] == a[0] && (a + b)[1..] == a[1..] + b;
      TiesAppend(a[1..], b, key, k);
    } else {
      assert a + b == b;
    }
  }

  lemma {:induction false} InsertTies<T>(x: T, s: seq<T>, key: T -> Key, descending: bool, k: Key)
    ensures Ties(Insert(x, s, key, descending), key, k) == Ties([x], key, k) + Ties(s, key, k)
  {
    TiesAppend([x], s, key, k);
    if s != [] && !Before(key(x), key(s[0]), descending) {
      InsertTies(x, s[1..], key, descending, k);
      TiesAppend([s[0]], Insert(x, s[1..], key, descending), key, k);
      TiesAppend([s[0]], s[1..], key, k);
      assert s == [s[0]] + s[1..];
      if key(x) == k && key(s[0]) == k {
        BeforeReflexive(k, descending);
        assert false;
      }
    }
  }

  /** Stability: the elements with any given key come out in input order. */
  lemma {:induction false} SortByStable<T>(s: seq<T>, key: T -> Key, descending: bool, k: Key)
    ensures Ties(SortBy(s, key, descending), key, k) == Ties(s, key, k)
  {
    if s != [] {
      SortByStable(s[1..], key, descending, k);
      InsertTies(s[0], SortBy(s[1..], key, descending), key, descending, k);
      TiesAppend([s[0]], s[1..], key, k);
      assert s == [s[0]] + s[1..];
    }
  }

  /** Ties of a prefix are a prefix of the ties. */
  lemma PrefixTies<T>(s: seq<T>, m: nat, key: T -> Key, k: Key)
    requires m <= |s|
    ensures Ties(s[..m], key, k) <= Ties(s, key, k)
  {
    TiesAppend(s[..m], s[m..], key, k);
    assert s[..m] + s[m..] == s;
  }

  /** Sorting commutes with a projection that keeps the key: projecting and
      then sorting by the projected key gives the projection of the sorted
      input. */
  lemma {:induction false} InsertProjected<T, U>(x: T, s: seq<T>, key: T -> Key, f: T -> U, projectedKey: U -> Key, descending: bool)
    requires forall y :: projectedKey(f(y)) == key(y)
    ensures Insert(f(x), Sequences.Select(s, f), projectedKey, descending)
         == Sequences.Select(Insert(x, s, key, descending), f)
  {
    var fs := Sequences.Select(s, f);
    if s == [] {
    } else if Before(key(x), key(s[0]), descending) {
      assert Before(projectedKey(f(x)), projectedKey(fs[0]), descending);
    } else {
      assert !Before(projectedKey(f(x)), projectedKey(fs[0]), descending);
      assert fs[1..] == Sequences.Select(s[1..], f);
      InsertProjected(x, s[1..], key, f, projectedKey, descending);
    }
  }

  lemma {:induction false} SortProjected<T, U>(s: seq<T>, key: T -> Key, f: T -> U, projectedKey: U -> Key, descending: bool)
    requires forall y :: projectedKey(f(y)) == key(y)
    ensures SortBy(Sequences.Select(s, f), projectedKey, descending)
         == Sequences.Select(SortBy(s, key, descending), f)
  {
    if s != [] {
      var fs := Sequences.Select(s, f);
      assert fs[1..] == Sequences.Select(s[1..], f);
      SortProjected(s[1..], key, f, projectedKey, descending);
      InsertProjected(s[0], SortBy(s[1..], key, descending), key, f, projectedKey, descending);
    }
  }

  /** `top` keeps the best of `s`: every element of `s` left out of `top`
      comes after each element of `top` in the sort order. */
  ghost predicate KeepsTheBest<T>(s: seq<T>, top: seq<T>, key: T -> Key, descending: bool) {
    forall x, i :: x in multiset(s) - multiset(top) && 0 <= i < |top| ==> Before(key(top[i]), key(x), descending)
  }

  /** The first n of a sorted sequence keep the best. */
  lemma PrefixKeepsTheBest<T>(s: seq<T>, key: T -> Key, descending: bool, n: nat)
    requires n <= |s|
    ensures KeepsTheBest(s, SortBy(s, key, descending)[..n], key, descending)
  {
    var sorted := SortBy(s, key, descending);
    SortByOrdered(s, key, descending);
    var top, rest := sorted[..n], sorted[n..];
    assert sorted == top + rest;
    assert multiset(s) == multiset(top) + multiset(rest);
    forall x, i | x in multiset(s) - multiset(top) && 0 <= i < n ensures Before(key(top[i]), key(x), descending) {
      assert x in rest;
      var j :| 0 <= j < |rest| && rest[j] == x;
      assert sorted[n + j] == x && top[i] == sorted[i];
    }
  }
}
