/** Sequence operations the resolver is built from: the array `filter`, the
    insertion-ordered de-duplication a JavaScript `Set` performs, moving one
    value to the front, and the numeric ascending sort. */
module Sequences {

  /** `R` holds between every element and every later one. */
  ghost predicate Pairwise<T>(s: seq<T>, R: (T, T) -> bool)
  {
    forall i, j :: 0 <= i < j < |s| ==> R(s[i], s[j])
  }

  predicate Distinct<T(==)>(s: seq<T>)
  {
    forall i, j :: 0 <= i < j < |s| ==> s[i] != s[j]
  }

  predicate Ascending(s: seq<int>)
  {
    forall i, j :: 0 <= i < j < |s| ==> s[i] <= s[j]
  }

  predicate StrictlyAscending(s: seq<int>)
  {
    forall i, j :: 0 <= i < j < |s| ==> s[i] < s[j]
  }

  /** The elements of `s` that satisfy `p`, in their order in `s`. */
  function Filter<T(!new)>(s: seq<T>, p: T -> bool): (r: seq<T>)
    ensures |r| <= |s|
    ensures forall x :: x in r <==> x in s && p(x)
  {
    if s == [] then [] else (if p(s[0]) then [s[0]] else []) + Filter(s[1..], p)
  }

  /** Filtering a sequence that starts with `x`. */
  lemma FilterCons<T(!new)>(x: T, s: seq<T>, p: T -> bool)
    ensures Filter([x] + s, p) == (if p(x) then [x] else []) + Filter(s, p)
  {
    assert ([x] + s)[1..] == s;
  }

  /** Filtering with a predicate every element meets changes nothing. */
  lemma {:induction false} FilterAll<T(!new)>(s: seq<T>, p: T -> bool)
    requires forall x :: x in s ==> p(x)
    ensures Filter(s, p) == s
  {
    if s != [] {
      assert forall x :: x in s[1..] ==> x in s;
      FilterAll(s[1..], p);
      assert s == [s[0]] + s[1..];
    }
  }

  /** Filtering one more element at the end keeps it at the end, if it passes. */
  lemma {:induction false} FilterAppend<T(!new)>(s: seq<T>, x: T, p: T -> bool)
    ensures Filter(s + [x], p) == Filter(s, p) + (if p(x) then [x] else [])
  {
    if s == [] {
      assert [x][1..] == [];
    } else {
      assert (s + [x])[0] == s[0];
      assert (s + [x])[1..] == s[1..] + [x];
      FilterAppend(s[1..], x, p);
    }
  }

  /** Filtering keeps the relative order of the elements it keeps. */
  lemma {:induction false} FilterPairwise<T(!new)>(s: seq<T>, p: T -> bool, R: (T, T) -> bool)
    requires Pairwise(s, R)
    ensures Pairwise(Filter(s, p), R)
  {
    if s != [] {
      var rest := Filter(s[1..], p);
      assert Pairwise(s[1..], R) by {
        forall i, j | 0 <= i < j < |s[1..]| ensures R(s[1..][i], s[1..][j]) {
          assert s[1..][i] == s[i + 1] && s[1..][j] == s[j + 1];
        }
      }
      FilterPairwise(s[1..], p, R);
      if p(s[0]) {
        var r := Filter(s, p);
        assert r == [s[0]] + rest;
        forall i, j | 0 <= i < j < |r| ensures R(r[i], r[j]) {
          if i == 0 {
            assert r[j] in s[1..] by { assert r[j] == rest[j - 1]; }
            var k :| 0 <= k < |s[1..]| && s[1..][k] == r[j];
            assert s[k + 1] == r[j];
          } else {
            assert r[i] == rest[i - 1] && r[j] == rest[j - 1];
          }
        }
      }
    }
  }

  predicate Differ<T(==)>(a: T, b: T)
  {
    a != b
  }

  lemma FilterDistinct<T(!new)>(s: seq<T>, p: T -> bool)
    requires Distinct(s)
    ensures Distinct(Filter(s, p))
  {
    assert Pairwise(s, Differ) by {
      forall i, j | 0 <= i < j < |s| ensures Differ(s[i], s[j]) { }
    }
    FilterPairwise(s, p, Differ);
    var r := Filter(s, p);
    forall i, j | 0 <= i < j < |r| ensures r[i] != r[j] {
      assert Differ(r[i], r[j]);
    }
  }

  /** The position of the first occurrence of `x` in `s`. */
  function IndexOf<T(==)>(s: seq<T>, x: T): (k: nat)
    requires x in s
    ensures k < |s| && s[k] == x
    ensures forall j :: 0 <= j < k ==> s[j] != x
  {
    if s[0] == x then 0 else 1 + IndexOf(s[1..], x)
  }

  /** First-occurrence position, or |s| for a value that does not occur. */
  function Rank<T(==)>(s: seq<T>, x: T): nat
  {
    if x in s then IndexOf(s, x) else |s|
  }

  lemma IndexOfPrefix<T>(s: seq<T>, n: nat, x: T)
    requires n <= |s| && x in s[..n]
    ensures IndexOf(s, x) == IndexOf(s[..n], x)
  {
    var k := IndexOf(s[..n], x);
    var k' := IndexOf(s, x);
    assert s[k] == x;
    assert k' <= k;
    assert s[..n][k'] == s[k'];
  }

  /** The distinct elements of `s`, each at the position where it is first seen:
      what `Array.from(new Set(s))` produces. */
  function FirstSeen<T(==,!new)>(s: seq<T>): (r: seq<T>)
    ensures Distinct(r)
    ensures forall x :: x in r <==> x in s
    decreases |s|
  {
    if s == [] then []
    else
      var r0 := FirstSeen(s[..|s| - 1]);
      assert s == s[..|s| - 1] + [s[|s| - 1]];
      if s[|s| - 1] in r0 then r0 else r0 + [s[|s| - 1]]
  }

  lemma FirstSeenSnoc<T(!new)>(s: seq<T>, x: T)
    ensures FirstSeen(s + [x]) == if x in FirstSeen(s) then FirstSeen(s) else FirstSeen(s) + [x]
  {
    assert (s + [x])[..|s + [x]| - 1] == s;
  }

  /** `FirstSeen` lists values in the order of their first occurrence. */
  lemma {:induction false} FirstSeenOrder<T(!new)>(s: seq<T>)
    ensures forall i, j :: 0 <= i < j < |FirstSeen(s)| ==> Rank(s, FirstSeen(s)[i]) < Rank(s, FirstSeen(s)[j])
    decreases |s|
  {
    if s != [] {
      var p := s[..|s| - 1];
      var last := s[|s| - 1];
      var r0 := FirstSeen(p);
      var r := FirstSeen(s);
      FirstSeenOrder(p);
      assert s == p + [last];
      forall i, j | 0 <= i < j < |r| ensures Rank(s, r[i]) < Rank(s, r[j]) {
        assert r[i] in p by { assert r[i] == r0[i]; }
        IndexOfPrefix(s, |p|, r[i]);
        if j < |r0| {
          assert r[j] == r0[j];
          IndexOfPrefix(s, |p|, r[j]);
        } else {
          assert r[j] == last && last !in p;
          assert IndexOf(s, last) == |p|;
        }
      }
    }
  }

  /** `xs` with `v` moved to the front: `[v, ...xs.filter(e => e !== v)]`. */
  function Front<T(==,!new)>(xs: seq<T>, v: T): seq<T>
  {
    [v] + Filter(xs, e => e != v)
  }

  /** A list already headed by `v`, holding it once, is its own front. */
  lemma FrontFirst<T(!new)>(v: T, s: seq<T>)
    requires v !in s
    ensures Front([v] + s, v) == [v] + s
  {
    var p := e => e != v;
    assert !p(v);
    FilterCons(v, s, p);
    assert forall x :: x in s ==> p(x);
    FilterAll(s, p);
    assert Filter([v] + s, p) == [] + s == s;
  }

  /** Behind the moved value, `Front` keeps the order of `xs`. */
  lemma FrontPairwise<T(!new)>(xs: seq<T>, v: T, R: (T, T) -> bool)
    requires Pairwise(xs, R)
    ensures forall i, j :: 1 <= i < j < |Front(xs, v)| ==> R(Front(xs, v)[i], Front(xs, v)[j])
  {
    var rest := Filter(xs, e => e != v);
    FilterPairwise(xs, e => e != v, R);
    var r := Front(xs, v);
    assert r == [v] + rest;
    forall i, j | 1 <= i < j < |r| ensures R(r[i], r[j]) {
      assert r[i] == rest[i - 1] && r[j] == rest[j - 1];
    }
  }

  lemma FrontProperties<T(!new)>(xs: seq<T>, v: T)
    requires Distinct(xs) && v in xs
    ensures var r := Front(xs, v);
      && r[0] == v
      && Distinct(r)
      && (forall x :: x in r <==> x in xs)
  {
    var rest := Filter(xs, e => e != v);
    FilterDistinct(xs, e => e != v);
    var r := Front(xs, v);
    forall i, j | 0 <= i < j < |r| ensures r[i] != r[j] {
      if i == 0 {
        assert r[j] in rest by { assert r[j] == rest[j - 1]; }
      } else {
        assert r[i] == rest[i - 1] && r[j] == rest[j - 1];
      }
    }
  }

  /** `x` placed into ascending `s` before the first element not smaller than it. */
  function Insert(x: int, s: seq<int>): (r: seq<int>)
    ensures multiset(r) == multiset(s) + multiset{x}
    ensures forall y :: y in r <==> y in s || y == x
  {
    if s == [] then [x]
    else if x <= s[0] then [x] + s
    else
      assert s == [s[0]] + s[1..];
      [s[0]] + Insert(x, s[1..])
  }

  /** A head no greater (smaller) than every element keeps a list ascending
      (strictly ascending). */
  lemma ConsAscending(h: int, r: seq<int>, strict: bool)
    requires if strict then StrictlyAscending(r) else Ascending(r)
    requires forall y :: y in r ==> if strict then h < y else h <= y
    ensures if strict then StrictlyAscending([h] + r) else Ascending([h] + r)
  {
    var c := [h] + r;
    forall i, j | 0 <= i < j < |c| ensures if strict then c[i] < c[j] else c[i] <= c[j] {
      assert c[j] == r[j - 1];
      if i > 0 {
        assert c[i] == r[i - 1];
      } else {
        assert r[j - 1] in r;
      }
    }
  }

  lemma {:induction false} InsertAscending(x: int, s: seq<int>)
    requires Ascending(s)
    ensures Ascending(Insert(x, s))
    ensures StrictlyAscending(s) && x !in s ==> StrictlyAscending(Insert(x, s))
  {
    if s == [] {
    } else if x <= s[0] {
      ConsAscending(x, s, false);
      if StrictlyAscending(s) && x !in s {
        ConsAscending(x, s, true);
      }
    } else {
      var t := s[1..];
      assert Ascending(t);
      assert StrictlyAscending(s) ==> StrictlyAscending(t);
      InsertAscending(x, t);
      forall y | y in t ensures s[0] <= y && (StrictlyAscending(s) ==> s[0] < y) {
        var k :| 0 <= k < |t| && t[k] == y;
        assert s[k + 1] == y;
      }
      var r' := Insert(x, t);
      assert Insert(x, s) == [s[0]] + r';
      ConsAscending(s[0], r', false);
      if StrictlyAscending(s) && x !in s {
        ConsAscending(s[0], r', true);
      }
    }
  }

  /** Numeric ascending sort: `ids.sort((a, b) => a - b)`. */
  function SortAscending(s: seq<int>): (r: seq<int>)
    ensures multiset(r) == multiset(s)
    ensures forall y :: y in r <==> y in s
  {
    if s == [] then []
    else
      assert s == [s[0]] + s[1..];
      Insert(s[0], SortAscending(s[1..]))
  }

  /** The sort orders its result, strictly when the input has no repeated value. */
  lemma {:induction false} SortAscendingOrders(s: seq<int>)
    ensures Ascending(SortAscending(s))
    ensures Distinct(s) ==> StrictlyAscending(SortAscending(s))
  {
    if s != [] {
      SortAscendingOrders(s[1..]);
      assert Distinct(s) ==> Distinct(s[1..]) && s[0] !in s[1..];
      InsertAscending(s[0], SortAscending(s[1..]));
    }
  }
}
