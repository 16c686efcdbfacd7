/**
 * The store queries the handlers issue, over a collection held in insertion order:
 * `find(filter)`, `.sort({ createdAt: -1 })` and `.limit(n)`.
 * The store leaves the order of equal sort keys unspecified; the model's sort is one such order.
 */
module Query {
  import Wrappers

  /** `findOne(filter)` in collection order: the position of the first match, if any. */
  function FirstIndex<T>(s: seq<T>, p: T -> bool): (r: Wrappers.Option<nat>)
    ensures r.None? <==> forall i :: 0 <= i < |s| ==> !p(s[i])
    ensures r.Some? ==> r.value < |s| && p(s[r.value]) && forall i :: 0 <= i < r.value ==> !p(s[i])
  {
    if s == [] then Wrappers.None
    else if p(s[0]) then Wrappers.Some(0)
    else
      match FirstIndex(s[1..], p)
      case None => Wrappers.None
      case Some(k) => Wrappers.Some(k + 1)
  }

  /** `find(filter)`: the documents that satisfy p, in collection order. */
  function Filter<T(!new)>(s: seq<T>, p: T -> bool): (r: seq<T>)
    ensures |r| <= |s|
    ensures forall i :: 0 <= i < |r| ==> p(r[i])
  {
    if s == [] then []
    else (if p(s[0]) then [s[0]] else []) + Filter(s[1..], p)
  }

  /** `find` keeps each matching document as often as it is stored and drops the rest. */
  lemma {:induction false} FilterCounts<T(!new)>(s: seq<T>, p: T -> bool)
    ensures forall x :: multiset(Filter(s, p))[x] == if p(x) then multiset(s)[x] else 0
  {
    if s != [] {
      assert s == [s[0]] + s[1..];
      FilterCounts(s[1..], p);
    }
  }

  /** Filtering a concatenation filters each part. */
  lemma {:induction false} FilterConcat<T(!new)>(a: seq<T>, b: seq<T>, p: T -> bool)
    ensures Filter(a + b, p) == Filter(a, p) + Filter(b, p)
  {
    if a == [] {
      assert a + b == b;
    } else {
      var h := if p(a[0]) then [a[0]] else [];
      calc {
        Filter(a + b, p);
        { assert (a + b)[0] == a[0]; }
        h + Filter((a + b)[1..], p);
        { assert (a + b)[1..] == a[1..] + b; }
        h + Filter(a[1..] + b, p);
        { FilterConcat(a[1..], b, p); }
        h + (Filter(a[1..], p) + Filter(b, p));
        (h + Filter(a[1..], p)) + Filter(b, p);
        Filter(a, p) + Filter(b, p);
      }
    }
  }

  /** Ordered by descending key: newest first when the key is a creation time. */
  predicate SortedDesc<T>(s: seq<T>, key: T -> int) {
    forall i, j :: 0 <= i < j < |s| ==> key(s[i]) >= key(s[j])
  }

  function InsertDesc<T>(x: T, s: seq<T>, key: T -> int): (r: seq<T>)
    requires SortedDesc(s, key)
    ensures SortedDesc(r, key)
    ensures multiset(r) == multiset(s) + multiset{x}
    ensures |r| == |s| + 1 && (r[0] == x || (s != [] && r[0] == s[0]))
  {
    if s == [] || key(x) >= key(s[0]) then
      ConsSorted(x, s, key);
      [x] + s
    else
      var t := InsertDesc(x, s[1..], key);
      assert s == [s[0]] + s[1..];
      ConsSorted(s[0], t, key);
      [s[0]] + t
  }

  /** A head no smaller than the first element of a sorted sequence keeps it sorted. */
  lemma ConsSorted<T>(h: T, t: seq<T>, key: T -> int)
    requires SortedDesc(t, key) && (t == [] || key(h) >= key(t[0]))
    ensures SortedDesc([h] + t, key)
  {
    var r := [h] + t;
    forall i, j | 0 <= i < j < |r| ensures key(r[i]) >= key(r[j]) {
      assert r[j] == t[j - 1];
      if i == 0 {
        if j > 1 { assert key(t[0]) >= key(t[j - 1]); }
      } else {
        assert r[i] == t[i - 1];
      }
    }
  }

  /** `.sort({ key: -1 })`: a permutation of s in descending key order. */
  function SortDesc<T>(s: seq<T>, key: T -> int): (r: seq<T>)
    ensures SortedDesc(r, key)
    ensures multiset(r) == multiset(s)
    ensures |r| == |s|
  {
    if s == [] then []
    else
      assert s == [s[0]] + s[1..];
      InsertDesc(s[0], SortDesc(s[1..], key), key)
  }

  /**
   * `find(filter).sort({ key: -1 })`: every matching document, each as often as stored,
   * no other, in descending key order.
   */
  lemma SortedFilter<T(!new)>(s: seq<T>, p: T -> bool, key: T -> int)
    ensures var r := SortDesc(Filter(s, p), key);
      && SortedDesc(r, key)
      && (forall i :: 0 <= i < |r| ==> p(r[i]))
      && (forall x :: multiset(r)[x] == if p(x) then multiset(s)[x] else 0)
  {
    var f := Filter(s, p);
    var r := SortDesc(f, key);
    FilterCounts(s, p);
    forall i | 0 <= i < |r| ensures p(r[i]) {
      assert r[i] in multiset(r);
      assert r[i] in f;
    }
  }

  /**
   * `findOne(filter).sort({ key: -1 })`: the head of the sorted matches is absent exactly when
   * nothing matches, and otherwise a matching document with the largest key.
   */
  lemma NewestMatching<T(!new)>(s: seq<T>, p: T -> bool, key: T -> int)
    ensures var r := SortDesc(Filter(s, p), key);
      && (r == [] <==> forall i :: 0 <= i < |s| ==> !p(s[i]))
      && (r != [] ==> r[0] in s && p(r[0]) && forall i :: 0 <= i < |s| && p(s[i]) ==> key(s[i]) <= key(r[0]))
  {
    var r := SortDesc(Filter(s, p), key);
    SortedFilter(s, p, key);
    forall i | 0 <= i < |s| && p(s[i]) ensures r != [] && key(s[i]) <= key(r[0]) {
      assert multiset(r)[s[i]] == multiset(s)[s[i]];
      assert s[i] in multiset(s);
      assert s[i] in r;
      var k :| 0 <= k < |r| && r[k] == s[i];
      assert k == 0 || key(r[0]) >= key(r[k]);
    }
    if r != [] {
      assert r[0] in multiset(r);
    }
  }

  /** `.limit(n)`: the first n documents. */
  function Take<T>(s: seq<T>, n: nat): (r: seq<T>)
    ensures |r| == if |s| <= n then |s| else n
    ensures r == s[..|r|]
  {
    if |s| <= n then s else s[..n]
  }

  /** The first n rows of a descending sequence: a sorted part of it, and no row left off is larger. */
  lemma TakeOfSorted<T>(t: seq<T>, key: T -> int, n: nat)
    requires SortedDesc(t, key)
    ensures var r := Take(t, n);
      && SortedDesc(r, key)
      && multiset(r) <= multiset(t)
      && (r != [] ==> forall x :: x in multiset(t) - multiset(r) ==> key(x) <= key(r[|r| - 1]))
  {
    var r := Take(t, n);
    var rest := t[|r|..];
    assert t == r + rest;
    assert multiset(t) == multiset(r) + multiset(rest);
    if r != [] {
      forall x | x in multiset(t) - multiset(r) ensures key(x) <= key(r[|r| - 1]) {
        assert x in multiset(rest);
        assert x in rest;
        var j :| 0 <= j < |rest| && rest[j] == x;
        assert t[|r| + j] == x;
        assert t[|r| - 1] == r[|r| - 1];
      }
    }
  }

  /** Every row of a part of the matches satisfies the filter. */
  lemma PartOfFilter<T(!new)>(s: seq<T>, p: T -> bool, r: seq<T>)
    requires multiset(r) <= multiset(Filter(s, p))
    ensures forall i :: 0 <= i < |r| ==> p(r[i])
  {
    var f := Filter(s, p);
    forall i | 0 <= i < |r| ensures p(r[i]) {
      assert r[i] in multiset(r);
      assert r[i] in multiset(f);
      assert r[i] in f;
    }
  }

  /**
   * A filtered, sorted, limited page: the n matches with the largest keys. Every row satisfies
   * the filter, the rows are newest first, there are min(n, matches) of them, each taken from
   * the matches, and every match left off the page has a key no larger than the page's last row.
   */
  lemma PageOf<T(!new)>(s: seq<T>, p: T -> bool, key: T -> int, n: nat)
    ensures var r := Take(SortDesc(Filter(s, p), key), n);
      && SortedDesc(r, key)
      && |r| == (if |Filter(s, p)| <= n then |Filter(s, p)| else n)
      && (forall i :: 0 <= i < |r| ==> p(r[i]))
      && multiset(r) <= multiset(Filter(s, p))
      && (|Filter(s, p)| <= n ==> multiset(r) == multiset(Filter(s, p)))
      && (r != [] ==> forall x :: x in multiset(Filter(s, p)) - multiset(r) ==> key(x) <= key(r[|r| - 1]))
  {
    var f := Filter(s, p);
    var sorted := SortDesc(f, key);
    var r := Take(sorted, n);
    TakeOfSorted(sorted, key, n);
    assert multiset(sorted) == multiset(f);
    PartOfFilter(s, p, r);
  }
}
