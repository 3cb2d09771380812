/**
 * The array operations the query code chains together: `filter`, `slice`
 * (with JavaScript's clamping of negative and oversized indices), paging, and
 * the stable `sort` that ECMAScript 2019 requires of `Array.prototype.sort`,
 * driven by a numeric key (the comparator `(a, b) => key(a) - key(b)`).
 */
module Seqs {

  /** `s.filter(f)`. */
  function Filter<T(!new)>(s: seq<T>, f: T -> bool): (r: seq<T>)
    ensures |r| <= |s|
    ensures forall x :: x in r <==> x in s && f(x)
  {
    if s == [] then []
    else if f(s[0]) then [s[0]] + Filter(s[1..], f)
    else Filter(s[1..], f)
  }

  /** `a` is `b` with some elements left out, the rest in their order. */
  predicate IsSubsequence<T(==)>(a: seq<T>, b: seq<T>)
    decreases |b|
  {
    a == [] || (b != [] && ((a[0] == b[0] && IsSubsequence(a[1..], b[1..])) || IsSubsequence(a, b[1..])))
  }

  /** A filter keeps the surviving elements in their original order. */
  lemma {:induction false} FilterIsSubsequence<T(!new)>(s: seq<T>, f: T -> bool)
    ensures IsSubsequence(Filter(s, f), s)
  {
    if s != [] {
      FilterIsSubsequence(s[1..], f);
      var r := Filter(s[1..], f);
      if f(s[0]) {
        assert ([s[0]] + r)[1..] == r;
      } else if r != [] {
        assert IsSubsequence(r, s[1..]);
      }
    }
  }

  /** Every element of a subsequence is an element of the whole. */
  lemma {:induction false} SubsequenceMembers<T>(a: seq<T>, b: seq<T>)
    requires IsSubsequence(a, b)
    ensures forall x :: x in a ==> x in b
    decreases |b|
  {
    if a != [] {
      if a[0] == b[0] && IsSubsequence(a[1..], b[1..]) {
        SubsequenceMembers(a[1..], b[1..]);
        assert forall x :: x in a ==> x == a[0] || x in a[1..];
      } else {
        SubsequenceMembers(a, b[1..]);
      }
    }
  }

  /** Filters that agree on the elements of `s` keep the same elements. */
  lemma {:induction false} FilterAgree<T(!new)>(s: seq<T>, f: T -> bool, g: T -> bool)
    requires forall x :: x in s ==> f(x) == g(x)
    ensures Filter(s, f) == Filter(s, g)
  {
    if s != [] {
      assert forall x :: x in s[1..] ==> x in s;
      FilterAgree(s[1..], f, g);
    }
  }

  /** Two filters in a row keep what their conjunction keeps. */
  lemma {:induction false} FilterTwice<T(!new)>(s: seq<T>, f: T -> bool, g: T -> bool, h: T -> bool)
    requires forall x :: h(x) == (f(x) && g(x))
    ensures Filter(Filter(s, f), g) == Filter(s, h)
  {
    if s != [] {
      FilterTwice(s[1..], f, g, h);
      if f(s[0]) {
        assert Filter([s[0]] + Filter(s[1..], f), g) == Filter(Filter(s, f), g);
        assert ([s[0]] + Filter(s[1..], f))[1..] == Filter(s[1..], f);
      }
    }
  }

  /** Filtering a concatenation filters each part. */
  lemma {:induction false} FilterAppend<T(!new)>(a: seq<T>, b: seq<T>, f: T -> bool)
    ensures Filter(a + b, f) == Filter(a, f) + Filter(b, f)
  {
    if a != [] {
      assert (a + b)[0] == a[0] && (a + b)[1..] == a[1..] + b;
      FilterAppend(a[1..], b, f);
    } else {
      assert a + b == b;
    }
  }

  /** A filter that keeps everything changes nothing. */
  lemma {:induction false} FilterAll<T(!new)>(s: seq<T>, f: T -> bool)
    requires forall x :: f(x)
    ensures Filter(s, f) == s
  {
    if s != [] {
      FilterAll(s[1..], f);
      assert s == [s[0]] + s[1..];
    }
  }

  /** How often each value survives a filter. */
  lemma {:induction false} FilterMultiset<T(!new)>(s: seq<T>, f: T -> bool)
    ensures forall x :: multiset(Filter(s, f))[x] == if f(x) then multiset(s)[x] else 0
  {
    if s != [] {
      FilterMultiset(s[1..], f);
      assert s == [s[0]] + s[1..];
      assert multiset(s) == multiset{s[0]} + multiset(s[1..]);
    }
  }

  /** Rearranging a sequence does not change how many elements a filter keeps. */
  lemma FilterCountPermutation<T(!new)>(a: seq<T>, b: seq<T>, f: T -> bool)
    requires multiset(a) == multiset(b)
    ensures multiset(Filter(a, f)) == multiset(Filter(b, f))
    ensures |Filter(a, f)| == |Filter(b, f)|
  {
    FilterMultiset(a, f);
    FilterMultiset(b, f);
    assert multiset(Filter(a, f)) == multiset(Filter(b, f));
    assert |multiset(Filter(a, f))| == |Filter(a, f)|;
  }

  function Min(a: int, b: int): int { if a <= b then a else b }

  /** How `slice` turns a possibly negative or oversized index into a position in `0..n`. */
  function ClampIndex(i: int, n: nat): (k: nat)
    ensures k <= n
    ensures 0 <= i ==> k == Min(i, n)
  {
    if i < 0 then (if n + i < 0 then 0 else n + i) else if i > n then n else i
  }

  /** `s.slice(start, end)`. */
  function Slice<T>(s: seq<T>, start: int, end: int): (r: seq<T>)
    ensures |r| <= |s|
    ensures forall x :: x in r ==> x in s
  {
    var a := ClampIndex(start, |s|);
    var b := ClampIndex(end, |s|);
    if a < b then s[a..b] else []
  }

  /** With non-negative bounds, `slice` is the piece between the bounds, cut off at the end. */
  lemma SliceNonNegative<T>(s: seq<T>, start: int, end: int)
    requires 0 <= start <= end
    ensures Slice(s, start, end) == s[Min(start, |s|)..Min(end, |s|)]
    ensures |Slice(s, start, end)| <= end - start
  {
  }

  /** `s.slice(0, limit)` is the first `limit` elements, or all of them when there are fewer. */
  lemma SliceFromZero<T>(s: seq<T>, limit: int)
    requires 0 <= limit
    ensures Slice(s, 0, limit) == s[..Min(limit, |s|)]
    ensures |Slice(s, 0, limit)| == Min(limit, |s|)
  {
  }

  /** Page `page` (counted from 1) of `perPage` elements: `slice((page-1)*perPage, (page-1)*perPage + perPage)`. */
  function Page<T>(s: seq<T>, page: int, perPage: int): seq<T> {
    var start := (page - 1) * perPage;
    Slice(s, start, start + perPage)
  }

  /** Pages 1 to `k` one after the other. */
  function Pages<T>(s: seq<T>, k: nat, perPage: int): seq<T> {
    if k == 0 then [] else Pages(s, k - 1, perPage) + Page(s, k, perPage)
  }

  /** A page is exactly the slice `[(page-1)*perPage, page*perPage)` of the list, and no longer than `perPage`. */
  lemma PageIsSlice<T>(s: seq<T>, page: int, perPage: int)
    requires 1 <= page && 0 <= perPage
    ensures (page - 1) * perPage >= 0
    ensures Page(s, page, perPage) == s[Min((page - 1) * perPage, |s|)..Min(page * perPage, |s|)]
    ensures |Page(s, page, perPage)| <= perPage
  {
    assert (page - 1) * perPage + perPage == page * perPage;
    SliceNonNegative(s, (page - 1) * perPage, page * perPage);
  }

  /** Pages 1..k together are the first k*perPage elements, each exactly once and in order. */
  lemma {:induction false} PagesArePrefix<T>(s: seq<T>, k: nat, perPage: nat)
    ensures k * perPage >= 0
    ensures Pages(s, k, perPage) == s[..Min(k * perPage, |s|)]
  {
    if k > 0 {
      PagesArePrefix(s, k - 1, perPage);
      PageIsSlice(s, k, perPage);
      assert (k - 1) * perPage <= k * perPage;
      var a := Min((k - 1) * perPage, |s|);
      var b := Min(k * perPage, |s|);
      assert s[..a] + s[a..b] == s[..b];
    }
  }

  /** Enough pages cover the whole list. */
  lemma PagesCoverAll<T>(s: seq<T>, k: nat, perPage: nat)
    requires k * perPage >= |s|
    ensures Pages(s, k, perPage) == s
  {
    PagesArePrefix(s, k, perPage);
  }

  /** Every pair in order by the key. */
  ghost predicate SortedBy<T>(s: seq<T>, key: T -> real) {
    forall i, j :: 0 <= i < j < |s| ==> key(s[i]) <= key(s[j])
  }

  /** Puts `x` in front of the first element whose key is not smaller than its own. */
  function Insert<T>(x: T, s: seq<T>, key: T -> real): (r: seq<T>)
    ensures |r| == |s| + 1
    ensures multiset(r) == multiset(s) + multiset{x}
  {
    if s == [] || key(x) <= key(s[0]) then [x] + s
    else
      assert s == [s[0]] + s[1..];
      [s[0]] + Insert(x, s[1..], key)
  }

  /** `[...s].sort((a, b) => key(a) - key(b))`: a stable insertion sort. */
  function SortBy<T>(s: seq<T>, key: T -> real): (r: seq<T>)
    ensures |r| == |s|
    ensures multiset(r) == multiset(s)
  {
    if s == [] then []
    else
      assert s == [s[0]] + s[1..];
      Insert(s[0], SortBy(s[1..], key), key)
  }

  lemma {:induction false} InsertSorted<T>(x: T, s: seq<T>, key: T -> real)
    requires SortedBy(s, key)
    ensures SortedBy(Insert(x, s, key), key)
  {
    if s == [] || key(x) <= key(s[0]) {
      SortedCons(x, s, key);
    } else {
      var t := Insert(x, s[1..], key);
      assert Insert(x, s, key) == [s[0]] + t;
      SortedTail(s, key);
      InsertSorted(x, s[1..], key);
      SameMembers(t, s[1..] + [x]);
      SortedCons(s[0], t, key);
    }
  }

  /** Dropping the head keeps a sorted sequence sorted, above the head's key. */
  lemma SortedTail<T>(s: seq<T>, key: T -> real)
    requires s != [] && SortedBy(s, key)
    ensures SortedBy(s[1..], key)
    ensures forall y :: y in s[1..] ==> key(s[0]) <= key(y)
  {
    forall y | y in s[1..] ensures key(s[0]) <= key(y) {
      var k :| 0 <= k < |s[1..]| && s[1..][k] == y;
      assert s[k + 1] == y;
    }
  }

  /** An element no greater than anything in a sorted sequence can go in front of it. */
  lemma SortedCons<T>(y: T, t: seq<T>, key: T -> real)
    requires SortedBy(t, key)
    requires forall z :: z in t ==> key(y) <= key(z)
    ensures SortedBy([y] + t, key)
  {
    var u := [y] + t;
    forall i, j | 0 <= i < j < |u| ensures key(u[i]) <= key(u[j]) {
      assert u[j] == t[j - 1];
      if i > 0 {
        assert u[i] == t[i - 1];
      } else {
        assert t[j - 1] in t;
      }
    }
  }

  /** The sort puts its output in key order. */
  lemma {:induction false} SortBySorted<T>(s: seq<T>, key: T -> real)
    ensures SortedBy(SortBy(s, key), key)
  {
    if s != [] {
      SortBySorted(s[1..], key);
      InsertSorted(s[0], SortBy(s[1..], key), key);
    }
  }

  /** `f` selects elements that all have one and the same key. */
  ghost predicate SingleKey<T(!new)>(f: T -> bool, key: T -> real) {
    forall x, y :: f(x) && f(y) ==> key(x) == key(y)
  }

  lemma {:induction false} InsertStable<T(!new)>(x: T, s: seq<T>, key: T -> real, f: T -> bool)
    requires SingleKey(f, key)
    ensures Filter(Insert(x, s, key), f) == Filter([x], f) + Filter(s, f)
  {
    if s == [] || key(x) <= key(s[0]) {
      FilterCons(x, s, f);
    } else {
      var t := Insert(x, s[1..], key);
      assert Insert(x, s, key) == [s[0]] + t;
      InsertStable(x, s[1..], key, f);
      FilterCons(s[0], t, f);
      assert s == [s[0]] + s[1..];
      FilterCons(s[0], s[1..], f);
      FilterSwap(s[0], x, Filter(s[1..], f), f);
    }
  }

  /** Filtering `[y] + t` decides `y` and filters the rest. */
  lemma FilterCons<T(!new)>(y: T, t: seq<T>, f: T -> bool)
    ensures Filter([y] + t, f) == Filter([y], f) + Filter(t, f)
  {
    var u := [y] + t;
    assert u[0] == y && u[1..] == t;
    assert [y][1..] == [];
    if f(y) {
      assert Filter([y], f) == [y] + Filter([], f) == [y];
      assert Filter(u, f) == [y] + Filter(t, f);
    } else {
      assert Filter([y], f) == Filter([], f) == [];
      assert Filter(u, f) == Filter(t, f);
    }
  }

  /** Two elements that a filter does not both keep can pass it in either order. */
  lemma FilterSwap<T(!new)>(y: T, z: T, rest: seq<T>, f: T -> bool)
    requires !(f(y) && f(z))
    ensures Filter([y], f) + (Filter([z], f) + rest) == Filter([z], f) + (Filter([y], f) + rest)
  {
    assert [y][1..] == [] && [z][1..] == [];
    assert !f(y) ==> Filter([y], f) == [];
    assert !f(z) ==> Filter([z], f) == [];
  }

  /**
   * The sort is stable: the elements that share one key come out in the order
   * they went in (and so does any selection of them).
   */
  lemma {:induction false} SortByStable<T(!new)>(s: seq<T>, key: T -> real, f: T -> bool)
    requires SingleKey(f, key)
    ensures Filter(SortBy(s, key), f) == Filter(s, f)
  {
    if s != [] {
      SortByStable(s[1..], key, f);
      InsertStable(s[0], SortBy(s[1..], key), key, f);
      assert s == [s[0]] + s[1..];
      FilterAppend([s[0]], s[1..], f);
    }
  }

  /** A non-empty sequence is its head followed by its tail. */
  lemma HeadTail<T>(s: seq<T>)
    requires s != []
    ensures s == [s[0]] + s[1..]
  {
  }

  /** A one-element head, a middle and an end: where each is found again. */
  lemma HeadMiddleEnd<T>(h: seq<T>, m: seq<T>, c: seq<T>)
    requires |h| == 1
    ensures (h + m + c)[0] == h[0]
    ensures (h + m + c)[1..] == m + c
    ensures (h + m + c)[|h + m + c| - |c|..] == c
  {
  }

  lemma ConcatAssoc<T>(a: seq<T>, b: seq<T>, c: seq<T>)
    ensures a + b + c == a + (b + c)
  {
  }

  /** After sorting, the first and last items come from the list and have its least and greatest key. */
  lemma SortedEnds<T>(s: seq<T>, key: T -> real)
    requires s != []
    ensures var t := SortBy(s, key);
      && t[0] in s && t[|t| - 1] in s
      && forall x :: x in s ==> key(t[0]) <= key(x) <= key(t[|t| - 1])
  {
    var t := SortBy(s, key);
    SortBySorted(s, key);
    SameMembers(t, s);
    SortedBounds(t, key);
    assert t[0] in t && t[|t| - 1] in t;
  }

  /** Sequences with one multiset hold the same elements. */
  lemma SameMembers<T>(t: seq<T>, s: seq<T>)
    requires multiset(t) == multiset(s)
    ensures forall x :: x in s ==> x in t
    ensures forall x :: x in t ==> x in s
  {
    forall x | x in s ensures x in t {
      assert x in multiset(s);
    }
    forall x | x in t ensures x in s {
      assert x in multiset(t);
    }
  }

  /** In a sorted sequence the first and last elements carry the least and greatest key. */
  lemma SortedBounds<T>(t: seq<T>, key: T -> real)
    requires t != [] && SortedBy(t, key)
    ensures forall x :: x in t ==> key(t[0]) <= key(x) <= key(t[|t| - 1])
  {
    forall x | x in t ensures key(t[0]) <= key(x) <= key(t[|t| - 1]) {
      var k :| 0 <= k < |t| && t[k] == x;
    }
  }

  /** A contiguous piece of a sorted list is sorted. */
  lemma SliceSorted<T>(s: seq<T>, start: int, end: int, key: T -> real)
    requires SortedBy(s, key)
    ensures SortedBy(Slice(s, start, end), key)
  {
    var a := ClampIndex(start, |s|);
    var b := ClampIndex(end, |s|);
    if a < b {
      assert forall i :: 0 <= i < b - a ==> Slice(s, start, end)[i] == s[a + i];
    }
  }

  /** `[...s].sort(by key).slice(0, limit)`: the first `limit` elements in key order. */
  function Top<T>(s: seq<T>, key: T -> real, limit: int): seq<T> {
    Slice(SortBy(s, key), 0, limit)
  }

  /**
   * The first `limit` in key order: drawn from `s`, in key order, as many as
   * `limit` allows, and nothing left out comes earlier in key order than
   * anything kept.
   */
  lemma TopProperties<T>(s: seq<T>, key: T -> real, limit: int)
    ensures multiset(Top(s, key, limit)) <= multiset(s)
    ensures SortedBy(Top(s, key, limit), key)
    ensures 0 <= limit ==> |Top(s, key, limit)| == Min(limit, |s|)
    ensures forall x, y :: x in Top(s, key, limit) && y in s && y !in Top(s, key, limit) ==> key(x) <= key(y)
  {
    var t := SortBy(s, key);
    SortBySorted(s, key);
    SliceSorted(t, 0, limit, key);
    var b := ClampIndex(limit, |t|);
    var r := Top(s, key, limit);
    assert r == t[..b];
    assert t == t[..b] + t[b..];
    assert multiset(t) == multiset(t[..b]) + multiset(t[b..]);
    forall x, y | x in r && y in s && y !in r ensures key(x) <= key(y) {
      var i :| 0 <= i < b && t[i] == x;
      assert y in multiset(t);
      var j :| 0 <= j < |t| && t[j] == y;
    }
  }

  /** The elements whose key is `v`. */
  function KeyIs<T>(key: T -> real, v: real): T -> bool {
    x => key(x) == v
  }

  /** Filtering a prefix gives a prefix of the filtered whole. */
  lemma {:induction false} FilterPrefix<T(!new)>(s: seq<T>, n: int, f: T -> bool)
    requires 0 <= n <= |s|
    ensures Filter(s[..n], f) <= Filter(s, f)
  {
    if n > 0 {
      assert s[..n][1..] == s[1..][..n - 1];
      FilterPrefix(s[1..], n - 1, f);
    }
  }

  /**
   * Elements that tie on the key come out of `Top` in their order in `s`, and
   * the ones kept are the first of them: a prefix of the ties.
   */
  lemma TopStable<T(!new)>(s: seq<T>, key: T -> real, limit: int)
    ensures forall v: real :: Filter(Top(s, key, limit), KeyIs(key, v)) <= Filter(s, KeyIs(key, v))
  {
    var t := SortBy(s, key);
    var b := ClampIndex(limit, |t|);
    assert Top(s, key, limit) == t[..b];
    forall v: real ensures Filter(t[..b], KeyIs(key, v)) <= Filter(s, KeyIs(key, v)) {
      assert SingleKey(KeyIs(key, v), key);
      SortByStable(s, key, KeyIs(key, v));
      FilterPrefix(t, b, KeyIs(key, v));
    }
  }
}
