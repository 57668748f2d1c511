/**
 * `Array.prototype.sort` with a comparator, as the queue engine uses it: the comparators in the
 * source order records by an integer pair (the pair compared lexicographically), and the sort is
 * stable. SortBy is a stable insertion sort; FirstMin is the independent description of the head
 * of a sorted selection: the earliest position whose key no selected entry beats.
 */
module Sorting {
  import opened Wrappers
  import opened Lists

  /** `comparator(a, b) < 0` for a comparator that compares keys lexicographically. */
  predicate Before(a: (int, int), b: (int, int)) {
    a.0 < b.0 || (a.0 == b.0 && a.1 < b.1)
  }

  /** No entry sorts strictly before an entry on its left. */
  ghost predicate Sorted<T>(s: seq<T>, key: T -> (int, int)) {
    forall i, j :: 0 <= i < j < |s| ==> !Before(key(s[j]), key(s[i]))
  }

  /**
   * Puts `x` in front of the first entry that does not sort strictly before it, so that `x`
   * stays ahead of every entry with an equal key.
   */
  function Insert<T>(x: T, s: seq<T>, key: T -> (int, int)): (r: seq<T>)
    ensures multiset(r) == multiset(s) + multiset{x}
  {
    if s == [] || !Before(key(s[0]), key(x)) then
      [x] + s
    else
      assert s == [s[0]] + s[1..];
      [s[0]] + Insert(x, s[1..], key)
  }

  /** Inserting into a sorted sequence keeps it sorted. */
  lemma {:induction false} InsertSorted<T>(x: T, s: seq<T>, key: T -> (int, int))
    requires Sorted(s, key)
    ensures Sorted(Insert(x, s, key), key)
  {
    if s != [] && Before(key(s[0]), key(x)) {
      var rest := Insert(x, s[1..], key);
      InsertSorted(x, s[1..], key);
      assert Insert(x, s, key) == [s[0]] + rest;
      forall j | 0 <= j < |rest| ensures !Before(key(rest[j]), key(s[0])) {
        var y := rest[j];
        assert multiset(rest)[y] > 0;
        if y != x {
          assert y in s[1..];
          var m :| 0 <= m < |s[1..]| && s[1..][m] == y;
          assert s[m + 1] == y;
        }
      }
    }
  }

  /** The stable sort of `s` by `key`: a sorted permutation of `s`. */
  function SortBy<T>(s: seq<T>, key: T -> (int, int)): (r: seq<T>)
    ensures multiset(r) == multiset(s)
    ensures |r| == |s|
    ensures Sorted(r, key)
  {
    if s == [] then []
    else
      assert s == [s[0]] + s[1..];
      var r := Insert(s[0], SortBy(s[1..], key), key);
      InsertSorted(s[0], SortBy(s[1..], key), key);
      assert |multiset(r)| == |s|;
      r
  }

  /**
   * Among the entries satisfying `p`, the position of the earliest one whose key no other
   * selected entry beats: every selected entry on its left sorts strictly after it.
   */
  function FirstMin<T>(s: seq<T>, p: T -> bool, key: T -> (int, int)): (r: Option<nat>)
    ensures r.None? <==> forall i :: 0 <= i < |s| ==> !p(s[i])
    ensures r.Some? ==> r.value < |s| && p(s[r.value])
    ensures r.Some? ==> forall j :: 0 <= j < |s| && p(s[j]) ==> !Before(key(s[j]), key(s[r.value]))
    ensures r.Some? ==> forall j :: 0 <= j < r.value && p(s[j]) ==> Before(key(s[r.value]), key(s[j]))
  {
    if s == [] then None
    else
      var rest := FirstMin(s[1..], p, key);
      if rest.Some? && (!p(s[0]) || Before(key(s[1 + rest.value]), key(s[0]))) then
        Some(1 + rest.value)
      else if p(s[0]) then
        Some(0)
      else
        None
  }

  /** The characterisation of FirstMin picks out a single position. */
  lemma FirstMinUnique<T>(s: seq<T>, p: T -> bool, key: T -> (int, int), k: nat)
    requires k < |s| && p(s[k])
    requires forall j :: 0 <= j < |s| && p(s[j]) ==> !Before(key(s[j]), key(s[k]))
    requires forall j :: 0 <= j < k && p(s[j]) ==> Before(key(s[k]), key(s[j]))
    ensures FirstMin(s, p, key) == Some(k)
  {
    var m := FirstMin(s, p, key).value;
    if m < k {
      assert false;
    } else if k < m {
      assert false;
    }
  }

  /**
   * Sort-then-take-first: the head of the stable sort of the selected entries is the entry at
   * FirstMin. This is where stability matters: on equal keys the earlier entry wins.
   */
  lemma {:induction false} HeadOfSortedFilter<T(!new)>(s: seq<T>, p: T -> bool, key: T -> (int, int))
    requires FirstMin(s, p, key).Some?
    ensures SortBy(Filter(s, p), key) != []
    ensures SortBy(Filter(s, p), key)[0] == s[FirstMin(s, p, key).value]
  {
    var rest := FirstMin(s[1..], p, key);
    assert s == [s[0]] + s[1..];
    if !p(s[0]) {
      HeadOfSortedFilter(s[1..], p, key);
    } else if rest.None? {
      FilterEmpty(s[1..], p);
    } else {
      HeadOfSortedFilter(s[1..], p, key);
    }
  }

  /** Selects every entry. */
  predicate Every<T>(x: T) {
    true
  }

  /**
   * Stability in full: the sort puts first the earliest entry with the least key, and then the
   * sort of the remaining entries in their original order. Applied repeatedly, this fixes the
   * whole output, so entries with equal keys come out in input order.
   */
  lemma {:induction false} SortTakesFirstMin<T>(s: seq<T>, key: T -> (int, int))
    requires s != []
    ensures FirstMin(s, Every, key).Some?
    ensures SortBy(s, key) == [s[FirstMin(s, Every, key).value]]
              + SortBy(s[..FirstMin(s, Every, key).value] + s[FirstMin(s, Every, key).value + 1..], key)
  {
    assert Every(s[0]);
    SortTakesAt(s, key, FirstMin(s, Every, key).value);
  }

  /** SortTakesFirstMin, with the position of the earliest least entry given. */
  lemma {:induction false} SortTakesAt<T>(s: seq<T>, key: T -> (int, int), m: nat)
    requires FirstMin(s, Every, key) == Some(m)
    ensures m < |s| && SortBy(s, key) == [s[m]] + SortBy(s[..m] + s[m + 1..], key)
  {
    if m == 0 {
      LeastInsertedFirst(s, key);
      assert s[..0] + s[1..] == s[1..];
    } else {
      FirstMinInTail(s, key);
      SortTakesAt(s[1..], key, m - 1);
      SortPastHead(s, m, key);
    }
  }

  /**
   * When the sort of the tail starts with an entry that sorts strictly before the head, the
   * sort of the whole starts with that entry too, and the head goes into the sort of the rest.
   */
  lemma SortPastHead<T>(s: seq<T>, m: nat, key: T -> (int, int))
    requires 0 < m < |s| && Before(key(s[m]), key(s[0]))
    requires SortBy(s[1..], key) == [s[1..][m - 1]] + SortBy(s[1..][..m - 1] + s[1..][m..], key)
    ensures SortBy(s, key) == [s[m]] + SortBy(s[..m] + s[m + 1..], key)
  {
    var t := s[1..];
    RemoveAfterHead(s, m);
    var others := s[1..m] + s[m + 1..];
    assert t[m - 1] == s[m];
    calc {
      SortBy(s, key);
      { SortCons(s[0], t, key); }
      Insert(s[0], SortBy(t, key), key);
      Insert(s[0], [s[m]] + SortBy(others, key), key);
      { InsertBehind(s[0], s[m], SortBy(others, key), key); }
      [s[m]] + Insert(s[0], SortBy(others, key), key);
      { SortCons(s[0], others, key); }
      [s[m]] + SortBy([s[0]] + others, key);
    }
  }

  /** When the earliest least entry is not the head, it is the earliest least entry of the tail. */
  lemma FirstMinInTail<T>(s: seq<T>, key: T -> (int, int))
    requires s != [] && FirstMin(s, Every, key).Some? && FirstMin(s, Every, key).value != 0
    ensures FirstMin(s[1..], Every, key) == Some(FirstMin(s, Every, key).value - 1)
    ensures Before(key(s[FirstMin(s, Every, key).value]), key(s[0]))
  {
  }

  /** Removing position `m > 0` keeps the head and removes position `m - 1` of the tail. */
  lemma RemoveAfterHead<T>(s: seq<T>, m: nat)
    requires 0 < m < |s|
    ensures s[1..][..m - 1] + s[1..][m..] == s[1..m] + s[m + 1..]
    ensures s[..m] + s[m + 1..] == [s[0]] + (s[1..m] + s[m + 1..])
    ensures s == [s[0]] + s[1..]
  {
  }

  /** An entry whose key no later entry beats is inserted in front. */
  lemma LeastInsertedFirst<T>(s: seq<T>, key: T -> (int, int))
    requires s != [] && FirstMin(s, Every, key) == Some(0)
    ensures SortBy(s, key) == [s[0]] + SortBy(s[1..], key)
  {
    var r := SortBy(s[1..], key);
    if r != [] {
      assert r[0] in multiset(s[1..]);
      var j :| 0 <= j < |s[1..]| && s[1..][j] == r[0];
      assert Every(s[j + 1]);
    }
  }

  /** Insertion passes over an entry that sorts strictly before the inserted one. */
  lemma InsertBehind<T>(x: T, y: T, r: seq<T>, key: T -> (int, int))
    requires Before(key(y), key(x))
    ensures Insert(x, [y] + r, key) == [y] + Insert(x, r, key)
  {
    assert ([y] + r)[1..] == r;
  }

  /** The sort of a sequence is its head inserted into the sort of its tail. */
  lemma SortCons<T>(x: T, r: seq<T>, key: T -> (int, int))
    ensures SortBy([x] + r, key) == Insert(x, SortBy(r, key), key)
  {
    assert ([x] + r)[1..] == r;
  }

  /**
   * The stable sort of the selected entries is the entry at FirstMin followed by the stable sort
   * of the other selected entries, in their original order.
   */
  lemma SortedFilterTakesFirstMin<T(!new)>(s: seq<T>, p: T -> bool, key: T -> (int, int))
    requires FirstMin(s, p, key).Some?
    ensures SortBy(Filter(s, p), key) == [s[FirstMin(s, p, key).value]]
              + SortBy(Filter(s[..FirstMin(s, p, key).value] + s[FirstMin(s, p, key).value + 1..], p), key)
  {
    var k := FirstMin(s, p, key).value;
    FilterAround(s, p, k);
    var a := Filter(s[..k], p);
    var f := Filter(s, p);
    FirstMinOfFilter(s, p, key);
    SortTakesFirstMin(f, key);
    RemoveMiddle(a, s[k], Filter(s[k + 1..], p));
  }

  /** Filtering around a selected position. */
  lemma FilterAround<T(!new)>(s: seq<T>, p: T -> bool, k: nat)
    requires k < |s| && p(s[k])
    ensures Filter(s, p) == Filter(s[..k], p) + [s[k]] + Filter(s[k + 1..], p)
    ensures Filter(s[..k] + s[k + 1..], p) == Filter(s[..k], p) + Filter(s[k + 1..], p)
  {
    var a, b := s[..k], s[k + 1..];
    SplitAround(s, k);
    FilterAppend(a, [s[k]] + b, p);
    FilterKeepsHead(s[k], b, p);
    Regroup(Filter(a, p), s[k], Filter(b, p));
    FilterAppend(a, b, p);
  }

  /** Regrouping a concatenation around one entry. */
  lemma Regroup<T>(a: seq<T>, x: T, b: seq<T>)
    ensures a + ([x] + b) == a + [x] + b
  {
  }

  /** A sequence is what lies before position `k`, the entry there, and what lies after. */
  lemma SplitAround<T>(s: seq<T>, k: nat)
    requires k < |s|
    ensures s == s[..k] + ([s[k]] + s[k + 1..])
  {
    assert s[k..] == [s[k]] + s[k + 1..];
    assert s == s[..k] + s[k..];
  }

  /** A selected entry in front is kept in front. */
  lemma FilterKeepsHead<T(!new)>(x: T, b: seq<T>, p: T -> bool)
    requires p(x)
    ensures Filter([x] + b, p) == [x] + Filter(b, p)
  {
    assert ([x] + b)[1..] == b;
  }

  /** Taking out the middle entry of `a + [x] + b`. */
  lemma RemoveMiddle<T>(a: seq<T>, x: T, b: seq<T>)
    ensures (a + [x] + b)[|a|] == x
    ensures (a + [x] + b)[..|a|] + (a + [x] + b)[|a| + 1..] == a + b
  {
  }

  /** No selected entry sorts strictly before the entry at FirstMin. */
  lemma FilterNotBeaten<T(!new)>(s: seq<T>, p: T -> bool, key: T -> (int, int), k: nat)
    requires FirstMin(s, p, key) == Some(k)
    ensures forall j :: 0 <= j < |Filter(s, p)| ==> !Before(key(Filter(s, p)[j]), key(s[k]))
  {
    var f := Filter(s, p);
    forall j | 0 <= j < |f| ensures !Before(key(f[j]), key(s[k])) {
      assert f[j] in f;
      FilterMembers(s, p, f[j]);
      var i :| 0 <= i < |s| && s[i] == f[j];
    }
  }

  /** Every selected entry in front of the entry at FirstMin sorts strictly after it. */
  lemma FilterBeatenBefore<T(!new)>(s: seq<T>, p: T -> bool, key: T -> (int, int), k: nat)
    requires FirstMin(s, p, key) == Some(k)
    ensures forall j :: 0 <= j < |Filter(s[..k], p)| ==> Before(key(s[k]), key(Filter(s[..k], p)[j]))
  {
    var a := Filter(s[..k], p);
    forall j | 0 <= j < |a| ensures Before(key(s[k]), key(a[j])) {
      assert a[j] in a;
      FilterMembers(s[..k], p, a[j]);
      var i :| 0 <= i < k && s[..k][i] == a[j];
      assert s[i] == a[j];
    }
  }

  /**
   * In `a + [x] + b`, an entry `x` that nothing beats and that beats everything in `a` is the
   * earliest least entry.
   */
  lemma FirstMinAt<T>(f: seq<T>, a: seq<T>, x: T, b: seq<T>, key: T -> (int, int))
    requires f == a + [x] + b
    requires forall j :: 0 <= j < |f| ==> !Before(key(f[j]), key(x))
    requires forall j :: 0 <= j < |a| ==> Before(key(x), key(a[j]))
    ensures FirstMin(f, Every, key) == Some(|a|)
  {
    assert f[|a|] == x && Every(x);
    assert forall j :: 0 <= j < |a| ==> f[j] == a[j];
    FirstMinUnique(f, Every, key, |a|);
  }

  /** Among the selected entries, the one at FirstMin is the earliest least of them all. */
  lemma FirstMinOfFilter<T(!new)>(s: seq<T>, p: T -> bool, key: T -> (int, int))
    requires FirstMin(s, p, key).Some?
    ensures FirstMin(Filter(s, p), Every, key) == Some(|Filter(s[..FirstMin(s, p, key).value], p)|)
  {
    var k := FirstMin(s, p, key).value;
    FilterAround(s, p, k);
    FilterNotBeaten(s, p, key, k);
    FilterBeatenBefore(s, p, key, k);
    FirstMinAt(Filter(s, p), Filter(s[..k], p), s[k], Filter(s[k + 1..], p), key);
  }
}
