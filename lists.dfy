/**
 * The array primitives the source leans on: `findIndex` by id, replacement of the entry found
 * (`a[index] = x`), and `filter`. Each is stated once, generically, over the key a record is
 * found by.
 */
module Lists {
  import opened Wrappers

  /** `s.findIndex(x => idOf(x) === id)`: the first position holding that id, if any. */
  function IndexOfId<T>(s: seq<T>, idOf: T -> string, id: string): (r: Option<nat>)
    ensures r.None? <==> forall i :: 0 <= i < |s| ==> idOf(s[i]) != id
    ensures r.Some? ==> r.value < |s| && idOf(s[r.value]) == id
    ensures r.Some? ==> forall i :: 0 <= i < r.value ==> idOf(s[i]) != id
  {
    if s == [] then None
    else if idOf(s[0]) == id then Some(0)
    else
      match IndexOfId(s[1..], idOf, id)
      case None => None
      case Some(k) => Some(k + 1)
  }

  /**
   * Replace-by-id: the record `x` takes the place of the first entry with the same id; an
   * unknown id leaves the sequence as it was.
   */
  function ReplaceById<T>(s: seq<T>, idOf: T -> string, x: T): (r: seq<T>)
    ensures |r| == |s|
    ensures IndexOfId(s, idOf, idOf(x)).None? ==> r == s
    ensures IndexOfId(s, idOf, idOf(x)).Some? ==>
              var k := IndexOfId(s, idOf, idOf(x)).value;
              r[k] == x && forall i :: 0 <= i < |s| && i != k ==> r[i] == s[i]
  {
    match IndexOfId(s, idOf, idOf(x))
    case None => s
    case Some(k) => s[k := x]
  }

  /** `s.filter(p)`: the entries satisfying `p`, in their original order. */
  function Filter<T(!new)>(s: seq<T>, p: T -> bool): (r: seq<T>)
    ensures |r| <= |s|
    ensures forall x :: multiset(r)[x] == if p(x) then multiset(s)[x] else 0
    ensures forall i :: 0 <= i < |r| ==> p(r[i])
  {
    if s == [] then []
    else
      assert s == [s[0]] + s[1..];
      if p(s[0]) then [s[0]] + Filter(s[1..], p) else Filter(s[1..], p)
  }

  /** Membership of a filtered sequence, as the contract of Filter gives it through multisets. */
  lemma FilterMembers<T(!new)>(s: seq<T>, p: T -> bool, x: T)
    ensures x in Filter(s, p) <==> x in s && p(x)
  {
    assert x in Filter(s, p) <==> multiset(Filter(s, p))[x] > 0;
    assert x in s <==> multiset(s)[x] > 0;
  }

  /** A filter keeps nothing exactly when no entry satisfies the predicate. */
  lemma FilterEmpty<T(!new)>(s: seq<T>, p: T -> bool)
    ensures Filter(s, p) == [] <==> forall i :: 0 <= i < |s| ==> !p(s[i])
  {
    if Filter(s, p) == [] {
      forall i | 0 <= i < |s| ensures !p(s[i]) {
        FilterMembers(s, p, s[i]);
      }
    } else {
      var x := Filter(s, p)[0];
      FilterMembers(s, p, x);
    }
  }

  /** Filtering a concatenation filters each part. */
  lemma {:induction false} FilterAppend<T(!new)>(a: seq<T>, b: seq<T>, p: T -> bool)
    ensures Filter(a + b, p) == Filter(a, p) + Filter(b, p)
  {
    if a == [] {
      assert a + b == b;
    } else {
      assert (a + b)[1..] == a[1..] + b;
      FilterAppend(a[1..], b, p);
    }
  }

  /** No two positions hold records with the same id. */
  ghost predicate UniqueIds<T>(s: seq<T>, idOf: T -> string) {
    forall i, j :: 0 <= i < j < |s| ==> idOf(s[i]) != idOf(s[j])
  }

  /** With unique ids, replace-by-id writes exactly the position that holds the id. */
  lemma ReplaceByUniqueId<T>(s: seq<T>, idOf: T -> string, k: nat, x: T)
    requires UniqueIds(s, idOf) && k < |s| && idOf(x) == idOf(s[k])
    ensures IndexOfId(s, idOf, idOf(x)) == Some(k)
    ensures ReplaceById(s, idOf, x) == s[k := x]
  {
  }

  /** Replacing a record by one with the same id keeps the ids unique. */
  lemma ReplaceKeepsUniqueIds<T>(s: seq<T>, idOf: T -> string, x: T)
    requires UniqueIds(s, idOf)
    ensures UniqueIds(ReplaceById(s, idOf, x), idOf)
  {
    var r := ReplaceById(s, idOf, x);
    match IndexOfId(s, idOf, idOf(x))
    case None =>
    case Some(k) =>
      forall i, j | 0 <= i < j < |r| ensures idOf(r[i]) != idOf(r[j]) {
        if i == k {
          assert idOf(r[i]) == idOf(s[k]);
        } else if j == k {
          assert idOf(r[j]) == idOf(s[k]);
        }
      }
  }

  /** Appending a record whose id is new keeps the ids unique. */
  lemma AppendKeepsUniqueIds<T>(s: seq<T>, idOf: T -> string, x: T)
    requires UniqueIds(s, idOf)
    requires forall i :: 0 <= i < |s| ==> idOf(s[i]) != idOf(x)
    ensures UniqueIds(s + [x], idOf)
  {
  }

  /** Records with unique ids occur at most once each. */
  lemma {:induction false} UniqueIdsNoRepeats<T>(s: seq<T>, idOf: T -> string, x: T)
    requires UniqueIds(s, idOf)
    ensures multiset(s)[x] <= 1
  {
    if s != [] {
      assert s == [s[0]] + s[1..];
      UniqueIdsNoRepeats(s[1..], idOf, x);
      if x == s[0] {
        assert x !in s[1..] by {
          forall i | 0 <= i < |s[1..]| ensures s[1..][i] != x {
            assert idOf(s[0]) != idOf(s[i + 1]);
          }
        }
      }
    }
  }
}
