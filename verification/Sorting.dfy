/** Sorting by a strict order, and why the order of the input does not matter. It stands for
    `Array.prototype.sort` with a comparison function that never calls two of the elements equal. */
module Sorting {
  ghost predicate StrictOrder<T(!new)>(before: (T, T) -> bool) {
    && (forall x :: !before(x, x))
    && (forall x, y, z :: before(x, y) && before(y, z) ==> before(x, z))
  }

  predicate Sorted<T>(s: seq<T>, before: (T, T) -> bool) {
    forall i, j | 0 <= i < j < |s| :: before(s[i], s[j])
  }

  /** Of any two places, one element comes before the other. */
  predicate Comparable<T>(s: seq<T>, before: (T, T) -> bool) {
    forall i, j | 0 <= i < j < |s| :: before(s[i], s[j]) || before(s[j], s[i])
  }

  function Insert<T>(x: T, s: seq<T>, before: (T, T) -> bool): (r: seq<T>)
    ensures multiset(r) == multiset(s) + multiset{x}
  {
    if s == [] then [x]
    else if before(x, s[0]) then [x] + s
    else
      assert s == [s[0]] + s[1..];
      [s[0]] + Insert(x, s[1..], before)
  }

  function Sort<T>(s: seq<T>, before: (T, T) -> bool): (r: seq<T>)
    ensures multiset(r) == multiset(s)
    ensures |r| == |s|
  {
    if s == [] then []
    else
      assert s == [s[0]] + s[1..];
      var r := Insert(s[0], Sort(s[1..], before), before);
      assert |multiset(r)| == |multiset(s)|;
      r
  }

  lemma {:induction false} InsertSorts<T(!new)>(x: T, s: seq<T>, before: (T, T) -> bool)
    requires StrictOrder(before) && Sorted(s, before)
    requires forall i | 0 <= i < |s| :: before(x, s[i]) || before(s[i], x)
    ensures Sorted(Insert(x, s, before), before)
  {
    if s != [] && !before(x, s[0]) {
      var tail := Insert(x, s[1..], before);
      InsertSorts(x, s[1..], before);
      forall i | 0 <= i < |tail| ensures before(s[0], tail[i]) {
        assert tail[i] in multiset(tail);
      }
    }
  }

  lemma {:induction false} SortSorts<T(!new)>(s: seq<T>, before: (T, T) -> bool)
    requires StrictOrder(before) && Comparable(s, before)
    ensures Sorted(Sort(s, before), before)
  {
    if s != [] {
      var tail := Sort(s[1..], before);
      SortSorts(s[1..], before);
      forall i | 0 <= i < |tail| ensures before(s[0], tail[i]) || before(tail[i], s[0]) {
        assert tail[i] in multiset(tail);
        var j :| 0 <= j < |s[1..]| && s[1..][j] == tail[i];
        assert s[j + 1] == tail[i];
      }
      InsertSorts(s[0], tail, before);
    }
  }

  lemma HeadIsNew<T(!new)>(s: seq<T>, before: (T, T) -> bool)
    requires StrictOrder(before) && s != [] && Sorted(s, before)
    ensures s[0] !in s[1..]
  {
  }

  /** A set of elements has only one sorted arrangement. */
  lemma {:induction false} SortedIsUnique<T(!new)>(a: seq<T>, b: seq<T>, before: (T, T) -> bool)
    requires StrictOrder(before) && Sorted(a, before) && Sorted(b, before)
    requires forall x :: x in a <==> x in b
    ensures a == b
  {
    assert b != [] ==> b[0] in b;
    if a != [] {
      assert a[0] in b && b[0] in a;
      assert a[0] == b[0] by {
        assert !(before(a[0], b[0]) && before(b[0], a[0]));
      }
      HeadIsNew(a, before);
      HeadIsNew(b, before);
      forall x ensures x in a[1..] <==> x in b[1..] {
        assert x in a <==> x == a[0] || x in a[1..];
        assert x in b <==> x == b[0] || x in b[1..];
      }
      SortedIsUnique(a[1..], b[1..], before);
    }
  }

  /** Sorting moves elements without changing them. */
  lemma SortedFrom<T>(s: seq<T>, before: (T, T) -> bool, k: nat) returns (i: nat)
    requires k < |s|
    ensures i < |s| && s[i] == Sort(s, before)[k]
  {
    assert Sort(s, before)[k] in multiset(Sort(s, before));
    i :| 0 <= i < |s| && s[i] == Sort(s, before)[k];
  }

  lemma SortedTo<T>(s: seq<T>, before: (T, T) -> bool, i: nat) returns (k: nat)
    requires i < |s|
    ensures k < |s| && Sort(s, before)[k] == s[i]
  {
    assert s[i] in multiset(Sort(s, before));
    k :| 0 <= k < |Sort(s, before)| && Sort(s, before)[k] == s[i];
  }

  /** Sorting forgets the order of the input. */
  lemma SortForgetsOrder<T(!new)>(a: seq<T>, b: seq<T>, before: (T, T) -> bool)
    requires StrictOrder(before) && Comparable(a, before) && Comparable(b, before)
    requires multiset(a) == multiset(b)
    ensures Sort(a, before) == Sort(b, before)
  {
    SortSorts(a, before);
    SortSorts(b, before);
    var p, q := Sort(a, before), Sort(b, before);
    forall x ensures x in p <==> x in q {
      assert x in multiset(p) <==> x in multiset(q);
    }
    SortedIsUnique(p, q, before);
  }
}
