/** The query pipeline of the document store on an in-memory table: `find` with a
    filter, `.sort(...)` with a comparator and `.limit(k)`. */
module Sequences {
  import opened Common

  /** The records of `s` satisfying `p`, in table order. */
  function Filter<T(!new)>(s: seq<T>, p: T -> bool): (r: seq<T>)
    ensures |r| <= |s|
    ensures forall x :: x in r <==> x in s && p(x)
    ensures forall x :: multiset(r)[x] == if p(x) then multiset(s)[x] else 0
  {
    if s == [] then []
    else
      var rest := Filter(s[..|s| - 1], p);
      var last := s[|s| - 1];
      assert s == s[..|s| - 1] + [last];
      if p(last) then rest + [last] else rest
  }

  /** `findOne`: the position of the first record satisfying `p`, or None when there is
      none. */
  function FindFirst<T>(s: seq<T>, p: T -> bool): (r: Option<nat>)
    ensures r.Some? ==> r.value < |s| && p(s[r.value])
    ensures r.Some? ==> forall j :: 0 <= j < r.value ==> !p(s[j])
    ensures r.None? <==> forall i :: 0 <= i < |s| ==> !p(s[i])
  {
    if s == [] then None
    else if p(s[0]) then Some(0)
    else
      match FindFirst(s[1..], p)
      case None => None
      case Some(i) => Some(i + 1)
  }

  /** `.limit(k)`: the first `k` elements, or all of them. */
  function Take<T>(s: seq<T>, k: nat): (r: seq<T>)
    ensures |r| == if |s| < k then |s| else k
    ensures r == s[..|r|]
  {
    if |s| <= k then s else s[..k]
  }

  /** `before(a, b)`: `a` may come before `b` in the sort order. */
  ghost predicate TotalPreorder<T(!new)>(before: (T, T) -> bool) {
    && (forall a, b :: before(a, b) || before(b, a))
    && (forall a, b, c :: before(a, b) && before(b, c) ==> before(a, c))
  }

  predicate SortedBy<T>(s: seq<T>, before: (T, T) -> bool) {
    forall i, j :: 0 <= i < j < |s| ==> before(s[i], s[j])
  }

  /** Places `x` in front of the first element it may precede. */
  function Insert<T>(x: T, s: seq<T>, before: (T, T) -> bool): (r: seq<T>)
    ensures multiset(r) == multiset(s) + multiset{x}
    ensures |r| == |s| + 1
  {
    if s == [] || before(x, s[0]) then [x] + s
    else
      var r := [s[0]] + Insert(x, s[1..], before);
      assert s == [s[0]] + s[1..];
      r
  }

  /** Insertion sort: a permutation of `s`; elements that tie keep their table order. */
  function SortBy<T>(s: seq<T>, before: (T, T) -> bool): (r: seq<T>)
    ensures multiset(r) == multiset(s)
    ensures |r| == |s|
  {
    if s == [] then []
    else
      assert s == [s[0]] + s[1..];
      Insert(s[0], SortBy(s[1..], before), before)
  }

  lemma SortByCons<T>(x: T, s: seq<T>, before: (T, T) -> bool)
    ensures SortBy([x] + s, before) == Insert(x, SortBy(s, before), before)
  {
    assert ([x] + s)[1..] == s;
  }

  /** Two elements out of order are swapped. */
  lemma SortByTwo<T>(x: T, y: T, before: (T, T) -> bool)
    requires !before(x, y)
    ensures SortBy([x, y], before) == [y, x]
  {
    assert [x, y][1..] == [y] && [y][1..] == [];
    assert SortBy([y], before) == [y];
  }

  /** An element that may precede neither of two others goes after both. */
  lemma InsertPastTwo<T>(x: T, y: T, z: T, before: (T, T) -> bool)
    requires !before(x, y) && !before(x, z)
    ensures Insert(x, [y, z], before) == [y, z, x]
  {
    assert [y, z][1..] == [z] && [z][1..] == [];
    assert Insert(x, [z], before) == [z, x];
  }

  lemma {:induction false} InsertSorted<T(!new)>(x: T, s: seq<T>, before: (T, T) -> bool)
    requires TotalPreorder(before)
    requires SortedBy(s, before)
    ensures SortedBy(Insert(x, s, before), before)
  {
    if s == [] || before(x, s[0]) {
      var r := [x] + s;
      forall i, j | 0 <= i < j < |r| ensures before(r[i], r[j]) {
        if i == 0 && j > 1 {
          assert before(x, s[0]) && before(s[0], s[j - 1]);
        }
      }
    } else {
      var tail := Insert(x, s[1..], before);
      InsertSorted(x, s[1..], before);
      assert before(s[0], x);
      var r := [s[0]] + tail;
      forall i, j | 0 <= i < j < |r| ensures before(r[i], r[j]) {
        if i == 0 {
          var y := tail[j - 1];
          assert y in multiset(tail);
          assert y == x || y in multiset(s[1..]);
          if y != x {
            var k :| 0 <= k < |s[1..]| && s[1..][k] == y;
            assert s[k + 1] == y;
          }
        }
      }
    }
  }

  /** SortBy orders its result by any total preorder. */
  lemma {:induction false} SortBySorted<T(!new)>(s: seq<T>, before: (T, T) -> bool)
    requires TotalPreorder(before)
    ensures SortedBy(SortBy(s, before), before)
  {
    if s != [] {
      SortBySorted(s[1..], before);
      InsertSorted(s[0], SortBy(s[1..], before), before);
    }
  }

  lemma MultisetSplit<T>(s: seq<T>, k: nat)
    requires k <= |s|
    ensures multiset(s) == multiset(s[..k]) + multiset(s[k..])
  {
    assert s == s[..k] + s[k..];
  }

  /** The first `k` of a sorted permutation of `s` are the top `k` of `s`: every
      element of `s` that was cut off may come after every element kept. */
  lemma TopK<T(!new)>(s: seq<T>, k: nat, before: (T, T) -> bool)
    requires TotalPreorder(before)
    ensures var top := Take(SortBy(s, before), k);
      && SortedBy(top, before)
      && multiset(top) <= multiset(s)
      && (|s| <= k ==> multiset(top) == multiset(s))
      && forall z :: multiset(top)[z] < multiset(s)[z] ==>
           forall y :: y in top ==> before(y, z)
  {
    var sorted := SortBy(s, before);
    var top := Take(sorted, k);
    SortBySorted(s, before);
    MultisetSplit(sorted, |top|);
    PrefixPrecedesSuffix(sorted, |top|, before);
    forall z | multiset(top)[z] < multiset(s)[z]
      ensures forall y :: y in top ==> before(y, z)
    {
      assert z in sorted[|top|..];
    }
  }

  /** In a sorted sequence, every element before a cut may precede every element after it. */
  lemma PrefixPrecedesSuffix<T>(s: seq<T>, n: nat, before: (T, T) -> bool)
    requires SortedBy(s, before) && n <= |s|
    ensures SortedBy(s[..n], before)
    ensures forall y, z :: y in s[..n] && z in s[n..] ==> before(y, z)
  {
    forall y, z | y in s[..n] && z in s[n..] ensures before(y, z) {
      var i :| 0 <= i < n && s[..n][i] == y;
      var j :| 0 <= j < |s| - n && s[n..][j] == z;
      assert s[i] == y && s[n + j] == z;
    }
  }

  /** The same, for elements: an element of `s` missing from the top `k` means the top
      is full and every kept element may precede it. */
  lemma TopKExcluded<T(!new)>(s: seq<T>, k: nat, before: (T, T) -> bool)
    requires TotalPreorder(before)
    ensures var top := Take(SortBy(s, before), k);
      forall z :: z in s && z !in top ==> |top| == k && forall y :: y in top ==> before(y, z)
  {
    var top := Take(SortBy(s, before), k);
    TopK(s, k, before);
    forall z | z in s && z !in top
      ensures |top| == k && forall y :: y in top ==> before(y, z)
    {
      assert multiset(top)[z] == 0 < multiset(s)[z];
    }
  }

  /** `find(p).sort(before).limit(k)`: at most `k` matching records in order; a matching
      record left out means the result is full and every kept record may precede it. */
  function FindSortLimit<T(!new)>(t: seq<T>, p: T -> bool, before: (T, T) -> bool, k: nat): (r: seq<T>)
    requires TotalPreorder(before)
    ensures |r| <= k && SortedBy(r, before)
    ensures forall x :: x in r ==> x in t && p(x)
    // No record is kept more often than it matches in `t`.
    ensures forall x :: multiset(r)[x] <= if p(x) then multiset(t)[x] else 0
    ensures forall z :: z in t && p(z) && z !in r ==> |r| == k && forall y :: y in r ==> before(y, z)
  {
    var matching := Filter(t, p);
    TopK(matching, k, before);
    TopKExcluded(matching, k, before);
    var r := Take(SortBy(matching, before), k);
    assert forall x :: x in r ==> x in multiset(matching);
    r
  }

  /** The sequence without position `i` (a delete by id). */
  function RemoveAt<T>(s: seq<T>, i: nat): (r: seq<T>)
    requires i < |s|
    ensures |r| == |s| - 1
    ensures forall j :: 0 <= j < i ==> r[j] == s[j]
    ensures forall j :: i <= j < |r| ==> r[j] == s[j + 1]
  {
    s[..i] + s[i + 1..]
  }

  /** Removing position `i` removes one occurrence of `s[i]` and keeps every other element. */
  lemma RemoveAtMembers<T>(s: seq<T>, i: nat)
    requires i < |s|
    ensures forall x :: x in s && x != s[i] ==> x in RemoveAt(s, i)
    ensures forall x :: x in RemoveAt(s, i) ==> x in s
    ensures multiset(RemoveAt(s, i)) + multiset{s[i]} == multiset(s)
  {
    var r := RemoveAt(s, i);
    assert s == s[..i] + [s[i]] + s[i + 1..];
    forall x | x in s && x != s[i] ensures x in r {
      var k :| 0 <= k < |s| && s[k] == x;
      if k < i {
        assert r[k] == x;
      } else {
        assert r[k - 1] == x;
      }
    }
  }
}
