/** The two booking comparators of util/Comparator and the stable sort that
    `Stream.sorted` performs with them. */
module Comparators {
  import opened Common
  import opened Entities

  /** orderByStartDateAsc: positive when `a` starts after `b`, negative when
      before, zero when both start at the same moment. */
  function OrderByStartDateAsc(a: Booking, b: Booking): (r: int)
    ensures r == -1 || r == 0 || r == 1
    ensures r == 0 <==> a.start == b.start
    ensures r < 0 <==> a.start < b.start
  {
    if a.start > b.start then 1
    else if a.start < b.start then -1
    else 0
  }

  /** orderByStartDateDesc: negative when `a` starts after `b`, positive when
      before, zero when both start at the same moment. */
  function OrderByStartDateDesc(a: Booking, b: Booking): (r: int)
    ensures r == -1 || r == 0 || r == 1
    ensures r == 0 <==> a.start == b.start
    ensures r < 0 <==> a.start > b.start
  {
    if a.start > b.start then -1
    else if a.start < b.start then 1
    else 0
  }

  /** The ascending comparator is antisymmetric. */
  lemma AscAntisymmetric(a: Booking, b: Booking)
    ensures OrderByStartDateAsc(a, b) == -OrderByStartDateAsc(b, a)
  {
  }

  /** The descending comparator is the ascending one with its arguments swapped. */
  lemma DescIsReversedAsc(a: Booking, b: Booking)
    ensures OrderByStartDateDesc(a, b) == OrderByStartDateAsc(b, a)
    ensures OrderByStartDateDesc(a, b) == -OrderByStartDateAsc(a, b)
  {
  }

  /** The ascending comparator is transitive, as a Comparator must be. */
  lemma AscTransitive(a: Booking, b: Booking, c: Booking)
    requires OrderByStartDateAsc(a, b) <= 0 && OrderByStartDateAsc(b, c) <= 0
    ensures OrderByStartDateAsc(a, c) <= 0
  {
  }

  /** Sort key equivalent to orderByStartDateAsc. */
  function StartKey(b: Booking): int { b.start }

  /** Sort key equivalent to orderByStartDateDesc. */
  function LatestFirstKey(b: Booking): int { -b.start }

  /** Sort key of ORDER BY created. */
  function CreatedKey(c: Comment): int { c.created }

  ghost predicate SortedBy<T>(s: seq<T>, key: T -> int)
  {
    forall i, j :: 0 <= i < j < |s| ==> key(s[i]) <= key(s[j])
  }

  /** Inserts `x` in front of the first element whose key is not smaller. */
  function InsertBy<T>(x: T, s: seq<T>, key: T -> int): (r: seq<T>)
    ensures multiset(r) == multiset(s) + multiset{x}
  {
    if s == [] || key(x) <= key(s[0]) then [x] + s
    else
      assert s == [s[0]] + s[1..];
      [s[0]] + InsertBy(x, s[1..], key)
  }

  /** Stable insertion sort by key: `Stream.sorted` with the comparator that
      compares the keys. Elements with equal keys keep their input order. */
  function SortBy<T>(s: seq<T>, key: T -> int): (r: seq<T>)
    ensures multiset(r) == multiset(s)
  {
    if s == [] then []
    else
      assert s == [s[0]] + s[1..];
      InsertBy(s[0], SortBy(s[1..], key), key)
  }

  lemma {:induction false} InsertBySorted<T>(x: T, s: seq<T>, key: T -> int)
    requires SortedBy(s, key)
    ensures SortedBy(InsertBy(x, s, key), key)
  {
    if s == [] || key(x) <= key(s[0]) {
    } else {
      var tail := InsertBy(x, s[1..], key);
      InsertBySorted(x, s[1..], key);
      var r := [s[0]] + tail;
      forall i, j | 0 <= i < j < |r|
        ensures key(r[i]) <= key(r[j])
      {
        if i == 0 {
          assert r[j] in multiset(tail);
          assert r[j] in multiset(s[1..]) + multiset{x};
          if r[j] != x {
            assert r[j] in s[1..];
          }
        }
      }
    }
  }

  /** Sorting by a key yields a permutation whose keys never decrease. */
  lemma {:induction false} SortBySorted<T>(s: seq<T>, key: T -> int)
    ensures SortedBy(SortBy(s, key), key)
    ensures multiset(SortBy(s, key)) == multiset(s)
  {
    if s != [] {
      SortBySorted(s[1..], key);
      InsertBySorted(s[0], SortBy(s[1..], key), key);
    }
  }

  /** bookings.sorted(orderByStartDateAsc). */
  function SortAsc(bs: seq<Booking>): seq<Booking>
  {
    SortBy(bs, StartKey)
  }

  /** bookings.sorted(orderByStartDateDesc). */
  function SortDesc(bs: seq<Booking>): seq<Booking>
  {
    SortBy(bs, LatestFirstKey)
  }

  /** Sorting with orderByStartDateAsc gives non-decreasing starts and a permutation. */
  lemma SortAscOrdered(bs: seq<Booking>)
    ensures multiset(SortAsc(bs)) == multiset(bs)
    ensures forall i, j :: 0 <= i < j < |SortAsc(bs)| ==>
      SortAsc(bs)[i].start <= SortAsc(bs)[j].start &&
      OrderByStartDateAsc(SortAsc(bs)[i], SortAsc(bs)[j]) <= 0
  {
    SortBySorted(bs, StartKey);
  }

  /** Sorting neither adds nor drops bookings. */
  lemma SortAscMembers(bs: seq<Booking>)
    ensures forall b :: b in SortAsc(bs) <==> b in bs
  {
    var r := SortAsc(bs);
    assert multiset(r) == multiset(bs);
    forall b ensures b in r <==> b in bs {
      assert b in r <==> b in multiset(r);
      assert b in bs <==> b in multiset(bs);
    }
  }

  /** Sorting neither adds nor drops bookings. */
  lemma SortDescMembers(bs: seq<Booking>)
    ensures forall b :: b in SortDesc(bs) <==> b in bs
  {
    var r := SortDesc(bs);
    assert multiset(r) == multiset(bs);
    forall b ensures b in r <==> b in bs {
      assert b in r <==> b in multiset(r);
      assert b in bs <==> b in multiset(bs);
    }
  }

  /** Sorting with orderByStartDateDesc gives non-increasing starts and a permutation. */
  lemma SortDescOrdered(bs: seq<Booking>)
    ensures multiset(SortDesc(bs)) == multiset(bs)
    ensures forall i, j :: 0 <= i < j < |SortDesc(bs)| ==>
      SortDesc(bs)[i].start >= SortDesc(bs)[j].start &&
      OrderByStartDateDesc(SortDesc(bs)[i], SortDesc(bs)[j]) <= 0
  {
    SortBySorted(bs, LatestFirstKey);
  }

  /** A bound below every key of a list is a bound below every key it keeps
      when filtered. */
  lemma FilterKeepsLowerBound<T>(s: seq<T>, key: T -> int, p: T -> bool, bound: int)
    requires forall i :: 0 <= i < |s| ==> bound <= key(s[i])
    ensures forall j :: 0 <= j < |Filter(s, p)| ==> bound <= key(Filter(s, p)[j])
  {
    var f := Filter(s, p);
    forall j | 0 <= j < |f| ensures bound <= key(f[j]) {
      var i :| 0 <= i < |s| && s[i] == f[j];
    }
  }

  /** Putting an element no greater than every key in front of a sorted list
      keeps it sorted. */
  lemma PrependSorted<T>(x: T, t: seq<T>, key: T -> int)
    requires SortedBy(t, key)
    requires forall j :: 0 <= j < |t| ==> key(x) <= key(t[j])
    ensures SortedBy([x] + t, key)
  {
    var f := [x] + t;
    forall i, j | 0 <= i < j < |f| ensures key(f[i]) <= key(f[j]) {
      assert f[j] == t[j - 1];
      if i > 0 {
        assert f[i] == t[i - 1];
      }
    }
  }

  /** Filtering a sorted list leaves it sorted. */
  lemma {:induction false} FilterSorted<T>(s: seq<T>, key: T -> int, p: T -> bool)
    requires SortedBy(s, key)
    ensures SortedBy(Filter(s, p), key)
  {
    if s != [] {
      var rest := s[1..];
      assert forall i :: 0 <= i < |rest| ==> rest[i] == s[i + 1];
      FilterSorted(rest, key, p);
      FilterKeepsLowerBound(rest, key, p, key(s[0]));
      if p(s[0]) {
        PrependSorted(s[0], Filter(rest, p), key);
      }
    }
  }

  /** In a sorted list, the first element satisfying `p` has the smallest key
      of all the elements satisfying `p`. */
  lemma FirstMatchIsMinimal<T>(s: seq<T>, key: T -> int, p: T -> bool)
    requires SortedBy(s, key)
    ensures Filter(s, p) != [] ==>
      forall i :: 0 <= i < |s| && p(s[i]) ==> key(Filter(s, p)[0]) <= key(s[i])
  {
    var f := Filter(s, p);
    FilterSorted(s, key, p);
    forall i | 0 <= i < |s| && p(s[i])
      ensures key(f[0]) <= key(s[i])
    {
      var j :| 0 <= j < |f| && f[j] == s[i];
    }
  }

  /** Sorting comments neither adds nor drops any. */
  lemma SortCreatedMembers(cs: seq<Comment>)
    ensures forall c :: c in SortBy(cs, CreatedKey) <==> c in cs
  {
    var r := SortBy(cs, CreatedKey);
    assert multiset(r) == multiset(cs);
    forall c ensures c in r <==> c in cs {
      assert c in r <==> c in multiset(r);
      assert c in cs <==> c in multiset(cs);
    }
  }

  /** Sorting by a key and taking the first element that satisfies `p` finds
      an element of the input satisfying `p` with the smallest key, and finds
      nothing exactly when no element satisfies `p`. */
  lemma FirstMatchOfSort<T>(s: seq<T>, key: T -> int, p: T -> bool)
    ensures Filter(SortBy(s, key), p) == [] <==> forall i :: 0 <= i < |s| ==> !p(s[i])
    ensures Filter(SortBy(s, key), p) != [] ==>
      && Filter(SortBy(s, key), p)[0] in s
      && p(Filter(SortBy(s, key), p)[0])
      && forall i :: 0 <= i < |s| && p(s[i]) ==> key(Filter(SortBy(s, key), p)[0]) <= key(s[i])
  {
    var sorted := SortBy(s, key);
    var f := Filter(sorted, p);
    SortBySorted(s, key);
    FirstMatchIsMinimal(sorted, key, p);
    forall i | 0 <= i < |s| && p(s[i])
      ensures f != [] && key(f[0]) <= key(s[i])
    {
      assert s[i] in multiset(sorted);
      var j :| 0 <= j < |sorted| && sorted[j] == s[i];
    }
    if f != [] {
      assert f[0] in sorted;
      assert f[0] in multiset(s);
    }
  }
}
