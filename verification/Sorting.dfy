/** Stable sorting by an order, and filtering, on sequences: what the source's array `sort` and `filter` compute. */
module Sorting {
  ghost predicate TotalPreorder<T(!new)>(leq: (T, T) -> bool) {
    && (forall x, y :: leq(x, y) || leq(y, x))
    && (forall x, y, z :: leq(x, y) && leq(y, z) ==> leq(x, z))
  }

  ghost predicate Sorted<T>(s: seq<T>, leq: (T, T) -> bool) {
    forall i, j :: 0 <= i < j < |s| ==> leq(s[i], s[j])
  }

  /** Puts `x` after every element it does not come strictly before. */
  function Insert<T>(s: seq<T>, x: T, leq: (T, T) -> bool): seq<T> {
    if s == [] || leq(s[|s| - 1], x) then s + [x]
    else Insert(s[..|s| - 1], x, leq) + [s[|s| - 1]]
  }

  function Sort<T>(s: seq<T>, leq: (T, T) -> bool): seq<T> {
    if s == [] then [] else Insert(Sort(s[..|s| - 1], leq), s[|s| - 1], leq)
  }

  lemma {:induction false} InsertPermutes<T>(s: seq<T>, x: T, leq: (T, T) -> bool)
    ensures multiset(Insert(s, x, leq)) == multiset(s) + multiset{x}
  {
    if s != [] && !leq(s[|s| - 1], x) {
      InsertPermutes(s[..|s| - 1], x, leq);
      assert s == s[..|s| - 1] + [s[|s| - 1]];
    }
  }

  lemma {:induction false} InsertSorts<T(!new)>(s: seq<T>, x: T, leq: (T, T) -> bool)
    requires TotalPreorder(leq) && Sorted(s, leq)
    ensures Sorted(Insert(s, x, leq), leq)
  {
    if s != [] && !leq(s[|s| - 1], x) {
      var front, last := s[..|s| - 1], s[|s| - 1];
      var inserted := Insert(front, x, leq);
      InsertSorts(front, x, leq);
      InsertPermutes(front, x, leq);
      forall i | 0 <= i < |inserted| ensures leq(inserted[i], last) {
        assert inserted[i] in multiset(inserted);
        if inserted[i] != x {
          var j :| 0 <= j < |front| && front[j] == inserted[i];
          assert leq(s[j], s[|s| - 1]);
        }
      }
    } else if s != [] {
      forall i | 0 <= i < |s| ensures leq(s[i], x) {
        assert i < |s| - 1 ==> leq(s[i], s[|s| - 1]);
      }
    }
  }

  lemma {:induction false} FilterTwice<T(!new)>(s: seq<T>, keep: T -> bool, also: T -> bool, both: T -> bool)
    requires forall x :: x in s ==> (both(x) <==> keep(x) && also(x))
    ensures Filter(Filter(s, keep), also) == Filter(s, both)
  {
    if s != [] {
      var front, last := s[..|s| - 1], s[|s| - 1];
      assert s == front + [last] && last in s;
      FilterTwice(front, keep, also, both);
      if keep(last) {
        FilterAppend(Filter(front, keep), last, also);
      }
    }
  }

  /** A sort keeps every element as often as it was. */
  lemma {:induction false} SortPermutes<T>(s: seq<T>, leq: (T, T) -> bool)
    ensures multiset(Sort(s, leq)) == multiset(s) && |Sort(s, leq)| == |s|
    ensures forall x :: x in Sort(s, leq) <==> x in s
  {
    if s != [] {
      SortPermutes(s[..|s| - 1], leq);
      InsertPermutes(Sort(s[..|s| - 1], leq), s[|s| - 1], leq);
      assert s == s[..|s| - 1] + [s[|s| - 1]];
    }
    SameElements(Sort(s, leq), s);
  }

  lemma SameElements<T>(s: seq<T>, t: seq<T>)
    requires multiset(s) == multiset(t)
    ensures |s| == |t| && forall x :: x in s <==> x in t
  {
    assert |multiset(s)| == |multiset(t)|;
    forall x ensures x in s <==> x in t {
      assert x in multiset(s) <==> x in multiset(t);
    }
  }

  lemma {:induction false} SortSorts<T(!new)>(s: seq<T>, leq: (T, T) -> bool)
    requires TotalPreorder(leq)
    ensures Sorted(Sort(s, leq), leq)
  {
    if s != [] {
      SortSorts(s[..|s| - 1], leq);
      InsertSorts(Sort(s[..|s| - 1], leq), s[|s| - 1], leq);
    }
  }

  function Filter<T(!new)>(s: seq<T>, keep: T -> bool): (r: seq<T>)
    ensures forall x :: x in r <==> x in s && keep(x)
  {
    if s == [] then []
    else
      var last := s[|s| - 1];
      assert s == s[..|s| - 1] + [last];
      if keep(last) then Filter(s[..|s| - 1], keep) + [last] else Filter(s[..|s| - 1], keep)
  }

  lemma {:induction false} FilterKeepsAll<T(!new)>(s: seq<T>, keep: T -> bool)
    requires forall x :: x in s ==> keep(x)
    ensures Filter(s, keep) == s
  {
    if s != [] {
      var front, last := s[..|s| - 1], s[|s| - 1];
      assert s == front + [last];
      FilterKeepsAll(front, keep);
    }
  }

  lemma {:induction false} FilterDropsAll<T(!new)>(s: seq<T>, keep: T -> bool)
    requires forall x :: x in s ==> !keep(x)
    ensures Filter(s, keep) == []
  {
    if s != [] {
      FilterDropsAll(s[..|s| - 1], keep);
    }
  }

  lemma {:induction false} InsertHead<T(!new)>(s: seq<T>, x: T, leq: (T, T) -> bool)
    requires TotalPreorder(leq) && Sorted(s, leq) && s != []
    ensures Insert(s, x, leq) != [] && Insert(s, x, leq)[0] == if leq(s[0], x) then s[0] else x
  {
    var front, last := s[..|s| - 1], s[|s| - 1];
    if front == [] {
      assert s == [last] && Insert(front, x, leq) == [x];
    } else {
      assert leq(s[0], last);
      if !leq(last, x) {
        InsertHead(front, x, leq);
      }
    }
  }

  lemma SortByLast<T(!new)>(s: seq<T>, leq: (T, T) -> bool)
    requires s != []
    ensures Sort(s, leq) == Insert(Sort(s[..|s| - 1], leq), s[|s| - 1], leq)
    ensures |s| == 1 ==> Sort(s, leq) == [s[0]]
  {
  }

  /** Sorting one more element keeps the head or puts the new one there. */
  lemma SortHeadIsAmong<T(!new)>(front: seq<T>, last: T, leq: (T, T) -> bool)
    requires TotalPreorder(leq) && front != []
    ensures var sorted := Sort(front, leq);
      && sorted != [] && sorted[0] in front
      && Insert(sorted, last, leq) != [] && Insert(sorted, last, leq)[0] == if leq(sorted[0], last) then sorted[0] else last
  {
    hide TotalPreorder, Sorted, Sort, Insert;
    SortSorts(front, leq);
    SortPermutes(front, leq);
    InsertHead(Sort(front, leq), last, leq);
    assert Sort(front, leq)[0] in Sort(front, leq);
  }

  /** The sort is stable at its head: first comes the earliest of the least elements. */
  lemma {:induction false} SortFirst<T(!new)>(s: seq<T>, leq: (T, T) -> bool, i: nat)
    requires TotalPreorder(leq) && i < |s|
    requires forall j :: 0 <= j < |s| ==> leq(s[i], s[j])
    requires forall j :: 0 <= j < i ==> !leq(s[j], s[i])
    ensures Sort(s, leq) != [] && Sort(s, leq)[0] == s[i]
  {
    hide TotalPreorder, Sorted, Sort, Insert;
    var front, last := s[..|s| - 1], s[|s| - 1];
    SortByLast(s, leq);
    SortPermutes(front, leq);
    if front != [] {
      SortHeadIsAmong(front, last, leq);
      if i < |front| {
        SortFirst(front, leq, i);
      } else {
        var j :| 0 <= j < |front| && front[j] == Sort(front, leq)[0];
        assert !leq(s[j], s[i]);
      }
    }
  }

  lemma {:induction false} FilterInsert<T(!new)>(s: seq<T>, x: T, keep: T -> bool, leq: (T, T) -> bool)
    requires TotalPreorder(leq) && Sorted(s, leq)
    ensures Filter(Insert(s, x, leq), keep) == if keep(x) then Insert(Filter(s, keep), x, leq) else Filter(s, keep)
  {
    hide TotalPreorder;
    if s == [] || leq(s[|s| - 1], x) {
      FilterAppend(s, x, keep);
      if s != [] && keep(x) {
        LastKeptComesBefore(s, x, keep, leq);
      }
    } else {
      var front, last := s[..|s| - 1], s[|s| - 1];
      FilterInsert(front, x, keep, leq);
      FilterAppend(Insert(front, x, leq), last, keep);
      if keep(x) && keep(last) {
        InsertBeforeLast(Filter(front, keep), last, x, leq);
      }
    }
  }

  lemma FilterAppend<T(!new)>(s: seq<T>, x: T, keep: T -> bool)
    ensures Filter(s + [x], keep) == if keep(x) then Filter(s, keep) + [x] else Filter(s, keep)
  {
    assert (s + [x])[..|s|] == s;
  }

  lemma InsertBeforeLast<T>(s: seq<T>, last: T, x: T, leq: (T, T) -> bool)
    requires !leq(last, x)
    ensures Insert(s + [last], x, leq) == Insert(s, x, leq) + [last]
  {
    assert (s + [last])[..|s|] == s;
  }

  /** What is kept of a sorted list stays before what its last element stays before. */
  lemma LastKeptComesBefore<T(!new)>(s: seq<T>, x: T, keep: T -> bool, leq: (T, T) -> bool)
    requires TotalPreorder(leq) && Sorted(s, leq) && s != [] && leq(s[|s| - 1], x)
    ensures var kept := Filter(s, keep); kept == [] || leq(kept[|kept| - 1], x)
  {
    var kept, last := Filter(s, keep), s[|s| - 1];
    if kept != [] {
      assert kept[|kept| - 1] in kept;
      var i :| 0 <= i < |s| && s[i] == kept[|kept| - 1];
      assert leq(s[i], last);
    }
  }

  lemma FilterSortMore<T(!new)>(front: seq<T>, last: T, keep: T -> bool, leq: (T, T) -> bool)
    requires TotalPreorder(leq) && Filter(Sort(front, leq), keep) == Sort(Filter(front, keep), leq)
    ensures Filter(Sort(front + [last], leq), keep) == Sort(Filter(front + [last], keep), leq)
  {
    hide TotalPreorder, Sorted, Insert, Filter, Sort;
    var s := front + [last];
    assert s[..|s| - 1] == front;
    SortSorts(front, leq);
    SortByLast(s, leq);
    FilterInsert(Sort(front, leq), last, keep, leq);
    FilterAppend(front, last, keep);
    if keep(last) {
      var kept := Filter(front, keep) + [last];
      assert kept[..|kept| - 1] == Filter(front, keep);
      SortByLast(kept, leq);
    }
  }

  /** Filtering what was sorted is sorting what was filtered. */
  lemma {:induction false} FilterSort<T(!new)>(s: seq<T>, keep: T -> bool, leq: (T, T) -> bool)
    requires TotalPreorder(leq)
    ensures Filter(Sort(s, leq), keep) == Sort(Filter(s, keep), leq)
  {
    if s != [] {
      var front, last := s[..|s| - 1], s[|s| - 1];
      FilterSort(front, keep, leq);
      FilterSortMore(front, last, keep, leq);
      assert s == front + [last];
    }
  }

  lemma {:induction false} SortOfEquals<T(!new)>(s: seq<T>, leq: (T, T) -> bool)
    requires forall i, j :: 0 <= i < j < |s| ==> leq(s[i], s[j])
    ensures Sort(s, leq) == s
  {
    if s != [] {
      var front, last := s[..|s| - 1], s[|s| - 1];
      SortOfEquals(front, leq);
      SortByLast(s, leq);
      InsertAtEnd(front, last, leq);
    }
  }

  lemma InsertAtEnd<T>(s: seq<T>, x: T, leq: (T, T) -> bool)
    requires s == [] || leq(s[|s| - 1], x)
    ensures Insert(s, x, leq) == s + [x]
  {
  }

  /** The sort is stable: elements that the order does not tell apart keep their order. */
  lemma SortStable<T(!new)>(s: seq<T>, leq: (T, T) -> bool, alike: T -> bool)
    requires TotalPreorder(leq) && forall x, y :: alike(x) && alike(y) ==> leq(x, y)
    ensures Filter(Sort(s, leq), alike) == Filter(s, alike)
  {
    FilterSort(s, alike, leq);
    var kept := Filter(s, alike);
    forall i, j | 0 <= i < j < |kept| ensures leq(kept[i], kept[j]) {
      assert kept[i] in kept && kept[j] in kept;
    }
    SortOfEquals(kept, leq);
  }

  function Map<T, U>(s: seq<T>, f: T -> U): (r: seq<U>)
    ensures |r| == |s|
    ensures forall i :: 0 <= i < |s| ==> r[i] == f(s[i])
  {
    seq(|s|, i requires 0 <= i < |s| => f(s[i]))
  }
}
