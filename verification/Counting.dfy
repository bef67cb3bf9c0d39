/** Counting the elements of a sequence that meet a condition, and how a count follows one update. */
module Counting {
  ghost function Count<T>(s: seq<T>, p: T -> bool): nat {
    if s == [] then 0 else Count(s[..|s| - 1], p) + (if p(s[|s| - 1]) then 1 else 0)
  }

  lemma CountAppend<T>(s: seq<T>, x: T, p: T -> bool)
    ensures Count(s + [x], p) == Count(s, p) + (if p(x) then 1 else 0)
  {
    assert (s + [x])[..|s|] == s;
  }

  lemma {:induction false} CountUpdate<T>(s: seq<T>, i: nat, x: T, p: T -> bool)
    requires i < |s|
    ensures Count(s[i := x], p) == Count(s, p) - (if p(s[i]) then 1 else 0) + (if p(x) then 1 else 0)
  {
    var last := |s| - 1;
    if i == last {
      assert s[i := x][..last] == s[..last];
    } else {
      CountUpdate(s[..last], i, x, p);
      assert s[i := x][..last] == s[..last][i := x];
    }
  }

  /** Conditions that agree element by element count the same. */
  lemma {:induction false} CountSame<T>(s: seq<T>, p: T -> bool, q: T -> bool)
    requires forall x :: x in s ==> p(x) == q(x)
    ensures Count(s, p) == Count(s, q)
  {
    if s != [] {
      CountSame(s[..|s| - 1], p, q);
    }
  }

  /** Two conditions that cover a third count at least as much together. */
  lemma {:induction false} CountCover<T>(s: seq<T>, whole: T -> bool, p: T -> bool, q: T -> bool)
    requires forall x :: x in s && whole(x) ==> p(x) || q(x)
    ensures Count(s, whole) <= Count(s, p) + Count(s, q)
  {
    if s != [] {
      CountCover(s[..|s| - 1], whole, p, q);
    }
  }

  /** Three conditions that split a fourth count the same together. */
  lemma {:induction false} CountSplit<T>(s: seq<T>, whole: T -> bool, p: T -> bool, q: T -> bool, r: T -> bool)
    requires forall x :: x in s ==>
      (if whole(x) then 1 else 0) == (if p(x) then 1 else 0) + (if q(x) then 1 else 0) + (if r(x) then 1 else 0)
    ensures Count(s, whole) == Count(s, p) + Count(s, q) + Count(s, r)
  {
    if s != [] {
      CountSplit(s[..|s| - 1], whole, p, q, r);
    }
  }

  lemma {:induction false} CountZero<T>(s: seq<T>, p: T -> bool)
    requires forall x :: x in s ==> !p(x)
    ensures Count(s, p) == 0
  {
    if s != [] {
      CountZero(s[..|s| - 1], p);
    }
  }

  /** A condition only one element can meet counts as that element. */
  lemma {:induction false} CountAtMostOne<T>(s: seq<T>, i: nat, p: T -> bool)
    requires i < |s| && forall j :: 0 <= j < |s| && j != i ==> !p(s[j])
    ensures Count(s, p) == if p(s[i]) then 1 else 0
  {
    if i == |s| - 1 {
      CountZero(s[..i], p);
    } else {
      CountAtMostOne(s[..|s| - 1], i, p);
    }
  }

  lemma {:induction false} CountConcat<T>(s: seq<T>, t: seq<T>, p: T -> bool)
    ensures Count(s + t, p) == Count(s, p) + Count(t, p)
  {
    if t == [] {
      assert s + t == s;
    } else {
      assert (s + t)[..|s + t| - 1] == s + t[..|t| - 1];
      CountConcat(s, t[..|t| - 1], p);
    }
  }

  lemma {:induction false} CountAll<T>(s: seq<T>, p: T -> bool)
    requires forall x :: x in s ==> p(x)
    ensures Count(s, p) == |s|
  {
    if s != [] {
      CountAll(s[..|s| - 1], p);
    }
  }

  lemma {:induction false} CountIsWithin<T>(s: seq<T>, p: T -> bool)
    ensures Count(s, p) <= |s|
  {
    if s != [] {
      CountIsWithin(s[..|s| - 1], p);
    }
  }
}
