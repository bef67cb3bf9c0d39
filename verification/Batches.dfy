/**
 * Benchmark batches: the mulberry32 generator, the seeded Fisher-Yates shuffle of a copy, and the cutting
 * of the shuffled items into batches.
 */
module Batches {
  import opened Arithmetic

  const TWO_TO_THE_32: int := 0x1_0000_0000

  // ---- the generator ----

  function SeedState(seed: int): bv32 { (seed % TWO_TO_THE_32) as bv32 }

  function Advanced(a: bv32): bv32 { a + 0x6d2b79f5 }

  function Scrambled(a: bv32): bv32 { (a ^ (a >> 15)) * (1 | a) }

  function Blended(t: bv32): bv32 { (t + (t ^ (t >> 7)) * (61 | t)) ^ t }

  function Folded(t: bv32): bv32 { t ^ (t >> 14) }

  function Mixed(a: bv32): bv32 { Folded(Blended(Scrambled(a))) }

  class Generator {
    var a: bv32

    constructor (seed: int)
      ensures a == SeedState(seed)
    {
      a := SeedState(seed);
    }

    method Next() returns (word: bv32)
      modifies this
      ensures a == Advanced(old(a)) && word == Mixed(Advanced(old(a)))
    {
      a := Advanced(a);
      var t := Scrambled(a);
      t := Blended(t);
      word := Folded(t);
    }
  }

  /** The position a word draws among the first `i + 1`: the floor of the word over 2^32, times `i + 1`. */
  function Drawn(word: bv32, i: nat): (j: nat)
    ensures j <= i
  {
    WordTimes(word as int, i);
    word as int * (i + 1) / TWO_TO_THE_32
  }

  lemma WordTimes(word: int, i: nat)
    requires 0 <= word < TWO_TO_THE_32
    ensures 0 <= word * (i + 1) / TWO_TO_THE_32 <= i
  {
    ProductGrows(0, word, i + 1);
    ProductGrows(word, TWO_TO_THE_32 - 1, i + 1);
  }

  /** The draw is the floor: the word's share of 2^32 falls in the part of `i + 1` equal parts that the draw numbers. */
  lemma DrawnIsTheFloor(word: bv32, i: nat)
    ensures var j := Drawn(word, i); j * TWO_TO_THE_32 <= word as int * (i + 1) < (j + 1) * TWO_TO_THE_32
  {
    FloorOf(word as int * (i + 1));
  }

  lemma FloorOf(x: nat)
    ensures x / TWO_TO_THE_32 * TWO_TO_THE_32 <= x < (x / TWO_TO_THE_32 + 1) * TWO_TO_THE_32
  {
  }

  /** The first words of the stream from seed zero. */
  lemma KnownWords()
    ensures var a := Advanced(SeedState(0));
      Mixed(a) == 1144304738 && Mixed(Advanced(a)) == 1416247 && Mixed(Advanced(Advanced(a))) == 958946056
  {
  }

  /** The draws for the positions `n` down to one. */
  function Draws(a: bv32, n: nat): (js: seq<nat>)
    ensures |js| == n && forall i :: 0 <= i < n ==> js[i] <= i + 1
    decreases n
  {
    if n == 0 then [] else Draws(Advanced(a), n - 1) + [Drawn(Mixed(Advanced(a)), n)]
  }

  // ---- the shuffle, for any draws ----

  /** Draws for the positions from one on: each at most its own position. */
  predicate AreDraws(js: seq<nat>) { forall i :: 0 <= i < |js| ==> js[i] <= i + 1 }

  function Swapped<T>(s: seq<T>, i: nat, j: nat): seq<T>
    requires i < |s| && j < |s|
  {
    s[i := s[j]][j := s[i]]
  }

  /** Fisher-Yates from position `|js|` down to one, position `i` drawing `js[i - 1]`. */
  function Shuffled<T>(s: seq<T>, js: seq<nat>): (r: seq<T>)
    requires AreDraws(js) && (js != [] ==> |js| < |s|)
    ensures |r| == |s|
    decreases |js|
  {
    if js == [] then s
    else
      var n := |js|;
      Shuffled(Swapped(s, n, js[n - 1]), js[..n - 1])
  }

  lemma SwapPermutes<T>(s: seq<T>, i: nat, j: nat)
    requires i < |s| && j < |s|
    ensures multiset(Swapped(s, i, j)) == multiset(s)
  {
  }

  /** Whatever is drawn, a shuffle keeps every item as often as it was. */
  lemma {:induction false} ShufflePermutes<T>(s: seq<T>, js: seq<nat>)
    requires AreDraws(js) && (js != [] ==> |js| < |s|)
    ensures multiset(Shuffled(s, js)) == multiset(s)
    decreases |js|
  {
    if js != [] {
      SwapPermutes(s, |js|, js[|js| - 1]);
      ShufflePermutes(Swapped(s, |js|, js[|js| - 1]), js[..|js| - 1]);
    }
  }

  /** Positions past the draws stay. */
  lemma {:induction false} ShuffleKeepsTail<T>(s: seq<T>, js: seq<nat>, k: nat)
    requires AreDraws(js) && (js != [] ==> |js| < |s|) && |js| < k < |s|
    ensures Shuffled(s, js)[k] == s[k]
    decreases |js|
  {
    if js != [] {
      ShuffleKeepsTail(Swapped(s, |js|, js[|js| - 1]), js[..|js| - 1], k);
    }
  }

  predicate Distinct<T(==)>(s: seq<T>) { forall i, j :: 0 <= i < j < |s| ==> s[i] != s[j] }

  /** The place drawn for the last position is where its final item was. */
  lemma LastIsDrawn<T>(s: seq<T>, js: seq<nat>)
    requires AreDraws(js) && 0 < |js| < |s|
    ensures Shuffled(s, js)[|js|] == s[js[|js| - 1]]
  {
    ShuffleKeepsTail(Swapped(s, |js|, js[|js| - 1]), js[..|js| - 1], |js|);
  }

  /** Different draws never leave distinct items in the same order. */
  lemma {:induction false} DrawsAreDecided<T>(s: seq<T>, js: seq<nat>, ks: seq<nat>)
    requires AreDraws(js) && AreDraws(ks) && |js| == |ks| && (js != [] ==> |js| < |s|)
    requires Distinct(s) && Shuffled(s, js) == Shuffled(s, ks)
    ensures js == ks
    decreases |js|
  {
    if js != [] {
      var n := |js|;
      LastIsDrawn(s, js);
      LastIsDrawn(s, ks);
      assert js[n - 1] == ks[n - 1];
      DrawsAreDecided(Swapped(s, n, js[n - 1]), js[..n - 1], ks[..n - 1]);
      assert js == js[..n - 1] + [js[n - 1]] && ks == ks[..n - 1] + [ks[n - 1]];
    }
  }

  /** Every order of the first `n + 1` items comes out of some draws. */
  lemma {:induction false} EveryOrderIsDrawn<T(!new)>(s: seq<T>, target: seq<T>, n: nat) returns (js: seq<nat>)
    requires multiset(target) == multiset(s) && |target| == |s| && (n > 0 ==> n < |s|)
    requires forall k :: n < k < |s| ==> target[k] == s[k]
    ensures AreDraws(js) && |js| == n && Shuffled(s, js) == target
    decreases n
  {
    if n == 0 {
      js := [];
      assert s != [] ==> target[0] == s[0] by {
        if s != [] {
          HeadIsForced(s, target);
        }
      }
      assert target == s;
    } else {
      var j := WhereLast(s, target, n);
      var swapped := Swapped(s, n, j);
      SwapPermutes(s, n, j);
      var rest := EveryOrderIsDrawn(swapped, target, n - 1);
      js := rest + [j];
      assert js[..n - 1] == rest;
    }
  }

  lemma HeadIsForced<T>(s: seq<T>, target: seq<T>)
    requires s != [] && |target| == |s| && multiset(target) == multiset(s) && forall k :: 0 < k < |s| ==> target[k] == s[k]
    ensures target[0] == s[0]
  {
    assert s == [s[0]] + s[1..] && target == [target[0]] + s[1..];
    var rest := multiset(s[1..]);
    assert multiset(s) == multiset{s[0]} + rest;
    assert multiset(target) == multiset{target[0]} + rest;
    assert multiset(s)[s[0]] == rest[s[0]] + 1;
  }

  lemma WhereLast<T>(s: seq<T>, target: seq<T>, n: nat) returns (j: nat)
    requires n < |s| == |target| && multiset(target) == multiset(s) && forall k :: n < k < |s| ==> target[k] == s[k]
    ensures j <= n && s[j] == target[n]
  {
    var tail := s[n + 1..];
    assert s == s[..n + 1] + tail && target == target[..n + 1] + tail;
    assert multiset(s[..n + 1]) == multiset(s) - multiset(tail) == multiset(target[..n + 1]);
    assert target[..n + 1][n] in multiset(target[..n + 1]);
    j :| 0 <= j < |s[..n + 1]| && s[..n + 1][j] == target[n];
  }

  // ---- the seeded shuffle ----

  function DrawsFor(length: nat, seed: int): seq<nat> {
    if length == 0 then [] else Draws(SeedState(seed), length - 1)
  }

  /** The order that items and a seed decide, and nothing else. */
  function SeededOrder<T>(items: seq<T>, seed: int): seq<T> {
    Shuffled(items, DrawsFor(|items|, seed))
  }

  method SeededShuffle<T>(items: array<T>, seed: int) returns (out: array<T>)
    ensures fresh(out) && out[..] == SeededOrder(items[..], seed)
  {
    hide Mixed, Drawn, Advanced, SeedState;
    out := new T[items.Length](i requires 0 <= i < items.Length reads items => items[i]);
    assert out[..] == items[..];
    var rand := new Generator(seed);
    var i := out.Length - 1;
    while i > 0
      invariant out.Length == items.Length && (out.Length > 0 ==> 0 <= i < out.Length) && i >= -1
      invariant i > 0 ==> Shuffled(out[..], Draws(rand.a, i)) == SeededOrder(items[..], seed)
      invariant i <= 0 ==> out[..] == SeededOrder(items[..], seed)
    {
      ghost var before, a := out[..], rand.a;
      var word := rand.Next();
      var j := Drawn(word, i);
      out[i], out[j] := out[j], out[i];
      assert out[..] == Swapped(before, i, j);
      assert Draws(a, i)[..i - 1] == Draws(rand.a, i - 1) && Draws(a, i)[i - 1] == j;
      i := i - 1;
    }
  }

  // ---- the batches ----

  function Cut<T>(s: seq<T>, size: nat): seq<seq<T>>
    requires size > 0
    decreases |s|
  {
    if s == [] then [] else [s[..Min(size, |s|)]] + Cut(s[Min(size, |s|)..], size)
  }

  function Concat<T>(batches: seq<seq<T>>): seq<T> {
    if batches == [] then [] else batches[0] + Concat(batches[1..])
  }

  function CutFrom<T>(s: seq<T>, i: nat, size: nat): seq<seq<T>>
    requires size > 0
  {
    if i < |s| then Cut(s[i..], size) else []
  }

  lemma CutNext<T>(s: seq<T>, i: nat, size: nat)
    requires size > 0 && i < |s|
    ensures CutFrom(s, i, size) == [s[i..Min(i + size, |s|)]] + CutFrom(s, i + size, size)
  {
    var end, rest := Min(i + size, |s|), s[i..];
    assert rest[..end - i] == s[i..end] && rest[end - i..] == s[end..];
    assert Min(size, |rest|) == end - i;
    assert Cut(rest, size) == [s[i..end]] + Cut(s[end..], size);
    assert end == |s| ==> Cut(s[end..], size) == [];
  }

  /**
   * The batches lose, repeat and reorder nothing; all but the last are full, the last holds at least
   * one; their number is the quotient rounded up.
   */
  lemma {:induction false} CutIsExact<T>(s: seq<T>, size: nat)
    requires size > 0
    ensures var batches := Cut(s, size);
      Concat(batches) == s && |s| <= |batches| * size < |s| + size && AreFull(batches, size)
    decreases |s|
  {
    if s != [] {
      var end := Min(size, |s|);
      var first, rest := s[..end], s[end..];
      var others := Cut(rest, size);
      CutIsExact(rest, size);
      assert Cut(s, size) == [first] + others && s == first + rest;
      assert ([first] + others)[1..] == others;
      MoreFull(first, others, size);
      OneMore(|others|, size);
    }
  }

  ghost predicate AreFull<T>(batches: seq<seq<T>>, size: nat) {
    forall b :: 0 <= b < |batches| ==> if b < |batches| - 1 then |batches[b]| == size else 0 < |batches[b]| <= size
  }

  lemma MoreFull<T>(first: seq<T>, others: seq<seq<T>>, size: nat)
    requires AreFull(others, size) && (if others == [] then 0 < |first| <= size else |first| == size)
    ensures AreFull([first] + others, size)
  {
  }

  lemma OneMore(n: nat, size: nat)
    ensures (n + 1) * size == n * size + size
  {
  }

  method InBatches<T>(shuffled: array<T>, size: nat) returns (batches: seq<seq<T>>)
    requires size > 0
    ensures batches == Cut(shuffled[..], size)
  {
    ghost var all := shuffled[..];
    batches := [];
    var i := 0;
    while i < shuffled.Length
      invariant 0 <= i
      invariant batches + CutFrom(all, i, size) == Cut(all, size)
    {
      var batch := shuffled[i..Min(i + size, shuffled.Length)];
      CutNext(all, i, size);
      assert batch == all[i..Min(i + size, |all|)];
      assert batches + ([batch] + CutFrom(all, i + size, size)) == batches + [batch] + CutFrom(all, i + size, size);
      batches := batches + [batch];
      i := i + size;
    }
  }

  method MakeBatches<T>(items: array<T>, size: nat, seed: int) returns (batches: seq<seq<T>>)
    requires size > 0
    ensures batches == Cut(SeededOrder(items[..], seed), size)
  {
    var shuffled := SeededShuffle(items, seed);
    batches := InBatches(shuffled, size);
  }

  /** The batches of any items hold those items, each as often, in the order items and seed decide. */
  lemma BatchesHoldEverything<T>(items: seq<T>, size: nat, seed: int)
    requires size > 0
    ensures var batches := Cut(SeededOrder(items, seed), size);
      Concat(batches) == SeededOrder(items, seed) && multiset(Concat(batches)) == multiset(items)
  {
    CutIsExact(SeededOrder(items, seed), size);
    ShufflePermutes(items, DrawsFor(|items|, seed));
  }
}
