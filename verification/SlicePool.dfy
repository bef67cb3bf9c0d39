/**
 * The bounded pool that fetches a window of QCEW slices: workers over one shared cursor, and a
 * deadline that may fire between any two of their steps. What runs between two awaits is one step.
 */
module SlicePool {
  import opened Arithmetic
  import opened Options

  const CONCURRENCY: nat := 6

  /** A slot of the results: not written, a fetched slice (none when not published), or stopped by the deadline. */
  datatype Slot = Unset | Csv(csv: Option<string>) | TimedOut

  /** The top of a worker's loop: stop and mark all that is not started, or take the next slice. */
  function TopOfLoop(cursor: nat, results: seq<Slot>, aborted: bool): (nat, seq<Slot>, Option<nat>) {
    if aborted then
      var from := Min(cursor, |results|);
      (cursor + |results| - from, results[..from] + seq(|results| - from, _ => TimedOut), None)
    else (cursor + 1, results, if cursor < |results| then Some(cursor) else None)
  }

  /** The shared cursor and results, as the workers change them. */
  class Pool {
    var cursor: nat
    const results: array<Slot>

    constructor (slices: nat)
      ensures cursor == 0 && results.Length == slices && fresh(results)
      ensures forall i :: 0 <= i < slices ==> results[i] == Unset
    {
      cursor := 0;
      results := new Slot[slices](_ => Unset);
    }

    method Take(aborted: bool) returns (next: Option<nat>)
      modifies this, results
      ensures (cursor, results[..], next) == TopOfLoop(old(cursor), old(results[..]), aborted)
    {
      if aborted {
        ghost var from := Min(cursor, results.Length);
        while cursor < results.Length
          invariant from <= cursor && (cursor <= results.Length || cursor == old(cursor))
          invariant forall i :: 0 <= i < results.Length ==>
            results[i] == if from <= i < cursor then TimedOut else old(results[i])
        {
          results[cursor] := TimedOut;
          cursor := cursor + 1;
        }
        assert results[..] == old(results[..])[..from] + seq(results.Length - from, _ => TimedOut);
        return None;
      }
      var i := cursor;
      cursor := cursor + 1;
      return if i >= results.Length then None else Some(i);
    }

    /** From the end of a worker's fetch to its next await: the slot is written and the next slice taken. */
    method Resume(i: nat, slot: Slot, aborted: bool) returns (next: Option<nat>)
      requires i < results.Length
      modifies this, results
      ensures (cursor, results[..], next) == TopOfLoop(old(cursor), old(results[..])[i := slot], aborted)
    {
      results[i] := slot;
      assert results[..] == old(results[..])[i := slot];
      next := Take(aborted);
    }
  }

  // ---- runs ----

  datatype Worker = Ready | Fetching(slice: nat) | Done | Thrown(lost: nat)

  datatype Ending = Got | Deadline | Error

  /** `started` records the slices fetched, in order, and `writes` how often each slot was written. */
  datatype State = State(
    cursor: nat,
    results: seq<Slot>,
    workers: seq<Worker>,
    aborted: bool,
    started: seq<nat>,
    writes: seq<nat>)

  /** A worker's first step, the end of a worker's fetch together with what it does next, or the deadline. */
  datatype Event = Enter(worker: nat) | Finish(worker: nat, ending: Ending) | Abort

  function Initial(slices: nat): State {
    State(0, seq(slices, _ => Unset), seq(Min(CONCURRENCY, slices), _ => Ready), false, [], seq(slices, _ => 0))
  }

  /** The slots from one place up to another, in order. */
  function Range(from: nat, to: nat): seq<nat> {
    if from >= to then [] else Range(from, to - 1) + [to - 1]
  }

  function Loop(s: State, w: nat): State
    requires w < |s.workers|
  {
    var (cursor, results, next) := TopOfLoop(s.cursor, s.results, s.aborted);
    State(cursor, results,
      s.workers[w := if next.Some? then Fetching(next.value) else Done],
      s.aborted,
      if next.Some? then s.started + [next.value] else s.started,
      seq(|s.writes|, i requires 0 <= i < |s.writes| => if s.aborted && s.cursor <= i then s.writes[i] + 1 else s.writes[i]))
  }

  /** A worker whose fetch has ended, its slot written. */
  function Settled(s: State, w: nat, slot: Slot): State
    requires w < |s.workers| && s.workers[w].Fetching? && s.workers[w].slice < |s.results|
  {
    var i := s.workers[w].slice;
    s.(results := s.results[i := slot], workers := s.workers[w := Ready],
       writes := seq(|s.writes|, k requires 0 <= k < |s.writes| => if k == i then s.writes[k] + 1 else s.writes[k]))
  }

  /** A fetch is stopped by the deadline only once it has fired. */
  predicate Enabled(s: State, e: Event) {
    match e
    case Enter(w) => w < |s.workers| && s.workers[w].Ready?
    case Finish(w, ending) =>
      && w < |s.workers| && s.workers[w].Fetching? && s.workers[w].slice < |s.results|
      && (ending.Deadline? ==> s.aborted)
    case Abort => true
  }

  /** `slices` is what the agency has for each slot. */
  function Next(slices: nat -> Option<string>, s: State, e: Event): State
    requires Enabled(s, e)
  {
    match e
    case Abort => s.(aborted := true)
    case Enter(w) => Loop(s, w)
    case Finish(w, ending) =>
      var i := s.workers[w].slice;
      if ending.Error? then s.(workers := s.workers[w := Thrown(i)])
      else
        var slot := if ending.Got? then Csv(slices(i)) else TimedOut;
        Loop(Settled(s, w, slot), w)
  }

  predicate Run(slices: nat -> Option<string>, s: State, events: seq<Event>)
    decreases |events|
  {
    events == [] || (Enabled(s, events[0]) && Run(slices, Next(slices, s, events[0]), events[1..]))
  }

  function After(slices: nat -> Option<string>, s: State, events: seq<Event>): State
    requires Run(slices, s, events)
    decreases |events|
  {
    if events == [] then s else After(slices, Next(slices, s, events[0]), events[1..])
  }

  // ---- the invariant ----

  predicate Holds(w: Worker, i: nat) { w == Fetching(i) || w == Thrown(i) }

  /** Every slot below the cursor is written, or held by the one worker that fetches or lost it; none above is touched. */
  ghost predicate SlotsOk(slices: nat -> Option<string>, s: State) {
    && (forall i :: 0 <= i < |s.results| && s.results[i].Unset? && i < s.cursor ==>
          exists w :: 0 <= w < |s.workers| && Holds(s.workers[w], i))
    && (forall i :: s.cursor <= i < |s.results| ==> s.results[i].Unset?)
    && (forall i :: 0 <= i < |s.results| && s.results[i].Csv? ==> s.results[i].csv == slices(i))
    && (forall i :: 0 <= i < |s.results| && s.results[i].TimedOut? ==> s.aborted)
  }

  ghost predicate WorkersOk(s: State) {
    && (forall w :: 0 <= w < |s.workers| && s.workers[w].Fetching? ==>
          s.workers[w].slice < s.cursor && s.workers[w].slice < |s.results| && s.results[s.workers[w].slice].Unset?)
    && (forall w :: 0 <= w < |s.workers| && s.workers[w].Thrown? ==>
          s.workers[w].lost < s.cursor && s.workers[w].lost < |s.results| && s.results[s.workers[w].lost].Unset?)
    && (forall v, w, i :: 0 <= v < |s.workers| && 0 <= w < |s.workers| && Holds(s.workers[v], i) && Holds(s.workers[w], i) ==> v == w)
    && (forall w :: 0 <= w < |s.workers| && s.workers[w].Done? ==> |s.results| <= s.cursor)
  }

  ghost predicate LogsOk(s: State) {
    && s.started == Range(0, |s.started|)
    && |s.started| <= Min(s.cursor, |s.results|)
    && (!s.aborted ==> |s.started| == Min(s.cursor, |s.results|))
    && |s.writes| == |s.results|
    && (forall i :: 0 <= i < |s.writes| ==> s.writes[i] == if s.results[i].Unset? then 0 else 1)
  }

  ghost predicate Inv(slices: nat -> Option<string>, s: State) {
    SlotsOk(slices, s) && WorkersOk(s) && LogsOk(s)
  }

  lemma InitialInv(slices: nat -> Option<string>, n: nat)
    ensures Inv(slices, Initial(n))
  {
  }

  lemma {:induction false} RangeIs(from: nat, to: nat)
    ensures |Range(from, to)| == if from >= to then 0 else to - from
    ensures forall i :: 0 <= i < |Range(from, to)| ==> Range(from, to)[i] == from + i
    ensures forall x :: x in Range(from, to) <==> from <= x < to
  {
    if from < to {
      RangeIs(from, to - 1);
      var front := Range(from, to - 1);
      forall x ensures x in Range(from, to) <==> from <= x < to {
        assert x in Range(from, to) <==> x in front || x == to - 1;
      }
    }
  }

  lemma LoopKeepsSlots(slices: nat -> Option<string>, s: State, w: nat)
    requires SlotsOk(slices, s) && w < |s.workers| && (s.workers[w].Ready? || s.workers[w].Done?)
    ensures SlotsOk(slices, Loop(s, w))
  {
    var t := Loop(s, w);
    forall i | 0 <= i < |t.results| && t.results[i].Unset? && i < t.cursor
      ensures exists v :: 0 <= v < |t.workers| && Holds(t.workers[v], i)
    {
      if i < s.cursor {
        var v :| 0 <= v < |s.workers| && Holds(s.workers[v], i);
        assert t.workers[v] == s.workers[v];
      } else {
        assert Holds(t.workers[w], i);
      }
    }
  }

  /** A worker at the top of its loop, holding nothing, takes a slice nobody holds. */
  lemma LoopKeepsInv(slices: nat -> Option<string>, s: State, w: nat)
    requires Inv(slices, s) && w < |s.workers| && s.workers[w].Ready?
    ensures Inv(slices, Loop(s, w))
  {
    LoopKeepsSlots(slices, s, w);
    LoopKeepsWorkers(s, w);
    LoopKeepsLogs(s, w);
  }

  lemma LoopKeepsWorkers(s: State, w: nat)
    requires WorkersOk(s) && w < |s.workers| && s.workers[w].Ready?
    requires forall i :: s.cursor <= i < |s.results| ==> s.results[i].Unset?
    ensures WorkersOk(Loop(s, w))
  {
    var t := Loop(s, w);
    assert forall v :: 0 <= v < |s.workers| && v != w ==> t.workers[v] == s.workers[v];
    assert forall i :: 0 <= i < s.cursor && i < |s.results| ==> t.results[i] == s.results[i];
    forall v | 0 <= v < |s.workers| ensures !Holds(s.workers[v], s.cursor) {
    }
  }

  lemma LoopKeepsLogs(s: State, w: nat)
    requires LogsOk(s) && w < |s.workers|
    requires forall i :: s.cursor <= i < |s.results| ==> s.results[i].Unset?
    ensures LogsOk(Loop(s, w))
  {
    RangeIs(0, |s.started|);
  }

  lemma SettledKeepsInv(slices: nat -> Option<string>, s: State, w: nat, slot: Slot)
    requires Inv(slices, s) && w < |s.workers| && s.workers[w].Fetching? && s.workers[w].slice < |s.results|
    requires slot == Csv(slices(s.workers[w].slice)) || (slot == TimedOut && s.aborted)
    ensures Inv(slices, Settled(s, w, slot))
  {
    var i := s.workers[w].slice;
    var t := Settled(s, w, slot);
    assert Holds(s.workers[w], i);
    forall j | 0 <= j < |t.results| && t.results[j].Unset? && j < t.cursor
      ensures exists v :: 0 <= v < |t.workers| && Holds(t.workers[v], j)
    {
      var v :| 0 <= v < |s.workers| && Holds(s.workers[v], j);
      assert t.workers[v] == s.workers[v];
    }
    forall v | 0 <= v < |t.workers| && v != w ensures !Holds(t.workers[v], i) {
      assert t.workers[v] == s.workers[v];
    }
  }

  lemma ThrownKeepsInv(slices: nat -> Option<string>, s: State, w: nat)
    requires Inv(slices, s) && w < |s.workers| && s.workers[w].Fetching?
    ensures Inv(slices, s.(workers := s.workers[w := Thrown(s.workers[w].slice)]))
  {
    var t := s.(workers := s.workers[w := Thrown(s.workers[w].slice)]);
    forall v, i | 0 <= v < |t.workers| ensures Holds(t.workers[v], i) <==> Holds(s.workers[v], i) {
    }
    forall j | 0 <= j < |t.results| && t.results[j].Unset? && j < t.cursor
      ensures exists v :: 0 <= v < |t.workers| && Holds(t.workers[v], j)
    {
      var v :| 0 <= v < |s.workers| && Holds(s.workers[v], j);
      assert Holds(t.workers[v], j);
    }
  }

  lemma StepKeepsInv(slices: nat -> Option<string>, s: State, e: Event)
    requires Inv(slices, s) && Enabled(s, e)
    ensures Inv(slices, Next(slices, s, e))
  {
    match e {
      case Abort =>
      case Enter(w) => LoopKeepsInv(slices, s, w);
      case Finish(w, ending) =>
        if ending.Error? {
          ThrownKeepsInv(slices, s, w);
        } else {
          var slot := if ending.Got? then Csv(slices(s.workers[w].slice)) else TimedOut;
          SettledKeepsInv(slices, s, w, slot);
          LoopKeepsInv(slices, Settled(s, w, slot), w);
        }
    }
  }

  lemma {:induction false} RunKeepsInv(slices: nat -> Option<string>, s: State, events: seq<Event>)
    requires Inv(slices, s) && Run(slices, s, events)
    ensures Inv(slices, After(slices, s, events))
    ensures |After(slices, s, events).workers| == |s.workers| && |After(slices, s, events).results| == |s.results|
    decreases |events|
  {
    if events != [] {
      StepKeepsInv(slices, s, events[0]);
      RunKeepsInv(slices, Next(slices, s, events[0]), events[1..]);
    }
  }

  /**
   * At every moment of every run: at most six fetches are in flight, and no more than there are
   * slices; slices have been started in index order, each once; no slot has been written twice; and
   * what is written is that slot's own slice, or a mark the deadline left.
   */
  lemma PoolIsOrderly(slices: nat -> Option<string>, n: nat, events: seq<Event>)
    requires Run(slices, Initial(n), events)
    ensures var s := After(slices, Initial(n), events);
      && |s.workers| == Min(CONCURRENCY, n) && |s.results| == n
      && (forall v, w, i :: 0 <= v < |s.workers| && 0 <= w < |s.workers| && s.workers[v] == Fetching(i) == s.workers[w] ==> v == w)
      && s.started == Range(0, |s.started|) && |s.started| <= n
      && |s.writes| == n && (forall i :: 0 <= i < n ==> s.writes[i] <= 1)
      && (forall i :: 0 <= i < n && !s.results[i].Unset? ==> s.results[i] == Csv(slices(i)) || (s.results[i] == TimedOut && s.aborted))
  {
    RunKeepsInv(slices, Initial(n), events);
  }

  /** Once the deadline has fired no slice is started, by any worker, however long the run goes on. */
  lemma {:induction false} NothingStartsAfterAbort(slices: nat -> Option<string>, s: State, events: seq<Event>)
    requires s.aborted && Run(slices, s, events)
    ensures After(slices, s, events).started == s.started
    decreases |events|
  {
    if events != [] {
      NothingStartsAfterAbort(slices, Next(slices, s, events[0]), events[1..]);
    }
  }

  /** The event ends a fetch of this slice with its answer. */
  predicate GotAt(s: State, e: Event, i: nat) {
    e.Finish? && e.ending.Got? && e.worker < |s.workers| && s.workers[e.worker] == Fetching(i)
  }

  /** Some fetch of this slice ended with its answer along the run. */
  predicate EverGot(slices: nat -> Option<string>, s: State, events: seq<Event>, i: nat)
    requires Run(slices, s, events)
    decreases |events|
  {
    events != [] && (GotAt(s, events[0], i) || EverGot(slices, Next(slices, s, events[0]), events[1..], i))
  }

  lemma StepGets(slices: nat -> Option<string>, s: State, e: Event, i: nat)
    requires Inv(slices, s) && Enabled(s, e) && i < |s.results|
    ensures |Next(slices, s, e).results| == |s.results|
    ensures Next(slices, s, e).results[i].Csv? <==> s.results[i].Csv? || GotAt(s, e, i)
  {
  }

  lemma {:induction false} RunGets(slices: nat -> Option<string>, s: State, events: seq<Event>, i: nat)
    requires Inv(slices, s) && Run(slices, s, events) && i < |s.results|
    ensures |After(slices, s, events).results| == |s.results|
    ensures After(slices, s, events).results[i].Csv? <==> s.results[i].Csv? || EverGot(slices, s, events, i)
    decreases |events|
  {
    if events != [] {
      StepGets(slices, s, events[0], i);
      StepKeepsInv(slices, s, events[0]);
      RunGets(slices, Next(slices, s, events[0]), events[1..], i);
    }
  }

  /**
   * A slot holds its slice exactly when a fetch of it was answered, before the deadline or after it: no answer
   * is dropped or overwritten.
   */
  lemma AnswersAreKept(slices: nat -> Option<string>, n: nat, events: seq<Event>, i: nat)
    requires Run(slices, Initial(n), events) && i < n
    ensures var s := After(slices, Initial(n), events);
      |s.results| == n && (s.results[i] == Csv(slices(i)) <==> EverGot(slices, Initial(n), events, i))
  {
    InitialInv(slices, n);
    RunGets(slices, Initial(n), events, i);
    RunKeepsInv(slices, Initial(n), events);
  }

  /**
   * When every worker has returned normally every slot has been written, exactly once; and if the
   * deadline never fired the results are the slices themselves.
   */
  lemma AllWrittenOnReturn(slices: nat -> Option<string>, n: nat, events: seq<Event>)
    requires Run(slices, Initial(n), events)
    requires var workers := After(slices, Initial(n), events).workers;
      forall w :: 0 <= w < |workers| ==> workers[w].Done?
    ensures var s := After(slices, Initial(n), events);
      && |s.results| == |s.writes| == n
      && (forall i :: 0 <= i < n ==> !s.results[i].Unset? && s.writes[i] == 1)
      && (!s.aborted ==> s.results == seq(n, i requires 0 <= i < n => Csv(slices(i))) && s.started == Range(0, n))
  {
    hide Run, After, Range;
    var s := After(slices, Initial(n), events);
    InitialInv(slices, n);
    RunKeepsInv(slices, Initial(n), events);
    if n > 0 {
      assert s.workers[0].Done?;
      assert forall w, i :: 0 <= w < |s.workers| ==> !Holds(s.workers[w], i);
    }
    RangeIs(0, n);
  }
}
