/**
 * The HTTP client's budget of upstream errors: a count that starts afresh once its minute is over,
 * checked before every attempt, and the retry loop whose attempts spend it.
 */
module ErrorBudget {
  import opened Options

  const WINDOW_MS: int := 60_000
  const MAX_ATTEMPTS: nat := 3

  datatype Errors = Errors(count: nat, windowStartMs: int)

  function Rolled(e: Errors, nowMs: int): Errors {
    if nowMs - e.windowStartMs >= WINDOW_MS then Errors(0, nowMs) else e
  }

  predicate Spent(e: Errors, limit: nat) { e.count >= limit }

  function Noted(e: Errors, nowMs: int): Errors {
    var r := Rolled(e, nowMs);
    r.(count := r.count + 1)
  }

  // ---- attempts in flight ----

  /**
   * A check that starts no attempt, the check that starts one, and the end of one attempt, which
   * counted an error or did not. Checks and ends of different calls interleave.
   */
  datatype Event = Peek(at: int) | Start(at: int) | End(at: int, counted: bool)

  datatype State = State(errors: Errors, inFlight: nat)

  function Next(limit: nat, s: State, e: Event): State {
    match e
    case Peek(at) => s.(errors := Rolled(s.errors, at))
    case Start(at) =>
      var r := Rolled(s.errors, at);
      State(r, if Spent(r, limit) then s.inFlight else s.inFlight + 1)
    case End(at, counted) =>
      State(if counted then Noted(s.errors, at) else s.errors, if s.inFlight > 0 then s.inFlight - 1 else 0)
  }

  /** At most `most` attempts are in flight, an attempt ends once, and the clock never runs back. */
  predicate Run(limit: nat, most: nat, s: State, now: int, events: seq<Event>)
    decreases |events|
  {
    events == [] ||
    var e := events[0];
    && now <= e.at
    && (e.Start? ==> s.inFlight < most)
    && (e.End? ==> s.inFlight > 0)
    && Run(limit, most, Next(limit, s, e), e.at, events[1..])
  }

  function After(limit: nat, s: State, events: seq<Event>): State
    decreases |events|
  {
    if events == [] then s else After(limit, Next(limit, s, events[0]), events[1..])
  }

  /** What one window can hold: errors already in it and those the attempts in flight may still bring. */
  predicate Inv(limit: nat, most: nat, s: State) {
    s.inFlight <= most && s.errors.count + s.inFlight <= limit + most - 1
  }

  lemma StepKeepsInv(limit: nat, most: nat, s: State, e: Event)
    requires limit >= 1 && Inv(limit, most, s)
    requires (e.Start? ==> s.inFlight < most) && (e.End? ==> s.inFlight > 0)
    ensures Inv(limit, most, Next(limit, s, e))
  {
  }

  /** No window ever counts more errors than the limit and the other attempts in flight: limit + most - 1. */
  lemma {:induction false} WindowBudget(limit: nat, most: nat, s: State, now: int, events: seq<Event>)
    requires limit >= 1 && most >= 1 && Inv(limit, most, s) && Run(limit, most, s, now, events)
    ensures Inv(limit, most, After(limit, s, events))
    ensures After(limit, s, events).errors.count <= limit + most - 1
    decreases |events|
  {
    if events != [] {
      StepKeepsInv(limit, most, s, events[0]);
      WindowBudget(limit, most, Next(limit, s, events[0]), events[0].at, events[1..]);
    }
  }

  // ---- a minute's errors ----

  /** Errors counted over the events, head first. */
  function Tally(events: seq<Event>): nat
    decreases |events|
  {
    if events == [] then 0 else (if events[0].End? && events[0].counted then 1 else 0) + Tally(events[1..])
  }

  /** Once a window starts inside a span of a minute, it holds all that the span still counts. */
  lemma {:induction false} OneWindow(limit: nat, most: nat, s: State, now: int, events: seq<Event>)
    requires limit >= 1 && most >= 1 && Inv(limit, most, s) && Run(limit, most, s, now, events)
    requires forall e :: e in events ==> e.at < s.errors.windowStartMs + WINDOW_MS
    ensures s.errors.count + Tally(events) <= limit + most - 1
    decreases |events|
  {
    if events != [] {
      var e := events[0];
      assert e in events;
      StepKeepsInv(limit, most, s, e);
      OneWindow(limit, most, Next(limit, s, e), e.at, events[1..]);
    }
  }

  lemma {:induction false} TwoWindows(limit: nat, most: nat, s: State, now: int, events: seq<Event>, from: int)
    requires limit >= 1 && most >= 1 && Inv(limit, most, s) && Run(limit, most, s, now, events)
    requires forall e :: e in events ==> from <= e.at < from + WINDOW_MS
    ensures s.errors.count + Tally(events) <= 2 * (limit + most - 1)
    decreases |events|
  {
    if events != [] {
      var e := events[0];
      assert e in events;
      var t := Next(limit, s, e);
      StepKeepsInv(limit, most, s, e);
      if t.errors.windowStartMs == e.at && t.errors.windowStartMs != s.errors.windowStartMs {
        OneWindow(limit, most, t, e.at, events[1..]);
      } else {
        TwoWindows(limit, most, t, e.at, events[1..], from);
      }
    }
  }

  /**
   * In any span of a minute of any run, at most twice limit + most - 1 errors are counted, wherever
   * the windows fall; so twice the limit when attempts come one at a time.
   */
  lemma MinuteBudget(limit: nat, most: nat, born: int, before: seq<Event>, span: seq<Event>, from: int)
    requires limit >= 1 && most >= 1
    requires Run(limit, most, State(Errors(0, born), 0), born, before)
    requires Run(limit, most, After(limit, State(Errors(0, born), 0), before), from, span)
    requires forall e :: e in span ==> from <= e.at < from + WINDOW_MS
    ensures Tally(span) <= 2 * (limit + most - 1)
    ensures most == 1 ==> Tally(span) <= 2 * limit
  {
    WindowBudget(limit, most, State(Errors(0, born), 0), born, before);
    TwoWindows(limit, most, After(limit, State(Errors(0, born), 0), before), from, span, from);
  }

  // ---- the retry loop ----

  predicate IsRetryableStatus(status: int) { status == 429 || status == 502 || status == 503 || status == 504 }

  /** What one fetch came to. `agencyError` is an error reported inside a response's body, and whether it may be retried. */
  datatype Fetch =
    | DeadlineHit
    | TimedOut
    | NetworkFailed
    | Replied(status: int, agencyError: Option<bool>)

  /** What the world has ready for one attempt: the caller's deadline, the clock at the check and at the note, the fetch. */
  datatype Attempt = Attempt(aborted: bool, checkMs: int, fetch: Fetch, noteMs: int)

  datatype Outcome =
    | Success(status: int)
    | DeadlineExceeded
    | ErrorLimitReached
    | Timeout
    | NetworkError
    | HttpError(status: int)
    | AgencyError

  /** A client error, or an error inside an otherwise good response, is counted; a server error is not. */
  predicate CountsAsError(f: Fetch) {
    f.Replied? && (400 <= f.status < 500 || (f.status < 400 && f.agencyError.Some?))
  }

  /** The loop goes round again after this fetch, attempts permitting. */
  predicate MayRetry(f: Fetch) {
    f.NetworkFailed? || (f.Replied? && (IsRetryableStatus(f.status) || (f.status < 400 && f.agencyError == Some(true))))
  }

  /** What the loop ends with when this fetch is its last. */
  function Verdict(f: Fetch): Outcome {
    match f
    case DeadlineHit => DeadlineExceeded
    case TimedOut => Timeout
    case NetworkFailed => NetworkError
    case Replied(status, agencyError) =>
      if status >= 400 then HttpError(status) else if agencyError.Some? then AgencyError else Success(status)
  }

  /**
   * What is tried again: a failure of the network, an answer of 429, 502, 503 or 504, and an otherwise good
   * one whose body holds an error that may pass. A timeout and the caller's deadline are not. What counts as an
   * error: an answer from 400 to 499, 429 among them, and an otherwise good one with an error in its body.
   */
  lemma WhatIsRetriedAndCounted(f: Fetch)
    ensures MayRetry(f) <==>
      match f
      case NetworkFailed => true
      case Replied(status, agencyError) =>
        status == 429 || status == 502 || status == 503 || status == 504 || (status < 400 && agencyError == Some(true))
      case _ => false
    ensures CountsAsError(f) <==>
      match f
      case Replied(status, agencyError) => 400 <= status <= 499 || (status < 400 && agencyError != None)
      case _ => false
  {
  }

  datatype Retried = Retried(errors: Errors, outcome: Outcome, fetches: nat)

  /** The loop from one attempt on. Without a limit errors are neither counted nor checked. */
  function RetriedFrom(limit: Option<nat>, errors: Errors, world: nat -> Attempt, attempt: nat): Retried
    requires 1 <= attempt <= MAX_ATTEMPTS
    decreases MAX_ATTEMPTS - attempt
  {
    var w := world(attempt);
    if w.aborted then Retried(errors, DeadlineExceeded, attempt - 1)
    else
      var checked := if limit.Some? then Rolled(errors, w.checkMs) else errors;
      if limit.Some? && Spent(checked, limit.value) then Retried(checked, ErrorLimitReached, attempt - 1)
      else
        var noted := if limit.Some? && CountsAsError(w.fetch) then Noted(checked, w.noteMs) else checked;
        if MayRetry(w.fetch) && attempt < MAX_ATTEMPTS then RetriedFrom(limit, noted, world, attempt + 1)
        else Retried(noted, Verdict(w.fetch), attempt)
  }

  /** The errors that the fetches from one attempt up to another counted. */
  function ErrorsIn(world: nat -> Attempt, from: nat, upTo: nat): nat
    requires from <= upTo + 1
    decreases upTo + 1 - from
  {
    if from > upTo then 0 else (if CountsAsError(world(from).fetch) then 1 else 0) + ErrorsIn(world, from + 1, upTo)
  }

  lemma {:induction false} RetryFrom(limit: Option<nat>, errors: Errors, world: nat -> Attempt, attempt: nat)
    requires 1 <= attempt <= MAX_ATTEMPTS
    ensures var r := RetriedFrom(limit, errors, world, attempt);
      && attempt - 1 <= r.fetches <= MAX_ATTEMPTS
      && (forall i :: attempt <= i < r.fetches ==> MayRetry(world(i).fetch) && !world(i).aborted)
      && (r.outcome != DeadlineExceeded && r.outcome != ErrorLimitReached ==>
            r.fetches >= attempt && r.outcome == Verdict(world(r.fetches).fetch)
            && (MayRetry(world(r.fetches).fetch) ==> r.fetches == MAX_ATTEMPTS))
      && (r.outcome == ErrorLimitReached ==> limit.Some? && Spent(r.errors, limit.value))
      && (r.outcome == DeadlineExceeded ==>
            if r.fetches >= attempt && world(r.fetches).fetch == DeadlineHit then true
            else r.fetches < MAX_ATTEMPTS && world(r.fetches + 1).aborted)
    decreases MAX_ATTEMPTS - attempt
  {
    hide MayRetry, CountsAsError, Spent, Rolled, Noted;
    if attempt < MAX_ATTEMPTS {
      var w := world(attempt);
      var checked := if limit.Some? then Rolled(errors, w.checkMs) else errors;
      var noted := if limit.Some? && CountsAsError(w.fetch) then Noted(checked, w.noteMs) else checked;
      RetryFrom(limit, noted, world, attempt + 1);
    }
  }

  lemma {:induction false} RetryCounts(limit: Option<nat>, errors: Errors, world: nat -> Attempt, attempt: nat)
    requires 1 <= attempt <= MAX_ATTEMPTS
    ensures var r := RetriedFrom(limit, errors, world, attempt);
      && attempt - 1 <= r.fetches
      && r.errors.count <= errors.count + ErrorsIn(world, attempt, r.fetches)
      && (limit == None ==> r.errors == errors)
    decreases MAX_ATTEMPTS - attempt
  {
    hide MayRetry, CountsAsError, Spent, Verdict;
    if attempt < MAX_ATTEMPTS {
      var w := world(attempt);
      var checked := if limit.Some? then Rolled(errors, w.checkMs) else errors;
      var noted := if limit.Some? && CountsAsError(w.fetch) then Noted(checked, w.noteMs) else checked;
      RetryCounts(limit, noted, world, attempt + 1);
    }
  }

  lemma {:induction false} ErrorsAtMostOneEach(world: nat -> Attempt, from: nat, upTo: nat)
    requires from <= upTo + 1
    ensures ErrorsIn(world, from, upTo) <= upTo + 1 - from
    decreases upTo + 1 - from
  {
    if from <= upTo {
      ErrorsAtMostOneEach(world, from + 1, upTo);
    }
  }

  /**
   * The loop fetches at most three times, again only after a fetch that may be retried, ends with the
   * last fetch's own verdict, and counts at most one error for each fetch. A good answer comes only
   * from a last response below 400 without an error in its body.
   */
  lemma RetryIsBounded(limit: Option<nat>, errors: Errors, world: nat -> Attempt)
    ensures var r := RetriedFrom(limit, errors, world, 1);
      && r.fetches <= MAX_ATTEMPTS
      && (forall i :: 1 <= i < r.fetches ==> MayRetry(world(i).fetch))
      && r.errors.count <= errors.count + r.fetches
      && (r.outcome.Success? ==>
            r.fetches >= 1 && world(r.fetches).fetch == Replied(r.outcome.status, None) && r.outcome.status < 400)
      && (r.outcome == ErrorLimitReached ==> limit.Some? && Spent(r.errors, limit.value))
      && (r.outcome == DeadlineExceeded ==>
            (r.fetches >= 1 && world(r.fetches).fetch == DeadlineHit)
            || (r.fetches < MAX_ATTEMPTS && world(r.fetches + 1).aborted))
  {
    hide RetriedFrom, ErrorsIn, MayRetry;
    RetryFrom(limit, errors, world, 1);
    RetryCounts(limit, errors, world, 1);
    ErrorsAtMostOneEach(world, 1, RetriedFrom(limit, errors, world, 1).fetches);
  }

  // ---- calls one after another ----

  /** The checks and ends of attempts that the loop goes through, from one attempt on. */
  function EventsFrom(limit: nat, errors: Errors, world: nat -> Attempt, attempt: nat): seq<Event>
    requires 1 <= attempt <= MAX_ATTEMPTS
    decreases MAX_ATTEMPTS - attempt
  {
    var w := world(attempt);
    var checked := Rolled(errors, w.checkMs);
    if w.aborted then []
    else if Spent(checked, limit) then [Start(w.checkMs)]
    else
      var noted := if CountsAsError(w.fetch) then Noted(checked, w.noteMs) else checked;
      [Start(w.checkMs), End(w.noteMs, CountsAsError(w.fetch))] +
      (if MayRetry(w.fetch) && attempt < MAX_ATTEMPTS then EventsFrom(limit, noted, world, attempt + 1) else [])
  }

  /** The last clock reading of a run of events, or the one before them. */
  function LastReading(now: int, events: seq<Event>): int {
    if events == [] then now else events[|events| - 1].at
  }

  predicate Monotone(now: int, events: seq<Event>)
    decreases |events|
  {
    events == [] || (now <= events[0].at && Monotone(events[0].at, events[1..]))
  }

  lemma {:induction false} MonotoneAppends(now: int, first: seq<Event>, rest: seq<Event>)
    ensures Monotone(now, first + rest) <==> Monotone(now, first) && Monotone(LastReading(now, first), rest)
    decreases |first|
  {
    if first == [] {
      assert first + rest == rest;
    } else {
      assert (first + rest)[1..] == first[1..] + rest;
      MonotoneAppends(first[0].at, first[1..], rest);
      assert LastReading(now, first) == LastReading(first[0].at, first[1..]);
    }
  }

  lemma {:induction false} AfterAppends(limit: nat, s: State, first: seq<Event>, rest: seq<Event>)
    ensures After(limit, s, first + rest) == After(limit, After(limit, s, first), rest)
    decreases |first|
  {
    if first == [] {
      assert first + rest == rest;
    } else {
      assert (first + rest)[1..] == first[1..] + rest;
      AfterAppends(limit, Next(limit, s, first[0]), first[1..], rest);
    }
  }

  lemma {:induction false} RunAppends(limit: nat, most: nat, s: State, now: int, first: seq<Event>, rest: seq<Event>)
    ensures Run(limit, most, s, now, first + rest) <==>
      Run(limit, most, s, now, first) && Run(limit, most, After(limit, s, first), LastReading(now, first), rest)
    decreases |first|
  {
    if first == [] {
      assert first + rest == rest;
    } else {
      var e := first[0];
      assert (first + rest)[1..] == first[1..] + rest;
      RunAppends(limit, most, Next(limit, s, e), e.at, first[1..], rest);
      assert LastReading(now, first) == LastReading(e.at, first[1..]);
    }
  }

  lemma OneAttempt(limit: nat, errors: Errors, now: int, w: Attempt)
    requires now <= w.checkMs <= w.noteMs && !Spent(Rolled(errors, w.checkMs), limit)
    ensures var pair := [Start(w.checkMs), End(w.noteMs, CountsAsError(w.fetch))];
      var checked := Rolled(errors, w.checkMs);
      && Run(limit, 1, State(errors, 0), now, pair)
      && After(limit, State(errors, 0), pair)
         == State(if CountsAsError(w.fetch) then Noted(checked, w.noteMs) else checked, 0)
  {
    var pair := [Start(w.checkMs), End(w.noteMs, CountsAsError(w.fetch))];
    assert pair[1..] == [pair[1]] && pair[1..][1..] == [];
    var started := Next(limit, State(errors, 0), pair[0]);
    assert started == State(Rolled(errors, w.checkMs), 1);
    var ended := Next(limit, started, pair[1]);
    assert After(limit, started, pair[1..]) == After(limit, ended, []) == ended;
  }

  /** The retry loop is a run of the budget with one attempt at a time, and ends with the same errors. */
  lemma {:induction false} RetryIsARun(limit: nat, errors: Errors, world: nat -> Attempt, attempt: nat, now: int)
    requires 1 <= attempt <= MAX_ATTEMPTS && Monotone(now, EventsFrom(limit, errors, world, attempt))
    ensures var events := EventsFrom(limit, errors, world, attempt);
      && Run(limit, 1, State(errors, 0), now, events)
      && After(limit, State(errors, 0), events) == State(RetriedFrom(Some(limit), errors, world, attempt).errors, 0)
    decreases MAX_ATTEMPTS - attempt
  {
    var w := world(attempt);
    var checked := Rolled(errors, w.checkMs);
    if !w.aborted && Spent(checked, limit) {
      assert [Start(w.checkMs)][1..] == [];
    } else if !w.aborted {
      var pair := [Start(w.checkMs), End(w.noteMs, CountsAsError(w.fetch))];
      var noted := if CountsAsError(w.fetch) then Noted(checked, w.noteMs) else checked;
      var rest := if MayRetry(w.fetch) && attempt < MAX_ATTEMPTS then EventsFrom(limit, noted, world, attempt + 1) else [];
      assert EventsFrom(limit, errors, world, attempt) == pair + rest;
      MonotoneAppends(now, pair, rest);
      assert pair[1..] == [pair[1]] && pair[1..][1..] == [];
      OneAttempt(limit, errors, now, w);
      RunAppends(limit, 1, State(errors, 0), now, pair, rest);
      AfterAppends(limit, State(errors, 0), pair, rest);
      if rest != [] || (MayRetry(w.fetch) && attempt < MAX_ATTEMPTS) {
        RetryIsARun(limit, noted, world, attempt + 1, w.noteMs);
      }
    }
  }

  /** The events of calls made one after another. */
  function SessionEvents(limit: nat, errors: Errors, worlds: seq<nat -> Attempt>): seq<Event>
    decreases |worlds|
  {
    if worlds == [] then []
    else
      EventsFrom(limit, errors, worlds[0], 1)
        + SessionEvents(limit, RetriedFrom(Some(limit), errors, worlds[0], 1).errors, worlds[1..])
  }

  lemma {:induction false} SessionIsARun(limit: nat, errors: Errors, worlds: seq<nat -> Attempt>, now: int)
    requires Monotone(now, SessionEvents(limit, errors, worlds))
    ensures Run(limit, 1, State(errors, 0), now, SessionEvents(limit, errors, worlds))
    decreases |worlds|
  {
    if worlds != [] {
      var first, next := EventsFrom(limit, errors, worlds[0], 1), RetriedFrom(Some(limit), errors, worlds[0], 1).errors;
      var rest := SessionEvents(limit, next, worlds[1..]);
      MonotoneAppends(now, first, rest);
      RetryIsARun(limit, errors, worlds[0], 1, now);
      SessionIsARun(limit, next, worlds[1..], LastReading(now, first));
      RunAppends(limit, 1, State(errors, 0), now, first, rest);
    }
  }

  lemma RunFromEarlier(limit: nat, most: nat, s: State, now: int, from: int, events: seq<Event>)
    requires Run(limit, most, s, now, events) && forall e :: e in events ==> from <= e.at
    ensures Run(limit, most, s, from, events)
  {
    if events != [] {
      assert events[0] in events;
    }
  }

  /**
   * Calls made one after another, each with its retries, count at most twice the limit in any span of a
   * minute, whatever their fetches come to and wherever the span begins and ends.
   */
  lemma SequentialCallsKeepMinute(limit: nat, born: int, worlds: seq<nat -> Attempt>, a: nat, b: nat, from: int)
    requires limit >= 1 && Monotone(born, SessionEvents(limit, Errors(0, born), worlds))
    requires a <= b <= |SessionEvents(limit, Errors(0, born), worlds)|
    requires forall e :: e in SessionEvents(limit, Errors(0, born), worlds)[a..b] ==> from <= e.at < from + WINDOW_MS
    ensures Tally(SessionEvents(limit, Errors(0, born), worlds)[a..b]) <= 2 * limit
  {
    hide SessionEvents, Run, After, Tally, Monotone, LastReading;
    var events, start := SessionEvents(limit, Errors(0, born), worlds), State(Errors(0, born), 0);
    var before, span := events[..a], events[a..b];
    SessionIsARun(limit, Errors(0, born), worlds, born);
    assert events == before + (span + events[b..]);
    RunAppends(limit, 1, start, born, before, span + events[b..]);
    RunAppends(limit, 1, After(limit, start, before), LastReading(born, before), span, events[b..]);
    RunFromEarlier(limit, 1, After(limit, start, before), LastReading(born, before), from, span);
    MinuteBudget(limit, 1, born, before, span, from);
  }
}
