/**
 * What a fleet of clients sends, not what it is granted: each token is one call's, and a call may wait
 * before its first fetch and fetch again when it is answered badly.
 */
module FleetRequests {
  import opened Arithmetic
  import opened Counting
  import ErrorBudget
  import opened Options
  import opened Split
  import opened TokenBucket

  // ---- calls and their requests ----

  /** A call that holds a token: the error budget it meets, and what the world has ready for its attempts. */
  datatype Call = Call(errorLimit: Option<nat>, errors: ErrorBudget.Errors, world: nat -> ErrorBudget.Attempt)

  function Retried(c: Call): ErrorBudget.Retried { ErrorBudget.RetriedFrom(c.errorLimit, c.errors, c.world, 1) }

  /** When the call fetches, once for each of its attempts that gets so far. */
  function RequestTimes(c: Call): seq<int> { seq(Retried(c).fetches, i requires 0 <= i => c.world(i + 1).checkMs) }

  /** No fetch comes before the token, or before an earlier one. */
  ghost predicate Timely(c: Call, token: int) {
    forall i :: 0 <= i < |RequestTimes(c)| ==> (if i == 0 then token else RequestTimes(c)[i - 1]) <= RequestTimes(c)[i]
  }

  predicate Prompt(c: Call, token: int) { RequestTimes(c) != [] ==> RequestTimes(c)[0] == token }

  predicate Single(c: Call) { |RequestTimes(c)| <= 1 }

  lemma AtMostThree(c: Call)
    ensures |RequestTimes(c)| <= ErrorBudget.MAX_ATTEMPTS
  {
    ErrorBudget.RetryFrom(c.errorLimit, c.errors, c.world, 1);
  }

  // ---- tokens by time ----

  /** When each token was granted. */
  function Tokens(perMinute: nat, b: Bucket, events: seq<Event>): seq<int>
    decreases |events|
  {
    if events == [] then []
    else
      (if Grants(perMinute, b, events[0]) then [events[0].at] else [])
        + Tokens(perMinute, Next(perMinute, b, events[0]), events[1..])
  }

  function Within(start: int, end: int): int -> bool { (t: int) => start <= t <= end }

  lemma {:induction false} TokensAreGrants(perMinute: nat, b: Bucket, events: seq<Event>, now: int, end: int)
    requires Monotone(now, events, end)
    ensures |Tokens(perMinute, b, events)| == GrantCount(perMinute, b, events)
    ensures forall t :: t in Tokens(perMinute, b, events) ==> now <= t <= end
    decreases |events|
  {
    if events != [] {
      MonotoneEnds(events[0].at, events[1..], end);
      TokensAreGrants(perMinute, Next(perMinute, b, events[0]), events[1..], events[0].at, end);
    }
  }

  /** From any state a client reaches, at most the peak of a span's length is granted in the span. */
  lemma {:induction false} TokensFrom(perMinute: nat, b: Bucket, events: seq<Event>, now: int, start: int, span: nat)
    requires Inv(perMinute, b, now) && Monotone(now, events, start + span)
    ensures Count(Tokens(perMinute, b, events), Within(start, start + span)) <= Peak(perMinute, span)
    decreases |events|
  {
    if events != [] && events[0].at < start {
      var e := events[0];
      var first := if Grants(perMinute, b, e) then [e.at] else [];
      var rest := Tokens(perMinute, Next(perMinute, b, e), events[1..]);
      StepKeepsInv(perMinute, b, e, now);
      TokensFrom(perMinute, Next(perMinute, b, e), events[1..], e.at, start, span);
      CountConcat(first, rest, Within(start, start + span));
      CountZero(first, Within(start, start + span));
    } else {
      TokensAreGrants(perMinute, b, events, now, start + span);
      CountIsWithin(Tokens(perMinute, b, events), Within(start, start + span));
      SpanGrants(perMinute, b, events, now, start, span);
    }
  }

  lemma SpanGrants(perMinute: nat, b: Bucket, events: seq<Event>, now: int, start: int, span: nat)
    requires Inv(perMinute, b, now) && Monotone(now, events, start + span) && (events != [] ==> start <= events[0].at)
    ensures GrantCount(perMinute, b, events) <= Peak(perMinute, span)
  {
    if events != [] {
      var from := Max(now, start);
      MonotoneEnds(now, events, start + span);
      RunSpends(perMinute, b, events, from, start + span);
      ProductGrows(start + span - from, span, perMinute);
      AddProducts(UNIT, span, perMinute);
    }
  }

  // ---- a fleet that sends ----

  /** One container: when its client was made, its events since, and the call that holds each token granted. */
  datatype Sender = Sender(born: nat, events: seq<Event>, calls: seq<Call>)

  function TokensOf(slice: nat, s: Sender): seq<int> { Tokens(slice, Full(slice, s.born), s.events) }

  /** Up to this moment; calls that are prompt fetch when they get their token, single ones do not fetch again. */
  ghost predicate Sends(slice: nat, s: Sender, end: int, prompt: bool, single: bool) {
    && Monotone(s.born, s.events, end)
    && |s.calls| == |TokensOf(slice, s)|
    && (forall i :: 0 <= i < |s.calls| ==> SendsFor(s.calls[i], TokensOf(slice, s)[i], prompt, single))
  }

  ghost predicate SendsFor(c: Call, token: int, prompt: bool, single: bool) {
    Timely(c, token) && (prompt ==> Prompt(c, token)) && (single ==> Single(c))
  }

  ghost predicate AllSend(slice: nat, senders: seq<Sender>, start: int, span: nat, prompt: bool, single: bool) {
    forall s :: s in senders ==> Sends(slice, s, start + span, prompt, single)
  }

  /** The requests these calls send in a span, each at its own time. */
  ghost function RequestsIn(calls: seq<Call>, start: int, end: int): nat {
    if calls == [] then 0
    else RequestsIn(calls[..|calls| - 1], start, end) + Count(RequestTimes(calls[|calls| - 1]), Within(start, end))
  }

  ghost function FleetRequests(senders: seq<Sender>, start: int, end: int): nat {
    if senders == [] then 0
    else FleetRequests(senders[..|senders| - 1], start, end) + RequestsIn(senders[|senders| - 1].calls, start, end)
  }

  /** However such a fleet has run before, it sends at most the total in a span of this length. */
  ghost predicate KeepsRate(total: nat, containers: nat, slice: nat, span: nat, prompt: bool, single: bool) {
    forall senders, start ::
      AllSend(slice, senders, start, span, prompt, single) && |senders| == containers ==>
        FleetRequests(senders, start, start + span) <= total
  }

  // ---- requests of the tokens granted in a span ----

  /** The requests, whenever sent, of the calls whose token was granted in the span. */
  ghost function RequestsOfTokens(tokens: seq<int>, calls: seq<Call>, start: int, end: int): nat
    requires |tokens| == |calls|
  {
    if calls == [] then 0
    else
      var n := |calls| - 1;
      RequestsOfTokens(tokens[..n], calls[..n], start, end)
        + (if Within(start, end)(tokens[n]) then |RequestTimes(calls[n])| else 0)
  }

  lemma {:induction false} ThreeForEachToken(tokens: seq<int>, calls: seq<Call>, start: int, end: int)
    requires |tokens| == |calls|
    ensures RequestsOfTokens(tokens, calls, start, end) <= 3 * Count(tokens, Within(start, end))
  {
    if calls != [] {
      var n := |calls| - 1;
      AtMostThree(calls[n]);
      ThreeForEachToken(tokens[..n], calls[..n], start, end);
    }
  }

  ghost function FleetRequestsOfTokens(slice: nat, senders: seq<Sender>, start: int, end: int): nat
    requires forall s :: s in senders ==> |s.calls| == |TokensOf(slice, s)|
  {
    if senders == [] then 0
    else
      var s := senders[|senders| - 1];
      FleetRequestsOfTokens(slice, senders[..|senders| - 1], start, end)
        + RequestsOfTokens(TokensOf(slice, s), s.calls, start, end)
  }

  lemma SenderTokens(slice: nat, s: Sender, start: int, span: nat)
    requires Monotone(s.born, s.events, start + span)
    ensures Count(TokensOf(slice, s), Within(start, start + span)) <= Peak(slice, span)
  {
    ProductGrows(0, slice, UNIT);
    TokensFrom(slice, Full(slice, s.born), s.events, s.born, start, span);
  }

  /** The calls whose tokens are granted in a span send, sooner or later, at most three times the token bound. */
  lemma {:induction false} FleetSendsThreeForEachToken(slice: nat, senders: seq<Sender>, start: int, span: nat)
    requires AllSend(slice, senders, start, span, false, false)
    ensures FleetRequestsOfTokens(slice, senders, start, start + span) <= 3 * (|senders| * Peak(slice, span))
  {
    hide Tokens, Peak, SendsFor, Count, RequestsOfTokens, Monotone, Within;
    if senders != [] {
      var front, s := senders[..|senders| - 1], senders[|senders| - 1];
      assert senders == front + [s] && s in senders;
      assert forall r :: r in front ==> r in senders;
      FleetSendsThreeForEachToken(slice, front, start, span);
      SenderTokens(slice, s, start, span);
      ThreeForEachToken(TokensOf(slice, s), s.calls, start, start + span);
      AddProducts(|front|, 1, Peak(slice, span));
    }
  }

  // ---- prompt calls that fetch once ----

  lemma {:induction false} OneForEachToken(tokens: seq<int>, calls: seq<Call>, start: int, end: int)
    requires |tokens| == |calls| && forall i :: 0 <= i < |calls| ==> SendsFor(calls[i], tokens[i], true, true)
    ensures RequestsIn(calls, start, end) <= Count(tokens, Within(start, end))
  {
    if calls != [] {
      var n := |calls| - 1;
      OneForEachToken(tokens[..n], calls[..n], start, end);
      var times := RequestTimes(calls[n]);
      assert SendsFor(calls[n], tokens[n], true, true);
      if times != [] {
        assert times == [] + [tokens[n]];
        CountAppend([], tokens[n], Within(start, end));
      }
    }
  }

  lemma {:induction false} PromptFleetPeak(slice: nat, senders: seq<Sender>, start: int, span: nat)
    requires AllSend(slice, senders, start, span, true, true)
    ensures FleetRequests(senders, start, start + span) <= |senders| * Peak(slice, span)
  {
    hide Tokens, Peak, SendsFor, Count, RequestsIn, Monotone, Within;
    if senders != [] {
      var front, s := senders[..|senders| - 1], senders[|senders| - 1];
      assert senders == front + [s] && s in senders;
      assert forall r :: r in front ==> r in senders;
      PromptFleetPeak(slice, front, start, span);
      SenderTokens(slice, s, start, span);
      OneForEachToken(TokensOf(slice, s), s.calls, start, start + span);
      AddProducts(|front|, 1, Peak(slice, span));
    }
  }

  // ---- fleets that send the most ----

  const NO_ERRORS := ErrorBudget.Errors(0, 0)

  /** Answered well at once. */
  function GoodCall(at: int): Call {
    Call(None, NO_ERRORS, (i: nat) => ErrorBudget.Attempt(false, at, ErrorBudget.Replied(200, None), at))
  }

  /** Answered 503 twice and then well, without a wait between. */
  function RetriedCall(at: int): Call {
    Call(None, NO_ERRORS, (i: nat) => ErrorBudget.Attempt(false, at, ErrorBudget.Replied(if i < 3 then 503 else 200, None), at))
  }

  /** The call is answered well in the end, and fetches this often, always at this time. */
  predicate FetchesAt(c: Call, n: nat, at: int) {
    Retried(c).outcome == ErrorBudget.Success(200) && RequestTimes(c) == seq(n, _ => at)
  }

  lemma GoodCallFetches(at: int)
    ensures FetchesAt(GoodCall(at), 1, at)
  {
  }

  lemma RetriedCallFetches(at: int)
    ensures FetchesAt(RetriedCall(at), 3, at)
  {
    var c := RetriedCall(at);
    assert ErrorBudget.RetriedFrom(None, NO_ERRORS, c.world, 3) == ErrorBudget.Retried(NO_ERRORS, ErrorBudget.Success(200), 3);
    assert ErrorBudget.RetriedFrom(None, NO_ERRORS, c.world, 2) == ErrorBudget.RetriedFrom(None, NO_ERRORS, c.world, 3);
  }

  lemma UniformCall(c: Call, n: nat, at: int, start: int, end: int)
    requires FetchesAt(c, n, at)
    ensures Count(RequestTimes(c), Within(start, end)) == if Within(start, end)(at) then n else 0
  {
    hide Retried;
    if Within(start, end)(at) {
      CountAll(RequestTimes(c), Within(start, end));
    } else {
      CountZero(RequestTimes(c), Within(start, end));
    }
  }

  lemma {:induction false} UniformRequests(calls: seq<Call>, n: nat, times: seq<int>, start: int, end: int)
    requires |calls| == |times| && forall i :: 0 <= i < |calls| ==> FetchesAt(calls[i], n, times[i])
    ensures RequestsIn(calls, start, end) == Count(times, Within(start, end)) * n
  {
    hide FetchesAt, RequestTimes, Within;
    if calls != [] {
      var m := |calls| - 1;
      UniformRequests(calls[..m], n, times[..m], start, end);
      UniformCall(calls[m], n, times[m], start, end);
      AddProducts(Count(times[..m], Within(start, end)), 1, n);
    }
  }

  /** Containers that all do as this one. */
  function Alike(containers: nat, s: Sender): seq<Sender> { seq(containers, _ => s) }

  lemma {:induction false} AlikeRequests(containers: nat, s: Sender, start: int, end: int)
    ensures FleetRequests(Alike(containers, s), start, end) == containers * RequestsIn(s.calls, start, end)
  {
    hide RequestsIn;
    if containers > 0 {
      assert Alike(containers, s)[..containers - 1] == Alike(containers - 1, s);
      AlikeRequests(containers - 1, s, start, end);
      AddProducts(containers - 1, 1, RequestsIn(s.calls, start, end));
    }
  }

  /** A fleet of such containers breaks the rate when together they send more than the total. */
  lemma AlikeBreaksRate(total: nat, containers: nat, slice: nat, span: nat, prompt: bool, single: bool, s: Sender, start: int)
    requires Sends(slice, s, start + span, prompt, single)
    requires containers * RequestsIn(s.calls, start, start + span) > total
    ensures !KeepsRate(total, containers, slice, span, prompt, single)
  {
    AlikeRequests(containers, s, start, start + span);
    assert AllSend(slice, Alike(containers, s), start, span, prompt, single);
  }

  /** All the tokens the greedy checks of a span are granted, in time order. */
  function GreedyTokens(slice: nat, span: nat): seq<int> { Tokens(slice, Full(slice, 0), Greedy(slice, 0, span)) }

  lemma GreedyTokensPeak(slice: nat, span: nat)
    ensures |GreedyTokens(slice, span)| == Peak(slice, span) && Monotone(0, Greedy(slice, 0, span), span)
    ensures forall t :: t in GreedyTokens(slice, span) ==> 0 <= t <= span
  {
    WindowBoundIsMet(slice, 0, span);
    TokensAreGrants(slice, Full(slice, 0), Greedy(slice, 0, span), 0, span);
  }

  /** Prompt single calls, taking every token of the span. */
  function GreedySender(slice: nat, span: nat): Sender {
    Sender(0, Greedy(slice, 0, span), seq(|GreedyTokens(slice, span)|, i requires 0 <= i < |GreedyTokens(slice, span)| => GoodCall(GreedyTokens(slice, span)[i])))
  }

  lemma GreedySenderPeak(slice: nat, span: nat)
    ensures Sends(slice, GreedySender(slice, span), span, true, true)
    ensures RequestsIn(GreedySender(slice, span).calls, 0, span) == Peak(slice, span)
  {
    var tokens, s := GreedyTokens(slice, span), GreedySender(slice, span);
    GreedyTokensPeak(slice, span);
    forall i | 0 <= i < |tokens| ensures FetchesAt(s.calls[i], 1, tokens[i]) && SendsFor(s.calls[i], tokens[i], true, true) {
      GoodCallFetches(tokens[i]);
    }
    UniformRequests(s.calls, 1, tokens, 0, span);
    CountAll(tokens, Within(0, span));
  }

  /** One burst, each call of it answered badly twice. */
  function RetryingSender(slice: nat): Sender {
    Sender(0, Greedy(slice, 0, 0), seq(|GreedyTokens(slice, 0)|, _ => RetriedCall(0)))
  }

  lemma RetryingSenderTriples(slice: nat)
    ensures Sends(slice, RetryingSender(slice), 0, true, false)
    ensures RequestsIn(RetryingSender(slice).calls, 0, 0) == 3 * slice
  {
    var tokens, s := GreedyTokens(slice, 0), RetryingSender(slice);
    GreedyTokensPeak(slice, 0);
    PeakByMinute(slice, 0);
    RetriedCallFetches(0);
    forall i | 0 <= i < |tokens| ensures SendsFor(s.calls[i], tokens[i], true, false) {
      assert tokens[i] in tokens;
    }
    forall t | t in tokens ensures t == 0 {
    }
    UniformRequests(s.calls, 3, tokens, 0, 0);
    CountAll(tokens, Within(0, 0));
  }

  /** Two bursts a minute apart, each call of the first held up until the second. */
  function WaitingSender(slice: nat): Sender {
    Sender(0, Greedy(slice, 0, UNIT), seq(|GreedyTokens(slice, UNIT)|, _ => GoodCall(UNIT)))
  }

  lemma WaitingSenderDoubles(slice: nat)
    ensures Sends(slice, WaitingSender(slice), UNIT, false, true)
    ensures RequestsIn(WaitingSender(slice).calls, UNIT, UNIT) == 2 * slice
  {
    var tokens, s := GreedyTokens(slice, UNIT), WaitingSender(slice);
    GreedyTokensPeak(slice, UNIT);
    PeakByMinute(slice, UNIT);
    PeakByMinute(slice, 0);
    GoodCallFetches(UNIT);
    forall i | 0 <= i < |tokens| ensures SendsFor(s.calls[i], tokens[i], false, true) {
      assert tokens[i] in tokens;
    }
    var times := seq(|tokens|, _ => UNIT);
    UniformRequests(s.calls, 1, times, UNIT, UNIT);
    CountAll(times, Within(UNIT, UNIT));
  }

  // ---- when the published rate is kept ----

  /**
   * Containers that split a published rate send at most that many requests in every span under a minute
   * exactly when there is a token for each and no second one for each, if every call fetches once and when
   * it gets its token. If calls may fetch again, or may wait for their fetch, no published rate is kept by
   * any fleet: one instant can hold more.
   */
  lemma FleetKeepsPublishedRateExactly(total: nat, containers: nat, fallback: nat)
    requires containers > 0
    ensures var slice := UpstreamPerMinute(Some(Limits(Some(total), Some(containers))), fallback);
      && ((forall span: nat :: span < UNIT ==> KeepsRate(total, containers, slice, span, true, true))
          <==> containers <= total < 2 * containers)
      && !KeepsRate(total, containers, slice, 0, true, false)
      && !KeepsRate(total, containers, slice, 0, false, true)
  {
    var slice := UpstreamPerMinute(Some(Limits(Some(total), Some(containers))), fallback);
    hide KeepsRate, UpstreamPerMinute;
    PromptSingleExactly(total, containers, fallback);
    TwiceTheSlicesExceed(total, containers, fallback);
    RetriesBreakRate(total, containers, slice);
    WaitsBreakRate(total, containers, slice);
  }

  /** One instant can hold three requests for each token of a burst. */
  lemma RetriesBreakRate(total: nat, containers: nat, slice: nat)
    requires containers * (2 * slice) > total
    ensures !KeepsRate(total, containers, slice, 0, true, false)
  {
    hide KeepsRate, RetryingSender, RequestsIn, Sends;
    RetryingSenderTriples(slice);
    ProductGrows(2 * slice, 3 * slice, containers);
    AlikeBreaksRate(total, containers, slice, 0, true, false, RetryingSender(slice), 0);
  }

  /** One instant can hold the requests of two bursts. */
  lemma WaitsBreakRate(total: nat, containers: nat, slice: nat)
    requires containers * (2 * slice) > total
    ensures !KeepsRate(total, containers, slice, 0, false, true)
  {
    hide KeepsRate, WaitingSender, RequestsIn, Sends;
    WaitingSenderDoubles(slice);
    AlikeBreaksRate(total, containers, slice, 0, false, true, WaitingSender(slice), UNIT);
  }

  lemma PromptSingleExactly(total: nat, containers: nat, fallback: nat)
    requires containers > 0
    ensures var slice := UpstreamPerMinute(Some(Limits(Some(total), Some(containers))), fallback);
      (forall span: nat :: span < UNIT ==> KeepsRate(total, containers, slice, span, true, true))
      <==> containers <= total < 2 * containers
  {
    var slice := UpstreamPerMinute(Some(Limits(Some(total), Some(containers))), fallback);
    forall span: nat | span < UNIT
      ensures KeepsRate(total, containers, slice, span, true, true) <==> containers * Peak(slice, span) <= total
    {
      PromptSingleInSpan(total, containers, slice, span);
      KeepsTotalExactly(total, containers, slice, span);
    }
    forall span: nat | span < UNIT
      ensures KeepsTotal(total, containers, slice, span) <==> containers * Peak(slice, span) <= total
    {
      KeepsTotalExactly(total, containers, slice, span);
    }
    FleetTokensUnderAMinuteExactly(total, containers, fallback);
  }

  lemma PromptSingleInSpan(total: nat, containers: nat, slice: nat, span: nat)
    ensures KeepsRate(total, containers, slice, span, true, true) <==> containers * Peak(slice, span) <= total
  {
    if containers * Peak(slice, span) > total {
      GreedySenderPeak(slice, span);
      AlikeBreaksRate(total, containers, slice, span, true, true, GreedySender(slice, span), 0);
    } else {
      forall senders, start | AllSend(slice, senders, start, span, true, true) && |senders| == containers
        ensures FleetRequests(senders, start, start + span) <= total
      {
        PromptFleetPeak(slice, senders, start, span);
      }
    }
  }

  /** A call answered 503 twice, half a second and then a second apart. */
  function SlowCall(): Call {
    Call(None, NO_ERRORS, (i: nat) =>
      ErrorBudget.Attempt(false, if i <= 1 then 0 else if i == 2 then 500 else 1500,
                          ErrorBudget.Replied(if i < 3 then 503 else 200, None), 0))
  }

  /** One container alone, with a published rate of one a minute, sends three requests in a second and a half. */
  lemma AloneOverPublishedRate(fallback: nat)
    ensures UpstreamPerMinute(Some(Limits(Some(1), Some(1))), fallback) == 1
    ensures var alone := Sender(0, [CheckAt(0)], [SlowCall()]);
      && Sends(1, alone, 1500, true, false) && Retried(SlowCall()).outcome == ErrorBudget.Success(200)
      && FleetRequests([alone], 0, 1500) == 3
  {
    var c := SlowCall();
    assert ErrorBudget.RetriedFrom(None, NO_ERRORS, c.world, 3) == ErrorBudget.Retried(NO_ERRORS, ErrorBudget.Success(200), 3);
    assert ErrorBudget.RetriedFrom(None, NO_ERRORS, c.world, 2) == ErrorBudget.RetriedFrom(None, NO_ERRORS, c.world, 3);
    var alone := Sender(0, [CheckAt(0)], [c]);
    assert [CheckAt(0)][1..] == [] && TokensOf(1, alone) == [0];
    assert RequestTimes(c) == [0, 500, 1500];
    CountAll(RequestTimes(c), Within(0, 1500));
    assert RequestsIn([c], 0, 1500) == RequestsIn([], 0, 1500) + 3;
    assert FleetRequests([alone], 0, 1500) == FleetRequests([], 0, 1500) + 3;
  }
}
