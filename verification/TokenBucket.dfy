/**
 * The HTTP client's rate limiter: a bucket refilled lazily at each check, and a block that a response
 * without remaining quota imposes. Tokens are counted in units of one 60,000th, so that each elapsed
 * millisecond adds exactly `perMinute` units.
 */
module TokenBucket {
  import opened Arithmetic
  import opened Options

  const UNIT: int := 60_000
  const BLOCK_MS: int := 60_000

  datatype Bucket = Bucket(tokens: int, lastRefillMs: int, blockedUntilMs: int)

  /** A grant, or how long until one is due; never, when the rate is zero. */
  datatype Check = Granted | Wait(ms: int) | Never

  function Full(perMinute: nat, nowMs: int): Bucket { Bucket(perMinute * UNIT, nowMs, 0) }

  function Refilled(perMinute: nat, b: Bucket, nowMs: int): Bucket {
    if nowMs - b.lastRefillMs > 0
    then b.(tokens := Min(perMinute * UNIT, b.tokens + (nowMs - b.lastRefillMs) * perMinute), lastRefillMs := nowMs)
    else b
  }

  function CeilingOf(amount: int, rate: nat): int
    requires rate > 0
  {
    (amount + rate - 1) / rate
  }

  function Checked(perMinute: nat, b: Bucket, nowMs: int): (Bucket, Check) {
    if nowMs < b.blockedUntilMs then (b, Wait(b.blockedUntilMs - nowMs))
    else
      var r := Refilled(perMinute, b, nowMs);
      if r.tokens >= UNIT then (r.(tokens := r.tokens - UNIT), Granted)
      else (r, if perMinute == 0 then Never else Wait(CeilingOf(UNIT - r.tokens, perMinute)))
  }

  function Noted(b: Bucket, exhausted: bool, nowMs: int): Bucket {
    if exhausted then b.(blockedUntilMs := nowMs + BLOCK_MS) else b
  }

  // ---- runs ----

  /** A check for a token, or the headers of a response, at a clock reading. */
  datatype Event = CheckAt(at: int) | HeadersAt(at: int, exhausted: bool)

  function Next(perMinute: nat, b: Bucket, e: Event): Bucket {
    match e
    case CheckAt(at) => Checked(perMinute, b, at).0
    case HeadersAt(at, exhausted) => Noted(b, exhausted, at)
  }

  predicate Grants(perMinute: nat, b: Bucket, e: Event) {
    e.CheckAt? && Checked(perMinute, b, e.at).1 == Granted
  }

  function After(perMinute: nat, b: Bucket, events: seq<Event>): Bucket
    decreases |events|
  {
    if events == [] then b else After(perMinute, Next(perMinute, b, events[0]), events[1..])
  }

  function GrantCount(perMinute: nat, b: Bucket, events: seq<Event>): nat
    decreases |events|
  {
    if events == [] then 0
    else (if Grants(perMinute, b, events[0]) then 1 else 0) + GrantCount(perMinute, Next(perMinute, b, events[0]), events[1..])
  }

  /** The clock never runs back, from `start` on and up to `end`. */
  predicate Monotone(start: int, events: seq<Event>, end: int)
    decreases |events|
  {
    if events == [] then start <= end else start <= events[0].at && Monotone(events[0].at, events[1..], end)
  }

  /** What every state a client reaches by time `now` looks like. */
  predicate Inv(perMinute: nat, b: Bucket, now: int) {
    && 0 <= b.tokens <= perMinute * UNIT
    && b.lastRefillMs <= now
    && b.blockedUntilMs <= now + BLOCK_MS
    && (b.lastRefillMs + BLOCK_MS <= b.blockedUntilMs || b.blockedUntilMs <= b.lastRefillMs)
  }

  lemma StepKeepsInv(perMinute: nat, b: Bucket, e: Event, now: int)
    requires Inv(perMinute, b, now) && now <= e.at
    ensures Inv(perMinute, Next(perMinute, b, e), e.at)
  {
    if e.CheckAt? {
      RefillStaysInside(perMinute, b, e.at);
    }
  }

  lemma RefillStaysInside(perMinute: nat, b: Bucket, now: int)
    requires 0 <= b.tokens <= perMinute * UNIT && b.lastRefillMs <= now
    ensures var r := Refilled(perMinute, b, now);
      b.tokens <= r.tokens <= perMinute * UNIT && r.lastRefillMs == now
  {
    ProductGrows(0, now - b.lastRefillMs, perMinute);
  }

  /** A minute's refill fills the bucket. */
  lemma MinuteFills(perMinute: nat, b: Bucket, now: int)
    requires 0 <= b.tokens <= perMinute * UNIT && b.lastRefillMs + UNIT <= now
    ensures Refilled(perMinute, b, now) == b.(tokens := perMinute * UNIT, lastRefillMs := now)
  {
    ProductGrows(UNIT, now - b.lastRefillMs, perMinute);
  }

  lemma {:induction false} RunKeepsInv(perMinute: nat, b: Bucket, events: seq<Event>, start: int, end: int)
    requires Inv(perMinute, b, start) && Monotone(start, events, end)
    ensures Inv(perMinute, After(perMinute, b, events), end) && start <= end
    decreases |events|
  {
    if events != [] {
      StepKeepsInv(perMinute, b, events[0], start);
      RunKeepsInv(perMinute, Next(perMinute, b, events[0]), events[1..], events[0].at, end);
    }
  }

  // ---- the window bound ----

  /** What could be granted at `now`: the tokens with the refill that is due, never above the capacity. */
  function Available(perMinute: nat, b: Bucket, now: int): int {
    Min(perMinute * UNIT, b.tokens + (now - b.lastRefillMs) * perMinute)
  }

  lemma StepSpends(perMinute: nat, b: Bucket, e: Event, now: int)
    requires Inv(perMinute, b, now) && now <= e.at
    ensures Available(perMinute, Next(perMinute, b, e), e.at) + (if Grants(perMinute, b, e) then UNIT else 0)
      <= Available(perMinute, b, now) + (e.at - now) * perMinute
  {
    AddProducts(e.at - now, now - b.lastRefillMs, perMinute);
    ProductGrows(0, e.at - now, perMinute);
  }

  /** Grants are paid from what is available and what flows in. */
  lemma {:induction false} RunSpends(perMinute: nat, b: Bucket, events: seq<Event>, start: int, end: int)
    requires Inv(perMinute, b, start) && Monotone(start, events, end)
    ensures UNIT * GrantCount(perMinute, b, events) <= Available(perMinute, b, start) + (end - start) * perMinute
    decreases |events|
  {
    if events == [] {
      assert (end - start) * perMinute >= 0 && (start - b.lastRefillMs) * perMinute >= 0;
    } else {
      var e := events[0];
      var c := Next(perMinute, b, e);
      StepSpends(perMinute, b, e, start);
      StepKeepsInv(perMinute, b, e, start);
      RunSpends(perMinute, c, events[1..], e.at, end);
      assert (end - start) * perMinute == (e.at - start) * perMinute + (end - e.at) * perMinute;
    }
  }

  /**
   * In any span of T milliseconds of any run, whatever came before, one client is granted at most
   * its capacity and the span's refill: `perMinute` times 1 + T / 60,000.
   */
  lemma WindowBound(perMinute: nat, born: int, before: seq<Event>, start: int, window: seq<Event>, end: int)
    requires 0 <= born && Monotone(born, before, start) && Monotone(start, window, end)
    ensures UNIT * GrantCount(perMinute, After(perMinute, Full(perMinute, born), before), window)
      <= perMinute * (UNIT + (end - start))
  {
    var b := After(perMinute, Full(perMinute, born), before);
    RunKeepsInv(perMinute, Full(perMinute, born), before, born, start);
    RunSpends(perMinute, b, window, start, end);
  }

  // ---- the bound is met ----

  function Checks(n: nat, at: int): seq<Event> { seq(n, _ => CheckAt(at)) }

  /** All the tokens a bucket holds at an instant are granted at that instant. */
  lemma {:induction false} BurstIsGranted(perMinute: nat, b: Bucket, at: int, n: nat)
    requires b.blockedUntilMs <= at && Refilled(perMinute, b, at).tokens >= n * UNIT
    ensures GrantCount(perMinute, b, Checks(n, at)) == n
    ensures var r := Refilled(perMinute, b, at);
      n > 0 ==> After(perMinute, b, Checks(n, at)) == r.(tokens := r.tokens - n * UNIT)
    decreases n
  {
    if n > 0 {
      assert Checks(n, at)[1..] == Checks(n - 1, at);
      var c := Next(perMinute, b, CheckAt(at));
      assert Refilled(perMinute, c, at) == c;
      BurstIsGranted(perMinute, c, at, n - 1);
    }
  }

  /** The whole tokens that flow in. */
  function PartMinute(perMinute: nat, span: nat): nat { span * perMinute / UNIT }

  /** Checks that get the most: the whole capacity at once, and again each minute, then what the last part minute brings. */
  function Greedy(perMinute: nat, at: int, span: nat): seq<Event>
    decreases span
  {
    Checks(perMinute, at) +
    (if span < UNIT then Checks(PartMinute(perMinute, span), at + span) else Greedy(perMinute, at + UNIT, span - UNIT))
  }

  lemma {:induction false} GrantsAppend(perMinute: nat, b: Bucket, first: seq<Event>, rest: seq<Event>)
    ensures GrantCount(perMinute, b, first + rest)
      == GrantCount(perMinute, b, first) + GrantCount(perMinute, After(perMinute, b, first), rest)
    decreases |first|
  {
    if first == [] {
      assert first + rest == rest;
    } else {
      assert (first + rest)[1..] == first[1..] + rest;
      GrantsAppend(perMinute, Next(perMinute, b, first[0]), first[1..], rest);
    }
  }

  lemma {:induction false} MonotoneAppend(start: int, first: seq<Event>, mid: int, rest: seq<Event>, end: int)
    requires Monotone(start, first, mid) && Monotone(mid, rest, end)
    ensures Monotone(start, first + rest, end)
    decreases |first|
  {
    if first == [] {
      assert first + rest == rest;
      MonotoneFromEarlier(start, mid, rest, end);
    } else {
      assert (first + rest)[1..] == first[1..] + rest;
      MonotoneAppend(first[0].at, first[1..], mid, rest, end);
    }
  }

  lemma MonotoneFromEarlier(earlier: int, start: int, events: seq<Event>, end: int)
    requires earlier <= start && Monotone(start, events, end)
    ensures Monotone(earlier, events, end)
  {
  }

  lemma {:induction false} ChecksAreMonotone(start: int, n: nat, at: int)
    requires start <= at
    ensures Monotone(start, Checks(n, at), at)
    decreases n
  {
    if n > 0 {
      assert Checks(n, at)[1..] == Checks(n - 1, at);
      ChecksAreMonotone(at, n - 1, at);
    }
  }

  lemma {:induction false} GreedyIsMonotone(perMinute: nat, at: int, span: nat)
    ensures Monotone(at, Greedy(perMinute, at, span), at + span)
    decreases span
  {
    hide Checks, PartMinute, Monotone;
    ChecksAreMonotone(at, perMinute, at);
    if span < UNIT {
      ChecksAreMonotone(at, PartMinute(perMinute, span), at + span);
      MonotoneAppend(at, Checks(perMinute, at), at, Checks(PartMinute(perMinute, span), at + span), at + span);
    } else {
      GreedyIsMonotone(perMinute, at + UNIT, span - UNIT);
      MonotoneFromEarlier(at, at + UNIT, Greedy(perMinute, at + UNIT, span - UNIT), at + span);
      MonotoneAppend(at, Checks(perMinute, at), at, Greedy(perMinute, at + UNIT, span - UNIT), at + span);
    }
  }

  /** The most tokens a client can be granted in a span: the window bound, rounded down. */
  function Peak(perMinute: nat, span: nat): nat { perMinute * (UNIT + span) / UNIT }

  lemma PeakByMinute(perMinute: nat, span: nat)
    ensures Peak(perMinute, span) == perMinute + PartMinute(perMinute, span)
    ensures span >= UNIT ==> Peak(perMinute, span) == perMinute + Peak(perMinute, span - UNIT)
  {
    AddProducts(UNIT, span, perMinute);
    AddProducts(UNIT, span - UNIT, perMinute);
  }

  /** From a bucket that is full at its first check, the greedy checks are granted the whole bound. */
  lemma {:induction false} GreedyIsGranted(perMinute: nat, b: Bucket, at: int, span: nat)
    requires perMinute > 0 && b.blockedUntilMs <= at && b.lastRefillMs <= at
    requires Refilled(perMinute, b, at).tokens == perMinute * UNIT
    ensures GrantCount(perMinute, b, Greedy(perMinute, at, span)) == Peak(perMinute, span)
    decreases span
  {
    hide Checks, PartMinute, Peak, GrantCount, After;
    var first := Checks(perMinute, at);
    BurstIsGranted(perMinute, b, at, perMinute);
    var c := After(perMinute, b, first);
    assert c == Bucket(0, at, b.blockedUntilMs);
    PeakByMinute(perMinute, span);
    if span < UNIT {
      var n := PartMinute(perMinute, span);
      PartMinuteFlowsIn(perMinute, c, at, span);
      BurstIsGranted(perMinute, c, at + span, n);
      GrantsAppend(perMinute, b, first, Checks(n, at + span));
    } else {
      ProductGrows(0, perMinute, UNIT);
      MinuteFills(perMinute, c, at + UNIT);
      GreedyIsGranted(perMinute, c, at + UNIT, span - UNIT);
      GrantsAppend(perMinute, b, first, Greedy(perMinute, at + UNIT, span - UNIT));
    }
  }

  lemma PartMinuteFlowsIn(perMinute: nat, c: Bucket, at: int, span: nat)
    requires c.tokens == 0 && c.lastRefillMs == at && span < UNIT
    ensures Refilled(perMinute, c, at + span).tokens == span * perMinute >= PartMinute(perMinute, span) * UNIT
  {
    ProductGrows(span, UNIT, perMinute);
    ProductGrows(0, span, perMinute);
  }

  /**
   * The window bound is met by every rate and every span, by a client that was idle before: what no run
   * can exceed, one run is granted to the last whole token.
   */
  lemma WindowBoundIsMet(perMinute: nat, born: nat, span: nat)
    ensures var window := Greedy(perMinute, born, span);
      Monotone(born, window, born + span) && GrantCount(perMinute, Full(perMinute, born), window) == Peak(perMinute, span)
  {
    GreedyIsMonotone(perMinute, born, span);
    if perMinute > 0 {
      GreedyIsGranted(perMinute, Full(perMinute, born), born, span);
    } else {
      WindowPeak(perMinute, born, [], born, Greedy(perMinute, born, span), span);
    }
  }

  /** And no run is granted more than the bound, rounded down. */
  lemma WindowPeak(perMinute: nat, born: int, before: seq<Event>, start: int, window: seq<Event>, span: nat)
    requires 0 <= born && Monotone(born, before, start) && Monotone(start, window, start + span)
    ensures GrantCount(perMinute, After(perMinute, Full(perMinute, born), before), window) <= Peak(perMinute, span)
  {
    WindowBound(perMinute, born, before, start, window, start + span);
  }

  // ---- the block ----

  lemma {:induction false} BlockedGrantsNothing(perMinute: nat, b: Bucket, events: seq<Event>, start: int, end: int)
    requires Monotone(start, events, end) && end < b.blockedUntilMs <= start + BLOCK_MS
    ensures GrantCount(perMinute, b, events) == 0
    decreases |events|
  {
    if events != [] {
      MonotoneEnds(events[0].at, events[1..], end);
      BlockedGrantsNothing(perMinute, Next(perMinute, b, events[0]), events[1..], events[0].at, end);
    }
  }

  lemma {:induction false} MonotoneEnds(start: int, events: seq<Event>, end: int)
    requires Monotone(start, events, end)
    ensures start <= end
    decreases |events|
  {
    if events != [] {
      MonotoneEnds(events[0].at, events[1..], end);
    }
  }

  /** No token is granted in the minute after a response that reports no remaining quota. */
  lemma NoGrantForAMinute(perMinute: nat, b: Bucket, at: int, events: seq<Event>, end: int)
    requires Monotone(at, events, end) && end < at + BLOCK_MS
    ensures GrantCount(perMinute, b, [HeadersAt(at, true)] + events) == 0
  {
    BlockedGrantsNothing(perMinute, Noted(b, true, at), events, at, end);
    assert ([HeadersAt(at, true)] + events)[1..] == events;
  }

  /** The first check after a block finds the bucket full: it is granted, and leaves a full bucket less one token. */
  lemma FullAfterBlock(perMinute: nat, born: int, before: seq<Event>, at: int)
    requires 0 <= born && Monotone(born, before, at) && perMinute > 0
    ensures var b := After(perMinute, Full(perMinute, born), before);
      b.lastRefillMs < b.blockedUntilMs <= at ==>
        Checked(perMinute, b, at) == (Bucket(perMinute * UNIT - UNIT, at, b.blockedUntilMs), Granted)
  {
    var b := After(perMinute, Full(perMinute, born), before);
    RunKeepsInv(perMinute, Full(perMinute, born), before, born, at);
    if b.lastRefillMs < b.blockedUntilMs <= at {
      MinuteFills(perMinute, b, at);
      ProductGrows(1, perMinute, UNIT);
    }
  }

  /** A response blocks exactly when it reports no remaining quota, and moves no token. */
  lemma HeadersBlockExactly(b: Bucket, exhausted: bool, at: int)
    ensures var c := Noted(b, exhausted, at);
      && c.tokens == b.tokens && c.lastRefillMs == b.lastRefillMs
      && c.blockedUntilMs == if exhausted then at + 60_000 else b.blockedUntilMs
  {
  }

  /** At a rate of zero nothing is granted, and a waiter that no block holds gives up at once. */
  lemma ZeroRateGrantsNothing(b: Bucket, at: int)
    requires Inv(0, b, at)
    ensures Checked(0, b, at).1 != Granted
    ensures b.blockedUntilMs <= at ==> forall maxWaitMs :: Acquire(0, b, maxWaitMs, [at], 0).1 == TooLong(None)
  {
  }

  // ---- waiting ----

  /** A waiter that sleeps as long as it was told, with no new block in between, is granted its token. */
  lemma WaitIsEnough(perMinute: nat, b: Bucket, at: int, later: int)
    requires Inv(perMinute, b, at) && perMinute > 0
    requires var (waiting, check) := Checked(perMinute, b, at);
      check.Wait? && at + check.ms <= later
    ensures Checked(perMinute, Checked(perMinute, b, at).0, later).1 == Granted
    ensures Checked(perMinute, b, at).1.ms > 0
  {
    var (waiting, check) := Checked(perMinute, b, at);
    ProductGrows(1, perMinute, UNIT);
    if at < b.blockedUntilMs {
      MinuteFills(perMinute, b, later);
    } else {
      var deficit := UNIT - waiting.tokens;
      CeilingCovers(deficit, perMinute);
      ProductGrows(check.ms, later - at, perMinute);
    }
  }

  lemma QuotientIsPositive(amount: int, rate: nat)
    requires 0 < rate <= amount
    ensures amount / rate >= 1
  {
  }

  lemma CeilingCovers(amount: int, rate: nat)
    requires amount > 0 && rate > 0
    ensures CeilingOf(amount, rate) > 0 && CeilingOf(amount, rate) * rate >= amount
    ensures (CeilingOf(amount, rate) - 1) * rate < amount
  {
    var q := (amount + rate - 1) / rate;
    assert amount + rate - 1 == q * rate + (amount + rate - 1) % rate;
    QuotientIsPositive(amount + rate - 1, rate);
  }

  /** And no less: one millisecond sooner there would have been no token. */
  lemma WaitIsLeast(perMinute: nat, b: Bucket, at: int, sooner: int)
    requires Inv(perMinute, b, at) && perMinute > 0
    requires var (waiting, check) := Checked(perMinute, b, at);
      check.Wait? && at <= sooner < at + check.ms
    ensures Checked(perMinute, Checked(perMinute, b, at).0, sooner).1 != Granted
  {
    var (waiting, check) := Checked(perMinute, b, at);
    if b.blockedUntilMs <= at {
      var deficit := UNIT - waiting.tokens;
      CeilingCovers(deficit, perMinute);
      ProductGrows(sooner - at, check.ms - 1, perMinute);
      assert waiting.lastRefillMs == at;
    }
  }

  // ---- acquiring ----

  /** The wait loop over successive clock readings: a token, a wait above the cap, or still asleep when the readings end. */
  datatype Acquired = Token(sleeps: nat) | TooLong(ms: Option<int>) | Asleep(sleeps: nat)

  function Acquire(perMinute: nat, b: Bucket, maxWaitMs: int, clock: seq<int>, sleeps: nat): (Bucket, Acquired)
    decreases |clock|
  {
    if clock == [] then (b, Asleep(sleeps))
    else
      var (c, check) := Checked(perMinute, b, clock[0]);
      match check
      case Granted => (c, Token(sleeps))
      case Never => (c, TooLong(None))
      case Wait(ms) => if ms > maxWaitMs then (c, TooLong(Some(ms))) else Acquire(perMinute, c, maxWaitMs, clock[1..], sleeps + 1)
  }

  /** A sole waiter sleeps at most once: its second reading, no earlier than its wait, gets the token. */
  lemma SoleWaiterSleepsOnce(perMinute: nat, b: Bucket, maxWaitMs: int, clock: seq<int>)
    requires |clock| >= 2 && Inv(perMinute, b, clock[0]) && perMinute > 0
    requires Checked(perMinute, b, clock[0]).1.Wait? ==> clock[0] + Checked(perMinute, b, clock[0]).1.ms <= clock[1]
    ensures var outcome := Acquire(perMinute, b, maxWaitMs, clock, 0).1;
      && (outcome.TooLong? <==> Checked(perMinute, b, clock[0]).1.Wait? && Checked(perMinute, b, clock[0]).1.ms > maxWaitMs)
      && (!outcome.TooLong? ==> outcome.Token? && outcome.sleeps <= 1)
  {
    var (c, check) := Checked(perMinute, b, clock[0]);
    if check.Wait? && check.ms <= maxWaitMs {
      WaitIsEnough(perMinute, b, clock[0], clock[1]);
      assert clock[1..][0] == clock[1];
    }
  }
}
