/**
 * What the error budgets allow at most, and what a fleet of clients that split an agency's error budget
 * counts together.
 */
module FleetErrors {
  import opened Arithmetic
  import opened ErrorBudget
  import opened Options
  import Split

  // ---- one client's bounds are met ----

  /** One attempt after another, each of them an error. */
  function OneByOne(n: nat, at: int): seq<Event> {
    if n == 0 then [] else [Start(at), End(at, true)] + OneByOne(n - 1, at)
  }

  function Starts(n: nat, at: int): seq<Event> { seq(n, _ => Start(at)) }

  function Errs(n: nat, at: int): seq<Event> { seq(n, _ => End(at, true)) }

  /** The limit is neared one by one; then all the attempts that may be in flight start together, and all are errors. */
  function Storm(limit: nat, most: nat, at: int): seq<Event>
    requires limit >= 1
  {
    OneByOne(limit - 1, at) + (Starts(most, at) + Errs(most, at))
  }

  lemma {:induction false} TallyAppends(first: seq<Event>, rest: seq<Event>)
    ensures Tally(first + rest) == Tally(first) + Tally(rest)
    decreases |first|
  {
    if first == [] {
      assert first + rest == rest;
    } else {
      assert (first + rest)[1..] == first[1..] + rest;
      TallyAppends(first[1..], rest);
    }
  }

  /** The events are a run that ends in this state, all at one moment. */
  ghost predicate Leads(limit: nat, most: nat, s: State, at: int, events: seq<Event>, t: State, errors: nat) {
    && Run(limit, most, s, at, events) && After(limit, s, events) == t && Tally(events) == errors
    && forall e :: e in events ==> e.at == at
  }

  lemma LeadsOn(limit: nat, most: nat, s: State, at: int, first: seq<Event>, t: State, m: nat, rest: seq<Event>, u: State, n: nat)
    requires Leads(limit, most, s, at, first, t, m) && Leads(limit, most, t, at, rest, u, n)
    ensures Leads(limit, most, s, at, first + rest, u, m + n)
  {
    assert first != [] ==> first[|first| - 1] in first;
    RunAppends(limit, most, s, at, first, rest);
    AfterAppends(limit, s, first, rest);
    TallyAppends(first, rest);
  }

  lemma LeadsFirst(limit: nat, most: nat, s: State, e: Event, rest: seq<Event>, u: State, n: nat)
    requires (e.Start? ==> s.inFlight < most) && (e.End? ==> s.inFlight > 0)
    requires Leads(limit, most, Next(limit, s, e), e.at, rest, u, n)
    ensures Leads(limit, most, s, e.at, [e] + rest, u, n + (if e.End? && e.counted then 1 else 0))
  {
    assert ([e] + rest)[1..] == rest;
  }

  /** The window holds this moment, so that nothing is reset. */
  predicate Holds(e: Errors, at: int) { e.windowStartMs <= at < e.windowStartMs + WINDOW_MS }

  lemma {:induction false} OneByOneLeads(limit: nat, most: nat, e: Errors, at: int, n: nat)
    requires Holds(e, at) && most >= 1 && e.count + n < limit
    ensures Leads(limit, most, State(e, 0), at, OneByOne(n, at), State(e.(count := e.count + n), 0), n)
    decreases n
  {
    if n > 0 {
      var more := e.(count := e.count + 1);
      var rest := OneByOne(n - 1, at);
      OneByOneLeads(limit, most, more, at, n - 1);
      LeadsFirst(limit, most, State(e, 1), End(at, true), rest, State(e.(count := e.count + n), 0), n - 1);
      LeadsFirst(limit, most, State(e, 0), Start(at), [End(at, true)] + rest, State(e.(count := e.count + n), 0), n);
      assert OneByOne(n, at) == [Start(at)] + ([End(at, true)] + rest);
    }
  }

  lemma {:induction false} StartsLead(limit: nat, most: nat, e: Errors, inFlight: nat, at: int, n: nat)
    requires Holds(e, at) && e.count < limit && inFlight + n <= most
    ensures Leads(limit, most, State(e, inFlight), at, Starts(n, at), State(e, inFlight + n), 0)
    decreases n
  {
    if n > 0 {
      StartsLead(limit, most, e, inFlight + 1, at, n - 1);
      LeadsFirst(limit, most, State(e, inFlight), Start(at), Starts(n - 1, at), State(e, inFlight + n), 0);
      assert Starts(n, at) == [Start(at)] + Starts(n - 1, at);
    }
  }

  lemma {:induction false} ErrsLead(limit: nat, most: nat, e: Errors, at: int, n: nat)
    requires Holds(e, at)
    ensures Leads(limit, most, State(e, n), at, Errs(n, at), State(e.(count := e.count + n), 0), n)
    decreases n
  {
    if n > 0 {
      var more := e.(count := e.count + 1);
      ErrsLead(limit, most, more, at, n - 1);
      LeadsFirst(limit, most, State(e, n), End(at, true), Errs(n - 1, at), State(e.(count := e.count + n), 0), n - 1);
      assert Errs(n, at) == [End(at, true)] + Errs(n - 1, at);
    }
  }

  /** A storm fills an empty window with limit + most - 1 errors. */
  lemma StormLeads(limit: nat, most: nat, e: Errors, at: int)
    requires limit >= 1 && most >= 1 && Holds(e, at) && e.count == 0
    ensures Leads(limit, most, State(e, 0), at, Storm(limit, most, at),
                  State(e.(count := limit + most - 1), 0), limit + most - 1)
  {
    hide Leads;
    var near := e.(count := limit - 1);
    var full := e.(count := limit + most - 1);
    OneByOneLeads(limit, most, e, at, limit - 1);
    StartsLead(limit, most, near, 0, at, most);
    ErrsLead(limit, most, near, at, most);
    LeadsOn(limit, most, State(near, 0), at, Starts(most, at), State(near, most), 0, Errs(most, at), State(full, 0), most);
    LeadsOn(limit, most, State(e, 0), at, OneByOne(limit - 1, at), State(near, 0), limit - 1,
            Starts(most, at) + Errs(most, at), State(full, 0), most);
  }

  /** The first check after a window rolls it, so a storm then fills a new one. */
  lemma StormRolls(limit: nat, most: nat, e: Errors, at: int)
    requires limit >= 1 && most >= 1 && e.windowStartMs + WINDOW_MS <= at
    ensures Leads(limit, most, State(e, 0), at, Storm(limit, most, at),
                  State(Errors(limit + most - 1, at), 0), limit + most - 1)
  {
    var events := Storm(limit, most, at);
    StormLeads(limit, most, Errors(0, at), at);
    assert events[0] == Start(at) by {
      assert limit > 1 ==> events[0] == OneByOne(limit - 1, at)[0];
    }
    assert Next(limit, State(e, 0), events[0]) == Next(limit, State(Errors(0, at), 0), events[0]);
  }

  /** The last moment of one window and the first of the next. */
  function TwoStorms(limit: nat, most: nat, born: int): seq<Event>
    requires limit >= 1
  {
    Storm(limit, most, born + WINDOW_MS - 1) + Storm(limit, most, born + WINDOW_MS)
  }

  /**
   * Both bounds of the error budget are met, by every limit and number of attempts in flight: one window
   * counts limit + most - 1 errors, and two moments a millisecond apart count twice as many.
   */
  lemma ErrorBoundsAreMet(limit: nat, most: nat, born: int)
    requires limit >= 1 && most >= 1
    ensures var start, first := State(Errors(0, born), 0), Storm(limit, most, born + WINDOW_MS - 1);
      Run(limit, most, start, born, first) && After(limit, start, first).errors.count == limit + most - 1
    ensures var start, events := State(Errors(0, born), 0), TwoStorms(limit, most, born);
      && Run(limit, most, start, born, events) && Tally(events) == 2 * (limit + most - 1)
      && forall e :: e in events ==> born + WINDOW_MS - 1 <= e.at <= born + WINDOW_MS
  {
    var at, start := born + WINDOW_MS - 1, State(Errors(0, born), 0);
    var first, second := Storm(limit, most, at), Storm(limit, most, at + 1);
    var full := State(Errors(limit + most - 1, born), 0);
    StormLeads(limit, most, Errors(0, born), at);
    StormRolls(limit, most, Errors(limit + most - 1, born), at + 1);
    assert first != [] ==> first[|first| - 1] in first;
    RunLater(limit, most, full, at + 1, LastReading(at, first), second);
    RunAppends(limit, most, start, at, first, second);
    RunLater(limit, most, start, at, born, first);
    RunLater(limit, most, start, at, born, first + second);
    TallyAppends(first, second);
  }

  lemma RunLater(limit: nat, most: nat, s: State, now: int, earlier: int, events: seq<Event>)
    requires Run(limit, most, s, now, events) && earlier <= now
    ensures Run(limit, most, s, earlier, events)
  {
  }

  // ---- the fleet ----

  /** One container: when its client was made, and its events before and in a span. */
  datatype Client = Client(born: int, before: seq<Event>, window: seq<Event>)

  /** A run with at most so many attempts in flight, whose last part lies in a span of a minute. */
  ghost predicate InMinute(limit: nat, most: nat, c: Client, from: int) {
    var start := State(Errors(0, c.born), 0);
    && Run(limit, most, start, c.born, c.before)
    && Run(limit, most, After(limit, start, c.before), from, c.window)
    && forall e :: e in c.window ==> from <= e.at < from + WINDOW_MS
  }

  function FleetTally(clients: seq<Client>): nat {
    if clients == [] then 0 else FleetTally(clients[..|clients| - 1]) + Tally(clients[|clients| - 1].window)
  }

  /** However a fleet of this size has run before, it counts at most the total in any span of a minute. */
  ghost predicate KeepsErrors(total: nat, containers: nat, slice: nat, most: nat) {
    forall clients, from :: AllInMinute(slice, most, clients, from) && |clients| == containers ==> FleetTally(clients) <= total
  }

  ghost predicate AllInMinute(limit: nat, most: nat, clients: seq<Client>, from: int) {
    forall c :: c in clients ==> InMinute(limit, most, c, from)
  }

  lemma {:induction false} FleetErrorsPeak(limit: nat, most: nat, clients: seq<Client>, from: int)
    requires limit >= 1 && most >= 1 && AllInMinute(limit, most, clients, from)
    ensures FleetTally(clients) <= |clients| * (2 * (limit + most - 1))
  {
    if clients != [] {
      var front, c := clients[..|clients| - 1], clients[|clients| - 1];
      assert clients == front + [c] && c in clients;
      assert forall d :: d in front ==> d in clients;
      FleetErrorsPeak(limit, most, front, from);
      assert InMinute(limit, most, c, from);
      MinuteBudget(limit, most, c.born, c.before, c.window, from);
      AddProducts(|front|, 1, 2 * (limit + most - 1));
    }
  }

  function StormyFleet(containers: nat, limit: nat, most: nat): seq<Client>
    requires limit >= 1
  {
    seq(containers, _ => Client(0, [], TwoStorms(limit, most, 0)))
  }

  lemma {:induction false} StormyFleetPeaks(containers: nat, limit: nat, most: nat)
    requires limit >= 1 && most >= 1
    ensures AllInMinute(limit, most, StormyFleet(containers, limit, most), WINDOW_MS - 1)
    ensures FleetTally(StormyFleet(containers, limit, most)) == containers * (2 * (limit + most - 1))
  {
    ErrorBoundsAreMet(limit, most, 0);
    var events := TwoStorms(limit, most, 0);
    RunFromEarlier(limit, most, State(Errors(0, 0), 0), 0, WINDOW_MS - 1, events);
    if containers > 0 {
      var fleet := StormyFleet(containers, limit, most);
      assert fleet[..containers - 1] == StormyFleet(containers - 1, limit, most);
      StormyFleetPeaks(containers - 1, limit, most);
      AddProducts(containers - 1, 1, 2 * (limit + most - 1));
    }
  }

  /** The fleet keeps to a total of errors exactly when the peaks of its slices fit in it. */
  lemma KeepsErrorsExactly(total: nat, containers: nat, slice: nat, most: nat)
    requires slice >= 1 && most >= 1
    ensures KeepsErrors(total, containers, slice, most) <==> containers * (2 * (slice + most - 1)) <= total
  {
    StormyFleetPeaks(containers, slice, most);
    var fleet := StormyFleet(containers, slice, most);
    assert AllInMinute(slice, most, fleet, WINDOW_MS - 1) && |fleet| == containers;
    forall clients, from | AllInMinute(slice, most, clients, from) && |clients| == containers
      ensures FleetTally(clients) <= containers * (2 * (slice + most - 1))
    {
      FleetErrorsPeak(slice, most, clients, from);
    }
  }

  /**
   * No fleet that splits a published number of errors keeps to it, whatever the number and however few the
   * containers and their attempts in flight: a minute across two windows can count more.
   */
  lemma NoFleetKeepsPublishedErrors(total: nat, containers: nat, most: nat, fallback: nat)
    requires containers > 0 && most >= 1
    ensures var slice := Split.UpstreamPerMinute(Some(Split.Limits(Some(total), Some(containers))), fallback);
      !KeepsErrors(total, containers, slice, most)
  {
    var slice := Split.UpstreamPerMinute(Some(Split.Limits(Some(total), Some(containers))), fallback);
    Split.SlicesFitExactly(total, containers, fallback);
    Split.TwiceTheSlicesExceed(total, containers, fallback);
    ProductGrows(2 * slice, 2 * (slice + most - 1), containers);
    KeepsErrorsExactly(total, containers, slice, most);
  }
}
