/** What one call does to the service counters over a whole run, and a run that spends all a failing store allows. */
module LimiterTraces {
  import opened Options
  import opened Counting
  import opened CounterStore
  import opened PersistentLimiter
  import opened LimiterRuns
  import opened LimiterSafety
  import opened LimiterTheorems

  // ---- a share refusal spares the service ----

  /** The call has been sent to a service counter and waits for it. */
  predicate AtService(c: Call) { c.phase.ServiceSent? || c.phase.ServiceReplied? || c.phase.FallbackReplied? }

  /** The call is at its service charge, or was settled by it or after it. */
  predicate PastShare(c: Call) {
    AtService(c) || c.phase.Admitted? || (c.phase.Refused? && c.phase.refusedBy.Service?)
  }

  /** The event is a step of this call: its arrival, the store's reply to it, or its container going on with it. */
  predicate StepOf(s: System, e: Event, i: nat) {
    match e
    case Arrive(_, _) => i == |s.calls|
    case Answer(j, _) => i == j
    case Settle(j) => i == j
    case _ => false
  }

  /** No live service counter, and no container's own one, reads otherwise than before. */
  ghost predicate SparesService(s: System, t: System) {
    && |t.containers| == |s.containers|
    && (forall k: Key :: k.Service? && s.clock < KeyExpiry(k) ==> Read(t.shared, k) == Read(s.shared, k))
    && (forall n :: 0 <= n < |s.containers| ==> t.containers[n].fallback == s.containers[n].fallback)
  }

  /** Throughout the run the call is never at a service charge, and no step of it moves a service counter. */
  ghost predicate NeverTouchesService(cfg: Config, s: System, events: seq<Event>, i: nat)
    requires Run(cfg, s, events)
    decreases |events|
  {
    && (i < |s.calls| ==> !AtService(s.calls[i]))
    && (events != [] ==>
          && (StepOf(s, events[0], i) ==> SparesService(s, Apply(cfg, s, events[0])))
          && NeverTouchesService(cfg, Apply(cfg, s, events[0]), events[1..], i))
  }

  lemma {:induction false} RunKeepsPastShare(cfg: Config, s: System, events: seq<Event>, i: nat)
    requires Run(cfg, s, events) && i < |s.calls| && PastShare(s.calls[i])
    ensures i < |After(cfg, s, events).calls| && PastShare(After(cfg, s, events).calls[i])
    decreases |events|
  {
    if events != [] {
      CountedIsUniform(cfg, s.calls[i].request);
      RunKeepsPastShare(cfg, Apply(cfg, s, events[0]), events[1..], i);
    }
  }

  /** A step of a call that is not past its share moves no service counter. */
  lemma ShareStepSpares(cfg: Config, s: System, e: Event, i: nat)
    requires Enabled(cfg, s, e) && Inv(cfg, s, false) && StepOf(s, e, i)
    requires i < |s.calls| ==> !AtService(s.calls[i])
    ensures SparesService(s, Apply(cfg, s, e))
  {
    if e.Answer? {
      var call := s.calls[i];
      var asked := AskedKey(cfg, call).value;
      CountedIsUniform(cfg, call.request);
      forall k: Key | k.Service? && s.clock < KeyExpiry(k) ensures Read(Apply(cfg, s, e).shared, k) == Read(s.shared, k) {
        LiveIncrement(cfg, s.shared, s.clock, asked.key, call.request.at, k);
      }
    }
  }

  lemma {:induction false} RefusedShareSparesFrom(cfg: Config, s: System, events: seq<Event>, i: nat)
    requires Run(cfg, s, events) && Inv(cfg, s, false)
    requires var end := After(cfg, s, events);
      i < |end.calls| && end.calls[i].phase.Refused? && end.calls[i].phase.refusedBy.Share?
    ensures NeverTouchesService(cfg, s, events, i)
    decreases |events|
  {
    if i < |s.calls| && AtService(s.calls[i]) {
      RunKeepsPastShare(cfg, s, events, i);
    }
    if events != [] {
      if StepOf(s, events[0], i) {
        ShareStepSpares(cfg, s, events[0], i);
      }
      RunKeepsInv(cfg, s, [events[0]], false);
      assert After(cfg, s, [events[0]]) == Apply(cfg, s, events[0]);
      RefusedShareSparesFrom(cfg, Apply(cfg, s, events[0]), events[1..], i);
    }
  }

  /**
   * A query that ends refused on its own share was, at every moment of the run, never sent to a service
   * counter, and none of its steps moved one, in the shared store or in a container; nor was its share
   * paid. However the store fails, a caller that loops on refusals takes nothing from everyone's budget.
   */
  lemma ShareRefusalSparesService(cfg: Config, containers: nat, clock: int, events: seq<Event>, i: nat)
    requires Run(cfg, Initial(containers, clock), events)
    requires var end := After(cfg, Initial(containers, clock), events);
      i < |end.calls| && end.calls[i].phase.Refused? && ForShare(cfg, end.calls[i], end.calls[i].phase.refusedBy)
    ensures NeverTouchesService(cfg, Initial(containers, clock), events, i)
    ensures !After(cfg, Initial(containers, clock), events).calls[i].paid
  {
    var end := After(cfg, Initial(containers, clock), events);
    InitialInv(cfg, containers, clock, false);
    RunKeepsInv(cfg, Initial(containers, clock), events, false);
    CountedIsUniform(cfg, end.calls[i].request);
    assert CallOk(cfg, end, end.calls[i], false);
    RefusedShareSparesFrom(cfg, Initial(containers, clock), events, i);
  }

  // ---- no refusal without memory ----

  /** Every refused call was refused by a key its container remembers as spent. */
  ghost predicate RefusalsRemembered(s: System) {
    forall c :: c in s.calls && c.phase.Refused? && c.container < |s.containers| ==>
      c.phase.refusedBy in s.containers[c.container].over
  }

  lemma StepRemembersRefusals(cfg: Config, s: System, e: Event)
    requires Enabled(cfg, s, e) && RefusalsRemembered(s)
    ensures RefusalsRemembered(Apply(cfg, s, e))
  {
    hide Incremented, ShareOf, ServiceOf;
    var t := Apply(cfg, s, e);
    forall c | c in t.calls && c.phase.Refused? && c.container < |t.containers|
      ensures c.phase.refusedBy in t.containers[c.container].over
    {
      if c in s.calls {
        assert c.phase.refusedBy in s.containers[c.container].over;
      }
    }
  }

  lemma {:induction false} RunRemembersRefusals(cfg: Config, s: System, events: seq<Event>)
    requires Run(cfg, s, events) && RefusalsRemembered(s)
    ensures RefusalsRemembered(After(cfg, s, events))
    decreases |events|
  {
    if events != [] {
      StepRemembersRefusals(cfg, s, events[0]);
      RunRemembersRefusals(cfg, Apply(cfg, s, events[0]), events[1..]);
    }
  }

  /**
   * Over every run, however the store fails, a call is only refused by its own share or its source's
   * budget, when that counter is at its limit in the shared store or in the call's own container, for as long
   * as the counters live. So a failing store alone refuses nobody.
   */
  lemma RefusalIsEarned(cfg: Config, containers: nat, clock: int, events: seq<Event>, i: nat)
    requires Run(cfg, Initial(containers, clock), events)
    requires var end := After(cfg, Initial(containers, clock), events);
      i < |end.calls| && end.calls[i].phase.Refused?
    ensures var s := After(cfg, Initial(containers, clock), events);
      var c, k := s.calls[i], s.calls[i].phase.refusedBy;
      && (ForShare(cfg, c, k) || ForService(cfg, c, k)) && LimitOf(cfg, k).Some?
      && c.container < |s.containers| && k in s.containers[c.container].over
      && (s.clock < KeyExpiry(k) && s.containers[c.container].clock < KeyExpiry(k) ==>
            Read(s.shared, k) == LimitOf(cfg, k).value || Read(s.containers[c.container].fallback, k) == LimitOf(cfg, k).value)
  {
    var s := After(cfg, Initial(containers, clock), events);
    InitialInv(cfg, containers, clock, false);
    RunKeepsInv(cfg, Initial(containers, clock), events, false);
    RunRemembersRefusals(cfg, Initial(containers, clock), events);
    var c := s.calls[i];
    assert c in s.calls && CallOk(cfg, s, c, false);
    MemoryRefusalIsEarned(cfg, containers, clock, events, c.container, c.phase.refusedBy);
  }

  // ---- what a segment leads to ----

  /**
   * When the store fails a share's charge, the call goes on as if it had been granted: let through when
   * its source has no budget, refused only by a budget its container remembers as spent, and otherwise
   * sent to the service charge. Nothing is counted or remembered.
   */
  lemma FailedShareIsLetThrough(cfg: Config, s: System, i: nat, source: string, caller: Option<Caller>, at: int)
    requires Enabled(cfg, s, Settle(i)) && s.calls[i].phase == ShareReplied(Failed)
    requires s.calls[i].request == Query(source, caller, at)
    ensures var t, over := Apply(cfg, s, Settle(i)), s.containers[s.calls[i].container].over;
      && t.containers == s.containers && t.shared == s.shared
      && t.calls[i].phase ==
          if source !in cfg.serviceDaily then Admitted(Uncounted)
          else if Service(source, at / DAY_MS) in over then Refused(Service(source, at / DAY_MS))
          else ServiceSent
  {
  }

  /** A tool call whose share the store fails to charge is let through. */
  lemma FailedToolShareIsLetThrough(cfg: Config, s: System, i: nat, caller: Option<Caller>, at: int)
    requires Enabled(cfg, s, Settle(i)) && s.calls[i].phase == ShareReplied(Failed)
    requires s.calls[i].request == ToolCall(caller, at)
    ensures Apply(cfg, s, Settle(i)).calls[i].phase == Admitted(Uncounted)
    ensures Apply(cfg, s, Settle(i)).containers == s.containers
  {
  }

  /** A call is refused as it comes exactly when its container remembers its share or its source's budget as spent. */
  lemma RefusedOnArrivalExactly(cfg: Config, s: System, n: nat, request: Request)
    requires n < |s.containers|
    ensures var t, over := Apply(cfg, s, Arrive(n, request)), s.containers[n].over;
      && t.shared == s.shared && t.containers == s.containers && |t.calls| == |s.calls| + 1
      && (t.calls[|s.calls|].phase.Refused? <==>
            exists k :: k in over && (ForShare(cfg, t.calls[|s.calls|], k) || ForService(cfg, t.calls[|s.calls|], k)))
  {
  }

  /** How far a call is from its end. */
  function StepsLeft(c: Call): nat {
    match c.phase
    case ShareSent => 6
    case ShareReplied(_) => 5
    case ServiceSent => 4
    case ServiceReplied(_) => 3
    case FallbackReplied(_) => 2
    case Admitted(_) => 0
    case Refused(_) => 0
  }

  /** Every step of a call brings it nearer its end: none is stuck or goes round. */
  lemma EveryStepAdvances(cfg: Config, s: System, e: Event, healthy: bool)
    requires (e.Answer? || e.Settle?) && Enabled(cfg, s, e) && CallOk(cfg, s, s.calls[e.call], healthy)
    ensures StepsLeft(Apply(cfg, s, e).calls[e.call]) < StepsLeft(s.calls[e.call])
    ensures forall i :: 0 <= i < |s.calls| && i != e.call ==> Apply(cfg, s, e).calls[i] == s.calls[i]
  {
  }

  // ---- the budget under failures is met ----

  lemma {:induction false} RunAppends(cfg: Config, s: System, first: seq<Event>, rest: seq<Event>)
    requires Run(cfg, s, first) && Run(cfg, After(cfg, s, first), rest)
    ensures Run(cfg, s, first + rest) && After(cfg, s, first + rest) == After(cfg, After(cfg, s, first), rest)
    decreases |first|
  {
    if first == [] {
      assert first + rest == rest;
    } else {
      assert (first + rest)[1..] == first[1..] + rest;
      RunAppends(cfg, Apply(cfg, s, first[0]), first[1..], rest);
    }
  }

  lemma OneStep(cfg: Config, s: System, e: Event, rest: seq<Event>)
    requires Enabled(cfg, s, e) && Run(cfg, Apply(cfg, s, e), rest)
    ensures Run(cfg, s, [e] + rest) && After(cfg, s, [e] + rest) == After(cfg, Apply(cfg, s, e), rest)
  {
    assert ([e] + rest)[1..] == rest;
  }

  lemma NoMore(cfg: Config, s: System)
    ensures Run(cfg, s, []) && After(cfg, s, []) == s
  {
  }

  /** A query without a caller at the start of a key's day. */
  function QueryOf(k: Key): Request
    requires k.Service?
  {
    Query(k.source, None, k.day * DAY_MS)
  }

  /** Every clock stands at the start of the key's day and no container remembers a spent key. */
  ghost predicate AtDawn(s: System, k: Key) {
    s.clock == k.day * DAY_MS && forall c :: c in s.containers ==> c.clock == s.clock && c.over == map[]
  }

  ghost predicate Spendable(cfg: Config, s: System, k: Key, n: nat, limit: nat) {
    k.Service? && LimitOf(cfg, k) == Some(limit) && AtDawn(s, k) && n < |s.containers|
  }

  function ByStore(m: nat, n: nat, k: Key): seq<Event>
    requires k.Service?
  {
    [Arrive(n, QueryOf(k)), Answer(m, true), Settle(m)]
  }

  function ByContainer(m: nat, n: nat, k: Key): seq<Event>
    requires k.Service?
  {
    [Arrive(n, QueryOf(k)), Answer(m, false), Settle(m), Settle(m)]
  }

  lemma QueryCharges(cfg: Config, k: Key, limit: nat)
    requires k.Service? && LimitOf(cfg, k) == Some(limit)
    ensures ServiceOf(cfg, QueryOf(k)) == Some(Counted(k, limit)) && ShareOf(cfg, QueryOf(k)) == None
  {
  }

  /** The store counts a query and its container lets it through. */
  lemma StoreAdmits(cfg: Config, s: System, k: Key, n: nat, limit: nat)
    requires Spendable(cfg, s, k, n, limit) && Read(s.shared, k) < limit
    ensures Run(cfg, s, ByStore(|s.calls|, n, k))
    ensures var t := After(cfg, s, ByStore(|s.calls|, n, k));
      && t.calls == s.calls + [Call(n, QueryOf(k), Admitted(Shared), false)]
      && t.containers == s.containers && t.clock == s.clock && Read(t.shared, k) == Read(s.shared, k) + 1
  {
    hide ServiceOf, ShareOf, Run;
    QueryCharges(cfg, k, limit);
    assert s.containers[n] in s.containers;
    var events, m := ByStore(|s.calls|, n, k), |s.calls|;
    var a := Apply(cfg, s, events[0]);
    assert a.calls[m] == Call(n, QueryOf(k), ServiceSent, false);
    var b := Apply(cfg, a, events[1]);
    var c := Apply(cfg, b, events[2]);
    assert c.calls == s.calls + [Call(n, QueryOf(k), Admitted(Shared), false)] && c.containers == s.containers;
    NoMore(cfg, c);
    OneStep(cfg, b, events[2], []);
    OneStep(cfg, a, events[1], [events[2]] + []);
    OneStep(cfg, s, events[0], [events[1]] + ([events[2]] + []));
    assert events == [events[0]] + ([events[1]] + ([events[2]] + []));
  }

  /** The store fails, the container counts the query for itself and lets it through. */
  lemma ContainerAdmits(cfg: Config, s: System, k: Key, n: nat, limit: nat)
    requires Spendable(cfg, s, k, n, limit) && Read(s.containers[n].fallback, k) < limit
    ensures Run(cfg, s, ByContainer(|s.calls|, n, k))
    ensures var t := After(cfg, s, ByContainer(|s.calls|, n, k));
      && t.calls == s.calls + [Call(n, QueryOf(k), Admitted(Fallback), false)] && t.clock == s.clock
      && |t.containers| == |s.containers| && (forall c: nat :: c < |s.containers| && c != n ==> t.containers[c] == s.containers[c])
      && t.containers[n].clock == s.clock && t.containers[n].over == map[]
      && Read(t.containers[n].fallback, k) == Read(s.containers[n].fallback, k) + 1
  {
    hide ServiceOf, ShareOf, Run;
    QueryCharges(cfg, k, limit);
    assert s.containers[n] in s.containers;
    var events, m := ByContainer(|s.calls|, n, k), |s.calls|;
    var a := Apply(cfg, s, events[0]);
    assert a.calls[m] == Call(n, QueryOf(k), ServiceSent, false);
    var b := Apply(cfg, a, events[1]);
    assert b.calls[m] == Call(n, QueryOf(k), ServiceReplied(Failed), false) && b.containers == s.containers;
    var c := Apply(cfg, b, events[2]);
    assert c.calls[m].phase.FallbackReplied? && c.calls[m].phase.result.applied;
    var d := Apply(cfg, c, events[3]);
    assert d.calls == s.calls + [Call(n, QueryOf(k), Admitted(Fallback), false)];
    NoMore(cfg, d);
    OneStep(cfg, c, events[3], []);
    OneStep(cfg, b, events[2], [events[3]] + []);
    OneStep(cfg, a, events[1], [events[2]] + ([events[3]] + []));
    OneStep(cfg, s, events[0], [events[1]] + ([events[2]] + ([events[3]] + [])));
    assert events == [events[0]] + ([events[1]] + ([events[2]] + ([events[3]] + [])));
  }

  function StoreRun(m: nat, n: nat, k: Key, count: nat): seq<Event>
    requires k.Service?
    decreases count
  {
    if count == 0 then [] else ByStore(m, n, k) + StoreRun(m + 1, n, k, count - 1)
  }

  function ContainerRun(m: nat, n: nat, k: Key, count: nat): seq<Event>
    requires k.Service?
    decreases count
  {
    if count == 0 then [] else ByContainer(m, n, k) + ContainerRun(m + 1, n, k, count - 1)
  }

  lemma {:induction false} StoreRunAdmits(cfg: Config, s: System, k: Key, n: nat, limit: nat, count: nat)
    requires Spendable(cfg, s, k, n, limit) && Read(s.shared, k) + count <= limit
    ensures Run(cfg, s, StoreRun(|s.calls|, n, k, count))
    ensures var t := After(cfg, s, StoreRun(|s.calls|, n, k, count));
      && t.containers == s.containers && t.clock == s.clock && |t.calls| == |s.calls| + count
      && Count(t.calls, IsAdmitted(cfg, k)) == Count(s.calls, IsAdmitted(cfg, k)) + count
    decreases count
  {
    hide ByStore, Run, After, ServiceOf, Count, LimitOf;
    if count == 0 {
      NoMore(cfg, s);
    } else {
      StoreAdmits(cfg, s, k, n, limit);
      var t := After(cfg, s, ByStore(|s.calls|, n, k));
      QueryCharges(cfg, k, limit);
      CountAppend(s.calls, t.calls[|s.calls|], IsAdmitted(cfg, k));
      StoreRunAdmits(cfg, t, k, n, limit, count - 1);
      RunAppends(cfg, s, ByStore(|s.calls|, n, k), StoreRun(|t.calls|, n, k, count - 1));
    }
  }

  lemma {:induction false} ContainerRunAdmits(cfg: Config, s: System, k: Key, n: nat, limit: nat, count: nat)
    requires Spendable(cfg, s, k, n, limit) && Read(s.containers[n].fallback, k) + count <= limit
    ensures Run(cfg, s, ContainerRun(|s.calls|, n, k, count))
    ensures var t := After(cfg, s, ContainerRun(|s.calls|, n, k, count));
      && AtDawn(t, k) && |t.containers| == |s.containers| && |t.calls| == |s.calls| + count
      && (forall c: nat :: c < |s.containers| && c != n ==> t.containers[c] == s.containers[c])
      && Count(t.calls, IsAdmitted(cfg, k)) == Count(s.calls, IsAdmitted(cfg, k)) + count
    decreases count
  {
    hide ByContainer, Run, After, ServiceOf, Count, LimitOf;
    if count == 0 {
      NoMore(cfg, s);
    } else {
      ContainerAdmits(cfg, s, k, n, limit);
      var t := After(cfg, s, ByContainer(|s.calls|, n, k));
      QueryCharges(cfg, k, limit);
      CountAppend(s.calls, t.calls[|s.calls|], IsAdmitted(cfg, k));
      StaysDawn(s, t, k, n);
      ContainerRunAdmits(cfg, t, k, n, limit, count - 1);
      RunAppends(cfg, s, ByContainer(|s.calls|, n, k), ContainerRun(|t.calls|, n, k, count - 1));
    }
  }

  lemma StaysDawn(s: System, t: System, k: Key, n: nat)
    requires AtDawn(s, k) && n < |s.containers| == |t.containers| && t.clock == s.clock
    requires forall c: nat :: c < |s.containers| && c != n ==> t.containers[c] == s.containers[c]
    requires t.containers[n].clock == s.clock && t.containers[n].over == map[]
    ensures AtDawn(t, k)
  {
    forall c | c in t.containers ensures c.clock == t.clock && c.over == map[] {
      var i :| 0 <= i < |t.containers| && t.containers[i] == c;
      assert s.containers[i] in s.containers;
    }
  }

  /** Each container from one on spends its whole fallback. */
  function EveryContainerRun(m: nat, from: nat, containers: nat, k: Key, limit: nat): seq<Event>
    requires k.Service?
    decreases containers - from
  {
    if from >= containers then []
    else ContainerRun(m, from, k, limit) + EveryContainerRun(m + limit, from + 1, containers, k, limit)
  }

  lemma {:induction false} EveryContainerAdmits(cfg: Config, s: System, from: nat, k: Key, limit: nat)
    requires k.Service? && LimitOf(cfg, k) == Some(limit) && AtDawn(s, k) && from <= |s.containers|
    requires forall c: nat :: from <= c < |s.containers| ==> s.containers[c].fallback == map[]
    ensures var events := EveryContainerRun(|s.calls|, from, |s.containers|, k, limit);
      Run(cfg, s, events) && Count(After(cfg, s, events).calls, IsAdmitted(cfg, k))
        == Count(s.calls, IsAdmitted(cfg, k)) + limit * (|s.containers| - from)
    decreases |s.containers| - from
  {
    hide ContainerRun, Run, After, AtDawn, IsAdmitted, Count, LimitOf;
    if from >= |s.containers| {
      NoMore(cfg, s);
    } else {
      ContainerRunAdmits(cfg, s, k, from, limit, limit);
      var t := After(cfg, s, ContainerRun(|s.calls|, from, k, limit));
      EveryContainerAdmits(cfg, t, from + 1, k, limit);
      RunAppends(cfg, s, ContainerRun(|s.calls|, from, k, limit),
                 EveryContainerRun(|t.calls|, from + 1, |s.containers|, k, limit));
      OneMoreLimit(limit, |s.containers| - from);
    }
  }

  lemma OneMoreLimit(limit: nat, n: int)
    ensures limit * n == limit + limit * (n - 1)
  {
  }

  /** All of a failing day: the store's whole budget, then every container's own. */
  function WorstDay(containers: nat, k: Key, limit: nat): seq<Event>
    requires k.Service?
  {
    StoreRun(0, 0, k, limit) + EveryContainerRun(limit, 0, containers, k, limit)
  }

  /**
   * What a failing store can cost is exactly that: for every source, limit and fleet there is a run that
   * admits the limit once for the store and once for each container.
   */
  lemma BudgetUnderFailuresIsMet(cfg: Config, containers: nat, k: Key, limit: nat)
    requires k.Service? && LimitOf(cfg, k) == Some(limit) && containers > 0
    ensures var start, events := Initial(containers, k.day * DAY_MS), WorstDay(containers, k, limit);
      Run(cfg, start, events)
      && Count(After(cfg, start, events).calls, IsAdmitted(cfg, k)) == limit * (1 + containers)
  {
    hide StoreRun, EveryContainerRun, Run, After, LimitOf;
    var start := Initial(containers, k.day * DAY_MS);
    StoreRunAdmits(cfg, start, k, 0, limit, limit);
    var s := After(cfg, start, StoreRun(0, 0, k, limit));
    EveryContainerAdmits(cfg, s, 0, k, limit);
    RunAppends(cfg, start, StoreRun(0, 0, k, limit), EveryContainerRun(limit, 0, containers, k, limit));
    OneMoreLimit(limit, 1 + containers);
  }
}
