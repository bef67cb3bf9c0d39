/** The limiter's promises over every run of the fleet. */
module LimiterTheorems {
  import opened Options
  import opened Counting
  import opened CounterStore
  import opened PersistentLimiter
  import opened LimiterRuns
  import opened LimiterSafety

  ghost predicate HealthyRun(events: seq<Event>) {
    forall e :: e in events ==> Healthy(e)
  }

  lemma {:induction false} RunKeepsInv(cfg: Config, s: System, events: seq<Event>, healthy: bool)
    requires Run(cfg, s, events) && Inv(cfg, s, healthy) && (healthy ==> HealthyRun(events))
    ensures Inv(cfg, After(cfg, s, events), healthy)
    decreases |events|
  {
    if events != [] {
      var e := events[0];
      assert healthy ==> Healthy(e);
      match e {
        case StoreTick(_) => TicksKeepInv(cfg, s, e, healthy);
        case ContainerTick(_, _) => TicksKeepInv(cfg, s, e, healthy);
        case Arrive(_, _) => ArriveKeepsInv(cfg, s, e, healthy);
        case Answer(_, _) => AnswerKeepsInv(cfg, s, e, healthy);
        case Stray(_) => StrayKeepsInv(cfg, s, e);
        case Settle(_) => SettleKeepsInv(cfg, s, e, healthy);
      }
      RunKeepsInv(cfg, Apply(cfg, s, e), events[1..], healthy);
    }
  }

  // ---- budgets ----

  ghost function ChargedInContainers(cfg: Config, calls: seq<Call>, k: Key, containers: nat): nat {
    if containers == 0 then 0
    else ChargedInContainers(cfg, calls, k, containers - 1) + Count(calls, IsChargedLocally(cfg, k, containers - 1))
  }

  ghost predicate AdmittedWithin(cfg: Config, c: Call, k: Key, containers: nat) {
    ForService(cfg, c, k) && c.phase.Admitted? && (c.phase.via == Shared || c.container < containers)
  }

  ghost function IsAdmittedWithin(cfg: Config, k: Key, containers: nat): Call -> bool {
    c => AdmittedWithin(cfg, c, k, containers)
  }

  /** Admissions are covered by what the shared store counted and what each container counted for itself. */
  lemma {:induction false} EveryAdmissionIsCharged(cfg: Config, calls: seq<Call>, k: Key, containers: nat)
    requires forall c :: c in calls && ForService(cfg, c, k) ==> c.phase != Admitted(Uncounted)
    ensures Count(calls, IsAdmittedWithin(cfg, k, containers))
      <= Count(calls, IsCharged(cfg, k)) + ChargedInContainers(cfg, calls, k, containers)
  {
    if containers == 0 {
      var none := (c: Call) => false;
      forall c | c in calls && AdmittedWithin(cfg, c, k, 0) ensures Charged(cfg, c, k) {
      }
      CountCover(calls, IsAdmittedWithin(cfg, k, 0), IsCharged(cfg, k), none);
      CountZero(calls, none);
    } else {
      EveryAdmissionIsCharged(cfg, calls, k, containers - 1);
      forall c | c in calls && AdmittedWithin(cfg, c, k, containers)
        ensures AdmittedWithin(cfg, c, k, containers - 1) || ChargedLocally(cfg, c, k, containers - 1)
      {
        assert c.phase != Admitted(Uncounted);
      }
      CountCover(calls, IsAdmittedWithin(cfg, k, containers), IsAdmittedWithin(cfg, k, containers - 1),
                 IsChargedLocally(cfg, k, containers - 1));
    }
  }

  lemma {:induction false} LocalChargesBounded(cfg: Config, s: System, k: Key, containers: nat, limit: nat)
    requires containers <= |s.containers| && LimitOf(cfg, k) == Some(limit)
    requires forall n :: 0 <= n < |s.containers| ==> LocalKeyOk(cfg, s, k, n)
    ensures ChargedInContainers(cfg, s.calls, k, containers) <= containers * limit
  {
    if containers > 0 {
      LocalChargesBounded(cfg, s, k, containers - 1, limit);
      assert LocalKeyOk(cfg, s, k, containers - 1);
    }
  }

  lemma BudgetSum(shared: nat, local: nat, limit: nat, containers: nat)
    requires shared <= limit && local <= containers * limit
    ensures shared + local <= limit * (1 + containers)
  {
    assert limit * (1 + containers) == limit + containers * limit;
  }

  /**
   * Whatever the interleaving and however the store fails, at most the limit, once for the shared
   * store and once per container, is admitted against a service budget on its day.
   */
  lemma BudgetUnderFailures(cfg: Config, containers: nat, clock: int, events: seq<Event>, k: Key, limit: nat)
    requires Run(cfg, Initial(containers, clock), events) && LimitOf(cfg, k) == Some(limit)
    ensures Count(After(cfg, Initial(containers, clock), events).calls, IsAdmitted(cfg, k)) <= limit * (1 + containers)
  {
    var s := After(cfg, Initial(containers, clock), events);
    InitialInv(cfg, containers, clock, false);
    RunKeepsInv(cfg, Initial(containers, clock), events, false);
    forall c | c in s.calls && ForService(cfg, c, k) ensures c.phase != Admitted(Uncounted) && c.container < containers {
      assert CallOk(cfg, s, c, false);
    }
    EveryAdmissionIsCharged(cfg, s.calls, k, containers);
    LocalChargesBounded(cfg, s, k, containers, limit);
    CountSame(s.calls, IsAdmitted(cfg, k), IsAdmittedWithin(cfg, k, containers));
    assert KeyOk(cfg, s, k, false);
    BudgetSum(Count(s.calls, IsCharged(cfg, k)), ChargedInContainers(cfg, s.calls, k, containers), limit, containers);
  }

  /** While the store never fails, the whole fleet admits at most the limit. */
  lemma BudgetWhenHealthy(cfg: Config, containers: nat, clock: int, events: seq<Event>, k: Key, limit: nat)
    requires Run(cfg, Initial(containers, clock), events) && HealthyRun(events) && LimitOf(cfg, k) == Some(limit)
    ensures Count(After(cfg, Initial(containers, clock), events).calls, IsAdmitted(cfg, k)) <= limit
  {
    var s := After(cfg, Initial(containers, clock), events);
    InitialInv(cfg, containers, clock, true);
    RunKeepsInv(cfg, Initial(containers, clock), events, true);
    forall c | c in s.calls && IsAdmitted(cfg, k)(c) ensures IsCharged(cfg, k)(c) {
      assert CallOk(cfg, s, c, true);
    }
    CountCover(s.calls, IsAdmitted(cfg, k), IsCharged(cfg, k), _ => false);
    CountZero(s.calls, _ => false);
    assert KeyOk(cfg, s, k, true);
  }

  // ---- conservation ----

  /** Calls whose service charge the store has counted and whose container has not yet heard. */
  ghost function IsArrivingHome(cfg: Config, k: Key): Call -> bool {
    c => ForService(cfg, c, k) && c.phase.ServiceReplied? && c.phase.reply.Answered? && c.phase.reply.result.applied
  }

  ghost function IsAdmittedOfCaller(cfg: Config, k: Key): Call -> bool { c => ForShare(cfg, c, k) && c.phase.Admitted? }

  /** Calls refused by the service budget after their share was counted. */
  ghost function IsLostShare(cfg: Config, k: Key): Call -> bool { c => ForShare(cfg, c, k) && c.paid && c.phase.Refused? }

  /** Calls whose share is counted and whose service charge is still open. */
  ghost function IsBetweenCharges(cfg: Config, k: Key): Call -> bool { c => ForShare(cfg, c, k) && c.paid && Active(c) }

  /**
   * While the store never fails, a live service counter holds exactly the queries admitted and those
   * whose grant is on its way back; no refused query is in it.
   */
  lemma ServiceCounterIsAdmissions(cfg: Config, containers: nat, clock: int, events: seq<Event>, k: Key)
    requires Run(cfg, Initial(containers, clock), events) && HealthyRun(events)
    requires k.Service? && LimitOf(cfg, k).Some?
    ensures var s := After(cfg, Initial(containers, clock), events);
      s.clock < KeyExpiry(k) ==>
        Read(s.shared, k) == Count(s.calls, IsAdmitted(cfg, k)) + Count(s.calls, IsArrivingHome(cfg, k))
  {
    var s := After(cfg, Initial(containers, clock), events);
    InitialInv(cfg, containers, clock, true);
    RunKeepsInv(cfg, Initial(containers, clock), events, true);
    forall c | c in s.calls ensures
      (if IsCharged(cfg, k)(c) then 1 else 0) == (if IsAdmitted(cfg, k)(c) then 1 else 0) + (if IsArrivingHome(cfg, k)(c) then 1 else 0) + 0
    {
      assert CallOk(cfg, s, c, true);
      CountedIsUniform(cfg, c.request);
    }
    CountSplit(s.calls, IsCharged(cfg, k), IsAdmitted(cfg, k), IsArrivingHome(cfg, k), _ => false);
    CountZero(s.calls, _ => false);
    assert KeyOk(cfg, s, k, true);
  }

  /**
   * While the store never fails, a live share counter holds exactly its caller's admitted calls, the
   * calls it lost to the service budget, and its calls between the two charges.
   */
  lemma ShareCounterIsConserved(cfg: Config, containers: nat, clock: int, events: seq<Event>, k: Key)
    requires Run(cfg, Initial(containers, clock), events) && HealthyRun(events)
    requires k.Share? && LimitOf(cfg, k).Some?
    ensures var s := After(cfg, Initial(containers, clock), events);
      s.clock < KeyExpiry(k) ==>
        Read(s.shared, k) == Count(s.calls, IsAdmittedOfCaller(cfg, k)) + Count(s.calls, IsLostShare(cfg, k))
                             + Count(s.calls, IsBetweenCharges(cfg, k))
    ensures forall c :: c in After(cfg, Initial(containers, clock), events).calls && IsLostShare(cfg, k)(c) ==>
      ForService(cfg, c, c.phase.refusedBy)
  {
    var s := After(cfg, Initial(containers, clock), events);
    InitialInv(cfg, containers, clock, true);
    RunKeepsInv(cfg, Initial(containers, clock), events, true);
    forall c | c in s.calls
      ensures (if IsCharged(cfg, k)(c) then 1 else 0) == (if IsAdmittedOfCaller(cfg, k)(c) then 1 else 0)
        + (if IsLostShare(cfg, k)(c) then 1 else 0) + (if IsBetweenCharges(cfg, k)(c) then 1 else 0)
      ensures IsLostShare(cfg, k)(c) ==> ForService(cfg, c, c.phase.refusedBy)
    {
      assert CallOk(cfg, s, c, true);
      CountedIsUniform(cfg, c.request);
    }
    CountSplit(s.calls, IsCharged(cfg, k), IsAdmittedOfCaller(cfg, k), IsLostShare(cfg, k), IsBetweenCharges(cfg, k));
    assert KeyOk(cfg, s, k, true);
  }

  /** While the store never fails, the whole fleet lets through at most a share's limit of its caller's calls. */
  lemma ShareBudgetWhenHealthy(cfg: Config, containers: nat, clock: int, events: seq<Event>, k: Key, limit: nat)
    requires Run(cfg, Initial(containers, clock), events) && HealthyRun(events)
    requires k.Share? && LimitOf(cfg, k) == Some(limit)
    ensures Count(After(cfg, Initial(containers, clock), events).calls, IsAdmittedOfCaller(cfg, k)) <= limit
  {
    var s := After(cfg, Initial(containers, clock), events);
    InitialInv(cfg, containers, clock, true);
    RunKeepsInv(cfg, Initial(containers, clock), events, true);
    forall c | c in s.calls && IsAdmittedOfCaller(cfg, k)(c) ensures IsCharged(cfg, k)(c) {
      assert CallOk(cfg, s, c, true);
    }
    CountCover(s.calls, IsAdmittedOfCaller(cfg, k), IsCharged(cfg, k), _ => false);
    CountZero(s.calls, _ => false);
    assert KeyOk(cfg, s, k, true);
  }

  // ---- refusals from memory ----

  /**
   * In every reachable state a key a container refuses from memory is at its limit in the shared
   * store or in the container's own fallback.
   */
  lemma MemoryRefusalIsEarned(cfg: Config, containers: nat, clock: int, events: seq<Event>, n: nat, k: Key)
    requires Run(cfg, Initial(containers, clock), events) && n < containers
    requires k in After(cfg, Initial(containers, clock), events).containers[n].over
    ensures var s := After(cfg, Initial(containers, clock), events);
      && LimitOf(cfg, k) == Some(s.containers[n].over[k])
      && (s.clock < KeyExpiry(k) && s.containers[n].clock < KeyExpiry(k) ==>
            Read(s.shared, k) == s.containers[n].over[k] || Read(s.containers[n].fallback, k) == s.containers[n].over[k])
  {
    InitialInv(cfg, containers, clock, false);
    RunKeepsInv(cfg, Initial(containers, clock), events, false);
    assert OverOk(cfg, After(cfg, Initial(containers, clock), events), n, k, false);
  }

  lemma {:induction false} MemoryOnlyGrows(cfg: Config, s: System, events: seq<Event>, n: nat, k: Key)
    requires Run(cfg, s, events) && n < |s.containers| && k in s.containers[n].over
    ensures k in After(cfg, s, events).containers[n].over
    decreases |events|
  {
    if events != [] {
      MemoryOnlyGrows(cfg, Apply(cfg, s, events[0]), events[1..], n, k);
    }
  }

  /**
   * While the store never fails, memory never turns an admit into a refusal: once a container
   * remembers a key, the store itself would refuse that key with the same count, then and at every
   * later moment of the counter's life.
   */
  lemma MemoryAgreesWithStoreForGood(
    cfg: Config, containers: nat, clock: int, before: seq<Event>, later: seq<Event>, n: nat, k: Key)
    requires Run(cfg, Initial(containers, clock), before) && n < containers
    requires k in After(cfg, Initial(containers, clock), before).containers[n].over
    requires Run(cfg, After(cfg, Initial(containers, clock), before), later)
    requires HealthyRun(before) && HealthyRun(later)
    ensures var s := After(cfg, After(cfg, Initial(containers, clock), before), later);
      n < |s.containers| && k in s.containers[n].over && LimitOf(cfg, k).Some? &&
      (s.clock < KeyExpiry(k) ==>
        Incremented(s.shared, k, 1, KeyExpiry(k), LimitOf(cfg, k), s.clock)
          == (s.shared, IncrementResult(s.containers[n].over[k], false)))
  {
    InitialInv(cfg, containers, clock, true);
    RunKeepsInv(cfg, Initial(containers, clock), before, true);
    var mid := After(cfg, Initial(containers, clock), before);
    RunKeepsInv(cfg, mid, later, true);
    MemoryOnlyGrows(cfg, mid, later, n, k);
    assert OverOk(cfg, After(cfg, mid, later), n, k, true);
  }

  // ---- one call at a time ----

  ghost predicate OneAtATimeRun(cfg: Config, s: System, events: seq<Event>)
    requires Run(cfg, s, events)
    decreases |events|
  {
    events == [] ||
    (OneAtATime(s, events[0]) && OneAtATimeRun(cfg, Apply(cfg, s, events[0]), events[1..]))
  }

  /** Calls of container `n` that paid a share and were then refused by the service budget `k`. */
  ghost function IsLostTo(cfg: Config, k: Key, n: nat): Call -> bool {
    (c: Call) => c.container == n && c.paid && c.phase == Refused(k) && k.Service?
  }

  ghost predicate AloneOk(cfg: Config, s: System) {
    && (forall i, j :: 0 <= i < j < |s.calls| && s.calls[i].container == s.calls[j].container ==>
          !(Active(s.calls[i]) && Active(s.calls[j])))
    && (forall c :: c in s.calls && c.container < |s.containers| && Active(c) ==>
          !KnownOver(s.containers[c.container].over, ServiceOf(cfg, c.request)))
    && (forall n, k :: 0 <= n < |s.containers| ==>
          Count(s.calls, IsLostTo(cfg, k, n)) <= if k in s.containers[n].over then 1 else 0)
  }

  /** A settled segment that loses a call also remembers its budget, which was not remembered before. */
  lemma SettleKeepsLost(cfg: Config, s: System, e: Event, n: nat, k: Key)
    requires e.Settle? && Enabled(cfg, s, e) && CallOk(cfg, s, s.calls[e.call], false) && n < |s.containers|
    requires !KnownOver(s.containers[s.calls[e.call].container].over, ServiceOf(cfg, s.calls[e.call].request))
    requires Count(s.calls, IsLostTo(cfg, k, n)) <= if k in s.containers[n].over then 1 else 0
    ensures Count(Apply(cfg, s, e).calls, IsLostTo(cfg, k, n)) <= if k in Apply(cfg, s, e).containers[n].over then 1 else 0
  {
    hide Incremented, LimitOf, ShareOf, ServiceOf;
    CountUpdate(s.calls, e.call, Apply(cfg, s, e).calls[e.call], IsLostTo(cfg, k, n));
    CountedIsUniform(cfg, s.calls[e.call].request);
  }

  /** A call is lost only by a settled segment, and only when its container had no memory of the budget before. */
  lemma StepKeepsLost(cfg: Config, s: System, e: Event, n: nat, k: Key)
    requires Enabled(cfg, s, e) && AloneOk(cfg, s) && n < |s.containers|
    requires e.Settle? ==> CallOk(cfg, s, s.calls[e.call], false)
    ensures Count(Apply(cfg, s, e).calls, IsLostTo(cfg, k, n)) <= if k in Apply(cfg, s, e).containers[n].over then 1 else 0
  {
    hide Incremented, LimitOf, ShareOf, ServiceOf, Settled;
    var t := Apply(cfg, s, e);
    assert Count(s.calls, IsLostTo(cfg, k, n)) <= if k in s.containers[n].over then 1 else 0;
    match e {
      case Arrive(_, _) => CountAppend(s.calls, t.calls[|s.calls|], IsLostTo(cfg, k, n));
      case Answer(i, _) => CountUpdate(s.calls, i, t.calls[i], IsLostTo(cfg, k, n));
      case Settle(i) =>
        assert s.calls[i] in s.calls && Active(s.calls[i]);
        SettleKeepsLost(cfg, s, e, n, k);
      case _ =>
    }
  }

  /** The budget of an unfinished call is not in its container's memory. */
  lemma SettleKeepsUnknown(cfg: Config, s: System, e: Event, c: Call)
    requires e.Settle? && Enabled(cfg, s, e) && AloneOk(cfg, s) && CallOk(cfg, s, s.calls[e.call], false)
    requires c in Apply(cfg, s, e).calls && c.container < |s.containers| && Active(c)
    ensures !KnownOver(Apply(cfg, s, e).containers[c.container].over, ServiceOf(cfg, c.request))
  {
    var t := Apply(cfg, s, e);
    var call := s.calls[e.call];
    assert call in s.calls;
    var j :| 0 <= j < |t.calls| && t.calls[j] == c;
    CountedIsUniform(cfg, call.request);
    if j != e.call {
      assert s.calls[j] == c && c in s.calls;
      assert c.container != call.container;
    }
  }

  lemma StepKeepsUnknown(cfg: Config, s: System, e: Event, c: Call)
    requires Enabled(cfg, s, e) && OneAtATime(s, e) && AloneOk(cfg, s)
    requires e.Settle? ==> CallOk(cfg, s, s.calls[e.call], false)
    requires c in Apply(cfg, s, e).calls && c.container < |s.containers| && Active(c)
    ensures !KnownOver(Apply(cfg, s, e).containers[c.container].over, ServiceOf(cfg, c.request))
  {
    match e {
      case Settle(_) => SettleKeepsUnknown(cfg, s, e, c);
      case Answer(i, _) => assert c in s.calls || s.calls[i] in s.calls;
      case _ =>
    }
  }

  lemma StepKeepsAlone(cfg: Config, s: System, e: Event)
    requires Enabled(cfg, s, e) && OneAtATime(s, e) && Inv(cfg, s, false) && AloneOk(cfg, s)
    ensures AloneOk(cfg, Apply(cfg, s, e))
  {
    hide CallOk, KeyOk, LocalKeyOk, OverOk, CountsOk, KnownOver, ServiceOf;
    var t := Apply(cfg, s, e);
    assert e.Settle? ==> CallOk(cfg, s, s.calls[e.call], false);
    forall n, k | 0 <= n < |s.containers|
      ensures Count(t.calls, IsLostTo(cfg, k, n)) <= if k in t.containers[n].over then 1 else 0
    {
      StepKeepsLost(cfg, s, e, n, k);
    }
    forall c | c in t.calls && c.container < |t.containers| && Active(c)
      ensures !KnownOver(t.containers[c.container].over, ServiceOf(cfg, c.request))
    {
      StepKeepsUnknown(cfg, s, e, c);
    }
  }

  lemma {:induction false} RunKeepsAlone(cfg: Config, s: System, events: seq<Event>)
    requires Run(cfg, s, events) && OneAtATimeRun(cfg, s, events) && Inv(cfg, s, false) && AloneOk(cfg, s)
    ensures AloneOk(cfg, After(cfg, s, events))
    decreases |events|
  {
    if events != [] {
      StepKeepsAlone(cfg, s, events[0]);
      RunKeepsInv(cfg, s, [events[0]], false);
      assert After(cfg, s, [events[0]]) == Apply(cfg, s, events[0]);
      RunKeepsAlone(cfg, Apply(cfg, s, events[0]), events[1..]);
    }
  }

  /**
   * A container that takes one call at a time loses at most one paid share per service budget and
   * day, even when the store fails: after the first refusal its memory refuses before anything is paid.
   */
  lemma AtMostOneShareLost(cfg: Config, containers: nat, clock: int, events: seq<Event>, n: nat, k: Key)
    requires Run(cfg, Initial(containers, clock), events) && n < containers
    requires OneAtATimeRun(cfg, Initial(containers, clock), events)
    ensures Count(After(cfg, Initial(containers, clock), events).calls, IsLostTo(cfg, k, n)) <= 1
  {
    InitialInv(cfg, containers, clock, false);
    RunKeepsAlone(cfg, Initial(containers, clock), events);
  }
}
