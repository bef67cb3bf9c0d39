/** What every run of the fleet keeps: budgets, conservation of charges, and sound refusals from memory. */
module LimiterSafety {
  import opened Options
  import opened Counting
  import opened CounterStore
  import opened PersistentLimiter
  import opened LimiterRuns

  // ---- what a call has been counted against ----

  ghost predicate ForService(cfg: Config, c: Call, k: Key) {
    var service := ServiceOf(cfg, c.request);
    service.Some? && service.value.key == k
  }

  ghost predicate ForShare(cfg: Config, c: Call, k: Key) {
    var share := ShareOf(cfg, c.request);
    share.Some? && share.value.key == k
  }

  /** The shared store has answered that it counted this call against `k`. */
  ghost predicate Charged(cfg: Config, c: Call, k: Key) {
    || (ForShare(cfg, c, k) && c.paid)
    || (ForService(cfg, c, k) && (c.phase == Admitted(Shared)
          || (c.phase.ServiceReplied? && c.phase.reply.Answered? && c.phase.reply.result.applied)))
  }

  /** Container `n` has counted this call against its own fallback counter of `k`. */
  ghost predicate ChargedLocally(cfg: Config, c: Call, k: Key, n: nat) {
    c.container == n && ForService(cfg, c, k)
    && (c.phase == Admitted(Fallback) || (c.phase.FallbackReplied? && c.phase.result.applied))
  }

  ghost function IsCharged(cfg: Config, k: Key): Call -> bool { c => Charged(cfg, c, k) }

  ghost function IsChargedLocally(cfg: Config, k: Key, n: nat): Call -> bool { c => ChargedLocally(cfg, c, k, n) }

  /** The calls let through to an agency whose service budget is `k`. */
  ghost function IsAdmitted(cfg: Config, k: Key): Call -> bool { c => ForService(cfg, c, k) && c.phase.Admitted? }

  // ---- the invariant ----

  /** A key's counter is at its limit, for as long as the counter lives. */
  ghost predicate AtLimit(counts: Counts<Key>, clock: int, k: Key, limit: int) {
    clock < KeyExpiry(k) ==> Read(counts, k) == limit
  }

  ghost predicate CallOk(cfg: Config, s: System, c: Call, healthy: bool) {
    var share := ShareOf(cfg, c.request);
    var service := ServiceOf(cfg, c.request);
    && c.container < |s.containers|
    && (c.paid ==> share.Some? && !c.phase.ShareSent?)
    && (match c.phase
        case ShareSent => share.Some?
        case ShareReplied(Failed) => share.Some? && !c.paid && !healthy
        case ShareReplied(Answered(r)) => share.Some? && c.paid == r.applied
          && (!r.applied ==> r.value == share.value.limit && AtLimit(s.shared, s.clock, share.value.key, r.value))
        case ServiceSent => service.Some?
        case ServiceReplied(Failed) => service.Some? && !healthy
        case ServiceReplied(Answered(r)) => service.Some?
          && (!r.applied ==> r.value == service.value.limit && AtLimit(s.shared, s.clock, service.value.key, r.value))
        case FallbackReplied(r) => service.Some? && !healthy
          && (!r.applied ==> r.value == service.value.limit && AtLimit(s.containers[c.container].fallback,
                               s.containers[c.container].clock, service.value.key, r.value))
        case Admitted(Uncounted) => service == None
        case Admitted(via) => service.Some? && (healthy ==> via == Shared)
        case Refused(k) => (ForShare(cfg, c, k) && !c.paid) || ForService(cfg, c, k))
    && (healthy && share.Some? && (c.phase.ServiceSent? || c.phase.ServiceReplied? || c.phase.Admitted?) ==> c.paid)
  }

  ghost predicate CountsOk(counts: Counts<Key>) {
    forall k :: k in counts ==> counts[k].expiresAt == KeyExpiry(k)
  }

  /** A live counter holds what was charged to it and never passes its limit; charges outlive the counter. */
  ghost predicate KeyOk(cfg: Config, s: System, k: Key, healthy: bool) {
    LimitOf(cfg, k).Some? ==>
      && var limit := LimitOf(cfg, k).value;
      && var charged := Count(s.calls, IsCharged(cfg, k));
      && charged <= limit
      && (s.clock < KeyExpiry(k) ==>
            charged <= Read(s.shared, k) <= limit && (healthy ==> charged == Read(s.shared, k)))
  }

  ghost predicate LocalKeyOk(cfg: Config, s: System, k: Key, n: nat)
    requires n < |s.containers|
  {
    LimitOf(cfg, k).Some? ==>
      && var limit := LimitOf(cfg, k).value;
      && var charged := Count(s.calls, IsChargedLocally(cfg, k, n));
      && charged <= limit
      && (s.containers[n].clock < KeyExpiry(k) ==> charged == Read(s.containers[n].fallback, k) <= limit)
  }

  /** A key is only remembered as spent when its shared counter, or the container's own, is at its limit. */
  ghost predicate OverOk(cfg: Config, s: System, n: nat, k: Key, healthy: bool)
    requires n < |s.containers|
  {
    var container := s.containers[n];
    k in container.over ==>
      && LimitOf(cfg, k) == Some(container.over[k])
      && (AtLimit(s.shared, s.clock, k, container.over[k])
          || (!healthy && AtLimit(container.fallback, container.clock, k, container.over[k])))
  }

  ghost predicate Inv(cfg: Config, s: System, healthy: bool) {
    && CountsOk(s.shared)
    && (forall n :: 0 <= n < |s.containers| ==> CountsOk(s.containers[n].fallback))
    && (forall c :: c in s.calls ==> CallOk(cfg, s, c, healthy))
    && (forall k :: KeyOk(cfg, s, k, healthy))
    && (forall n, k :: 0 <= n < |s.containers| ==> LocalKeyOk(cfg, s, k, n))
    && (forall n, k :: 0 <= n < |s.containers| ==> OverOk(cfg, s, n, k, healthy))
  }

  lemma InitialInv(cfg: Config, containers: nat, clock: int, healthy: bool)
    ensures Inv(cfg, Initial(containers, clock), healthy)
  {
  }

  // ---- each event keeps it ----

  /** The counter of `k`, when at its limit, still is later. */
  ghost predicate StaysAtLimit(cfg: Config, before: Counts<Key>, clock: int, after: Counts<Key>, later: int, k: Key) {
    AtLimit(before, clock, k, LimitOf(cfg, k).GetOr(0)) ==> AtLimit(after, later, k, LimitOf(cfg, k).GetOr(0))
  }

  ghost predicate LocalStaysAtLimit(cfg: Config, s: System, t: System, n: nat, k: Key)
    requires n < |s.containers| == |t.containers|
  {
    StaysAtLimit(cfg, s.containers[n].fallback, s.containers[n].clock, t.containers[n].fallback, t.containers[n].clock, k)
  }

  /** A call in order stays so while every counter at its limit stays there. */
  lemma CallStays(cfg: Config, s: System, t: System, c: Call, healthy: bool)
    requires CallOk(cfg, s, c, healthy) && |t.containers| == |s.containers|
    requires forall k :: StaysAtLimit(cfg, s.shared, s.clock, t.shared, t.clock, k)
    requires forall n, k :: 0 <= n < |s.containers| ==> LocalStaysAtLimit(cfg, s, t, n, k)
    ensures CallOk(cfg, t, c, healthy)
  {
    var share, service := ShareOf(cfg, c.request), ServiceOf(cfg, c.request);
    CountedIsUniform(cfg, c.request);
    if share.Some? {
      assert StaysAtLimit(cfg, s.shared, s.clock, t.shared, t.clock, share.value.key);
    }
    if service.Some? {
      assert StaysAtLimit(cfg, s.shared, s.clock, t.shared, t.clock, service.value.key);
      assert LocalStaysAtLimit(cfg, s, t, c.container, service.value.key);
    }
  }

  lemma TicksKeepInv(cfg: Config, s: System, e: Event, healthy: bool)
    requires (e.StoreTick? || e.ContainerTick?) && Enabled(cfg, s, e) && Inv(cfg, s, healthy)
    ensures Inv(cfg, Apply(cfg, s, e), healthy)
  {
    var t := Apply(cfg, s, e);
    forall n, k | 0 <= n < |s.containers| ensures LocalKeyOk(cfg, t, k, n) && OverOk(cfg, t, n, k, healthy) {
      assert LocalKeyOk(cfg, s, k, n) && OverOk(cfg, s, n, k, healthy);
    }
    forall k ensures KeyOk(cfg, t, k, healthy) {
      assert KeyOk(cfg, s, k, healthy);
    }
  }

  /** A call that has just arrived has been charged nothing, and is refused only on its own keys. */
  lemma ArrivedIsOk(cfg: Config, s: System, e: Event, healthy: bool)
    requires e.Arrive? && Enabled(cfg, s, e)
    ensures var c := Apply(cfg, s, e).calls[|s.calls|];
      && CallOk(cfg, Apply(cfg, s, e), c, healthy)
      && (forall k :: !Charged(cfg, c, k)) && (forall k, n :: !ChargedLocally(cfg, c, k, n))
  {
    hide LimitOf;
    var c := Apply(cfg, s, e).calls[|s.calls|];
    forall k ensures !Charged(cfg, c, k) {
    }
    forall k, n ensures !ChargedLocally(cfg, c, k, n) {
    }
  }

  lemma ArriveKeepsInv(cfg: Config, s: System, e: Event, healthy: bool)
    requires e.Arrive? && Enabled(cfg, s, e) && Inv(cfg, s, healthy)
    ensures Inv(cfg, Apply(cfg, s, e), healthy)
  {
    hide AtLimit, CountsOk, LimitOf;
    var t := Apply(cfg, s, e);
    var c := t.calls[|s.calls|];
    ArrivedIsOk(cfg, s, e, healthy);
    forall k ensures KeyOk(cfg, t, k, healthy) {
      assert KeyOk(cfg, s, k, healthy);
      CountAppend(s.calls, c, IsCharged(cfg, k));
    }
    forall n, k | 0 <= n < |s.containers| ensures LocalKeyOk(cfg, t, k, n) && OverOk(cfg, t, n, k, healthy) {
      assert LocalKeyOk(cfg, s, k, n) && OverOk(cfg, s, n, k, healthy);
      CountAppend(s.calls, c, IsChargedLocally(cfg, k, n));
    }
  }

  /** What one increment of a live counter does to every live counter, all under the fleet's limits. */
  lemma LiveIncrement(cfg: Config, counts: Counts<Key>, clock: int, key: Key, at: int, k: Key)
    requires CountsOk(counts) && LimitOf(cfg, key).Some? && ExpiresAt(at) == KeyExpiry(key)
    requires clock < KeyExpiry(key)
    ensures var (after, result) := Incremented(counts, key, 1, ExpiresAt(at), LimitOf(cfg, key), clock);
      && CountsOk(after)
      && (clock < KeyExpiry(k) ==> Read(after, k) == Read(counts, k) + (if result.applied && k == key then 1 else 0))
      && (Read(counts, key) <= LimitOf(cfg, key).value ==>
            if result.applied then Read(after, key) <= LimitOf(cfg, key).value
            else result.value == Read(after, key) == LimitOf(cfg, key).value)
  {
  }

  lemma StrayKeepsInv(cfg: Config, s: System, e: Event)
    requires e.Stray? && Enabled(cfg, s, e) && Inv(cfg, s, false)
    ensures Inv(cfg, Apply(cfg, s, e), false)
  {
    var t := Apply(cfg, s, e);
    var at := e.key.day * DAY_MS;
    assert KeyOk(cfg, s, e.key, false);
    assert KeyExpiry(e.key) == ExpiresAt(at);
    LiveIncrement(cfg, s.shared, s.clock, e.key, at, e.key);
    forall k ensures KeyOk(cfg, t, k, false)
      && (s.clock < KeyExpiry(k) && k != e.key ==> Read(t.shared, k) == Read(s.shared, k))
      && Read(t.shared, e.key) >= Read(s.shared, e.key)
    {
      assert KeyOk(cfg, s, k, false);
      LiveIncrement(cfg, s.shared, s.clock, e.key, at, k);
    }
    forall c | c in t.calls ensures CallOk(cfg, t, c, false) {
      assert CallOk(cfg, s, c, false);
      CountedIsUniform(cfg, c.request);
    }
    forall n, k | 0 <= n < |s.containers| ensures LocalKeyOk(cfg, t, k, n) && OverOk(cfg, t, n, k, false) {
      assert LocalKeyOk(cfg, s, k, n) && OverOk(cfg, s, n, k, false);
    }
  }

  /** How an answered store call moves one key's shared counter, and the count of calls charged to it. */
  lemma AnswerKeepsKey(cfg: Config, s: System, e: Event, healthy: bool, k: Key)
    requires e.Answer? && Enabled(cfg, s, e) && (healthy ==> e.ok)
    requires CountsOk(s.shared) && CallOk(cfg, s, s.calls[e.call], healthy)
    requires KeyOk(cfg, s, k, healthy) && KeyOk(cfg, s, AskedKey(cfg, s.calls[e.call]).value.key, healthy)
    ensures KeyOk(cfg, Apply(cfg, s, e), k, healthy)
    ensures StaysAtLimit(cfg, s.shared, s.clock, Apply(cfg, s, e).shared, s.clock, k)
  {
    hide Incremented, Read, ShareOf, ServiceOf, LimitOf;
    var t := Apply(cfg, s, e);
    var call := s.calls[e.call];
    var asked := AskedKey(cfg, call).value;
    var after := t.calls[e.call];
    CountedIsUniform(cfg, call.request);
    LiveIncrement(cfg, s.shared, s.clock, asked.key, call.request.at, asked.key);
    LiveIncrement(cfg, s.shared, s.clock, asked.key, call.request.at, k);
    CountUpdate(s.calls, e.call, after, IsCharged(cfg, k));
  }

  /** The call that was answered is in order: a refusal in its hands comes from a counter at its limit. */
  lemma AnswerKeepsCall(cfg: Config, s: System, e: Event, healthy: bool)
    requires e.Answer? && Enabled(cfg, s, e) && (healthy ==> e.ok)
    requires CountsOk(s.shared) && CallOk(cfg, s, s.calls[e.call], healthy)
    requires KeyOk(cfg, s, AskedKey(cfg, s.calls[e.call]).value.key, healthy)
    ensures CountsOk(Apply(cfg, s, e).shared)
    ensures CallOk(cfg, Apply(cfg, s, e), Apply(cfg, s, e).calls[e.call], healthy)
  {
    var call := s.calls[e.call];
    var asked := AskedKey(cfg, call).value;
    CountedIsUniform(cfg, call.request);
    LiveIncrement(cfg, s.shared, s.clock, asked.key, call.request.at, asked.key);
  }

  lemma AnswerKeepsInv(cfg: Config, s: System, e: Event, healthy: bool)
    requires e.Answer? && Enabled(cfg, s, e) && Inv(cfg, s, healthy) && (healthy ==> e.ok)
    ensures Inv(cfg, Apply(cfg, s, e), healthy)
  {
    hide Incremented, CountsOk, KeyOk, CallOk;
    var t := Apply(cfg, s, e);
    var after := t.calls[e.call];
    assert CallOk(cfg, s, s.calls[e.call], healthy);
    AnswerKeepsCall(cfg, s, e, healthy);
    forall k ensures KeyOk(cfg, t, k, healthy) && StaysAtLimit(cfg, s.shared, s.clock, t.shared, t.clock, k) {
      AnswerKeepsKey(cfg, s, e, healthy, k);
    }
    forall c | c in t.calls ensures CallOk(cfg, t, c, healthy) {
      if c != after {
        CallStays(cfg, s, t, c, healthy);
      }
    }
    forall n, k | 0 <= n < |s.containers| ensures LocalKeyOk(cfg, t, k, n) && OverOk(cfg, t, n, k, healthy) {
      assert LocalKeyOk(cfg, s, k, n) && OverOk(cfg, s, n, k, healthy);
      assert StaysAtLimit(cfg, s.shared, s.clock, t.shared, t.clock, k);
      CountUpdate(s.calls, e.call, after, IsChargedLocally(cfg, k, n));
    }
  }

  /** A settled segment moves no shared counter; the charges it carries on were already counted. */
  lemma SettleKeepsKey(cfg: Config, s: System, e: Event, healthy: bool, k: Key)
    requires e.Settle? && Enabled(cfg, s, e) && CallOk(cfg, s, s.calls[e.call], healthy) && KeyOk(cfg, s, k, healthy)
    ensures KeyOk(cfg, Apply(cfg, s, e), k, healthy)
  {
    var after := Apply(cfg, s, e).calls[e.call];
    CountedIsUniform(cfg, after.request);
    CountUpdate(s.calls, e.call, after, IsCharged(cfg, k));
    assert Charged(cfg, after, k) == Charged(cfg, s.calls[e.call], k);
  }

  lemma SettleKeepsFallback(cfg: Config, s: System, e: Event, healthy: bool, n: nat)
    requires e.Settle? && Enabled(cfg, s, e) && n < |s.containers|
    requires CountsOk(s.containers[n].fallback) && CallOk(cfg, s, s.calls[e.call], healthy)
    ensures CountsOk(Apply(cfg, s, e).containers[n].fallback)
  {
    hide Incremented, Read;
    var call := s.calls[e.call];
    CountedIsUniform(cfg, call.request);
    if call.phase == ServiceReplied(Failed) && n == call.container {
      var service := ServiceOf(cfg, call.request).value;
      LiveIncrement(cfg, s.containers[n].fallback, s.containers[n].clock, service.key, call.request.at, service.key);
    }
  }

  /** How a settled segment moves one container's own counter and its memory of one key. */
  lemma SettleKeepsLocal(cfg: Config, s: System, e: Event, healthy: bool, k: Key, n: nat)
    requires e.Settle? && Enabled(cfg, s, e) && n < |s.containers|
    requires CountsOk(s.containers[n].fallback) && CallOk(cfg, s, s.calls[e.call], healthy)
    requires LocalKeyOk(cfg, s, k, n)
    requires ServiceOf(cfg, s.calls[e.call].request).Some? ==>
      LocalKeyOk(cfg, s, ServiceOf(cfg, s.calls[e.call].request).value.key, n)
    ensures LocalKeyOk(cfg, Apply(cfg, s, e), k, n)
    ensures LocalStaysAtLimit(cfg, s, Apply(cfg, s, e), n, k)
  {
    hide Incremented, Read, ShareOf, ServiceOf, LimitOf;
    var t := Apply(cfg, s, e);
    var call := s.calls[e.call];
    var after := t.calls[e.call];
    CountedIsUniform(cfg, call.request);
    CountUpdate(s.calls, e.call, after, IsChargedLocally(cfg, k, n));
    if call.phase == ServiceReplied(Failed) && n == call.container {
      var service := ServiceOf(cfg, call.request).value;
      LiveIncrement(cfg, s.containers[n].fallback, s.containers[n].clock, service.key, call.request.at, service.key);
      LiveIncrement(cfg, s.containers[n].fallback, s.containers[n].clock, service.key, call.request.at, k);
    } else {
      assert ChargedLocally(cfg, after, k, n) == ChargedLocally(cfg, call, k, n);
      assert t.containers[n].fallback == s.containers[n].fallback;
    }
  }

  lemma SettleKeepsOver(cfg: Config, s: System, e: Event, healthy: bool, k: Key, n: nat)
    requires e.Settle? && Enabled(cfg, s, e) && n < |s.containers|
    requires CallOk(cfg, s, s.calls[e.call], healthy) && OverOk(cfg, s, n, k, healthy)
    requires LocalStaysAtLimit(cfg, s, Apply(cfg, s, e), n, k)
    ensures OverOk(cfg, Apply(cfg, s, e), n, k, healthy)
  {
    CountedIsUniform(cfg, s.calls[e.call].request);
  }

  /** The call that was settled is in order in its new phase. */
  lemma SettleKeepsCall(cfg: Config, s: System, e: Event, healthy: bool)
    requires e.Settle? && Enabled(cfg, s, e) && CallOk(cfg, s, s.calls[e.call], healthy)
    requires CountsOk(s.containers[s.calls[e.call].container].fallback)
    requires ServiceOf(cfg, s.calls[e.call].request).Some? ==>
      LocalKeyOk(cfg, s, ServiceOf(cfg, s.calls[e.call].request).value.key, s.calls[e.call].container)
    ensures CallOk(cfg, Apply(cfg, s, e), Apply(cfg, s, e).calls[e.call], healthy)
  {
    var call := s.calls[e.call];
    CountedIsUniform(cfg, call.request);
    if call.phase == ServiceReplied(Failed) {
      var service := ServiceOf(cfg, call.request).value;
      var container := s.containers[call.container];
      LiveIncrement(cfg, container.fallback, container.clock, service.key, call.request.at, service.key);
    }
  }

  lemma SettleKeepsInv(cfg: Config, s: System, e: Event, healthy: bool)
    requires e.Settle? && Enabled(cfg, s, e) && Inv(cfg, s, healthy)
    ensures Inv(cfg, Apply(cfg, s, e), healthy)
  {
    hide Settled, LocalStaysAtLimit, CountsOk, KeyOk, LocalKeyOk, OverOk, CallOk;
    var t := Apply(cfg, s, e);
    var after := t.calls[e.call];
    assert CallOk(cfg, s, s.calls[e.call], healthy);
    SettleKeepsCall(cfg, s, e, healthy);
    forall k ensures KeyOk(cfg, t, k, healthy) {
      SettleKeepsKey(cfg, s, e, healthy, k);
    }
    forall n | 0 <= n < |s.containers| ensures CountsOk(t.containers[n].fallback) {
      SettleKeepsFallback(cfg, s, e, healthy, n);
    }
    forall n, k | 0 <= n < |s.containers|
      ensures LocalKeyOk(cfg, t, k, n) && OverOk(cfg, t, n, k, healthy)
      ensures LocalStaysAtLimit(cfg, s, t, n, k)
    {
      SettleKeepsLocal(cfg, s, e, healthy, k, n);
      SettleKeepsOver(cfg, s, e, healthy, k, n);
    }
    forall c | c in t.calls ensures CallOk(cfg, t, c, healthy) {
      if c != after {
        CallStays(cfg, s, t, c, healthy);
      }
    }
  }
}
