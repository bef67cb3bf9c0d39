/**
 * One container's side of the persistent limiter: which counters a query is charged to, what it
 * remembers about spent ones, and the synchronous segments of a charge between two awaits.
 */
module PersistentLimiter {
  import opened Options
  import opened CounterStore

  const DAY_MS: int := 86_400_000
  const RETAIN_DAYS: int := 2
  const DEGRADED_LOG_INTERVAL_MS: int := 60_000

  datatype Scope = Network | Pool

  datatype Kind = Upstream | ToolCalls

  /** A counter's key. A service key is one source's budget, a share key one caller's part; both carry their day. */
  datatype Key =
    | Service(source: string, day: int)
    | Share(scope: Scope, kind: Kind, shareOf: Option<string>, caller: string, day: int)

  datatype Caller = Caller(scope: Scope, key: string, bypass: bool)

  datatype Config = Config(
    serviceDaily: map<string, nat>,
    upstreamDaily: map<Scope, nat>,
    toolCallsDaily: map<Scope, nat>)

  datatype Counted = Counted(key: Key, limit: nat)

  /** What a container asks the limiter: to charge an upstream query, or to start a tool call. */
  datatype Request =
    | Query(source: string, caller: Option<Caller>, at: int)
    | ToolCall(caller: Option<Caller>, at: int)

  function DayOf(at: int): int { at / DAY_MS }

  function ExpiresAt(at: int): int { DayOf(at) * DAY_MS + (1 + RETAIN_DAYS) * DAY_MS }

  /** When a key's counter expires: the same for every charge of the key, because the key carries the day. */
  function KeyExpiry(key: Key): int { key.day * DAY_MS + (1 + RETAIN_DAYS) * DAY_MS }

  function Lookup<K>(table: map<K, nat>, key: K): Option<nat> {
    if key in table then Some(table[key]) else None
  }

  /** The configured limit of a key, the same whoever asks. */
  function LimitOf(cfg: Config, key: Key): Option<nat> {
    match key
    case Service(source, _) => Lookup(cfg.serviceDaily, source)
    case Share(scope, Upstream, _, _, _) => Lookup(cfg.upstreamDaily, scope)
    case Share(scope, ToolCalls, _, _, _) => Lookup(cfg.toolCallsDaily, scope)
  }

  function ServiceCounted(cfg: Config, source: string, at: int): Option<Counted> {
    var key := Service(source, DayOf(at));
    var limit := LimitOf(cfg, key);
    if limit == None then None else Some(Counted(key, limit.value))
  }

  function ShareCounted(cfg: Config, caller: Option<Caller>, kind: Kind, source: Option<string>, at: int)
    : Option<Counted>
  {
    if caller == None || caller.value.bypass then None
    else
      var key := Share(caller.value.scope, kind, source, caller.value.key, DayOf(at));
      var limit := LimitOf(cfg, key);
      if limit == None then None else Some(Counted(key, limit.value))
  }

  function ServiceOf(cfg: Config, request: Request): Option<Counted> {
    match request
    case Query(source, _, at) => ServiceCounted(cfg, source, at)
    case ToolCall(_, _) => None
  }

  function ShareOf(cfg: Config, request: Request): Option<Counted> {
    match request
    case Query(source, caller, at) => ShareCounted(cfg, caller, Upstream, Some(source), at)
    case ToolCall(caller, at) => ShareCounted(cfg, caller, ToolCalls, None, at)
  }

  /**
   * A counted key always carries its own configured limit, is a share key or a service key as asked,
   * and expires when its charge's clock says; so every charge of one key uses one limit and one expiry.
   */
  lemma CountedIsUniform(cfg: Config, request: Request)
    ensures var service := ServiceOf(cfg, request);
      service.Some? ==> service.value.key.Service? && LimitOf(cfg, service.value.key) == Some(service.value.limit)
                        && KeyExpiry(service.value.key) == ExpiresAt(request.at)
    ensures var share := ShareOf(cfg, request);
      share.Some? ==> share.value.key.Share? && LimitOf(cfg, share.value.key) == Some(share.value.limit)
                      && KeyExpiry(share.value.key) == ExpiresAt(request.at)
  {
  }

  /**
   * Who is counted, and against what: a query against its source's budget exactly when the source has one;
   * a caller's call against his share exactly when he does not bypass and his scope has a limit for that
   * kind of call, under his own key and, for a query, the source's.
   */
  lemma WhoIsCounted(cfg: Config, source: string, caller: Option<Caller>, at: int)
    ensures ServiceOf(cfg, Query(source, caller, at))
      == if source in cfg.serviceDaily then Some(Counted(Service(source, at / DAY_MS), cfg.serviceDaily[source])) else None
    ensures ServiceOf(cfg, ToolCall(caller, at)) == None
    ensures ShareOf(cfg, Query(source, caller, at)).Some? <==>
      caller.Some? && !caller.value.bypass && caller.value.scope in cfg.upstreamDaily
    ensures ShareOf(cfg, Query(source, caller, at)).Some? ==>
      ShareOf(cfg, Query(source, caller, at)).value == Counted(
        Share(caller.value.scope, Upstream, Some(source), caller.value.key, at / DAY_MS), cfg.upstreamDaily[caller.value.scope])
    ensures ShareOf(cfg, ToolCall(caller, at)).Some? <==>
      caller.Some? && !caller.value.bypass && caller.value.scope in cfg.toolCallsDaily
    ensures ShareOf(cfg, ToolCall(caller, at)).Some? ==>
      ShareOf(cfg, ToolCall(caller, at)).value == Counted(
        Share(caller.value.scope, ToolCalls, None, caller.value.key, at / DAY_MS), cfg.toolCallsDaily[caller.value.scope])
  {
  }

  /** A counter outlives its charge by more than two days and at most three, to the end of a day. */
  lemma CountersLiveTwoDays(at: int)
    ensures at + 2 * DAY_MS < ExpiresAt(at) <= at + 3 * DAY_MS && ExpiresAt(at) % DAY_MS == 0
  {
    assert at == DAY_MS * (at / DAY_MS) + at % DAY_MS;
    assert ExpiresAt(at) == DAY_MS * (at / DAY_MS + 3);
  }

  /** What came back from the shared store for one increment. */
  datatype Reply = Answered(result: IncrementResult) | Failed

  function KnownOver(over: map<Key, int>, counted: Option<Counted>): bool {
    counted.Some? && counted.value.key in over
  }

  /** The memory of spent keys after one increment's result. */
  function Noted(over: map<Key, int>, key: Key, result: IncrementResult): map<Key, int> {
    if result.applied then over else over[key := result.value]
  }

  datatype Via = Shared | Fallback | Uncounted

  /** Where a call stands. `Refused` names the key that refused it. */
  datatype Phase =
    | ShareSent
    | ShareReplied(reply: Reply)
    | ServiceSent
    | ServiceReplied(reply: Reply)
    | FallbackReplied(result: IncrementResult)
    | Admitted(via: Via)
    | Refused(refusedBy: Key)

  /** `paid` records that the shared store answered the call's share charge and counted it. */
  datatype Call = Call(container: nat, request: Request, phase: Phase, paid: bool)

  datatype Container = Container(over: map<Key, int>, fallback: Counts<Key>, clock: int)

  function Active(call: Call): bool { !call.phase.Admitted? && !call.phase.Refused? }

  /** What a call does once its share is settled: the service budget, or nothing more to charge. */
  function ServiceStage(cfg: Config, over: map<Key, int>, request: Request): Phase {
    var service := ServiceOf(cfg, request);
    if service == None then Admitted(Uncounted)
    else if service.value.key in over then Refused(service.value.key)
    else ServiceSent
  }

  /** The first segment: both keys from memory, the share first, before any write. */
  function ArrivalPhase(cfg: Config, over: map<Key, int>, request: Request): Phase {
    var share := ShareOf(cfg, request);
    var service := ServiceOf(cfg, request);
    if KnownOver(over, share) then Refused(share.value.key)
    else if KnownOver(over, service) then Refused(service.value.key)
    else if share.Some? then ShareSent
    else ServiceStage(cfg, over, request)
  }

  /** One segment of a container's work on a call whose reply has come. */
  function Settled(cfg: Config, container: Container, call: Call): (Container, Phase) {
    match call.phase
    case ShareReplied(Failed) => (container, ServiceStage(cfg, container.over, call.request))
    case ShareReplied(Answered(result)) =>
      var share := ShareOf(cfg, call.request);
      if result.applied || share == None then (container, ServiceStage(cfg, container.over, call.request))
      else (container.(over := Noted(container.over, share.value.key, result)), Refused(share.value.key))
    case ServiceReplied(Failed) =>
      var service := ServiceOf(cfg, call.request);
      if service == None then (container, call.phase)
      else
        var (fallback, result) := Incremented(container.fallback, service.value.key, 1,
          ExpiresAt(call.request.at), Some(service.value.limit), container.clock);
        (container.(fallback := fallback), FallbackReplied(result))
    case ServiceReplied(Answered(result)) =>
      SettledService(cfg, container, call, result, Shared)
    case FallbackReplied(result) =>
      SettledService(cfg, container, call, result, Fallback)
    case _ => (container, call.phase)
  }

  function SettledService(cfg: Config, container: Container, call: Call, result: IncrementResult, via: Via): (Container, Phase) {
    var service := ServiceOf(cfg, call.request);
    if result.applied || service == None then (container, Admitted(via))
    else (container.(over := Noted(container.over, service.value.key, result)), Refused(service.value.key))
  }

  /** A container as an object: its memory of spent keys, its fallback counters and its log throttle. */
  class Limiter {
    const cfg: Config
    var over: map<Key, int>
    var lastDegradedLogMs: Option<int>
    const fallback: MemoryCounterStore<Key>

    constructor (cfg: Config)
      ensures this.cfg == cfg && over == map[] && fallback.counts == map[] && lastDegradedLogMs == None && fresh(fallback)
    {
      this.cfg := cfg;
      over := map[];
      lastDegradedLogMs := None;
      fallback := new MemoryCounterStore<Key>();
    }

    ghost function State(clock: int): Container
      reads this, fallback
    {
      Container(over, fallback.counts, clock)
    }

    /** Logs unless a line went out in the minute before: two lines are never less than a minute apart. */
    method Degraded(at: int) returns (logged: bool)
      modifies this`lastDegradedLogMs
      ensures logged <==> old(lastDegradedLogMs) == None || old(lastDegradedLogMs).value + DEGRADED_LOG_INTERVAL_MS <= at
      ensures lastDegradedLogMs == if logged then Some(at) else old(lastDegradedLogMs)
    {
      if lastDegradedLogMs.Some? && at - lastDegradedLogMs.value < DEGRADED_LOG_INTERVAL_MS {
        return false;
      }
      lastDegradedLogMs := Some(at);
      return true;
    }

    /** The count remembered for a spent key, before any write. */
    method RefuseIfKnownOver(counted: Option<Counted>) returns (used: Option<int>)
      ensures used.Some? <==> KnownOver(over, counted)
      ensures used.Some? ==> used.value == over[counted.value.key]
    {
      if counted.Some? && counted.value.key in over {
        return Some(over[counted.value.key]);
      }
      return None;
    }

    /** The synchronous start of a query or a tool call: nothing is written. */
    method Arrive(request: Request) returns (phase: Phase)
      ensures phase == ArrivalPhase(cfg, over, request)
    {
      var service := ServiceOf(cfg, request);
      var share := ShareOf(cfg, request);
      var shareUsed := RefuseIfKnownOver(share);
      if shareUsed.Some? {
        return Refused(share.value.key);
      }
      var serviceUsed := RefuseIfKnownOver(service);
      if serviceUsed.Some? {
        return Refused(service.value.key);
      }
      if share.Some? {
        return ShareSent;
      }
      phase := ChargeService(request);
    }

    /** The service charge up to its await, after the share is settled. */
    method ChargeService(request: Request) returns (phase: Phase)
      ensures phase == ServiceStage(cfg, over, request)
    {
      var service := ServiceOf(cfg, request);
      if service == None {
        return Admitted(Uncounted);
      }
      var used := RefuseIfKnownOver(service);
      if used.Some? {
        return Refused(service.value.key);
      }
      return ServiceSent;
    }

    /** A refused increment is remembered; the same result is handed on. */
    method Note(counted: Counted, result: IncrementResult)
      modifies this`over
      ensures over == Noted(old(over), counted.key, result)
    {
      if !result.applied {
        over := over[counted.key := result.value];
      }
    }

    /** The segment after a share's reply. A failed store lets the share through. */
    method ResumeShare(call: Call, nowMs: int) returns (phase: Phase)
      requires call.phase.ShareReplied? && ShareOf(cfg, call.request).Some?
      modifies this
      ensures (State(nowMs), phase) == Settled(cfg, old(State(nowMs)), call)
    {
      match call.phase.reply
      case Failed =>
        var _ := Degraded(nowMs);
        phase := ChargeService(call.request);
      case Answered(result) =>
        var share := ShareOf(cfg, call.request).value;
        Note(share, result);
        if !result.applied {
          return Refused(share.key);
        }
        phase := ChargeService(call.request);
    }

    /**
     * The segment after a reply to the service charge. A failed store sends the charge to this
     * container's own counter, whose answer is handled after one more await.
     */
    method ResumeService(call: Call, nowMs: int) returns (phase: Phase)
      requires call.phase.ServiceReplied? || call.phase.FallbackReplied?
      requires ServiceOf(cfg, call.request).Some?
      modifies this, fallback
      ensures (State(nowMs), phase) == Settled(cfg, old(State(nowMs)), call)
    {
      var service := ServiceOf(cfg, call.request).value;
      var result: IncrementResult;
      if call.phase.FallbackReplied? {
        result := call.phase.result;
      } else if call.phase.reply.Failed? {
        var _ := Degraded(nowMs);
        result := fallback.Increment(service.key, 1, ExpiresAt(call.request.at), Some(service.limit), nowMs);
        return FallbackReplied(result);
      } else {
        result := call.phase.reply.result;
      }
      Note(service, result);
      if !result.applied {
        return Refused(service.key);
      }
      return Admitted(if call.phase.FallbackReplied? then Fallback else Shared);
    }
  }
}
