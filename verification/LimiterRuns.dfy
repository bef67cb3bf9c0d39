/**
 * The fleet of limiters as a step system. Containers take calls; each call's charges are answered or
 * lost by the shared store at any later moment, so calls of every container interleave freely between
 * their awaits.
 */
module LimiterRuns {
  import opened Options
  import opened CounterStore
  import opened PersistentLimiter

  /** Every call ever taken stays in `calls`. Each store has its own clock. */
  datatype System = System(shared: Counts<Key>, clock: int, containers: seq<Container>, calls: seq<Call>)

  datatype Event =
    | StoreTick(to: int)
    | ContainerTick(container: nat, to: int)
    | Arrive(container: nat, request: Request)
    | Answer(call: nat, ok: bool)
    | Stray(key: Key)
    | Settle(call: nat)

  function Initial(containers: nat, clock: int): System {
    System(map[], clock, seq(containers, _ => Container(map[], map[], clock)), [])
  }

  /** The key the call is waiting for the shared store to count. */
  function AskedKey(cfg: Config, call: Call): Option<Counted> {
    match call.phase
    case ShareSent => ShareOf(cfg, call.request)
    case ServiceSent => ServiceOf(cfg, call.request)
    case _ => None
  }

  /**
   * Clocks only advance. A counter is only charged while live on the charging store's clock, that is
   * while the call's own time is under two days behind it.
   */
  predicate Enabled(cfg: Config, s: System, e: Event) {
    match e
    case StoreTick(to) => s.clock <= to
    case ContainerTick(n, to) => n < |s.containers| && s.containers[n].clock <= to
    case Arrive(n, _) => n < |s.containers|
    case Answer(i, _) =>
      && i < |s.calls|
      && var asked := AskedKey(cfg, s.calls[i]);
      asked.Some? && s.clock - s.calls[i].request.at < RETAIN_DAYS * DAY_MS
    case Stray(key) => LimitOf(cfg, key).Some? && s.clock < KeyExpiry(key)
    case Settle(i) =>
      && i < |s.calls|
      && s.calls[i].container < |s.containers|
      && (s.calls[i].phase.ShareReplied? || s.calls[i].phase.ServiceReplied? || s.calls[i].phase.FallbackReplied?)
      && (s.calls[i].phase == ServiceReplied(Failed) ==>
            s.containers[s.calls[i].container].clock - s.calls[i].request.at < RETAIN_DAYS * DAY_MS)
  }

  /**
   * `Answer(i, false)` is a store call that fails without effect; `Stray` is the effect of one whose
   * answer was lost, whenever it lands and however often it is repeated.
   */
  function Apply(cfg: Config, s: System, e: Event): System
    requires Enabled(cfg, s, e)
  {
    match e
    case StoreTick(to) => s.(clock := to)
    case ContainerTick(n, to) => s.(containers := s.containers[n := s.containers[n].(clock := to)])
    case Arrive(n, request) =>
      s.(calls := s.calls + [Call(n, request, ArrivalPhase(cfg, s.containers[n].over, request), false)])
    case Answer(i, ok) =>
      var call := s.calls[i];
      var asked := AskedKey(cfg, call).value;
      var (shared, result) := Incremented(s.shared, asked.key, 1, ExpiresAt(call.request.at), Some(asked.limit), s.clock);
      var reply := if ok then Answered(result) else Failed;
      var answered := if call.phase.ShareSent? then call.(phase := ShareReplied(reply), paid := ok && result.applied)
                      else call.(phase := ServiceReplied(reply));
      s.(shared := if ok then shared else s.shared, calls := s.calls[i := answered])
    case Stray(key) =>
      s.(shared := Incremented(s.shared, key, 1, KeyExpiry(key), LimitOf(cfg, key), s.clock).0)
    case Settle(i) =>
      var call := s.calls[i];
      var (container, phase) := Settled(cfg, s.containers[call.container], call);
      s.(containers := s.containers[call.container := container], calls := s.calls[i := call.(phase := phase)])
  }

  /** A run: every event enabled when it comes. */
  predicate Run(cfg: Config, s: System, events: seq<Event>)
    decreases |events|
  {
    events == [] ||
    (Enabled(cfg, s, events[0]) && Run(cfg, Apply(cfg, s, events[0]), events[1..]))
  }

  function After(cfg: Config, s: System, events: seq<Event>): (end: System)
    requires Run(cfg, s, events)
    ensures |end.containers| == |s.containers|
    decreases |events|
  {
    if events == [] then s else After(cfg, Apply(cfg, s, events[0]), events[1..])
  }

  /** The store never fails in this event. */
  predicate Healthy(e: Event) {
    !e.Stray? && (e.Answer? ==> e.ok)
  }

  /** A container takes a new call only when it has none unfinished. */
  predicate OneAtATime(s: System, e: Event) {
    e.Arrive? ==> forall i :: 0 <= i < |s.calls| && s.calls[i].container == e.container ==> !Active(s.calls[i])
  }
}
