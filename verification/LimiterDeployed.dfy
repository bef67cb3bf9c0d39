/**
 * The fleet over the deployed table instead of the in-memory store: the same runs with every zero limit
 * taken as one, while the table never fails or no service budget is zero; so the same budgets and
 * shares, and runs that break a budget or a share of zero.
 */
module LimiterDeployed {
  import opened Arithmetic
  import opened Counting
  import opened CounterStore
  import opened LimiterRuns
  import opened LimiterSafety
  import opened LimiterTheorems
  import opened LimiterTraces
  import opened Options
  import opened PersistentLimiter

  /** An event of the fleet whose shared store is the table. */
  function ApplyDeployed(cfg: Config, d: System, e: Event): System
    requires Enabled(cfg, d, e)
  {
    match e
    case Answer(i, ok) =>
      var call := d.calls[i];
      var asked := AskedKey(cfg, call).value;
      var (shared, result) := DynamoIncremented(d.shared, asked.key, 1, ExpiresAt(call.request.at), Some(asked.limit));
      var reply := if ok then Answered(result) else Failed;
      var answered := if call.phase.ShareSent? then call.(phase := ShareReplied(reply), paid := ok && result.applied)
                      else call.(phase := ServiceReplied(reply));
      d.(shared := if ok then shared else d.shared, calls := d.calls[i := answered])
    case Stray(key) => d.(shared := DynamoIncremented(d.shared, key, 1, KeyExpiry(key), LimitOf(cfg, key)).0)
    case _ => Apply(cfg, d, e)
  }

  predicate RunDeployed(cfg: Config, d: System, events: seq<Event>)
    decreases |events|
  {
    events == [] ||
    (Enabled(cfg, d, events[0]) && RunDeployed(cfg, ApplyDeployed(cfg, d, events[0]), events[1..]))
  }

  function AfterDeployed(cfg: Config, d: System, events: seq<Event>): System
    requires RunDeployed(cfg, d, events)
    decreases |events|
  {
    if events == [] then d else AfterDeployed(cfg, ApplyDeployed(cfg, d, events[0]), events[1..])
  }

  // ---- the in-memory fleet that does the same ----

  predicate NoZeroBudget(cfg: Config) { forall source :: source in cfg.serviceDaily ==> cfg.serviceDaily[source] >= 1 }

  function AtLeastOne<K>(table: map<K, nat>): map<K, nat> { map k | k in table :: Max(1, table[k]) }

  /** The table lets one charge of a zero limit through, as the in-memory store does with a limit of one. */
  function Raised(cfg: Config): Config {
    Config(AtLeastOne(cfg.serviceDaily), AtLeastOne(cfg.upstreamDaily), AtLeastOne(cfg.toolCallsDaily))
  }

  /** No call waits to be charged to its container's own counter, where a limit of zero refuses. */
  predicate NoneFailed(d: System) { forall c :: c in d.calls ==> c.phase != ServiceReplied(Failed) }

  lemma RaisedLimit(cfg: Config, k: Key)
    ensures LimitOf(Raised(cfg), k) == if LimitOf(cfg, k) == None then None else Some(Max(1, LimitOf(cfg, k).value))
  {
  }

  function RaisedCounted(counted: Option<Counted>): Option<Counted> {
    if counted == None then None else Some(Counted(counted.value.key, Max(1, counted.value.limit)))
  }

  lemma RaisedCharges(cfg: Config, request: Request)
    ensures ServiceOf(Raised(cfg), request) == RaisedCounted(ServiceOf(cfg, request))
    ensures ShareOf(Raised(cfg), request) == RaisedCounted(ShareOf(cfg, request))
    ensures NoZeroBudget(cfg) ==> ServiceOf(Raised(cfg), request) == ServiceOf(cfg, request)
  {
  }

  /** The table's live counters read as the store's, and it holds no empty counter. */
  ghost predicate Follows(d: System, s: System) {
    && d.clock == s.clock && d.containers == s.containers && d.calls == s.calls
    && (forall k :: k in d.shared ==> d.shared[k].value >= 1)
    && (forall k :: d.clock < KeyExpiry(k) ==> Read(d.shared, k) == Read(s.shared, k))
  }

  /** One charge of a live key: the same answer, and live counters still read the same. */
  lemma ChargeFollows(cfg: Config, d: System, s: System, key: Key, at: int)
    requires Follows(d, s) && CountsOk(s.shared)
    requires LimitOf(cfg, key).Some? && ExpiresAt(at) == KeyExpiry(key) && d.clock < KeyExpiry(key)
    ensures var (shared, result) := DynamoIncremented(d.shared, key, 1, ExpiresAt(at), LimitOf(cfg, key));
      var (counts, answer) := Incremented(s.shared, key, 1, ExpiresAt(at), LimitOf(Raised(cfg), key), s.clock);
      result == answer && Follows(d.(shared := shared), s.(shared := counts))
  {
    RaisedLimit(cfg, key);
    var (shared, result) := DynamoIncremented(d.shared, key, 1, ExpiresAt(at), LimitOf(cfg, key));
    var (counts, answer) := Incremented(s.shared, key, 1, ExpiresAt(at), LimitOf(Raised(cfg), key), s.clock);
    assert result == answer;
    forall k | d.clock < KeyExpiry(k) ensures Read(shared, k) == Read(counts, k) {
      LiveIncrement(Raised(cfg), s.shared, s.clock, key, at, k);
    }
  }

  lemma EnabledAlike(cfg: Config, d: System, s: System, e: Event)
    requires Follows(d, s) && Enabled(cfg, d, e)
    ensures Enabled(Raised(cfg), s, e)
  {
    if e.Answer? {
      RaisedCharges(cfg, s.calls[e.call].request);
    }
    if e.Stray? {
      RaisedLimit(cfg, e.key);
    }
  }

  lemma AnswerFollows(cfg: Config, d: System, s: System, e: Event)
    requires Follows(d, s) && CountsOk(s.shared) && e.Answer?
    requires Enabled(cfg, d, e) && Enabled(Raised(cfg), s, e)
    ensures Follows(ApplyDeployed(cfg, d, e), Apply(Raised(cfg), s, e))
  {
    hide Incremented, DynamoIncremented, ServiceOf, ShareOf, LimitOf, Raised;
    var request := d.calls[e.call].request;
    RaisedCharges(cfg, request);
    CountedIsUniform(cfg, request);
    CountedIsUniform(Raised(cfg), request);
    ChargeFollows(cfg, d, s, AskedKey(cfg, d.calls[e.call]).value.key, request.at);
  }

  lemma SettledAlike(cfg: Config, container: Container, call: Call)
    requires NoZeroBudget(cfg) || call.phase != ServiceReplied(Failed)
    ensures Settled(Raised(cfg), container, call) == Settled(cfg, container, call)
  {
    hide Incremented, ServiceOf, ShareOf, Raised;
    RaisedCharges(cfg, call.request);
  }

  lemma StepFollows(cfg: Config, d: System, s: System, e: Event)
    requires NoZeroBudget(cfg) || NoneFailed(d)
    requires Follows(d, s) && CountsOk(s.shared) && Enabled(cfg, d, e)
    ensures Enabled(Raised(cfg), s, e)
    ensures Follows(ApplyDeployed(cfg, d, e), Apply(Raised(cfg), s, e))
  {
    hide Incremented, DynamoIncremented, LimitOf, Raised, Settled;
    EnabledAlike(cfg, d, s, e);
    match e {
      case Arrive(_, request) => RaisedCharges(cfg, request);
      case Answer(_, _) => AnswerFollows(cfg, d, s, e);
      case Stray(key) => ChargeFollows(cfg, d, s, key, key.day * DAY_MS);
      case Settle(i) =>
        assert d.calls[i] in d.calls;
        SettledAlike(cfg, d.containers[d.calls[i].container], d.calls[i]);
      case _ =>
    }
  }

  lemma HealthyStaysSo(cfg: Config, d: System, e: Event)
    requires Enabled(cfg, d, e) && Healthy(e) && NoneFailed(d)
    ensures NoneFailed(ApplyDeployed(cfg, d, e))
  {
    hide DynamoIncremented, Incremented, ServiceOf, ShareOf;
    if e.Settle? {
      assert d.calls[e.call] in d.calls;
    }
  }

  lemma {:induction false} RunFollows(cfg: Config, d: System, s: System, events: seq<Event>)
    requires NoZeroBudget(cfg) || (HealthyRun(events) && NoneFailed(d))
    requires Follows(d, s) && RunDeployed(cfg, d, events) && Inv(Raised(cfg), s, false)
    ensures Run(Raised(cfg), s, events) && Follows(AfterDeployed(cfg, d, events), After(Raised(cfg), s, events))
    decreases |events|
  {
    if events != [] {
      StepFollows(cfg, d, s, events[0]);
      if HealthyRun(events) && NoneFailed(d) {
        assert events[0] in events;
        HealthyStaysSo(cfg, d, events[0]);
      }
      var t := Apply(Raised(cfg), s, events[0]);
      RunKeepsInv(Raised(cfg), s, [events[0]], false);
      assert After(Raised(cfg), s, [events[0]]) == t;
      RunFollows(cfg, ApplyDeployed(cfg, d, events[0]), t, events[1..]);
    }
  }

  /**
   * A run over the table, healthy or without a zero service budget, is a run over the in-memory store of
   * the configuration with each limit of zero taken as one: the same calls end in the same phases and every
   * live counter reads the same.
   */
  lemma DeployedRunsAreRuns(cfg: Config, containers: nat, clock: int, events: seq<Event>)
    requires NoZeroBudget(cfg) || HealthyRun(events)
    requires RunDeployed(cfg, Initial(containers, clock), events)
    ensures Run(Raised(cfg), Initial(containers, clock), events)
    ensures Follows(AfterDeployed(cfg, Initial(containers, clock), events), After(Raised(cfg), Initial(containers, clock), events))
  {
    InitialInv(Raised(cfg), containers, clock, false);
    RunFollows(cfg, Initial(containers, clock), Initial(containers, clock), events);
  }

  lemma AdmittedAlike(cfg: Config, calls: seq<Call>, k: Key)
    ensures Count(calls, IsAdmitted(Raised(cfg), k)) == Count(calls, IsAdmitted(cfg, k))
  {
    forall c | c in calls ensures IsAdmitted(Raised(cfg), k)(c) == IsAdmitted(cfg, k)(c) {
      RaisedCharges(cfg, c.request);
    }
    CountSame(calls, IsAdmitted(Raised(cfg), k), IsAdmitted(cfg, k));
  }

  lemma SharesAlike(cfg: Config, calls: seq<Call>, k: Key)
    ensures Count(calls, IsAdmittedOfCaller(Raised(cfg), k)) == Count(calls, IsAdmittedOfCaller(cfg, k))
  {
    forall c | c in calls ensures IsAdmittedOfCaller(Raised(cfg), k)(c) == IsAdmittedOfCaller(cfg, k)(c) {
      RaisedCharges(cfg, c.request);
    }
    CountSame(calls, IsAdmittedOfCaller(Raised(cfg), k), IsAdmittedOfCaller(cfg, k));
  }

  // ---- the deployed budgets ----

  /** Over the table at most this many queries are admitted to a source on its day, in this run. */
  ghost predicate AdmitsAtMost(cfg: Config, containers: nat, clock: int, events: seq<Event>, k: Key, most: int) {
    RunDeployed(cfg, Initial(containers, clock), events) ==>
      Count(AfterDeployed(cfg, Initial(containers, clock), events).calls, IsAdmitted(cfg, k)) <= most
  }

  /** The budgets of a failing and of a healthy store hold over the table too. */
  lemma DeployedBudgets(cfg: Config, containers: nat, clock: int, events: seq<Event>, k: Key, limit: nat)
    requires NoZeroBudget(cfg) && k.Service? && LimitOf(cfg, k) == Some(limit)
    ensures AdmitsAtMost(cfg, containers, clock, events, k, limit * (1 + containers))
    ensures HealthyRun(events) ==> AdmitsAtMost(cfg, containers, clock, events, k, limit)
  {
    if RunDeployed(cfg, Initial(containers, clock), events) {
      DeployedRunsAreRuns(cfg, containers, clock, events);
      RaisedLimit(cfg, k);
      AdmittedAlike(cfg, AfterDeployed(cfg, Initial(containers, clock), events).calls, k);
      BudgetUnderFailures(Raised(cfg), containers, clock, events, k, limit);
      if HealthyRun(events) {
        BudgetWhenHealthy(Raised(cfg), containers, clock, events, k, limit);
      }
    }
  }

  /** Every source's budget, over every run in which the table never fails. */
  ghost predicate KeepsBudgets(cfg: Config) {
    forall containers, clock, events, k: Key :: k.Service? && LimitOf(cfg, k).Some? && HealthyRun(events) ==>
      AdmitsAtMost(cfg, containers, clock, events, k, LimitOf(cfg, k).value)
  }

  lemma OneStepDeployed(cfg: Config, d: System, e: Event, rest: seq<Event>)
    requires Enabled(cfg, d, e) && RunDeployed(cfg, ApplyDeployed(cfg, d, e), rest)
    ensures RunDeployed(cfg, d, [e] + rest) && AfterDeployed(cfg, d, [e] + rest) == AfterDeployed(cfg, ApplyDeployed(cfg, d, e), rest)
  {
    assert ([e] + rest)[1..] == rest;
  }

  /** The table grants the first query of a day against a budget of zero. */
  lemma ZeroBudgetAdmitsOne(cfg: Config, k: Key)
    requires k.Service? && LimitOf(cfg, k) == Some(0)
    ensures HealthyRun(ByStore(0, 0, k)) && !AdmitsAtMost(cfg, 1, k.day * DAY_MS, ByStore(0, 0, k), k, 0)
  {
    hide ServiceOf, ShareOf, LimitOf;
    QueryCharges(cfg, k, 0);
    var events, s := ByStore(0, 0, k), Initial(1, k.day * DAY_MS);
    var a := ApplyDeployed(cfg, s, events[0]);
    assert a.calls == [Call(0, QueryOf(k), ServiceSent, false)];
    var b := ApplyDeployed(cfg, a, events[1]);
    assert b.calls == [Call(0, QueryOf(k), ServiceReplied(Answered(IncrementResult(1, true))), false)];
    var c := ApplyDeployed(cfg, b, events[2]);
    assert c.calls == [] + [Call(0, QueryOf(k), Admitted(Shared), false)];
    OneStepDeployed(cfg, b, events[2], []);
    OneStepDeployed(cfg, a, events[1], [events[2]] + []);
    OneStepDeployed(cfg, s, events[0], [events[1]] + ([events[2]] + []));
    assert events == [events[0]] + ([events[1]] + ([events[2]] + []));
    CountAppend([], c.calls[0], IsAdmitted(cfg, k));
  }

  /** Over the table a healthy fleet keeps every source's budget exactly when no budget is zero. */
  lemma DeployedKeepsBudgetsExactly(cfg: Config)
    ensures KeepsBudgets(cfg) <==> NoZeroBudget(cfg)
  {
    if NoZeroBudget(cfg) {
      forall containers, clock, events, k: Key | k.Service? && LimitOf(cfg, k).Some? && HealthyRun(events)
        ensures AdmitsAtMost(cfg, containers, clock, events, k, LimitOf(cfg, k).value)
      {
        DeployedBudgets(cfg, containers, clock, events, k, LimitOf(cfg, k).value);
      }
    } else {
      var source :| source in cfg.serviceDaily && cfg.serviceDaily[source] < 1;
      var k := Service(source, 0);
      ZeroBudgetAdmitsOne(cfg, k);
    }
  }

  // ---- the deployed shares ----

  predicate NoZeroShare(cfg: Config) {
    && (forall scope :: scope in cfg.upstreamDaily ==> cfg.upstreamDaily[scope] >= 1)
    && (forall scope :: scope in cfg.toolCallsDaily ==> cfg.toolCallsDaily[scope] >= 1)
  }

  /** Over the table at most this many of a caller's calls are let through on a share's day, in this run. */
  ghost predicate LetsThroughAtMost(cfg: Config, containers: nat, clock: int, events: seq<Event>, k: Key, most: int) {
    RunDeployed(cfg, Initial(containers, clock), events) ==>
      Count(AfterDeployed(cfg, Initial(containers, clock), events).calls, IsAdmittedOfCaller(cfg, k)) <= most
  }

  /** Every caller's share, over every run in which the table never fails. */
  ghost predicate KeepsShares(cfg: Config) {
    forall containers, clock, events, k: Key :: k.Share? && LimitOf(cfg, k).Some? && HealthyRun(events) ==>
      LetsThroughAtMost(cfg, containers, clock, events, k, LimitOf(cfg, k).value)
  }

  /** A healthy table lets at most a share's limit through, and one when the limit is zero. */
  lemma DeployedShares(cfg: Config, containers: nat, clock: int, events: seq<Event>, k: Key, limit: nat)
    requires k.Share? && LimitOf(cfg, k) == Some(limit) && HealthyRun(events)
    ensures LetsThroughAtMost(cfg, containers, clock, events, k, Max(1, limit))
  {
    if RunDeployed(cfg, Initial(containers, clock), events) {
      DeployedRunsAreRuns(cfg, containers, clock, events);
      RaisedLimit(cfg, k);
      SharesAlike(cfg, AfterDeployed(cfg, Initial(containers, clock), events).calls, k);
      ShareBudgetWhenHealthy(Raised(cfg), containers, clock, events, k, Max(1, limit));
    }
  }

  const SOMEONE := "caller"
  const SOURCE := "source"

  /** A caller's first call of the first day, of a kind that is counted in this scope. */
  function CallOf(kind: Kind, scope: Scope): Request {
    var caller := Some(Caller(scope, SOMEONE, false));
    match kind
    case Upstream => Query(SOURCE, caller, 0)
    case ToolCalls => ToolCall(caller, 0)
  }

  function ShareKey(kind: Kind, scope: Scope): Key {
    Share(scope, kind, if kind == Upstream then Some(SOURCE) else None, SOMEONE, 0)
  }

  /** Its events: the share's charge, then the service's when there is one. */
  function FirstCall(cfg: Config, request: Request): seq<Event> {
    [Arrive(0, request), Answer(0, true), Settle(0)] + (if ServiceOf(cfg, request) == None then [] else [Answer(0, true), Settle(0)])
  }

  lemma {:induction false} DeployedAppends(cfg: Config, d: System, first: seq<Event>, rest: seq<Event>)
    requires RunDeployed(cfg, d, first) && RunDeployed(cfg, AfterDeployed(cfg, d, first), rest)
    ensures RunDeployed(cfg, d, first + rest)
    ensures AfterDeployed(cfg, d, first + rest) == AfterDeployed(cfg, AfterDeployed(cfg, d, first), rest)
    decreases |first|
  {
    if first == [] {
      assert first + rest == rest;
    } else {
      assert (first + rest)[1..] == first[1..] + rest;
      DeployedAppends(cfg, ApplyDeployed(cfg, d, first[0]), first[1..], rest);
    }
  }

  /** What the table holds after the share of the first call is granted. */
  function AfterShare(cfg: Config, request: Request, key: Key): System {
    System(map[key := Entry(1, ExpiresAt(0))], 0, [Container(map[], map[], 0)], [Call(0, request, ServiceStage(cfg, map[], request), true)])
  }

  lemma TableGrantsShare(cfg: Config, request: Request, key: Key, limit: nat)
    requires ShareOf(cfg, request) == Some(Counted(key, limit)) && request.at == 0
    ensures var events := [Arrive(0, request), Answer(0, true), Settle(0)];
      RunDeployed(cfg, Initial(1, 0), events) && AfterDeployed(cfg, Initial(1, 0), events) == AfterShare(cfg, request, key)
  {
    hide ShareOf, ServiceOf, ServiceStage;
    var start := Initial(1, 0);
    var events := [Arrive(0, request), Answer(0, true), Settle(0)];
    assert start == System(map[], 0, [Container(map[], map[], 0)], []);
    var a := ApplyDeployed(cfg, start, events[0]);
    assert a.calls == [Call(0, request, ShareSent, false)];
    var b := ApplyDeployed(cfg, a, events[1]);
    assert b.calls == [Call(0, request, ShareReplied(Answered(IncrementResult(1, true))), true)];
    var c := ApplyDeployed(cfg, b, events[2]);
    assert c == AfterShare(cfg, request, key);
    OneStepDeployed(cfg, b, events[2], []);
    OneStepDeployed(cfg, a, events[1], [events[2]] + []);
    OneStepDeployed(cfg, start, events[0], [events[1]] + ([events[2]] + []));
    assert events == [events[0]] + ([events[1]] + ([events[2]] + []));
  }

  lemma TableGrantsService(cfg: Config, request: Request, key: Key)
    requires ServiceOf(cfg, request).Some? && request.at == 0 && key.Share?
    ensures RunDeployed(cfg, AfterShare(cfg, request, key), [Answer(0, true), Settle(0)])
    ensures AfterDeployed(cfg, AfterShare(cfg, request, key), [Answer(0, true), Settle(0)]).calls
      == [Call(0, request, Admitted(Shared), true)]
  {
    CountedIsUniform(cfg, request);
    hide ShareOf, ServiceOf;
    var d := AfterShare(cfg, request, key);
    var b := ApplyDeployed(cfg, d, Answer(0, true));
    assert b.calls == [Call(0, request, ServiceReplied(Answered(IncrementResult(1, true))), true)];
    OneStepDeployed(cfg, b, Settle(0), []);
    OneStepDeployed(cfg, d, Answer(0, true), [Settle(0)] + []);
    assert [Answer(0, true), Settle(0)] == [Answer(0, true)] + ([Settle(0)] + []);
  }

  lemma FirstCallIsAdmitted(cfg: Config, request: Request, key: Key, limit: nat) returns (via: Via)
    requires ShareOf(cfg, request) == Some(Counted(key, limit)) && request.at == 0 && key.Share?
    ensures RunDeployed(cfg, Initial(1, 0), FirstCall(cfg, request))
    ensures AfterDeployed(cfg, Initial(1, 0), FirstCall(cfg, request)).calls == [Call(0, request, Admitted(via), true)]
  {
    hide ShareOf, ServiceOf, RunDeployed, AfterDeployed;
    var first, second := [Arrive(0, request), Answer(0, true), Settle(0)], [Answer(0, true), Settle(0)];
    TableGrantsShare(cfg, request, key, limit);
    if ServiceOf(cfg, request) == None {
      via := Uncounted;
      assert FirstCall(cfg, request) == first;
    } else {
      via := Shared;
      TableGrantsService(cfg, request, key);
      DeployedAppends(cfg, Initial(1, 0), first, second);
    }
  }

  /** The table lets the first call of a day through against a share of zero. */
  lemma ZeroShareLetsOneThrough(cfg: Config, kind: Kind, scope: Scope)
    requires LimitOf(cfg, ShareKey(kind, scope)) == Some(0)
    ensures var events := FirstCall(cfg, CallOf(kind, scope));
      HealthyRun(events) && !LetsThroughAtMost(cfg, 1, 0, events, ShareKey(kind, scope), 0)
  {
    var request, key := CallOf(kind, scope), ShareKey(kind, scope);
    assert ShareOf(cfg, request) == Some(Counted(key, 0));
    var via := FirstCallIsAdmitted(cfg, request, key, 0);
    hide ShareOf, ServiceOf, RunDeployed, AfterDeployed;
    var call := Call(0, request, Admitted(via), true);
    assert [call] == [] + [call];
    CountAppend([], call, IsAdmittedOfCaller(cfg, key));
  }

  /** Over the table a healthy fleet keeps every caller's share exactly when no share is zero. */
  lemma DeployedKeepsSharesExactly(cfg: Config)
    ensures KeepsShares(cfg) <==> NoZeroShare(cfg)
  {
    if NoZeroShare(cfg) {
      forall containers, clock, events, k: Key | k.Share? && LimitOf(cfg, k).Some? && HealthyRun(events)
        ensures LetsThroughAtMost(cfg, containers, clock, events, k, LimitOf(cfg, k).value)
      {
        DeployedShares(cfg, containers, clock, events, k, LimitOf(cfg, k).value);
      }
    } else if scope :| scope in cfg.upstreamDaily && cfg.upstreamDaily[scope] < 1 {
      ZeroShareLetsOneThrough(cfg, Upstream, scope);
    } else {
      var scope :| scope in cfg.toolCallsDaily && cfg.toolCallsDaily[scope] < 1;
      ZeroShareLetsOneThrough(cfg, ToolCalls, scope);
    }
  }
}
