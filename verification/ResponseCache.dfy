/**
 * The HTTP client's two-tier cache: a fresh entry answers without a fetch, a stale one only after the
 * refresh of the same call has failed. Calls interleave between their look-up and their refresh.
 */
module ResponseCache {
  import opened Options

  datatype Entry<V> = Entry(value: V, status: int, storedAt: int)

  type Entries<K, V> = map<K, Entry<V>>

  /** The seconds a call accepts an entry for, fresh and after a failed refresh. */
  datatype Ttl = Ttl(freshFor: Option<nat>, staleFor: Option<nat>)

  datatype Response<B> = Response(body: B, status: int)

  datatype Result<V> = Hit(value: V, status: int, ageSeconds: int, stale: bool) | Miss(value: V, status: int) | Failure

  /** After the look-up: answered, or waiting for a refresh with the entry it found. */
  datatype LookedUp<V> = Answered(result: Result<V>) | Refreshing(existing: Option<Entry<V>>, ageSeconds: int)

  function AgeSeconds<V>(entry: Entry<V>, nowMs: int): int { (nowMs - entry.storedAt) / 1000 }

  function LookUp<K, V>(entries: Entries<K, V>, key: K, ttl: Ttl, nowMs: int): LookedUp<V> {
    if ttl.freshFor == None || key !in entries then Refreshing(None, 0)
    else
      var age := AgeSeconds(entries[key], nowMs);
      if age <= ttl.freshFor.value then Answered(Hit(entries[key].value, entries[key].status, age, false))
      else Refreshing(Some(entries[key]), age)
  }

  /** The staleness a call accepts: its own, or no more than fresh. */
  function StaleLimit(ttl: Ttl): int { if ttl.staleFor.Some? then ttl.staleFor.value else ttl.freshFor.GetOr(0) }

  /** The refresh's end. `parsed` is the response's value, or none when the fetch or the parse failed. */
  function Finish<K, V>(entries: Entries<K, V>, key: K, ttl: Ttl, found: LookedUp<V>, parsed: Option<(V, int)>, nowMs: int)
    : (Entries<K, V>, Result<V>)
    requires found.Refreshing?
  {
    match parsed
    case Some((value, status)) =>
      (if ttl.freshFor.Some? then entries[key := Entry(value, status, nowMs)] else entries, Miss(value, status))
    case None =>
      (entries,
       if found.existing.Some? && found.ageSeconds <= StaleLimit(ttl)
       then Hit(found.existing.value.value, found.existing.value.status, found.ageSeconds, true)
       else Failure)
  }

  // ---- runs ----

  /** `seen` is how many answers had come by the look-up. */
  datatype Call<K, V> = Call(
    key: K,
    ttl: Ttl,
    found: LookedUp<V>,
    result: Option<Result<V>>,
    refreshFailed: bool,
    lookedUpAt: int,
    seen: nat)

  /** A response that came for a key, when, and whether the call that asked for it had a fresh time to live. */
  datatype Arrival<K, B> = Arrival(key: K, response: Response<B>, at: int, kept: bool)

  /** `answers` records every response that came and parsed, oldest first. */
  datatype State<K, V, B> = State(entries: Entries<K, V>, calls: seq<Call<K, V>>, answers: seq<Arrival<K, B>>)

  datatype Event<K, B> =
    | Begin(at: int, key: K, ttl: Ttl)
    | End(at: int, call: nat, response: Option<Response<B>>)

  /** A parser for each key; a body it does not take fails the call. */
  function Parsed<K, V, B>(parse: (K, B) -> Option<V>, key: K, response: Option<Response<B>>): Option<(V, int)> {
    if response == None then None
    else
      var value := parse(key, response.value.body);
      if value == None then None else Some((value.value, response.value.status))
  }

  predicate Enabled<K, V, B>(s: State<K, V, B>, e: Event<K, B>) {
    e.End? ==> e.call < |s.calls| && s.calls[e.call].found.Refreshing? && s.calls[e.call].result == None
  }

  function Next<K, V, B>(parse: (K, B) -> Option<V>, s: State<K, V, B>, e: Event<K, B>): State<K, V, B>
    requires Enabled(s, e)
  {
    match e
    case Begin(at, key, ttl) =>
      var found := LookUp(s.entries, key, ttl, at);
      s.(calls := s.calls + [Call(key, ttl, found, if found.Answered? then Some(found.result) else None, false, at, |s.answers|)])
    case End(at, i, response) =>
      var call := s.calls[i];
      var parsed := Parsed(parse, call.key, response);
      var (entries, result) := Finish(s.entries, call.key, call.ttl, call.found, parsed, at);
      State(entries, s.calls[i := call.(result := Some(result), refreshFailed := parsed == None)],
            if parsed.Some? then s.answers + [Arrival(call.key, response.value, at, call.ttl.freshFor.Some?)] else s.answers)
  }

  predicate Run<K, V, B>(parse: (K, B) -> Option<V>, s: State<K, V, B>, now: int, events: seq<Event<K, B>>)
    decreases |events|
  {
    events == [] ||
    (now <= events[0].at && Enabled(s, events[0]) && Run(parse, Next(parse, s, events[0]), events[0].at, events[1..]))
  }

  function After<K, V, B>(parse: (K, B) -> Option<V>, s: State<K, V, B>, now: int, events: seq<Event<K, B>>): State<K, V, B>
    requires Run(parse, s, now, events)
    decreases |events|
  {
    if events == [] then s else After(parse, Next(parse, s, events[0]), events[0].at, events[1..])
  }

  function LastReading<K, B>(now: int, events: seq<Event<K, B>>): int
    decreases |events|
  {
    if events == [] then now else LastReading(events[0].at, events[1..])
  }

  // ---- what every run keeps ----

  /** This answer came for the key with this body's value and this status. */
  ghost predicate Gave<K, V, B>(parse: (K, B) -> Option<V>, answer: Arrival<K, B>, key: K, value: V, status: int) {
    answer.key == key && parse(key, answer.response.body) == Some(value) && answer.response.status == status
  }

  /** The answer at `i` is the latest for the key of a call with a fresh time to live. */
  ghost predicate IsLatest<K, B>(answers: seq<Arrival<K, B>>, key: K, i: nat) {
    && i < |answers| && answers[i].key == key && answers[i].kept
    && forall j :: i < j < |answers| ==> !(answers[j].key == key && answers[j].kept)
  }

  /** The answer is what the call was served, it had come by the time of the look-up, and its own age is told. */
  ghost predicate Serves<K, V, B>(parse: (K, B) -> Option<V>, c: Call<K, V>, answer: Arrival<K, B>) {
    && c.result.Some? && c.result.value.Hit?
    && Gave(parse, answer, c.key, c.result.value.value, c.result.value.status)
    && answer.at <= c.lookedUpAt
    && c.result.value.ageSeconds == (c.lookedUpAt - answer.at) / 1000
  }

  /** The entries are the latest answers, as they came. */
  ghost predicate EntriesOk<K(!new), V, B>(
    parse: (K, B) -> Option<V>, entries: Entries<K, V>, answers: seq<Arrival<K, B>>)
  {
    forall k ::
      && (k in entries <==> exists i: nat :: IsLatest(answers, k, i))
      && (forall i: nat :: IsLatest(answers, k, i) ==>
            && k in entries && Gave(parse, answers[i], k, entries[k].value, entries[k].status)
            && entries[k].storedAt == answers[i].at)
  }

  ghost predicate InTime<K, B>(answers: seq<Arrival<K, B>>, now: int) { forall a :: a in answers ==> a.at <= now }

  /** What the answers that had come say of a call: how old the latest for its key was at the look-up, if there was one. */
  ghost predicate Found<K, B, V>(answers: seq<Arrival<K, B>>, c: Call<K, V>, i: nat) {
    c.seen <= |answers| && c.ttl.freshFor.Some? && IsLatest(answers[..c.seen], c.key, i)
  }

  /** The latest answer at the look-up was in its fresh seconds. */
  ghost predicate WasFresh<K, B, V>(answers: seq<Arrival<K, B>>, c: Call<K, V>) {
    exists i: nat :: Found(answers, c, i) && c.lookedUpAt - answers[i].at < 1000 * (c.ttl.freshFor.value + 1)
  }

  /** The latest answer at the look-up was within the stale seconds, the call's own or no more than the fresh ones. */
  ghost predicate WasUsable<K, B, V>(answers: seq<Arrival<K, B>>, c: Call<K, V>) {
    exists i: nat :: Found(answers, c, i)
      && c.lookedUpAt - answers[i].at < 1000 * ((if c.ttl.staleFor.Some? then c.ttl.staleFor.value else c.ttl.freshFor.value) + 1)
  }

  /**
   * Exactly how a call ends. One whose latest answer was fresh is a plain hit at once, and only such a
   * one; another waits, and when its refresh fails is a stale hit exactly if that answer was usable, and fails
   * otherwise; when its refresh succeeds it returns what came. A hit serves the latest answer at its look-up.
   */
  ghost predicate EndsRightly<K, V, B>(parse: (K, B) -> Option<V>, answers: seq<Arrival<K, B>>, c: Call<K, V>) {
    && (WasFresh(answers, c) ==> c.result.Some? && c.result.value.Hit? && !c.result.value.stale && !c.refreshFailed)
    && (c.result.Some? && !WasFresh(answers, c) ==>
          if !c.refreshFailed then
            c.result.value.Miss? && exists i :: c.seen <= i < |answers| && Gave(parse, answers[i], c.key, c.result.value.value, c.result.value.status)
          else if WasUsable(answers, c) then c.result.value.Hit? && c.result.value.stale
          else c.result.value == Failure)
    && (c.result.Some? && c.result.value.Hit? ==> forall i: nat :: Found(answers, c, i) ==> Serves(parse, c, answers[i]))
  }

  /** What a waiting call found is the latest answer at its look-up. */
  ghost predicate FoundOk<K, V, B>(parse: (K, B) -> Option<V>, answers: seq<Arrival<K, B>>, c: Call<K, V>) {
    c.found.Refreshing? && c.result == None ==>
      && !c.refreshFailed && !WasFresh(answers, c)
      && (c.found.existing.Some? <==> exists i: nat :: Found(answers, c, i))
      && (forall i: nat :: Found(answers, c, i) ==>
            && c.found.existing.Some? && answers[i].at <= c.lookedUpAt
            && Gave(parse, answers[i], c.key, c.found.existing.value.value, c.found.existing.value.status)
            && c.found.ageSeconds == (c.lookedUpAt - answers[i].at) / 1000)
  }

  ghost predicate CallOk<K, V, B>(parse: (K, B) -> Option<V>, answers: seq<Arrival<K, B>>, c: Call<K, V>) {
    && c.seen <= |answers| && (c.result == None ==> c.found.Refreshing?)
    && EndsRightly(parse, answers, c) && FoundOk(parse, answers, c)
  }

  ghost predicate Inv<K(!new), V, B(!new)>(parse: (K, B) -> Option<V>, s: State<K, V, B>, now: int) {
    && EntriesOk(parse, s.entries, s.answers) && InTime(s.answers, now)
    && (forall c :: c in s.calls ==> CallOk(parse, s.answers, c))
  }

  lemma LatestIsOne<K, B>(answers: seq<Arrival<K, B>>, key: K, i: nat, j: nat)
    requires IsLatest(answers, key, i) && IsLatest(answers, key, j)
    ensures i == j
  {
  }

  /** More answers change nothing of what a call found and how it ended. */
  lemma FoundStays<K, V, B>(answers: seq<Arrival<K, B>>, more: seq<Arrival<K, B>>, c: Call<K, V>)
    requires c.seen <= |answers|
    ensures forall i: nat :: Found(answers + more, c, i) <==> Found(answers, c, i)
    ensures forall i: nat :: Found(answers, c, i) ==> (answers + more)[i] == answers[i]
    ensures WasFresh(answers + more, c) <==> WasFresh(answers, c)
    ensures WasUsable(answers + more, c) <==> WasUsable(answers, c)
  {
    assert (answers + more)[..c.seen] == answers[..c.seen];
    forall i: nat ensures Found(answers + more, c, i) <==> Found(answers, c, i) {
    }
    forall i: nat | Found(answers, c, i) ensures (answers + more)[i] == answers[i] {
      assert i < |answers[..c.seen]|;
    }
  }

  lemma CallStaysOk<K, V, B>(parse: (K, B) -> Option<V>, answers: seq<Arrival<K, B>>, more: seq<Arrival<K, B>>, c: Call<K, V>)
    requires CallOk(parse, answers, c)
    ensures CallOk(parse, answers + more, c)
  {
    hide Found, WasFresh, WasUsable, Serves, Gave;
    FoundStays(answers, more, c);
    if c.result.Some? && !WasFresh(answers, c) && !c.refreshFailed {
      var i :| c.seen <= i < |answers| && Gave(parse, answers[i], c.key, c.result.value.value, c.result.value.status);
      assert (answers + more)[i] == answers[i];
    }
  }

  /** A look-up answers exactly when the latest answer is fresh, and otherwise waits with it. */
  lemma LookUpIsRight<K(!new), V, B(!new)>(parse: (K, B) -> Option<V>, s: State<K, V, B>, at: int, key: K, ttl: Ttl)
    requires EntriesOk(parse, s.entries, s.answers) && InTime(s.answers, at)
    ensures var found := LookUp(s.entries, key, ttl, at);
      CallOk(parse, s.answers, Call(key, ttl, found, if found.Answered? then Some(found.result) else None, false, at, |s.answers|))
  {
    var found := LookUp(s.entries, key, ttl, at);
    var c := Call(key, ttl, found, if found.Answered? then Some(found.result) else None, false, at, |s.answers|);
    assert s.answers[..|s.answers|] == s.answers;
    forall i: nat ensures Found(s.answers, c, i) <==> ttl.freshFor.Some? && IsLatest(s.answers, key, i) {
    }
    if i: nat :| Found(s.answers, c, i) {
      assert key in s.entries && s.entries[key].storedAt == s.answers[i].at && s.answers[i] in s.answers;
      forall j: nat | Found(s.answers, c, j) ensures i == j {
        LatestIsOne(s.answers, key, i, j);
      }
      assert WasFresh(s.answers, c) <==> found.Answered?;
    } else {
      assert found == Refreshing(None, 0);
    }
  }

  /** A refresh that fails ends the call as the answer it had found allows. */
  lemma FailureIsRight<K, V, B>(parse: (K, B) -> Option<V>, s: State<K, V, B>, c: Call<K, V>, at: int)
    requires CallOk(parse, s.answers, c) && c.found.Refreshing? && c.result == None
    ensures CallOk(parse, s.answers, c.(result := Some(Finish(s.entries, c.key, c.ttl, c.found, None, at).1), refreshFailed := true))
  {
    var result := Finish(s.entries, c.key, c.ttl, c.found, None, at).1;
    var d := c.(result := Some(result), refreshFailed := true);
    FoundAlike(s.answers, c, d);
    if i: nat :| Found(s.answers, c, i) {
      assert Found(s.answers, d, i);
      forall j: nat | Found(s.answers, d, j) ensures i == j {
        LatestIsOne(s.answers[..c.seen], c.key, i, j);
      }
      assert WasUsable(s.answers, d) <==> result.Hit?;
    }
  }

  /** What a call found does not depend on how it ends. */
  lemma FoundAlike<K, V, B>(answers: seq<Arrival<K, B>>, c: Call<K, V>, d: Call<K, V>)
    requires d == c.(result := d.result, refreshFailed := d.refreshFailed)
    ensures forall i: nat :: Found(answers, d, i) <==> Found(answers, c, i)
    ensures WasFresh(answers, d) <==> WasFresh(answers, c)
    ensures WasUsable(answers, d) <==> WasUsable(answers, c)
  {
  }

  /** A refresh that succeeds returns what came. */
  lemma SuccessIsRight<K, V, B>(parse: (K, B) -> Option<V>, answers: seq<Arrival<K, B>>, answer: Arrival<K, B>, c: Call<K, V>, value: V)
    requires CallOk(parse, answers, c) && c.found.Refreshing? && c.result == None
    requires Gave(parse, answer, c.key, value, answer.response.status)
    ensures CallOk(parse, answers + [answer], c.(result := Some(Miss(value, answer.response.status))))
  {
    hide Found, WasFresh, WasUsable;
    var d := c.(result := Some(Miss(value, answer.response.status)));
    FoundStays(answers, [answer], c);
    FoundAlike(answers + [answer], c, d);
    assert (answers + [answer])[|answers|] == answer;
  }

  lemma LatestAfter<K(!new), B(!new)>(answers: seq<Arrival<K, B>>, answer: Arrival<K, B>, k: K, i: nat)
    ensures IsLatest(answers + [answer], k, i) <==>
      if answer.key == k && answer.kept then i == |answers| else IsLatest(answers, k, i)
  {
    var all := answers + [answer];
    assert all[|answers|] == answer && forall j :: 0 <= j < |answers| ==> all[j] == answers[j];
  }

  /** One more answer moves its own key's entry, if it is kept, and no other. */
  lemma EntriesFollow<K(!new), V, B(!new)>(
    parse: (K, B) -> Option<V>, entries: Entries<K, V>, answers: seq<Arrival<K, B>>, answer: Arrival<K, B>, value: V)
    requires EntriesOk(parse, entries, answers) && Gave(parse, answer, answer.key, value, answer.response.status)
    ensures EntriesOk(parse, if answer.kept then entries[answer.key := Entry(value, answer.response.status, answer.at)] else entries, answers + [answer])
  {
    var after := if answer.kept then entries[answer.key := Entry(value, answer.response.status, answer.at)] else entries;
    forall k
      ensures k in after <==> exists i: nat :: IsLatest(answers + [answer], k, i)
      ensures forall i: nat :: IsLatest(answers + [answer], k, i) ==>
        && k in after && Gave(parse, (answers + [answer])[i], k, after[k].value, after[k].status)
        && after[k].storedAt == (answers + [answer])[i].at
    {
      forall i: nat ensures IsLatest(answers + [answer], k, i) <==>
        if answer.key == k && answer.kept then i == |answers| else IsLatest(answers, k, i)
      {
        LatestAfter(answers, answer, k, i);
      }
      if answer.key == k && answer.kept {
        assert IsLatest(answers + [answer], k, |answers|);
      }
    }
  }

  lemma StepKeepsInv<K(!new), V, B(!new)>(parse: (K, B) -> Option<V>, s: State<K, V, B>, now: int, e: Event<K, B>)
    requires Inv(parse, s, now) && now <= e.at && Enabled(s, e)
    ensures Inv(parse, Next(parse, s, e), e.at)
  {
    match e {
      case Begin(at, key, ttl) => BeginKeepsInv(parse, s, now, e);
      case End(at, i, response) => EndKeepsInv(parse, s, now, e);
    }
  }

  lemma BeginKeepsInv<K(!new), V, B(!new)>(parse: (K, B) -> Option<V>, s: State<K, V, B>, now: int, e: Event<K, B>)
    requires Inv(parse, s, now) && now <= e.at && e.Begin?
    ensures Inv(parse, Next(parse, s, e), e.at)
  {
    hide CallOk, EntriesOk, LookUp;
    LookUpIsRight(parse, s, e.at, e.key, e.ttl);
  }

  lemma EndKeepsInv<K(!new), V, B(!new)>(parse: (K, B) -> Option<V>, s: State<K, V, B>, now: int, e: Event<K, B>)
    requires Inv(parse, s, now) && now <= e.at && e.End? && Enabled(s, e)
    ensures Inv(parse, Next(parse, s, e), e.at)
  {
    hide CallOk, EntriesOk;
    var t, call := Next(parse, s, e), s.calls[e.call];
    var parsed := Parsed(parse, call.key, e.response);
    assert CallOk(parse, s.answers, call);
    if parsed.Some? {
      var answer := Arrival(call.key, e.response.value, e.at, call.ttl.freshFor.Some?);
      assert t.answers == s.answers + [answer];
      SuccessIsRight(parse, s.answers, answer, call, parsed.value.0);
      EntriesFollow(parse, s.entries, s.answers, answer, parsed.value.0);
      NotFailed(parse, s.answers, call);
      forall c | c in s.calls ensures CallOk(parse, t.answers, c) {
        CallStaysOk(parse, s.answers, [answer], c);
      }
    } else {
      FailureIsRight(parse, s, call, e.at);
    }
  }

  lemma NotFailed<K, V, B>(parse: (K, B) -> Option<V>, answers: seq<Arrival<K, B>>, c: Call<K, V>)
    requires CallOk(parse, answers, c) && c.found.Refreshing? && c.result == None
    ensures !c.refreshFailed
  {
  }

  lemma {:induction false} RunKeepsInv<K(!new), V, B(!new)>(
    parse: (K, B) -> Option<V>, s: State<K, V, B>, now: int, events: seq<Event<K, B>>)
    requires Inv(parse, s, now) && Run(parse, s, now, events)
    ensures Inv(parse, After(parse, s, now, events), LastReading(now, events))
    decreases |events|
  {
    if events != [] {
      StepKeepsInv(parse, s, now, events[0]);
      RunKeepsInv(parse, Next(parse, s, events[0]), events[0].at, events[1..]);
    }
  }

  lemma EmptyIsOk<K(!new), V, B(!new)>(parse: (K, B) -> Option<V>, now: int)
    ensures Inv(parse, State<K, V, B>.State(map[], [], []), now)
  {
  }

  /**
   * In every state of every run the cache holds a key exactly when some call with a fresh time to live
   * had an answer for it, and what it holds is the latest such answer, with its value, status and time.
   */
  lemma CacheHoldsTheLatest<K(!new), V, B(!new)>(parse: (K, B) -> Option<V>, born: int, events: seq<Event<K, B>>)
    requires Run(parse, State(map[], [], []), born, events)
    ensures var s := After(parse, State(map[], [], []), born, events);
      EntriesOk(parse, s.entries, s.answers)
  {
    EmptyIsOk(parse, born);
    RunKeepsInv(parse, State(map[], [], []), born, events);
  }

  /**
   * Over every interleaving each call ends exactly as the latest answer at its look-up says: a plain hit
   * when that was fresh, and only then; else, when its refresh fails, a stale hit when that was usable, and
   * only then; and every hit serves that answer, which had come for the same key, with its own age.
   */
  lemma CallsEndRightly<K(!new), V, B(!new)>(parse: (K, B) -> Option<V>, born: int, events: seq<Event<K, B>>, c: Call<K, V>)
    requires Run(parse, State(map[], [], []), born, events)
    requires c in After(parse, State(map[], [], []), born, events).calls
    ensures EndsRightly(parse, After(parse, State(map[], [], []), born, events).answers, c)
  {
    EmptyIsOk(parse, born);
    RunKeepsInv(parse, State(map[], [], []), born, events);
    assert CallOk(parse, After(parse, State(map[], [], []), born, events).answers, c);
  }

  /** So every hit is an answer that came for its key by the look-up, in its tier, and none comes without one. */
  lemma HitsAreEarned<K(!new), V, B(!new)>(
    parse: (K, B) -> Option<V>, born: int, events: seq<Event<K, B>>, c: Call<K, V>)
    requires Run(parse, State(map[], [], []), born, events)
    requires c in After(parse, State(map[], [], []), born, events).calls && c.result.Some? && c.result.value.Hit?
    ensures var answers := After(parse, State(map[], [], []), born, events).answers;
      && (exists i: nat :: Found(answers, c, i) && Serves(parse, c, answers[i]))
      && (if c.result.value.stale then c.refreshFailed && !WasFresh(answers, c) && WasUsable(answers, c) else WasFresh(answers, c))
  {
    hide Serves;
    var answers := After(parse, State(map[], [], []), born, events).answers;
    CallsEndRightly(parse, born, events, c);
    if WasFresh(answers, c) {
      var i: nat :| Found(answers, c, i) && c.lookedUpAt - answers[i].at < 1000 * (c.ttl.freshFor.value + 1);
    } else {
      assert WasUsable(answers, c);
    }
  }

  lemma EntryInTime<K(!new), V, B(!new)>(parse: (K, B) -> Option<V>, s: State<K, V, B>, now: int, k: K)
    requires Inv(parse, s, now) && k in s.entries
    ensures s.entries[k].storedAt <= now
  {
    var i: nat :| IsLatest(s.answers, k, i);
    assert s.answers[i] in s.answers;
  }

  /**
   * One step of any run leaves the cache as it was unless a refresh succeeded; then only that key
   * changes. So failures change nothing, and no entry is ever replaced by an older one.
   */
  lemma CacheOnlyMovesForward<K(!new), V, B(!new)>(
    parse: (K, B) -> Option<V>, s: State<K, V, B>, now: int, e: Event<K, B>, k: K)
    requires Inv(parse, s, now) && now <= e.at && Enabled(s, e)
    ensures var t := Next(parse, s, e);
      && (t.entries != s.entries ==> e.End? && !t.calls[e.call].refreshFailed && s.calls[e.call].ttl.freshFor.Some?)
      && (k in s.entries ==> k in t.entries && s.entries[k].storedAt <= t.entries[k].storedAt)
      && (k in t.entries && (k !in s.entries || t.entries[k] != s.entries[k]) ==>
            e.End? && s.calls[e.call].key == k && t.entries[k].storedAt == e.at)
  {
    hide EntriesOk;
    if k in s.entries {
      EntryInTime(parse, s, now, k);
    }
  }

  /** Over any run an entry's time of storing never goes back, and no entry is lost. */
  lemma {:induction false} EntriesOnlyGetNewer<K(!new), V, B(!new)>(
    parse: (K, B) -> Option<V>, s: State<K, V, B>, now: int, events: seq<Event<K, B>>, k: K)
    requires Inv(parse, s, now) && Run(parse, s, now, events) && k in s.entries
    ensures var t := After(parse, s, now, events); k in t.entries && s.entries[k].storedAt <= t.entries[k].storedAt
    decreases |events|
  {
    if events != [] {
      StepKeepsInv(parse, s, now, events[0]);
      CacheOnlyMovesForward(parse, s, now, events[0], k);
      EntriesOnlyGetNewer(parse, Next(parse, s, events[0]), events[0].at, events[1..], k);
    }
  }

  lemma {:induction false} AnswersOnlyGrow<K, V, B>(
    parse: (K, B) -> Option<V>, s: State<K, V, B>, now: int, events: seq<Event<K, B>>)
    requires Run(parse, s, now, events)
    ensures |s.answers| <= |After(parse, s, now, events).answers|
    decreases |events|
  {
    if events != [] {
      AnswersOnlyGrow(parse, Next(parse, s, events[0]), events[0].at, events[1..]);
    }
  }

  /** A run in which no refresh succeeded leaves the cache exactly as it was, whatever failed in it. */
  lemma {:induction false} FailuresLeaveTheCache<K, V, B>(
    parse: (K, B) -> Option<V>, s: State<K, V, B>, now: int, events: seq<Event<K, B>>)
    requires Run(parse, s, now, events) && After(parse, s, now, events).answers == s.answers
    ensures After(parse, s, now, events).entries == s.entries
    decreases |events|
  {
    if events != [] {
      var t := Next(parse, s, events[0]);
      AnswersOnlyGrow(parse, t, events[0].at, events[1..]);
      assert t.answers == s.answers;
      FailuresLeaveTheCache(parse, t, events[0].at, events[1..]);
    }
  }
}
