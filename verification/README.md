# Federal data servers: a verified model

Dafny models of the parts of this repository whose behaviour is easiest to get wrong, with proofs of
what they promise. Each module follows one source file or one component of it; a component that changes
state in place is a class or a loop over an array, proved equal to a function whose properties are then
proved as lemmas.

- **The persistent limiter** (`CounterStore`, `PersistentLimiter`, `LimiterRuns`, `LimiterSafety`,
  `LimiterTheorems`, `LimiterTraces`, `LimiterDeployed`). Many containers charge shared daily counters. A
  run is any list of events: a clock advances, a container takes a call, a store call is answered or fails
  (with or without its effect landing, at any later moment and any number of times), a container goes on
  with a call. The theorems hold after every run.
- **The HTTP client** (`TokenBucket`, `Split`, `ErrorBudget`, `FleetRequests`, `FleetErrors`,
  `ResponseCache`, `HttpClient`). A lazily refilled bucket with a block, a fixed-window error budget under
  concurrent attempts, the retry loop, what a fleet of clients then sends and counts together, and the fresh
  and stale cache under interleaved calls. A token is one call's; a call may wait before its first fetch and
  may fetch up to three times, so tokens granted and requests sent are counted apart.
- **Place resolution** (`Sorting`, `Resolver`, `ResolverTheorems`). When a name search answers, when it
  stops to ask, and what the first candidate and the notice then guarantee.
- **The QCEW fetcher** (`SlicePool`, `Qcew`). Workers over one cursor with a deadline that may fire between
  any two steps; the periods read; the naming of those missed.
- **Parsers** (`Text`, `Identify`, `IdentifyTheorems`, `Geocorr`, `GeocorrRoundTrip`). IPv6 expansion and
  network normalisation; CSV quoting and the crosswalk's rewriting read back.
- **Regrouping** (`Gdp`, `TownTwins`, `Batches`). Batched BEA calls, town twins with their land shares, the
  seeded shuffle.

Tokens are counted in 60,000ths, so that one millisecond adds exactly the per-minute rate; times are
milliseconds; shares of land are real numbers; 32-bit words are bit-vectors.

`dafny verify dfyconfig.toml` checks everything.

Where the code and its comments differ, the model follows the code:

- `split.ts` says the fleet never exceeds an agency's published rate.
  - Requests: if every call fetches once and when it gets its token, the fleet keeps to the rate in every
    span under a minute exactly when there is a token for each container and no second one for each. If calls
    may be retried, or may wait between token and fetch, no rate is kept by any fleet
    (`FleetRequests.FleetKeepsPublishedRateExactly`). One container with a rate of one a minute sends three
    requests in a second and a half for a call answered 503 twice (`FleetRequests.AloneOverPublishedRate`).
  - Tokens granted: the total is kept in spans under a minute exactly under the same condition on containers
    (`Split.FleetTokensUnderAMinuteExactly`): with fewer tokens a slice is still one, and with more a full
    bucket's burst is followed by what flows in. One container with a total of two is granted three tokens in
    half a minute (`Split.AloneOverTotal`). `Split.KeepsTotalExactly` has the condition for any span.
  - Errors: no fleet keeps to the published errors in every span of a minute, whatever their number, because
    a span can reach over two windows (`FleetErrors.NoFleetKeepsPublishedErrors`).
- The limits' configuration allows a limit of zero, which the in-memory store refuses and the deployed
  table grants once. Over the table a healthy fleet keeps every source's budget exactly when no budget is
  zero (`LimiterDeployed.DeployedKeepsBudgetsExactly`, `LimiterDeployed.ZeroBudgetAdmitsOne`), and every
  caller's share exactly when no share is zero (`LimiterDeployed.DeployedKeepsSharesExactly`,
  `LimiterDeployed.ZeroShareLetsOneThrough`).
- The resolver's notice says that the announced state has ten times the population of every other place
  of that name. With two exact states in the list that can be false (`ResolverTheorems.NoticeCanOverstate`).
  It is true exactly when the first exact state of the highest score in the list has ten times the
  population of every other exact state there (`ResolverTheorems.NoticeTrueExactlyAmongStates`).
- The resolver takes unknown populations of the leaders of several states for no lead, and asks although
  one rival leads tenfold; `ResolverTheorems.StopsExactlyWhenUnsettled` gives the exact condition, and
  `ResolverTheorems.UnknownLeaderStops` two places for which it asks.
- A place's shares over all its town edges make one whole only when exactly one of the two rules finds it a
  town; when both do they make two (`TownTwins.PlaceGivesExactly`, `TownTwins.CanGiveTwice`).

## Model

| member | source | states |
|---|---|---|
| `CounterStore.IncrementMovesOneCounter` | packages/core/src/limits/counter-store.ts:35-42 | an increment moves no live counter but its own, by the amount or not at all; it is applied exactly when the limit has room, and sets the given expiry |
| `CounterStore.SweptExactlyWhenFullAndExpired` | packages/core/src/limits/counter-store.ts:56-62 | another key's counter is dropped exactly when the store is full, the increment was applied and that counter has expired |
| `CounterStore.DynamoAgreesExactlyWhenRoom` | packages/core/src/limits/dynamo-store.ts:42-69 | the deployed table answers as the in-memory store exactly when the key exists, there is no limit, or the limit has room for one increment; and then every live counter reads alike in both |
| `CounterStore.MemoryCounterStore.Increment` | packages/core/src/limits/counter-store.ts:35-42 | the map and result after an increment are the specified ones: sweep only when applied, the count unchanged when refused |
| `CounterStore.MemoryCounterStore.Sweep` | packages/core/src/limits/counter-store.ts:56-62 | exactly the expired entries go, and only from 10,000 entries on |
| `PersistentLimiter.Limiter.Degraded` | packages/core/src/limits/persistent-limiter.ts:56-59 | a line is logged exactly when none was, or a minute has passed since the last |
| `PersistentLimiter.WhoIsCounted` | packages/core/src/limits/persistent-limiter.ts:113-147 | a query is charged to its source's budget exactly when there is one; a caller's call to his own share exactly when he does not bypass and his scope has a limit for that kind of call; a tool call to no source |
| `PersistentLimiter.CountersLiveTwoDays` | packages/core/src/limits/persistent-limiter.ts:95-97 | a counter outlives its charge by more than two days and at most three, to the end of a day |
| `PersistentLimiter.Limiter.RefuseIfKnownOver` | packages/core/src/limits/persistent-limiter.ts:89-93 | refuses from memory exactly for a remembered key, with the remembered count |
| `PersistentLimiter.Limiter.Arrive` | packages/core/src/limits/persistent-limiter.ts:158-168 | the synchronous start of a query writes nothing and ends in the phase of the step system: both keys from memory, the share first |
| `PersistentLimiter.Limiter.ResumeShare` | packages/core/src/limits/persistent-limiter.ts:95-111 | after a share's reply the object's whole state and the call's phase are those of the step system, for which `LimiterTraces.FailedShareIsLetThrough` says that a failed store lets the share through |
| `PersistentLimiter.Limiter.ResumeService` | packages/core/src/limits/persistent-limiter.ts:95-111 | after a service reply the object's whole state and the call's phase are those of the step system; a failed store moves the charge to the container's own counter |
| `LimiterSafety.AnswerKeepsInv` | packages/core/src/limits/persistent-limiter.ts:95-111 | an answered or failed store call keeps the fleet's invariant |
| `LimiterSafety.StrayKeepsInv` | packages/core/src/limits/persistent-limiter.ts:95-111 | an increment whose answer was lost, landing late or repeatedly, keeps the invariant |
| `LimiterSafety.SettleKeepsInv` | packages/core/src/limits/persistent-limiter.ts:95-111 | a container going on with a call keeps the invariant |
| `LimiterTheorems.RunKeepsInv` | packages/core/src/limits/persistent-limiter.ts:95-111 | every run keeps the invariant: charges never pass a limit, and equal the live counters when the store never fails |
| `LimiterTheorems.BudgetUnderFailures` | packages/core/src/limits/persistent-limiter.ts:95-111 | however calls interleave and the store fails, at most limit times (1 + containers) queries are admitted to a source on its day |
| `LimiterTraces.BudgetUnderFailuresIsMet` | packages/core/src/limits/persistent-limiter.ts:95-111 | for every source, limit and fleet there is a run with a failing store that admits exactly that many |
| `LimiterTheorems.BudgetWhenHealthy` | packages/core/src/limits/persistent-limiter.ts:95-111 | at most the limit when the store never fails |
| `LimiterTheorems.ShareBudgetWhenHealthy` | packages/core/src/limits/persistent-limiter.ts:158-171 | when the store never fails, the fleet lets through at most a share's limit of its caller's calls on its day |
| `LimiterTheorems.ServiceCounterIsAdmissions` | packages/core/src/limits/persistent-limiter.ts:158-171 | with the store up a live service counter is the queries admitted and those whose grant is on its way back |
| `LimiterTheorems.ShareCounterIsConserved` | packages/core/src/limits/persistent-limiter.ts:158-171 | with the store up a live share counter is its caller's admitted calls, the calls it lost to the service budget and the calls between the two charges |
| `LimiterTraces.ShareRefusalSparesService` | packages/core/src/limits/persistent-limiter.ts:158-171 | a query that ends refused on its own share was at no moment of the run at a service charge, and no step of it moved a live service counter, shared or local, however the store fails |
| `LimiterTheorems.MemoryRefusalIsEarned` | packages/core/src/limits/persistent-limiter.ts:89-109 | in every reachable state a remembered key is at its limit in the shared store or in the container's own counters |
| `LimiterTraces.RefusalIsEarned` | packages/core/src/limits/persistent-limiter.ts:89-111 | over every run, however the store fails, a refused call was refused by its own share or its source's budget, its container remembers that key, and the counter is at its limit in the shared store or in that container's own; so a failing store alone refuses nobody |
| `LimiterTraces.FailedShareIsLetThrough` | packages/core/src/limits/persistent-limiter.ts:95-111 | after a failed share charge a query is admitted when its source has no budget, refused only on a service key its container remembers, and otherwise waits at the service charge; nothing is counted or remembered |
| `LimiterTraces.FailedToolShareIsLetThrough` | packages/core/src/limits/persistent-limiter.ts:95-111 | a tool call whose share charge failed is let through |
| `LimiterTraces.RefusedOnArrivalExactly` | packages/core/src/limits/persistent-limiter.ts:158-168 | a call is refused as it comes exactly when its container remembers its share or its source's budget, and its arrival writes nothing |
| `LimiterTraces.EveryStepAdvances` | packages/core/src/limits/persistent-limiter.ts:95-171 | every answer to a call and every step of it brings it nearer admission or refusal, and leaves the other calls where they were |
| `LimiterTheorems.MemoryAgreesWithStoreForGood` | packages/core/src/limits/persistent-limiter.ts:89-109 | when the store never fails, it would refuse every remembered key with the same count, then and for the rest of the counter's life |
| `LimiterTheorems.AtMostOneShareLost` | packages/core/src/limits/persistent-limiter.ts:158-171 | a container whose calls run one at a time loses at most one paid share per source and day, even when the store fails |
| `LimiterDeployed.DeployedRunsAreRuns` | packages/core/src/limits/dynamo-store.ts:42-69 | a run over the deployed table, healthy or without a zero service budget, is a run over the in-memory store of the configuration with each limit of zero taken as one: the same calls in the same phases and the same live counts |
| `LimiterDeployed.DeployedBudgets` | packages/core/src/limits/dynamo-store.ts:42-69 | the budgets of a failing and of a healthy store hold over the deployed table |
| `LimiterDeployed.DeployedKeepsBudgetsExactly` | packages/core/src/limits/dynamo-store.ts:42-69 | over the deployed table a healthy fleet keeps every budget in every run exactly when no budget is zero |
| `LimiterDeployed.ZeroBudgetAdmitsOne` | packages/core/src/limits/dynamo-store.ts:51 | a run in which the table admits a query against a budget of zero |
| `LimiterDeployed.DeployedShares` | packages/core/src/limits/dynamo-store.ts:42-69 | a healthy table lets at most a share's limit of calls through, or one when the limit is zero |
| `LimiterDeployed.DeployedKeepsSharesExactly` | packages/core/src/limits/dynamo-store.ts:42-69 | over the deployed table a healthy fleet keeps every caller's share in every run exactly when no share is zero |
| `LimiterDeployed.ZeroShareLetsOneThrough` | packages/core/src/limits/dynamo-store.ts:51 | a run in which the table lets a call through against a share of zero |
| `TokenBucket.WindowBound` | packages/core/src/http/client.ts:162-193 | in any span of T ms of any run at most perMinute times (1 + T/60,000) tokens are granted, despite lazy refill and blocks |
| `TokenBucket.WindowPeak` | packages/core/src/http/client.ts:162-193 | no run is granted more than that bound rounded down to whole tokens |
| `TokenBucket.WindowBoundIsMet` | packages/core/src/http/client.ts:162-193 | for every rate and span one run is granted exactly that many |
| `TokenBucket.NoGrantForAMinute` | packages/core/src/http/client.ts:212-219 | no token is granted in the minute after a response that reports no remaining quota |
| `TokenBucket.HeadersBlockExactly` | packages/core/src/http/client.ts:214-219 | response headers move no token, and block the bucket, for a minute, exactly when they report no quota left |
| `TokenBucket.ZeroRateGrantsNothing` | packages/core/src/http/client.ts:170-210 | at a rate of zero nothing is granted, and a waiter that no block holds gives up at once |
| `TokenBucket.FullAfterBlock` | packages/core/src/http/client.ts:176-189 | the first check after a block finds the bucket full |
| `TokenBucket.WaitIsEnough` | packages/core/src/http/client.ts:186-193 | a waiter that sleeps as long as it was told, with no new block, is granted its token |
| `TokenBucket.WaitIsLeast` | packages/core/src/http/client.ts:186-193 | one millisecond sooner there would have been no token |
| `TokenBucket.SoleWaiterSleepsOnce` | packages/core/src/http/client.ts:196-210 | a sole waiter sleeps at most once, or gives up exactly when its wait is above the cap |
| `Split.SliceOrFallback` | packages/core/src/limits/split.ts:18-29 | with both numbers given the slice is the whole part of the total for each container and never below one; without limits, total or containers it is the fallback |
| `Split.SlicesFitExactly` | packages/core/src/limits/split.ts:18-29 | the slices of all containers add up to at most the total exactly when the total has one token for each |
| `Split.KeepsTotalExactly` | packages/core/src/limits/split.ts:18-29 | in spans of a given length the fleet is granted at most the total, in every run, exactly when the peaks of its slices fit in it |
| `Split.FleetTokensUnderAMinuteExactly` | packages/core/src/limits/split.ts:18-29 | the fleet is granted at most the total of tokens in every span under a minute exactly when containers <= total < 2 containers |
| `Split.AloneOverTotal` | packages/core/src/limits/split.ts:18-29 | one container with a total of two is granted three tokens in half a minute |
| `Split.FleetStaysWithinTotal` | packages/core/src/limits/split.ts:18-29 | containers that split a total of at least their number are together granted, in any span, at most the tokens of the total's own burst and refill |
| `FleetRequests.FleetKeepsPublishedRateExactly` | packages/core/src/limits/split.ts:4-29 | requests at their own times: with prompt calls that fetch once, at most the total in every span under a minute exactly when containers <= total < 2 containers; with retries, or with waits between token and fetch, more than the total can fall in one instant for every total and fleet |
| `FleetRequests.FleetSendsThreeForEachToken` | packages/core/src/http/client.ts:316-427 | the calls whose tokens are granted in a span send, sooner or later, at most three times the token bound |
| `FleetRequests.AloneOverPublishedRate` | packages/core/src/http/client.ts:316-386 | one container with a rate of one sends three requests in a second and a half for a call answered 503 twice and then well |
| `ErrorBudget.WindowBudget` | packages/core/src/http/client.ts:225-256 | with K attempts in flight a window never counts more than limit + K - 1 errors |
| `ErrorBudget.MinuteBudget` | packages/core/src/http/client.ts:225-256 | any span of a minute counts at most 2 (limit + K - 1) errors wherever windows fall, so twice the limit for sequential use |
| `FleetErrors.ErrorBoundsAreMet` | packages/core/src/http/client.ts:225-256 | both bounds are met by every limit and number of attempts in flight: a window that counts limit + K - 1, and two moments a millisecond apart that count twice as many |
| `FleetErrors.KeepsErrorsExactly` | packages/core/src/limits/split.ts:18-29 | containers with one error budget each count at most a total in every span of a minute exactly when containers times 2 (slice + K - 1) fits in it |
| `FleetErrors.NoFleetKeepsPublishedErrors` | packages/core/src/limits/split.ts:4-29 | containers that split a published number of errors can count more in a minute, whatever the number, the containers and K |
| `ErrorBudget.RetryFrom` | packages/core/src/http/client.ts:316-386 | from any attempt on: the loop repeats only after a fetch that may be retried, ends with the last fetch's verdict, and counts no more errors than its fetches earned |
| `ErrorBudget.RetryIsBounded` | packages/core/src/http/retry.ts:7-19 | at most three fetches, at most one counted error each; success only from a response below 400 without an error in its body |
| `ErrorBudget.WhatIsRetriedAndCounted` | packages/core/src/http/client.ts:344-386 | a fetch is tried again exactly after a network failure, a status of 429, 502, 503 or 504, or a passing error in a good response; an error is counted exactly for a status from 400 to 499 or an error in a good response |
| `ErrorBudget.RetryIsARun` | packages/core/src/http/client.ts:316-386 | the checks and ends the retry loop goes through are a run of the error budget with one attempt at a time, ending with the same errors |
| `ErrorBudget.SequentialCallsKeepMinute` | packages/core/src/http/client.ts:225-256 | calls made one after another, with all their retries, count at most twice the limit in any span of a minute |
| `ResponseCache.CacheHoldsTheLatest` | packages/core/src/http/client.ts:520-561 | over every interleaving a key has an entry exactly when a call with a fresh time to live had an answer parsed for it, and the entry is the latest such answer, with its value, status and time |
| `ResponseCache.CallsEndRightly` | packages/core/src/http/client.ts:487-561 | over every interleaving a call is a plain hit exactly when the latest answer at its look-up was within its fresh seconds, a stale hit exactly when it was not, the refresh failed and it was within the stale limit; a refresh that succeeds returns what came, any other fails |
| `ResponseCache.HitsAreEarned` | packages/core/src/http/client.ts:487-562 | over every interleaving a hit serves the latest answer that had come for its key by the look-up, with that answer's own age, within the fresh seconds for a plain hit, and after a failed refresh within the stale limit for a stale one |
| `ResponseCache.EntriesOnlyGetNewer` | packages/core/src/http/client.ts:520-561 | over any run no entry is lost and none's time of storing goes back |
| `ResponseCache.FailuresLeaveTheCache` | packages/core/src/http/client.ts:533-545 | a run in which no refresh succeeded leaves the cache exactly as it was |
| `HttpClient.Client.constructor` | packages/core/src/http/client.ts:145-168 | a new client has a full bucket, no errors counted and an empty cache |
| `HttpClient.Client.CheckToken` | packages/core/src/http/client.ts:170-193 | the bucket and answer after a check are the specified ones; without a rate every check is granted |
| `HttpClient.Client.AcquireRateLimitToken` | packages/core/src/http/client.ts:196-210 | the wait loop's outcome over successive clock readings is the specified one |
| `HttpClient.Client.NoteRateLimitHeaders` | packages/core/src/http/client.ts:214-219 | an exhausted quota blocks the bucket for a minute and changes nothing else |
| `HttpClient.Client.CheckErrorLimit` | packages/core/src/http/client.ts:239-249 | the window is rolled and a fetch allowed exactly while the count is below the limit |
| `HttpClient.Client.NoteError` | packages/core/src/http/client.ts:252-256 | one error is counted in the current window |
| `HttpClient.Client.FetchWithRetry` | packages/core/src/http/client.ts:316-386 | the loop's outcome, number of fetches and error count are the specified ones for every world |
| `HttpClient.Client.BeginCached` | packages/core/src/http/client.ts:503-518 | a fresh entry answers; otherwise the call refreshes with the entry it found |
| `HttpClient.Client.EndCached` | packages/core/src/http/client.ts:520-561 | the object's entries and the result after a refresh are those of the step system, whose runs `ResponseCache.CacheHoldsTheLatest` and `ResponseCache.CallsEndRightly` describe |
| `Resolver.FoldTownTwins` | packages/core/src/geography/resolver.ts:421-431 | the nested loops and the filter compute the specified fold |
| `ResolverTheorems.FiltersKeepAnAnswer` | packages/core/src/geography/resolver.ts:323-333 | the town fold drops exactly the towns whose place is in the list, which stays; the metro filter exactly the metros, where it applies and another exact match stays; neither empties a list |
| `ResolverTheorems.PoolExactly` | packages/core/src/geography/resolver.ts:177-193 | the rows ranked are, in order and as often, exactly those that are no folded town, no metro that gives way under a state without a kind, and within the county asked for |
| `Sorting.SortPermutes` | packages/core/src/geography/resolver.ts:201 | a sort keeps every row as often as it was |
| `Sorting.SortSorts` | packages/core/src/geography/resolver.ts:201 | a sort by a total preorder puts every pair in order |
| `Sorting.SortFirst` | packages/core/src/geography/resolver.ts:201 | the sort is stable at its head: first comes the earliest of the least rows |
| `Sorting.SortStable` | packages/core/src/geography/resolver.ts:201 | the sort is stable: rows the order does not tell apart keep their order |
| `Sorting.FilterSort` | packages/core/src/geography/resolver.ts:472-481 | filtering a sorted list is sorting the filtered one |
| `ResolverTheorems.RankedSortsPool` | packages/core/src/geography/resolver.ts:199-201 | the ranking holds the filtered rows, tier by tier and by score within a tier |
| `ResolverTheorems.DominatedByStateExactly` | packages/core/src/geography/resolver.ts:462-470 | an exact match of known population is dominated exactly when some exact state has ten times its population |
| `ResolverTheorems.DominatedTownExactly` | packages/core/src/geography/resolver.ts:448-454 | a town is dominated exactly when some exact match that is no town has ten times its population |
| `ResolverTheorems.RankingOrder` | packages/core/src/geography/resolver.ts:194-201 | the ranking puts exact matches first, then those passed over for a state, then inexact ones, then dominated towns, each group by falling score, equals in the order of the list |
| `ResolverTheorems.SomeExactUndominated` | packages/core/src/geography/resolver.ts:441-470 | the dominance rules never set every exact match aside |
| `ResolverTheorems.TopIsExactAndUndominated` | packages/core/src/geography/resolver.ts:194-201 | when an exact match survives the filters the first row is exact and undominated |
| `ResolverTheorems.AnswerHoldsRanked` | packages/core/src/geography/resolver.ts:203-268 | every answer holds the first rows of the ranking, as many as asked for, in order: in an answer unchanged but for the notice's flag on the first, in a stop each flagged once |
| `ResolverTheorems.TownsSettledExactly` | packages/core/src/geography/resolver.ts:363-383 | same-state towns do not stop the answer exactly when one of them has ten times the population of each other |
| `ResolverTheorems.StatesSettledExactly` | packages/core/src/geography/resolver.ts:472-481 | states do not stop the answer exactly when the rivals lie in one state, or one of them has ten times the population of each elsewhere and the two leaders' populations are known |
| `ResolverTheorems.AnswerIsSettled` | packages/core/src/geography/resolver.ts:206-249 | an answer leaves nothing to choose: one kind, a leading town, one state or a leading rival |
| `ResolverTheorems.StopsExactlyWhenUnsettled` | packages/core/src/geography/resolver.ts:206-249 | an answer is given exactly when nothing is left to choose and, among several states, the leaders' populations are known; so exactly when nothing is left to choose where populations are known |
| `ResolverTheorems.ReasonOfStop` | packages/core/src/geography/resolver.ts:206-249 | a stop names several kinds exactly when no kind is given and kinds are not settled, else several towns exactly when those are not settled, else several states |
| `ResolverTheorems.UnknownLeaderStops` | packages/core/src/geography/resolver.ts:472-481 | two places in two states, one leading tenfold and the other of unknown population: nothing is left to choose and the code asks |
| `ResolverTheorems.OtherKindsAreOutweighed` | packages/core/src/geography/resolver.ts:208-220 | in an answer without a kind hint every exact match of another kind is outweighed tenfold by some exact match |
| `ResolverTheorems.NothingSetAsideSilently` | packages/core/src/geography/resolver.ts:251-268 | an answer carries a notice exactly when no kind was asked for, a candidate is wanted and an exact match was dominated by a state; then an exact flagged state comes first and the notice names exactly the matches passed over |
| `ResolverTheorems.NoticeTrueExactlyAmongStates` | packages/core/src/geography/resolver.ts:251-292 | the announced state is the first exact state of the highest score in the list, and the tenfold claim over all exact matches there is true exactly when it holds over the exact states there |
| `ResolverTheorems.NoticeTrueOfASoleState` | packages/core/src/geography/resolver.ts:251-292 | the only exact state of the list is the announced one and has ten times the population of every other exact match |
| `ResolverTheorems.NoticeCanOverstate` | packages/core/src/geography/resolver.ts:270-292 | a list with two exact states for which the notice's claim is false |
| `Identify.ShiftAndMaskAreArithmetic` | packages/core/src/server/identify.ts:158-170 | on 32-bit words the shift and the mask are the arithmetic the model uses |
| `IdentifyTheorems.DottedTextToInt` | packages/core/src/server/identify.ts:164-170 | a dotted address parses to its octets' own 32-bit value |
| `IdentifyTheorems.UndottedIsHexed` | packages/core/src/server/identify.ts:175-181 | rewriting a decimal tail turns one spelling of an address into another spelling of it |
| `IdentifyTheorems.ExpandsEverySpelling` | packages/core/src/server/identify.ts:173-192 | every spelling (any gap, leading zeros, decimal tail) expands to its address's eight groups |
| `IdentifyTheorems.NetworkOfIPv6` | packages/core/src/server/identify.ts:132-152 | an address's network depends on its eight groups alone, whatever spaces, case or zone surround it |
| `IdentifyTheorems.NetworkOfWritten` | packages/core/src/server/identify.ts:132-152 | blanks before and after a spelled address, letters of either case and a zone do not change its network |
| `IdentifyTheorems.NetworkTextReadsBack` | packages/core/src/server/identify.ts:148-152 | the network of an unmapped address is written as a /64 whose prefix is itself an address: the same first 64 bits, then zeros |
| `IdentifyTheorems.NetworkOfIPv4` | packages/core/src/server/identify.ts:132-152 | an IPv4 address is its own network |
| `IdentifyTheorems.SameNetworkExactly` | packages/core/src/server/identify.ts:132-152 | two addresses share a network exactly when both are IPv6 proper with the same first 64 bits or both are the same mapped address |
| `IdentifyTheorems.SpelledNetworksAgreeExactly` | packages/core/src/server/identify.ts:132-152 | the same for any two spellings of unmapped addresses |
| `IdentifyTheorems.MappedIsItsIPv4` | packages/core/src/server/identify.ts:143-147 | a mapped address is the network of the IPv4 address it maps |
| `IdentifyTheorems.NetworkOfIsIdempotent` | packages/core/src/server/identify.ts:132-159 | the network of the network of any IPv4 or IPv6 address is itself |
| `IdentifyTheorems.PoolIsItsRange` | packages/core/src/server/identify.ts:155-162 | the pool test holds exactly from 160.79.104.0 to 160.79.111.255 |
| `IdentifyTheorems.PoolTakesMappedOnly` | packages/core/src/server/identify.ts:155-162 | an IPv6 address is in the pool exactly when it maps an address of that range |
| `SlicePool.Pool.Take` | packages/server-bls/src/qcew-indicators.ts:268-279 | one turn of a worker's loop up to its await: the next slice, or, once aborted, every slice not started marked |
| `SlicePool.Pool.Resume` | packages/server-bls/src/qcew-indicators.ts:268-293 | from a fetch's end to the next await: that one slot is written and the next slice taken, or, once aborted, every slice not started marked |
| `SlicePool.PoolIsOrderly` | packages/server-bls/src/qcew-indicators.ts:259-299 | at every moment of every run: at most min(6, n) fetches, slices started in index order, no slot written twice, only a slot's own slice or a deadline's mark in it |
| `SlicePool.NothingStartsAfterAbort` | packages/server-bls/src/qcew-indicators.ts:269-276 | no slice is started once the deadline has fired |
| `SlicePool.AnswersAreKept` | packages/server-bls/src/qcew-indicators.ts:280-293 | at every moment of every run a slot holds its slice exactly when a fetch of it was answered, before the deadline or after: no answer is dropped or overwritten |
| `SlicePool.AllWrittenOnReturn` | packages/server-bls/src/qcew-indicators.ts:296-298 | when every worker returns each slot has been written exactly once; without a deadline the results are the slices |
| `Qcew.PriorQuarter` | packages/server-bls/src/qcew.ts:303-305 | one quarter back in time, across years |
| `Qcew.CandidatePeriods` | packages/server-bls/src/qcew-indicators.ts:210-250 | an explicit range gives exactly the quarters, or years, from the asked first year and 2014 to the asked last year and the latest published one, newest first, and tells exactly whether the first year was moved; otherwise the latest three |
| `Qcew.QuartersDownIsGapless` | packages/server-bls/src/qcew-indicators.ts:238-246 | such a list holds exactly the quarters of its range, each one before the last |
| `Qcew.GroupMissing` | packages/server-bls/src/qcew-indicators.ts:317-331 | the missing periods, each as often, in time order, cut into stretches of consecutive quarters of which no two neighbours could be joined |
| `Qcew.NextQuarterIsJustAfter` | packages/server-bls/src/qcew-indicators.ts:317-331 | a quarter continues a stretch exactly when it is the one just after, in the same year |
| `Qcew.StretchesAreUnique` | packages/server-bls/src/qcew-indicators.ts:317-331 | a list has only one such grouping |
| `Qcew.ReadSlices` | packages/server-bls/src/qcew-indicators.ts:352-400 | rows newest first up to the cap; every stopped slice met is reported missing; the cap is told exactly when it left periods unread; fails exactly when something was stopped and nothing published |
| `Qcew.RowsAreTheSlices` | packages/server-bls/src/qcew-indicators.ts:352-400 | each published slice that holds a row gives it, at the place of those before it, and there are no other rows |
| `Qcew.StoppedAreThePeriods` | packages/server-bls/src/qcew-indicators.ts:352-400 | each stopped slice's period is reported, at the place of those before it, and no other |
| `Qcew.WindowIsFirstPeriods` | packages/server-bls/src/qcew-indicators.ts:362-365 | the slices fetched are the first four periods for the latest row alone, and the first twenty-three otherwise |
| `Geocorr.ParseCsvLine` | packages/geography-build/src/parse/geocorr.ts:70-96 | the loop computes the recursive reading of a line |
| `Geocorr.QuotedFieldsRoundTrip` | packages/geography-build/src/parse/geocorr.ts:70-96 | parsing quoted fields joined with commas gives the fields back, for every non-empty list |
| `Geocorr.PlainFieldsRoundTrip` | packages/geography-build/src/parse/geocorr.ts:70-96 | so does parsing unquoted fields without commas or quotes |
| `Geocorr.TransformGeocorrPlaceCounty` | packages/geography-build/src/parse/geocorr.ts:121-139 | the rewriting loop computes the specified text, or none for another header |
| `Geocorr.ParseGeocorr` | packages/geography-build/src/parse/geocorr.ts:31-67 | the reading loop computes the specified edges, or none when a column is missing |
| `GeocorrRoundTrip.RowIsReadBack` | packages/geography-build/src/parse/geocorr.ts:127-143 | a well-formed raw row, rewritten and read again, is the edge it means |
| `GeocorrRoundTrip.RewrittenExportIsReadBack` | packages/geography-build/src/parse/geocorr.ts:31-143 | a whole raw export, rewritten and read again, gives one edge for each well-formed row, in order with its share, undisturbed by any other row |
| `GeocorrRoundTrip.RawExportIsItsRows` | packages/geography-build/src/parse/geocorr.ts:121-139 | an export written as a header, a line of labels and rows has exactly those rows as its data, and is taken exactly when its first eight columns are the expected ones |
| `GeocorrRoundTrip.VendoredTextIsRead` | packages/geography-build/src/parse/geocorr.ts:25-67 | a text of quoted records, its four columns wherever the header puts them, is read for each of the three pairs as exactly that pair's records in order, under the pair's own levels |
| `GeocorrRoundTrip.MissingColumnIsRefused` | packages/geography-build/src/parse/geocorr.ts:42-49 | a text is refused exactly when its header lacks one of the four columns |
| `Gdp.ParseUndoesBuildExactly` | packages/server-bea/src/gdp-indicators.ts:139-156 | parsing a built key gives back its parts exactly when the place code is not empty and has no separator |
| `Gdp.MalformedExactly` | packages/server-bea/src/gdp-indicators.ts:145-151 | a key is malformed exactly when one of its first three parts is missing or empty or its table is none of the four |
| `Gdp.SeriesOfQuestion` | packages/server-bea/src/gdp-indicators.ts:103-143 | a state's or a county's table, real or nominal, exactly as asked, and the industry's own line or the total |
| `Gdp.AloneAnswers` | packages/server-bea/src/gdp-indicators.ts:170-187 | a key alone gets each of its place's rows in its table as often as it is there, newest first, and nothing when malformed |
| `Gdp.OwnRowsAreAlone` | packages/server-bea/src/gdp-indicators.ts:205-229 | from a group's rows each place gets exactly what its key alone would get |
| `Gdp.GdpFetcher.GroupKeys` | packages/server-bea/src/gdp-indicators.ts:244-262 | every well-formed key lands in its group under its place; malformed keys are answered empty |
| `Gdp.GdpFetcher.FetchGroup` | packages/server-bea/src/gdp-indicators.ts:189-235 | one upstream call, and for every key of the group what that key alone means |
| `Gdp.GdpFetcher.Fetch` | packages/server-bea/src/gdp-indicators.ts:244-270 | one result per key in request order, each holding exactly the rows of its place in its table, newest first, or nothing for a malformed key; from one call per table and line that asks once for each place its keys name and for no other |
| `TownTwins.DeriveTownTwins` | packages/geography-build/src/assemble.ts:287-333 | the indexing and linking loops compute the specified edges |
| `TownTwins.TwinsAreSameMunicipality` | packages/geography-build/src/assemble.ts:299-311 | a place's twins are exactly the subdivisions with its state and code |
| `TownTwins.NamesFiledAlike` | packages/geography-build/src/assemble.ts:297-304 | a consolidated town and a place are filed under one name exactly when state and bare name are the same |
| `TownTwins.CodeEdgesJoin` | packages/geography-build/src/assemble.ts:307-318 | the edges by code join exactly the places and subdivisions that are one municipality, with the land's share |
| `TownTwins.SharesMakeOneWhole` | packages/geography-build/src/assemble.ts:312-316 | a place's shares lie from 0 to 1 and sum to exactly 1, with land areas known, missing or all zero |
| `TownTwins.SharesFollowLand` | packages/geography-build/src/assemble.ts:312-316 | shares are as the land areas are, a missing one counting as none; where no twin has land they are equal |
| `TownTwins.CodeEdgesGive` | packages/geography-build/src/assemble.ts:307-318 | by code an identifier gives away one whole for each place that bears it and has a twin, and nothing else |
| `TownTwins.NameEdgeMeans` | packages/geography-build/src/assemble.ts:319-326 | there is an edge by name exactly when one consolidated town and one place bear that state and name and no place is one municipality with that town's identifier; it joins the two |
| `TownTwins.PlaceGivesExactly` | packages/geography-build/src/assemble.ts:287-328 | a place gives away one whole for twins by code and one more for a town by name; one in all exactly when one rule applies |
| `TownTwins.CanGiveTwice` | packages/geography-build/src/assemble.ts:287-328 | entities for which a place gives away two wholes |
| `Batches.Generator.Next` | packages/geo-bench/src/batches.ts:14-23 | one step of the generator: the state advances by the constant and the word is the mixed state |
| `Batches.KnownWords` | packages/geo-bench/src/batches.ts:14-23 | the first three words from seed zero |
| `Batches.Drawn` | packages/geo-bench/src/batches.ts:30 | the drawn position is never beyond the one being filled |
| `Batches.DrawnIsTheFloor` | packages/geo-bench/src/batches.ts:30 | the draw is the floor of the word's share of 2^32 times the number of positions |
| `Batches.ShufflePermutes` | packages/geo-bench/src/batches.ts:26-36 | whatever is drawn, every item stays as often as it was |
| `Batches.DrawsAreDecided` | packages/geo-bench/src/batches.ts:26-36 | different draws never leave distinct items in the same order |
| `Batches.EveryOrderIsDrawn` | packages/geo-bench/src/batches.ts:26-36 | every order comes out of some draws |
| `Batches.SeededShuffle` | packages/geo-bench/src/batches.ts:26-36 | the in-place swaps on a fresh copy compute the order that items and seed alone decide, and leave the input as it was |
| `Batches.CutIsExact` | packages/geo-bench/src/batches.ts:45-47 | batches concatenate to the list, all but the last are full, the last is not empty, and their number is the quotient rounded up |
| `Batches.MakeBatches` | packages/geo-bench/src/batches.ts:39-48 | the batches are the cut of the seeded order |
| `Batches.BatchesHoldEverything` | packages/geo-bench/src/batches.ts:39-48 | together the batches hold every item as often as it was given |

## Left out

- LimiterTheorems.BudgetUnderFailures: like every theorem about runs, assumes that a call's own time is under two days behind the clock of the store that counts it, so that no live counter is swept; the step that answers a store call has this as its guard.
- LimiterTheorems.MemoryRefusalIsEarned: speaks of a counter only until it expires, two days after its day.
- ErrorBudget.RetryFrom: does not model the delays between attempts, their jitter and the Retry-After header.
- Gdp.GdpFetcher.Fetch: models the upstream as the table's rows filtered by the places asked; the years asked, the vintage and the notes are left out, and a period's place within its year is a rank instead of a locale comparison.
- Batches.Drawn: computes the index exactly; the rounding of the double product for lists beyond two million items is left out.
- Batches.MakeBatches: requires a size of at least one, as the source does not end for zero.
- A limit that differs per call for one key (an operator's test limit), the `usage` read, the string form of counter keys (keys are records, so distinct keys stay distinct) and the text of log lines.
- Limits below zero; the deployed table's expiry in seconds and its own deletion of expired rows.
- Fractional rates per minute, and clock readings before 1970.
- Fixtures, the daily budget store, cache-key hashing, near-limit warnings and URL building in the HTTP client.
- The catalog search, the nation look-up, bare GEOIDs and short queries, score computation, and the normalisation of names, kinds and states: rows, exact flags and scores are arbitrary inputs; explanations and notices are reduced to the facts they assert; the sort of a local copy is modelled on values.
- Node's address checks: valid addresses are modelled by their spellings, and texts that are no address are left out; white space is space, tab and line ends.
- Keyed hashing of callers, tokens and request labels.
- QCEW URLs, the parsing of a slice's CSV (a parameter), the label texts, and the calendar arithmetic that finds the latest published quarter (an input). Which worker starts first is left open: the runs contain those of the source.
- How text is read as a number (a parameter), in the crosswalk's share column.
- The normalisation of a town's bare name (a parameter), and the other edges the catalog assembles.
- Formatters of series ids, envelopes, citations, vocabularies and static tables.
