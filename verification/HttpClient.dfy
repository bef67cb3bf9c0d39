/** The HTTP client as an object: its bucket, its error budget and its cache, each step as the source runs it. */
module HttpClient {
  import opened Arithmetic
  import opened Options
  import TokenBucket
  import ErrorBudget
  import ResponseCache

  class Client<K(==), V> {
    const perMinute: Option<nat>
    const maxWaitMs: int
    const errorsPerMinute: Option<nat>

    var tokens: int
    var lastRefillMs: int
    var blockedUntilMs: int
    var errorCount: nat
    var errorWindowStartMs: int
    var entries: ResponseCache.Entries<K, V>

    constructor (perMinute: Option<nat>, maxWaitMs: int, errorsPerMinute: Option<nat>, nowMs: int)
      ensures this.perMinute == perMinute && this.maxWaitMs == maxWaitMs && this.errorsPerMinute == errorsPerMinute
      ensures Bucket() == TokenBucket.Full(perMinute.GetOr(0), nowMs)
      ensures Errors() == ErrorBudget.Errors(0, nowMs) && entries == map[]
    {
      this.perMinute, this.maxWaitMs, this.errorsPerMinute := perMinute, maxWaitMs, errorsPerMinute;
      tokens := perMinute.GetOr(0) * TokenBucket.UNIT;
      lastRefillMs := nowMs;
      blockedUntilMs := 0;
      errorCount := 0;
      errorWindowStartMs := nowMs;
      entries := map[];
    }

    ghost function Bucket(): TokenBucket.Bucket
      reads this
    {
      TokenBucket.Bucket(tokens, lastRefillMs, blockedUntilMs)
    }

    ghost function Errors(): ErrorBudget.Errors
      reads this
    {
      ErrorBudget.Errors(errorCount, errorWindowStartMs)
    }

    // ---- rate ----

    method CheckToken(nowMs: int) returns (check: TokenBucket.Check)
      modifies this`tokens, this`lastRefillMs
      ensures perMinute == None ==> check.Granted? && Bucket() == old(Bucket())
      ensures perMinute.Some? ==> (Bucket(), check) == TokenBucket.Checked(perMinute.value, old(Bucket()), nowMs)
    {
      if perMinute == None {
        return TokenBucket.Granted;
      }
      if nowMs < blockedUntilMs {
        return TokenBucket.Wait(blockedUntilMs - nowMs);
      }
      var elapsedMs := nowMs - lastRefillMs;
      if elapsedMs > 0 {
        tokens := Min(perMinute.value * TokenBucket.UNIT, tokens + elapsedMs * perMinute.value);
        lastRefillMs := nowMs;
      }
      if tokens >= TokenBucket.UNIT {
        tokens := tokens - TokenBucket.UNIT;
        return TokenBucket.Granted;
      }
      if perMinute.value == 0 {
        return TokenBucket.Never;
      }
      return TokenBucket.Wait(TokenBucket.CeilingOf(TokenBucket.UNIT - tokens, perMinute.value));
    }

    /** The wait loop, each turn reading the clock anew; it ends early when the readings do. */
    method AcquireRateLimitToken(clock: seq<int>) returns (outcome: TokenBucket.Acquired)
      modifies this`tokens, this`lastRefillMs
      ensures perMinute.Some? ==> (Bucket(), outcome) == TokenBucket.Acquire(perMinute.value, old(Bucket()), maxWaitMs, clock, 0)
      ensures perMinute == None && clock != [] ==> outcome == TokenBucket.Token(0) && Bucket() == old(Bucket())
    {
      var i := 0;
      while i < |clock|
        invariant 0 <= i <= |clock|
        invariant perMinute.Some? ==>
          TokenBucket.Acquire(perMinute.value, old(Bucket()), maxWaitMs, clock, 0)
            == TokenBucket.Acquire(perMinute.value, Bucket(), maxWaitMs, clock[i..], i)
        invariant perMinute == None ==> i == 0 && Bucket() == old(Bucket())
      {
        assert clock[i..][1..] == clock[i + 1..];
        var check := CheckToken(clock[i]);
        match check {
          case Granted => return TokenBucket.Token(i);
          case Never => return TokenBucket.TooLong(None);
          case Wait(ms) =>
            if ms > maxWaitMs {
              return TokenBucket.TooLong(Some(ms));
            }
        }
        i := i + 1;
      }
      return TokenBucket.Asleep(i);
    }

    method NoteRateLimitHeaders(exhausted: bool, nowMs: int)
      modifies this`blockedUntilMs
      ensures Bucket() == if perMinute == None then old(Bucket()) else TokenBucket.Noted(old(Bucket()), exhausted, nowMs)
    {
      if perMinute.Some? && exhausted {
        blockedUntilMs := nowMs + TokenBucket.BLOCK_MS;
      }
    }

    // ---- errors ----

    method RollErrorWindow(nowMs: int)
      modifies this`errorCount, this`errorWindowStartMs
      ensures Errors() == ErrorBudget.Rolled(old(Errors()), nowMs)
    {
      if nowMs - errorWindowStartMs >= ErrorBudget.WINDOW_MS {
        errorWindowStartMs := nowMs;
        errorCount := 0;
      }
    }

    /** Whether a fetch may go ahead: refused once this minute's errors have reached the limit. */
    method CheckErrorLimit(nowMs: int) returns (allowed: bool)
      modifies this`errorCount, this`errorWindowStartMs
      ensures errorsPerMinute == None ==> allowed && Errors() == old(Errors())
      ensures errorsPerMinute.Some? ==> Errors() == ErrorBudget.Rolled(old(Errors()), nowMs)
      ensures errorsPerMinute.Some? ==> (allowed <==> !ErrorBudget.Spent(Errors(), errorsPerMinute.value))
    {
      if errorsPerMinute == None {
        return true;
      }
      RollErrorWindow(nowMs);
      return errorCount < errorsPerMinute.value;
    }

    method NoteError(nowMs: int)
      modifies this`errorCount, this`errorWindowStartMs
      ensures Errors() == if errorsPerMinute == None then old(Errors()) else ErrorBudget.Noted(old(Errors()), nowMs)
    {
      if errorsPerMinute == None {
        return;
      }
      RollErrorWindow(nowMs);
      errorCount := errorCount + 1;
    }

    /** The retry loop, against whatever the world has ready for each attempt. */
    method FetchWithRetry(world: nat -> ErrorBudget.Attempt) returns (outcome: ErrorBudget.Outcome, fetches: nat)
      modifies this`errorCount, this`errorWindowStartMs
      ensures ErrorBudget.Retried(Errors(), outcome, fetches)
        == ErrorBudget.RetriedFrom(errorsPerMinute, old(Errors()), world, 1)
    {
      var attempt := 0;
      while true
        invariant 0 <= attempt < ErrorBudget.MAX_ATTEMPTS
        invariant ErrorBudget.RetriedFrom(errorsPerMinute, old(Errors()), world, 1)
          == ErrorBudget.RetriedFrom(errorsPerMinute, Errors(), world, attempt + 1)
        decreases ErrorBudget.MAX_ATTEMPTS - attempt
      {
        attempt := attempt + 1;
        var w := world(attempt);
        if w.aborted {
          return ErrorBudget.DeadlineExceeded, attempt - 1;
        }
        var allowed := CheckErrorLimit(w.checkMs);
        if !allowed {
          return ErrorBudget.ErrorLimitReached, attempt - 1;
        }
        match w.fetch {
          case DeadlineHit => return ErrorBudget.DeadlineExceeded, attempt;
          case TimedOut => return ErrorBudget.Timeout, attempt;
          case NetworkFailed =>
            if attempt >= ErrorBudget.MAX_ATTEMPTS {
              return ErrorBudget.NetworkError, attempt;
            }
          case Replied(status, agencyError) =>
            if !ErrorBudget.IsRetryableStatus(status) {
              if status >= 400 {
                if status < 500 {
                  NoteError(w.noteMs);
                }
                return ErrorBudget.HttpError(status), attempt;
              }
              if agencyError == None {
                return ErrorBudget.Success(status), attempt;
              }
              NoteError(w.noteMs);
              if !agencyError.value || attempt >= ErrorBudget.MAX_ATTEMPTS {
                return ErrorBudget.AgencyError, attempt;
              }
            } else {
              if 400 <= status < 500 {
                NoteError(w.noteMs);
              }
              if attempt >= ErrorBudget.MAX_ATTEMPTS {
                return ErrorBudget.HttpError(status), attempt;
              }
            }
        }
      }
    }

    // ---- cache ----

    /** A cached call up to its refresh. */
    method BeginCached(key: K, ttl: ResponseCache.Ttl, nowMs: int) returns (found: ResponseCache.LookedUp<V>)
      ensures found == ResponseCache.LookUp(entries, key, ttl, nowMs)
    {
      if ttl.freshFor.Some? && key in entries {
        var existing := entries[key];
        var ageSeconds := (nowMs - existing.storedAt) / 1000;
        if ageSeconds <= ttl.freshFor.value {
          return ResponseCache.Answered(ResponseCache.Hit(existing.value, existing.status, ageSeconds, false));
        }
        return ResponseCache.Refreshing(Some(existing), ageSeconds);
      }
      return ResponseCache.Refreshing(None, 0);
    }

    /** A cached call from its refresh on: stored and returned, served stale, or failed. */
    method EndCached(key: K, ttl: ResponseCache.Ttl, found: ResponseCache.LookedUp<V>, parsed: Option<(V, int)>, nowMs: int)
      returns (result: ResponseCache.Result<V>)
      requires found.Refreshing?
      modifies this`entries
      ensures (entries, result) == ResponseCache.Finish(old(entries), key, ttl, found, parsed, nowMs)
    {
      if parsed.Some? {
        if ttl.freshFor.Some? {
          entries := entries[key := ResponseCache.Entry(parsed.value.0, parsed.value.1, nowMs)];
        }
        return ResponseCache.Miss(parsed.value.0, parsed.value.1);
      }
      if found.existing.Some? {
        var staleLimit := if ttl.staleFor.Some? then ttl.staleFor.value else ttl.freshFor.GetOr(0);
        if found.ageSeconds <= staleLimit {
          return ResponseCache.Hit(found.existing.value.value, found.existing.value.status, found.ageSeconds, true);
        }
      }
      return ResponseCache.Failure;
    }
  }
}
