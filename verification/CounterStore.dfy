/**
 * The limiter's counter store: conditional increments of daily counters, and the sweep that bounds
 * the in-memory store's size. Times are milliseconds.
 */
module CounterStore {
  import opened Options

  datatype Entry = Entry(value: int, expiresAt: int)

  type Counts<K> = map<K, Entry>

  /** `value` is the count after the increment, or the unchanged count when it was refused. */
  datatype IncrementResult = IncrementResult(value: int, applied: bool)

  const SWEEP_AT: nat := 10_000

  function Read<K>(counts: Counts<K>, pk: K): int {
    if pk in counts then counts[pk].value else 0
  }

  function Swept<K>(counts: Counts<K>, nowMs: int): Counts<K> {
    if |counts| < SWEEP_AT then counts
    else map pk | pk in counts && nowMs < counts[pk].expiresAt :: counts[pk]
  }

  function Incremented<K>(counts: Counts<K>, pk: K, amount: int, expiresAt: int, max: Option<int>, nowMs: int)
    : (Counts<K>, IncrementResult)
  {
    var current := Read(counts, pk);
    if max.Some? && current + amount > max.value then (counts, IncrementResult(current, false))
    else (Swept(counts, nowMs)[pk := Entry(current + amount, expiresAt)], IncrementResult(current + amount, true))
  }

  /**
   * One increment moves no counter that is still live but its own, its own by `amount` when it was
   * applied and not at all when it was refused; the entry it writes carries the expiry given. The
   * sweep inside can therefore only ever drop expired counters.
   */
  lemma IncrementMovesOneCounter<K>(
    counts: Counts<K>, pk: K, amount: int, expiresAt: int, max: Option<int>, nowMs: int, k: K)
    requires k in counts ==> nowMs < counts[k].expiresAt
    ensures var (after, result) := Incremented(counts, pk, amount, expiresAt, max, nowMs);
      && Read(after, k) == Read(counts, k) + (if result.applied && k == pk then amount else 0)
      && (result.applied <==> max == None || Read(counts, pk) + amount <= max.value)
      && result.value == Read(counts, pk) + (if result.applied then amount else 0)
      && (k in after ==> after[k].expiresAt == if result.applied && k == pk then expiresAt else counts[k].expiresAt)
  {
  }

  /**
   * Why callers must not be more than two days behind the store's clock: another key's increment
   * leaves an expired counter in place exactly when the store is still small or refused to write.
   */
  lemma SweptExactlyWhenFullAndExpired<K>(
    counts: Counts<K>, pk: K, amount: int, expiresAt: int, max: Option<int>, nowMs: int, k: K)
    requires k in counts && k != pk
    ensures var (after, result) := Incremented(counts, pk, amount, expiresAt, max, nowMs);
      k !in after <==> result.applied && |counts| >= SWEEP_AT && counts[k].expiresAt <= nowMs
  {
  }

  /** The deployed table's conditional update: the write happens when no count is stored yet, or when it leaves room. */
  function DynamoIncremented<K>(counts: Counts<K>, pk: K, amount: int, expiresAt: int, max: Option<int>)
    : (Counts<K>, IncrementResult)
  {
    if max == None || pk !in counts || counts[pk].value <= max.value - amount
    then (counts[pk := Entry(Read(counts, pk) + amount, expiresAt)], IncrementResult(Read(counts, pk) + amount, true))
    else (counts, IncrementResult(counts[pk].value, false))
  }

  /**
   * The deployed store and the in-memory one give the same answer exactly when the counter exists
   * or its limit has room for one increment: a limit below `amount` on a fresh key is refused in memory
   * and granted by the table. And whenever they answer alike, every counter still live reads alike.
   */
  lemma DynamoAgreesExactlyWhenRoom<K>(
    counts: Counts<K>, pk: K, amount: int, expiresAt: int, max: Option<int>, nowMs: int, k: K)
    requires k in counts ==> nowMs < counts[k].expiresAt
    ensures var (table, granted) := DynamoIncremented(counts, pk, amount, expiresAt, max);
      var (memory, result) := Incremented(counts, pk, amount, expiresAt, max, nowMs);
      && (granted == result <==> pk in counts || max == None || amount <= max.value)
      && (granted == result ==> Read(table, k) == Read(memory, k))
  {
  }

  class MemoryCounterStore<K(==)> {
    var counts: Counts<K>

    constructor ()
      ensures counts == map[]
    {
      counts := map[];
    }

    method Increment(pk: K, amount: int, expiresAt: int, max: Option<int>, nowMs: int) returns (result: IncrementResult)
      modifies this
      ensures (counts, result) == Incremented(old(counts), pk, amount, expiresAt, max, nowMs)
    {
      var current := Get(pk);
      if max.Some? && current + amount > max.value {
        return IncrementResult(current, false);
      }
      Sweep(nowMs);
      counts := counts[pk := Entry(current + amount, expiresAt)];
      return IncrementResult(current + amount, true);
    }

    method Get(pk: K) returns (value: int)
      ensures value == Read(counts, pk)
    {
      value := if pk in counts then counts[pk].value else 0;
    }

    method Sweep(nowMs: int)
      modifies this
      ensures counts == Swept(old(counts), nowMs)
    {
      if |counts| < SWEEP_AT {
        return;
      }
      var pending := counts.Keys;
      while pending != {}
        invariant pending <= old(counts).Keys
        invariant counts == map pk | pk in old(counts) && (pk in pending || nowMs < old(counts)[pk].expiresAt) :: old(counts)[pk]
        decreases |pending|
      {
        var pk :| pk in pending;
        if counts[pk].expiresAt <= nowMs {
          counts := counts - {pk};
        }
        pending := pending - {pk};
      }
    }
  }
}
