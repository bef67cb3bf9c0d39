/** Splitting an agency's published rate among the containers that share its key, and what the fleet then sends. */
module Split {
  import opened Arithmetic
  import opened Options
  import opened TokenBucket

  /** The limits a deploy carries, each possibly missing. */
  datatype Limits = Limits(total: Option<nat>, reservedConcurrency: Option<nat>)

  function UpstreamPerMinute(limits: Option<Limits>, fallback: nat): nat
    requires limits.Some? && limits.value.reservedConcurrency.Some? ==> limits.value.reservedConcurrency.value > 0
  {
    if limits == None || limits.value.total == None || limits.value.reservedConcurrency == None then fallback
    else Max(1, limits.value.total.value / limits.value.reservedConcurrency.value)
  }

  /**
   * Without limits, or without the total or the number of containers, the slice is the server's own rate; with
   * both it is the whole share, never below one.
   */
  lemma SliceOrFallback(limits: Option<Limits>, fallback: nat)
    requires limits.Some? && limits.value.reservedConcurrency.Some? ==> limits.value.reservedConcurrency.value > 0
    ensures var slice := UpstreamPerMinute(limits, fallback);
      match limits
      case Some(Limits(Some(total), Some(containers))) =>
        slice >= 1 && (if total < containers then slice == 1 else containers * slice <= total < containers * (slice + 1))
      case _ => slice == fallback
  {
    if limits.Some? && limits.value.total.Some? && limits.value.reservedConcurrency.Some? {
      var total, containers := limits.value.total.value, limits.value.reservedConcurrency.value;
      var q := total / containers;
      assert total == containers * q + total % containers;
      AddProducts(q, 1, containers);
      if containers <= total {
        QuotientIsPositive(total, containers);
      } else {
        QuotientIsZero(total, containers);
      }
    }
  }

  lemma QuotientIsZero(amount: nat, rate: nat)
    requires amount < rate
    ensures amount / rate == 0
  {
  }

  /** The slices of `containers` containers together stay within the total exactly when the total has one for each. */
  lemma SlicesFitExactly(total: nat, containers: nat, fallback: nat)
    requires containers > 0
    ensures var slice := UpstreamPerMinute(Some(Limits(Some(total), Some(containers))), fallback);
      slice >= 1 && (containers * slice <= total <==> containers <= total)
  {
    assert total == containers * (total / containers) + total % containers;
    if containers <= total {
      QuotientIsPositive(total, containers);
    }
  }

  /** One container's client: when it was made, and its events before and in the window. */
  datatype Client = Client(born: int, before: seq<Event>, window: seq<Event>)

  predicate InWindow(c: Client, start: int, end: int) {
    0 <= c.born && Monotone(c.born, c.before, start) && Monotone(start, c.window, end)
  }

  function FleetGrants(perMinute: nat, clients: seq<Client>): nat {
    if clients == [] then 0
    else
      var c := clients[|clients| - 1];
      FleetGrants(perMinute, clients[..|clients| - 1])
        + GrantCount(perMinute, After(perMinute, Full(perMinute, c.born), c.before), c.window)
  }

  lemma {:induction false} FleetSpends(perMinute: nat, clients: seq<Client>, start: int, end: int)
    requires start <= end && forall c :: c in clients ==> InWindow(c, start, end)
    ensures UNIT * FleetGrants(perMinute, clients) <= |clients| * (perMinute * (UNIT + (end - start)))
  {
    if clients != [] {
      var front, c := clients[..|clients| - 1], clients[|clients| - 1];
      FleetSpends(perMinute, front, start, end);
      assert InWindow(c, start, end);
      WindowBound(perMinute, c.born, c.before, start, c.window, end);
      Distribute(|front|, perMinute * (UNIT + (end - start)));
    }
  }

  lemma Distribute(n: nat, x: int)
    ensures (n + 1) * x == n * x + x
  {
  }

  /**
   * Containers that split a published rate of at least one token each are together granted, in any
   * span, at most that rate's own burst and refill, however each one's clock readings and blocks fall.
   */
  lemma FleetStaysWithinTotal(total: nat, clients: seq<Client>, fallback: nat, start: int, end: int)
    requires 0 < |clients| <= total && start <= end && forall c :: c in clients ==> InWindow(c, start, end)
    ensures var slice := UpstreamPerMinute(Some(Limits(Some(total), Some(|clients|))), fallback);
      UNIT * FleetGrants(slice, clients) <= total * (UNIT + (end - start))
  {
    var slice := UpstreamPerMinute(Some(Limits(Some(total), Some(|clients|))), fallback);
    SlicesFitExactly(total, |clients|, fallback);
    FleetSpends(slice, clients, start, end);
    Regroup(|clients|, slice, total, UNIT + (end - start));
  }

  lemma Regroup(n: nat, slice: nat, total: nat, x: int)
    requires n * slice <= total && x >= 0
    ensures n * (slice * x) <= total * x
  {
    assert n * (slice * x) == (n * slice) * x;
  }

  // ---- when the fleet keeps to the total ----

  ghost predicate InSpan(clients: seq<Client>, start: int, span: nat) {
    forall c :: c in clients ==> InWindow(c, start, start + span)
  }

  /** However a fleet of this size has run before, and runs in a span of this length, it is granted at most the total. */
  ghost predicate KeepsTotal(total: nat, containers: nat, slice: nat, span: nat) {
    forall clients, start :: InSpan(clients, start, span) && |clients| == containers ==> FleetGrants(slice, clients) <= total
  }

  lemma {:induction false} FleetPeak(slice: nat, clients: seq<Client>, start: int, span: nat)
    requires InSpan(clients, start, span)
    ensures FleetGrants(slice, clients) <= |clients| * Peak(slice, span)
  {
    if clients != [] {
      var front, c := clients[..|clients| - 1], clients[|clients| - 1];
      assert clients == front + [c] && c in clients;
      assert InSpan(front, start, span) by {
        forall d | d in front ensures InWindow(d, start, start + span) {
          assert d in clients;
        }
      }
      FleetPeak(slice, front, start, span);
      WindowPeak(slice, c.born, c.before, start, c.window, span);
      AddProducts(|front|, 1, Peak(slice, span));
    }
  }

  /** A fleet that starts idle, each container taking all it can. */
  function GreedyFleet(containers: nat, slice: nat, span: nat): seq<Client> {
    seq(containers, _ => Client(0, [], Greedy(slice, 0, span)))
  }

  lemma {:induction false} GreedyFleetPeaks(containers: nat, slice: nat, span: nat)
    ensures InSpan(GreedyFleet(containers, slice, span), 0, span)
    ensures FleetGrants(slice, GreedyFleet(containers, slice, span)) == containers * Peak(slice, span)
  {
    WindowBoundIsMet(slice, 0, span);
    if containers > 0 {
      var fleet := GreedyFleet(containers, slice, span);
      assert fleet[..containers - 1] == GreedyFleet(containers - 1, slice, span);
      GreedyFleetPeaks(containers - 1, slice, span);
      AddProducts(containers - 1, 1, Peak(slice, span));
    }
  }

  /** In a span of any length the fleet keeps to the total exactly when the peaks of its slices fit in it. */
  lemma KeepsTotalExactly(total: nat, containers: nat, slice: nat, span: nat)
    ensures KeepsTotal(total, containers, slice, span) <==> containers * Peak(slice, span) <= total
  {
    GreedyFleetPeaks(containers, slice, span);
    var fleet := GreedyFleet(containers, slice, span);
    assert InSpan(fleet, 0, span) && |fleet| == containers;
    forall clients, start | InSpan(clients, start, span) && |clients| == containers
      ensures FleetGrants(slice, clients) <= containers * Peak(slice, span)
    {
      FleetPeak(slice, clients, start, span);
    }
  }

  lemma PeakUnderAMinute(slice: nat, span: nat)
    requires slice > 0 && span < UNIT
    ensures slice == 1 ==> Peak(slice, span) == 1
    ensures slice > 1 ==> Peak(slice, UNIT - 1) >= slice + 1
  {
    PeakByMinute(slice, span);
    PeakByMinute(slice, UNIT - 1);
    if slice > 1 {
      assert (UNIT - 1) * slice == UNIT * slice - slice;
      assert (UNIT - 1) * slice >= UNIT;
    }
  }

  lemma SliceIsOneExactly(total: nat, containers: nat)
    requires 0 < containers <= total
    ensures total / containers == 1 <==> total < 2 * containers
    ensures total < containers * (total / containers + 1)
  {
    var q := total / containers;
    assert total == containers * q + total % containers;
    AddProducts(q, 1, containers);
    if q >= 2 {
      ProductGrows(2, q, containers);
    }
    QuotientIsPositive(total, containers);
  }

  /** Two slices for each container are always more than the total. */
  lemma TwiceTheSlicesExceed(total: nat, containers: nat, fallback: nat)
    requires containers > 0
    ensures containers * (2 * UpstreamPerMinute(Some(Limits(Some(total), Some(containers))), fallback)) > total
  {
    var slice := UpstreamPerMinute(Some(Limits(Some(total), Some(containers))), fallback);
    SlicesFitExactly(total, containers, fallback);
    if containers <= total {
      QuotientIsPositive(total, containers);
      SliceIsOneExactly(total, containers);
      ProductGrows(slice + 1, 2 * slice, containers);
    } else {
      ProductGrows(2, 2 * slice, containers);
    }
  }

  /**
   * Containers that split a total are granted at most that many tokens in every span under a minute
   * exactly when there is a token for each and no second one for each. With fewer every slice is still
   * one; with more, a slice of two or more adds what flows in during the minute to a full bucket.
   */
  lemma FleetTokensUnderAMinuteExactly(total: nat, containers: nat, fallback: nat)
    requires containers > 0
    ensures var slice := UpstreamPerMinute(Some(Limits(Some(total), Some(containers))), fallback);
      (forall span: nat :: span < UNIT ==> KeepsTotal(total, containers, slice, span))
      <==> containers <= total < 2 * containers
  {
    var slice := UpstreamPerMinute(Some(Limits(Some(total), Some(containers))), fallback);
    if containers <= total {
      SliceIsOneExactly(total, containers);
      QuotientIsPositive(total, containers);
    }
    if containers <= total < 2 * containers {
      forall span: nat | span < UNIT ensures KeepsTotal(total, containers, slice, span) {
        PeakUnderAMinute(slice, span);
        KeepsTotalExactly(total, containers, slice, span);
      }
    } else {
      assert !KeepsTotal(total, containers, slice, UNIT - 1) by {
        SlicesFitExactly(total, containers, fallback);
        PeakUnderAMinute(slice, UNIT - 1);
        KeepsTotalExactly(total, containers, slice, UNIT - 1);
        if slice > 1 {
          ProductGrows(slice + 1, Peak(slice, UNIT - 1), containers);
        }
      }
    }
  }

  /** One container alone, with a total of two a minute, is granted three tokens in half a minute. */
  lemma AloneOverTotal(fallback: nat)
    ensures UpstreamPerMinute(Some(Limits(Some(2), Some(1))), fallback) == 2
    ensures var alone := Client(0, [], [CheckAt(0), CheckAt(0), CheckAt(30_000)]);
      InSpan([alone], 0, 30_000) && FleetGrants(2, [alone]) == 3
  {
    GreedyFleetPeaks(1, 2, 30_000);
    assert Greedy(2, 0, 30_000) == [CheckAt(0), CheckAt(0), CheckAt(30_000)];
    assert GreedyFleet(1, 2, 30_000) == [Client(0, [], [CheckAt(0), CheckAt(0), CheckAt(30_000)])];
  }
}
