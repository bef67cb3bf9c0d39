/** QCEW history: the periods to read, the reading of their slices, and the naming of those a deadline stopped. */
module Qcew {
  import opened Arithmetic
  import opened Counting
  import opened Options
  import opened Sorting
  import opened SlicePool

  const EARLIEST_YEAR: int := 2014
  const MAX_LOOKBACK: nat := 3
  const MAX_PERIODS: nat := 20

  datatype Period = Quarterly(year: int, quarter: int) | Annual(year: int)

  // ---- the periods to read ----

  /** Quarters numbered in time. */
  function Ordinal(year: int, quarter: int): int { 4 * year + quarter - 1 }

  function QuarterAt(ordinal: int): Period { Quarterly(ordinal / 4, ordinal % 4 + 1) }

  function PriorQuarter(q: Period): (p: Period)
    requires q.Quarterly? && 1 <= q.quarter <= 4
    ensures p.Quarterly? && 1 <= p.quarter <= 4 && Ordinal(p.year, p.quarter) == Ordinal(q.year, q.quarter) - 1
  {
    if q.quarter > 1 then Quarterly(q.year, q.quarter - 1) else Quarterly(q.year - 1, 4)
  }

  lemma QuarterAtOrdinal(q: Period)
    requires q.Quarterly? && 1 <= q.quarter <= 4
    ensures QuarterAt(Ordinal(q.year, q.quarter)) == q
  {
  }

  /** Quarters from one ordinal back to another, newest first and without a gap. */
  function QuartersDown(last: int, first: int): seq<Period> {
    if last < first then [] else seq(last - first + 1, i => QuarterAt(last - i))
  }

  function YearsDown(last: int, first: int): seq<Period> {
    if last < first then [] else seq(last - first + 1, i => Annual(last - i))
  }

  /** The first and the last year an explicit range asks for, before the floor. */
  function AskedFrom(startYear: Option<int>, endYear: Option<int>, latestYear: int): int {
    if startYear.Some? then startYear.value else endYear.GetOr(latestYear)
  }

  function AskedTo(endYear: Option<int>, latestYear: int): int {
    if endYear.GetOr(latestYear) <= latestYear then endYear.GetOr(latestYear) else latestYear
  }

  lemma QuartersDownGrows(last: int, q: Period)
    requires q.Quarterly? && 1 <= q.quarter <= 4 && Ordinal(q.year, q.quarter) <= last
    ensures QuartersDown(last, Ordinal(q.year, q.quarter) + 1) + [q] == QuartersDown(last, Ordinal(q.year, q.quarter))
  {
    QuarterAtOrdinal(q);
  }

  method QuartersBack(newest: Period, firstYear: int) returns (periods: seq<Period>)
    requires newest.Quarterly? && 1 <= newest.quarter <= 4
    ensures periods == QuartersDown(Ordinal(newest.year, newest.quarter), Ordinal(firstYear, 1))
  {
    periods := [];
    var q := newest;
    ghost var last := Ordinal(q.year, q.quarter);
    while q.year >= firstYear
      invariant q.Quarterly? && 1 <= q.quarter <= 4 && Ordinal(q.year, q.quarter) <= last
      invariant Ordinal(q.year, q.quarter) >= Ordinal(firstYear, 1) - 1 || Ordinal(q.year, q.quarter) == last
      invariant periods == QuartersDown(last, Ordinal(q.year, q.quarter) + 1)
      decreases Ordinal(q.year, q.quarter) - Ordinal(firstYear, 1)
    {
      QuartersDownGrows(last, q);
      periods := periods + [q];
      q := PriorQuarter(q);
    }
  }

  method YearsBack(newest: int, first: int) returns (periods: seq<Period>)
    ensures periods == YearsDown(newest, first)
  {
    periods := [];
    var y := newest;
    while y >= first
      invariant y <= newest && (y >= first - 1 || y == newest)
      invariant periods == YearsDown(newest, y + 1)
    {
      periods := periods + [Annual(y)];
      y := y - 1;
    }
  }

  method LatestQuarters(latest: Period) returns (periods: seq<Period>)
    requires latest.Quarterly? && 1 <= latest.quarter <= 4
    ensures periods == QuartersDown(Ordinal(latest.year, latest.quarter), Ordinal(latest.year, latest.quarter) - MAX_LOOKBACK + 1)
  {
    periods := [];
    var q := latest;
    ghost var last := Ordinal(q.year, q.quarter);
    for i := 0 to MAX_LOOKBACK
      invariant q.Quarterly? && 1 <= q.quarter <= 4 && Ordinal(q.year, q.quarter) == last - i
      invariant periods == QuartersDown(last, Ordinal(q.year, q.quarter) + 1)
    {
      QuartersDownGrows(last, q);
      periods := periods + [q];
      q := PriorQuarter(q);
    }
  }

  /** The last quarter of a range: the year's end, or the latest published quarter. */
  function RangeEnd(to: int, latest: Period): Period {
    if to < latest.year then Quarterly(to, 4) else latest
  }

  lemma QuarterAtIsQuarter(ordinal: int)
    ensures var q := QuarterAt(ordinal); 1 <= q.quarter <= 4 && Ordinal(q.year, q.quarter) == ordinal
  {
  }

  /** Such a list holds exactly the quarters of its range, strictly newest first. */
  lemma QuartersDownIsGapless(last: int, first: int, q: Period)
    requires q.Quarterly? && 1 <= q.quarter <= 4
    ensures first <= Ordinal(q.year, q.quarter) <= last <==> q in QuartersDown(last, first)
    ensures forall i :: 0 <= i < |QuartersDown(last, first)| ==> QuartersDown(last, first)[i] == QuarterAt(last - i)
  {
    hide QuarterAt, Ordinal;
    var all := QuartersDown(last, first);
    QuarterAtOrdinal(q);
    if first <= Ordinal(q.year, q.quarter) <= last {
      assert all[last - Ordinal(q.year, q.quarter)] == q;
    } else if q in all {
      var i :| 0 <= i < |all| && all[i] == q;
      QuarterAtIsQuarter(last - i);
      assert false;
    }
  }

  // ---- what was asked ----

  predicate IsQuarter(q: Period) { q.Quarterly? && 1 <= q.quarter <= 4 }

  /**
   * The year lies in what an explicit range asks for, and in the data: a missing start is the end, a missing end
   * the latest year.
   */
  predicate IsAskedYear(startYear: Option<int>, endYear: Option<int>, latestYear: int, year: int) {
    && year >= 2014
    && (match (startYear, endYear)
        case (Some(start), _) => year >= start
        case (None, Some(end)) => year >= end
        case (None, None) => year >= latestYear)
    && (endYear.Some? ==> year <= endYear.value)
  }

  predicate IsLater(p: Period, q: Period) {
    p.year > q.year || (p.Quarterly? && q.Quarterly? && p.year == q.year && p.quarter > q.quarter)
  }

  /** One period back in time: the year before, or the quarter before. */
  predicate IsJustBefore(p: Period, q: Period) {
    if q.Annual? then p == Annual(q.year - 1)
    else if q.quarter > 1 then p == Quarterly(q.year, q.quarter - 1)
    else p == Quarterly(q.year - 1, 4)
  }

  lemma QuartersDownMembers(end: Period, firstYear: int, q: Period)
    requires IsQuarter(end)
    ensures q in QuartersDown(Ordinal(end.year, end.quarter), Ordinal(firstYear, 1)) <==>
      IsQuarter(q) && q.year >= firstYear && !IsLater(q, end)
  {
    var all := QuartersDown(Ordinal(end.year, end.quarter), Ordinal(firstYear, 1));
    if q in all {
      var i :| 0 <= i < |all| && all[i] == q;
      QuarterAtIsQuarter(Ordinal(end.year, end.quarter) - i);
    }
    if IsQuarter(q) {
      QuartersDownIsGapless(Ordinal(end.year, end.quarter), Ordinal(firstYear, 1), q);
    }
  }

  lemma QuartersDownDescends(last: int, first: int)
    ensures var all := QuartersDown(last, first); forall i, j :: 0 <= i < j < |all| ==> IsLater(all[i], all[j])
    ensures var all := QuartersDown(last, first); forall i :: 0 < i < |all| ==> IsJustBefore(all[i], all[i - 1])
  {
    var all := QuartersDown(last, first);
    forall i, j | 0 <= i < j < |all| ensures IsLater(all[i], all[j]) && (j == i + 1 ==> IsJustBefore(all[j], all[i])) {
      QuarterAtIsQuarter(last - i);
      QuarterAtIsQuarter(last - j);
    }
  }

  lemma AskedQuarters(startYear: Option<int>, endYear: Option<int>, latest: Period, q: Period)
    requires IsQuarter(latest)
    ensures var from := AskedFrom(startYear, endYear, latest.year);
      var end := RangeEnd(AskedTo(endYear, latest.year), latest);
      q in QuartersDown(Ordinal(end.year, end.quarter), Ordinal(if from < EARLIEST_YEAR then EARLIEST_YEAR else from, 1))
      <==> IsQuarter(q) && IsAskedYear(startYear, endYear, latest.year, q.year) && !IsLater(q, latest)
  {
    var from := AskedFrom(startYear, endYear, latest.year);
    QuartersDownMembers(RangeEnd(AskedTo(endYear, latest.year), latest), if from < EARLIEST_YEAR then EARLIEST_YEAR else from, q);
  }

  lemma YearsDownMembers(last: int, first: int, p: Period)
    ensures p in YearsDown(last, first) <==> p.Annual? && first <= p.year <= last
  {
    if p.Annual? && first <= p.year <= last {
      assert YearsDown(last, first)[last - p.year] == p;
    }
  }

  /**
   * The periods to read, strictly newest first. An explicit range gives exactly the periods of the years it
   * asks for that the data have, none after the latest published quarter, and reports whether its first
   * year was moved. Otherwise the latest three are given.
   */
  method CandidatePeriods(annual: bool, explicitYears: bool, startYear: Option<int>, endYear: Option<int>, latest: Period)
    returns (periods: seq<Period>, floored: bool)
    requires IsQuarter(latest)
    ensures explicitYears && !annual ==> forall q :: q in periods <==>
      IsQuarter(q) && IsAskedYear(startYear, endYear, latest.year, q.year) && !IsLater(q, latest)
    ensures explicitYears && annual ==> forall p :: p in periods <==>
      p.Annual? && IsAskedYear(startYear, endYear, latest.year, p.year) && p.year <= latest.year
    ensures forall i, j :: 0 <= i < j < |periods| ==> IsLater(periods[i], periods[j])
    ensures floored <==> explicitYears && (match (startYear, endYear)
                                           case (Some(start), _) => start < 2014
                                           case (None, Some(end)) => end < 2014
                                           case (None, None) => latest.year < 2014)
    ensures !explicitYears ==>
      && |periods| == 3 && periods[0] == (if annual then Annual(latest.year) else latest)
      && IsJustBefore(periods[1], periods[0]) && IsJustBefore(periods[2], periods[1])
  {
    floored := false;
    if !explicitYears {
      if annual {
        periods := YearsBack(latest.year, latest.year - MAX_LOOKBACK + 1);
      } else {
        periods := LatestQuarters(latest);
        QuarterAtOrdinal(latest);
        QuartersDownDescends(Ordinal(latest.year, latest.quarter), Ordinal(latest.year, latest.quarter) - MAX_LOOKBACK + 1);
      }
      return;
    }
    var first := AskedFrom(startYear, endYear, latest.year);
    var to := AskedTo(endYear, latest.year);
    if first < EARLIEST_YEAR {
      first, floored := EARLIEST_YEAR, true;
    }
    if annual {
      periods := YearsBack(to, first);
      forall p ensures p in periods <==> p.Annual? && first <= p.year <= to {
        YearsDownMembers(to, first, p);
      }
    } else {
      var end := RangeEnd(to, latest);
      periods := QuartersBack(end, first);
      forall q ensures q in periods <==>
        IsQuarter(q) && IsAskedYear(startYear, endYear, latest.year, q.year) && !IsLater(q, latest)
      {
        AskedQuarters(startYear, endYear, latest, q);
      }
      QuartersDownDescends(Ordinal(end.year, end.quarter), Ordinal(first, 1));
    }
  }

  // ---- naming the missing periods ----

  function PeriodSortKey(p: Period): int {
    if p.Annual? then p.year * 10 else p.year * 10 + p.quarter
  }

  function Chronological(): (Period, Period) -> bool { (a: Period, b: Period) => PeriodSortKey(a) <= PeriodSortKey(b) }

  lemma ChronologicalIsPreorder()
    ensures TotalPreorder(Chronological())
  {
  }

  /** Periods that are quarters of years, or whole years. */
  predicate ArePeriods(periods: seq<Period>) { forall p :: p in periods ==> p.Quarterly? ==> 1 <= p.quarter <= 4 }

  /** A list sorted by its keys is in time order: no period comes after a later one. */
  lemma SortedIsInTime(periods: seq<Period>)
    requires ArePeriods(periods)
    ensures var sorted := Sort(periods, Chronological());
      multiset(sorted) == multiset(periods) && forall i, j :: 0 <= i < j < |sorted| ==> !IsLater(sorted[i], sorted[j])
  {
    ChronologicalIsPreorder();
    SortPermutes(periods, Chronological());
    SortSorts(periods, Chronological());
    var sorted := Sort(periods, Chronological());
    forall i, j | 0 <= i < j < |sorted| ensures !IsLater(sorted[i], sorted[j]) {
      assert sorted[i] in sorted && sorted[j] in sorted;
      assert Chronological()(sorted[i], sorted[j]);
    }
  }

  predicate IsNextQuarter(prev: Period, p: Period) {
    prev.Quarterly? && p.Quarterly? && prev.year == p.year && prev.quarter == p.quarter - 1
  }

  /** The next quarter of the same year is the one just after, and not a year's first. */
  lemma NextQuarterIsJustAfter(prev: Period, p: Period)
    requires IsQuarter(prev) && IsQuarter(p)
    ensures IsNextQuarter(prev, p) <==> IsJustBefore(prev, p) && prev.year == p.year
  {
  }

  function Flatten(groups: seq<seq<Period>>): seq<Period> {
    if groups == [] then [] else Flatten(groups[..|groups| - 1]) + groups[|groups| - 1]
  }

  ghost predicate IsStretch(group: seq<Period>) {
    group != [] && forall i :: 0 < i < |group| ==> IsNextQuarter(group[i - 1], group[i])
  }

  /** Stretches of consecutive quarters, none of which could be joined to the next. */
  ghost predicate AreStretches(groups: seq<seq<Period>>) {
    && (forall g :: 0 <= g < |groups| ==> IsStretch(groups[g]))
    && (forall g :: 0 < g < |groups| ==> !IsNextQuarter(groups[g - 1][|groups[g - 1]| - 1], groups[g][0]))
  }

  lemma LongerLastGroup(groups: seq<seq<Period>>, p: Period)
    requires groups != [] && AreStretches(groups)
    requires var last := groups[|groups| - 1]; last != [] && IsNextQuarter(last[|last| - 1], p)
    ensures var longer := groups[|groups| - 1 := groups[|groups| - 1] + [p]];
      AreStretches(longer) && Flatten(longer) == Flatten(groups) + [p]
  {
    var n, last := |groups|, groups[|groups| - 1];
    var longer := groups[n - 1 := last + [p]];
    assert longer[..n - 1] == groups[..n - 1];
    assert IsStretch(last) && IsStretch(last + [p]);
    forall g | 0 < g < n ensures !IsNextQuarter(longer[g - 1][|longer[g - 1]| - 1], longer[g][0]) {
      assert longer[g - 1] == groups[g - 1] && longer[g][0] == groups[g][0];
    }
  }

  lemma NewLastGroup(groups: seq<seq<Period>>, p: Period)
    requires AreStretches(groups)
    requires groups != [] ==> var last := groups[|groups| - 1]; last != [] && !IsNextQuarter(last[|last| - 1], p)
    ensures AreStretches(groups + [[p]]) && Flatten(groups + [[p]]) == Flatten(groups) + [p]
  {
    var more := groups + [[p]];
    assert more[..|groups|] == groups;
    assert IsStretch([p]);
    forall g | 0 < g < |more| ensures !IsNextQuarter(more[g - 1][|more[g - 1]| - 1], more[g][0]) {
      assert more[g - 1] == groups[g - 1];
      assert g < |groups| ==> more[g] == groups[g];
    }
  }

  /** The periods a deadline stopped, in time order and grouped: nothing is lost, and every group is as long as it can be. */
  method GroupMissing(missing: seq<Period>) returns (groups: seq<seq<Period>>)
    ensures Flatten(groups) == Sort(missing, Chronological())
    ensures AreStretches(groups)
    ensures multiset(Flatten(groups)) == multiset(missing)
    ensures ArePeriods(missing) ==>
      forall i, j :: 0 <= i < j < |Flatten(groups)| ==> !IsLater(Flatten(groups)[i], Flatten(groups)[j])
  {
    hide Sort, Insert, ArePeriods, IsLater, PeriodSortKey;
    SortPermutes(missing, Chronological());
    if ArePeriods(missing) {
      SortedIsInTime(missing);
    }
    var sorted := Sort(missing, Chronological());
    groups := [];
    for i := 0 to |sorted|
      invariant Flatten(groups) == sorted[..i]
      invariant AreStretches(groups)
    {
      var p := sorted[i];
      var n := |groups|;
      if n > 0 && IsNextQuarter(groups[n - 1][|groups[n - 1]| - 1], p) {
        LongerLastGroup(groups, p);
        groups := groups[n - 1 := groups[n - 1] + [p]];
      } else {
        NewLastGroup(groups, p);
        groups := groups + [[p]];
      }
      assert sorted[..i + 1] == sorted[..i] + [p];
    }
    assert sorted[..|sorted|] == sorted;
  }

  lemma FlattenEnds(groups: seq<seq<Period>>)
    requires groups != [] && AreStretches(groups)
    ensures var whole, last := Flatten(groups), groups[|groups| - 1];
      && 0 < |last| <= |whole| && whole[|whole| - |last|..] == last
      && whole[..|whole| - |last|] == Flatten(groups[..|groups| - 1])
    ensures AreStretches(groups[..|groups| - 1])
  {
    var front, last := groups[..|groups| - 1], groups[|groups| - 1];
    assert IsStretch(last);
    var whole := Flatten(front) + last;
    assert Flatten(groups) == whole;
    assert whole[|whole| - |last|..] == last && whole[..|whole| - |last|] == Flatten(front);
    StretchesFront(groups);
  }

  lemma StretchesFront(groups: seq<seq<Period>>)
    requires groups != [] && AreStretches(groups)
    ensures AreStretches(groups[..|groups| - 1])
  {
    var front := groups[..|groups| - 1];
    assert forall g :: 0 <= g < |front| ==> front[g] == groups[g];
  }

  /** Inside the last group every step is to the next quarter. */
  lemma InsideLast(groups: seq<seq<Period>>, k: nat)
    requires groups != [] && AreStretches(groups) && 0 < k < |groups[|groups| - 1]|
    ensures var whole := Flatten(groups); k < |whole| && IsNextQuarter(whole[|whole| - k - 1], whole[|whole| - k])
  {
    var whole, last := Flatten(groups), groups[|groups| - 1];
    FlattenEnds(groups);
    assert IsNextQuarter(last[|last| - k - 1], last[|last| - k]);
    assert last[|last| - k - 1] == whole[|whole| - k - 1] && last[|last| - k] == whole[|whole| - k];
  }

  /** Into the last group the step is to another quarter. */
  lemma BeforeLast(groups: seq<seq<Period>>)
    requires groups != [] && AreStretches(groups) && |groups[|groups| - 1]| < |Flatten(groups)|
    ensures var whole, n := Flatten(groups), |groups[|groups| - 1]|; !IsNextQuarter(whole[|whole| - n - 1], whole[|whole| - n])
  {
    var whole, last, front := Flatten(groups), groups[|groups| - 1], groups[..|groups| - 1];
    FlattenEnds(groups);
    assert front != [];
    FlattenEnds(front);
    var before := front[|front| - 1];
    assert before == groups[|groups| - 2];
    assert Flatten(front)[|Flatten(front)| - 1] == before[|before| - 1];
    assert whole[|whole| - |last|] == last[0];
    assert whole[|whole| - |last| - 1] == Flatten(front)[|Flatten(front)| - 1];
  }

  lemma LastIsNoLonger(a: seq<seq<Period>>, b: seq<seq<Period>>)
    requires a != [] && b != [] && AreStretches(a) && AreStretches(b) && Flatten(a) == Flatten(b)
    ensures |b[|b| - 1]| <= |a[|a| - 1]|
  {
    FlattenEnds(a);
    FlattenEnds(b);
    if |a[|a| - 1]| < |b[|b| - 1]| {
      BeforeLast(a);
      InsideLast(b, |a[|a| - 1]|);
      assert false;
    }
  }

  /** A list has only one such grouping. */
  lemma {:induction false} StretchesAreUnique(a: seq<seq<Period>>, b: seq<seq<Period>>)
    requires AreStretches(a) && AreStretches(b) && Flatten(a) == Flatten(b)
    ensures a == b
    decreases |a|
  {
    if a != [] {
      FlattenEnds(a);
    }
    if b != [] {
      FlattenEnds(b);
    }
    if a != [] && b != [] {
      LastIsNoLonger(a, b);
      LastIsNoLonger(b, a);
      StretchesAreUnique(a[..|a| - 1], b[..|b| - 1]);
      assert a == a[..|a| - 1] + [a[|a| - 1]] && b == b[..|b| - 1] + [b[|b| - 1]];
    }
  }

  // ---- reading the slices ----

  predicate Published(slot: Slot) { slot.Csv? && slot.csv.Some? && slot.csv.value != "" }

  /** The rows that published slices hold for the selection, newest first. */
  function RowsIn<R>(parse: string -> Option<R>, slots: seq<Slot>): seq<R> {
    if slots == [] then []
    else
      var front, last := slots[..|slots| - 1], slots[|slots| - 1];
      var row := if Published(last) then parse(last.csv.value) else None;
      if row.Some? then RowsIn(parse, front) + [row.value] else RowsIn(parse, front)
  }

  /** The periods whose slices the deadline stopped. */
  function StoppedIn(window: seq<Period>, slots: seq<Slot>): seq<Period>
    requires |slots| <= |window|
  {
    if slots == [] then []
    else
      var n := |slots| - 1;
      if slots[n].TimedOut? then StoppedIn(window, slots[..n]) + [window[n]] else StoppedIn(window, slots[..n])
  }

  /** Four slices are fetched for the latest row alone, and twenty-three for a history of twenty quarters. */
  lemma WindowIsFirstPeriods(periods: seq<Period>, latestOnly: bool)
    ensures Window(periods, latestOnly) <= periods
    ensures |Window(periods, latestOnly)| == Min(if latestOnly then 4 else 23, |periods|)
  {
  }

  predicate HasRow<R>(parse: string -> Option<R>, slot: Slot) {
    slot.Csv? && slot.csv.Some? && slot.csv.value != "" && parse(slot.csv.value).Some?
  }

  ghost function GivesRow<R>(parse: string -> Option<R>): Slot -> bool { (slot: Slot) => HasRow(parse, slot) }

  ghost function IsStopped(): Slot -> bool { (slot: Slot) => slot.TimedOut? }

  /** Each slice that was published and holds a row gives it, at the place of those before it; there are no other rows. */
  lemma {:induction false} RowsAreTheSlices<R>(parse: string -> Option<R>, slots: seq<Slot>, i: nat)
    requires i < |slots|
    ensures |RowsIn(parse, slots)| == Count(slots, GivesRow(parse))
    ensures HasRow(parse, slots[i]) ==>
      var at := Count(slots[..i], GivesRow(parse));
      at < |RowsIn(parse, slots)| && Some(RowsIn(parse, slots)[at]) == parse(slots[i].csv.value)
  {
    var front := slots[..|slots| - 1];
    if front != [] {
      RowsAreTheSlices(parse, front, if i < |front| then i else 0);
    }
    assert i < |front| ==> slots[..i] == front[..i];
  }

  /** Each stopped slice's period is reported, at the place of those before it; there are no others. */
  lemma {:induction false} StoppedAreThePeriods(window: seq<Period>, slots: seq<Slot>, i: nat)
    requires i < |slots| <= |window|
    ensures |StoppedIn(window, slots)| == Count(slots, IsStopped())
    ensures slots[i].TimedOut? ==>
      var at := Count(slots[..i], IsStopped()); at < |StoppedIn(window, slots)| && StoppedIn(window, slots)[at] == window[i]
  {
    var front := slots[..|slots| - 1];
    if front != [] {
      StoppedAreThePeriods(window, front, if i < |front| then i else 0);
    }
    assert i < |front| ==> slots[..i] == front[..i];
  }

  /** What was read, from the slices consumed; `capped` says that periods were left unread because enough rows were found. */
  datatype Reading<R> =
    | Reading(rows: seq<R>, missing: seq<Period>, anyPublished: bool, consumed: nat, capped: bool)
    | NothingRetrieved

  function Wanted(latestOnly: bool): nat { if latestOnly then 1 else MAX_PERIODS }

  /** The periods whose slices are fetched: as many as wanted, and a few more for those not yet published. */
  function Window(periods: seq<Period>, latestOnly: bool): seq<Period> {
    periods[..Min(Wanted(latestOnly) + MAX_LOOKBACK, |periods|)]
  }

  /**
   * Rows newest first, up to as many as wanted. Reading stops early only with enough rows, and every
   * slice the deadline stopped before that is reported missing; if nothing at all was published and
   * something was stopped, the reading fails rather than look empty.
   */
  method ReadSlices<R>(parse: string -> Option<R>, periods: seq<Period>, latestOnly: bool, slots: seq<Slot>)
    returns (reading: Reading<R>)
    requires |slots| == |Window(periods, latestOnly)|
    ensures reading.Reading? ==>
      && reading.consumed <= |slots|
      && reading.rows == RowsIn(parse, slots[..reading.consumed]) && |reading.rows| <= Wanted(latestOnly)
      && reading.missing == StoppedIn(Window(periods, latestOnly), slots[..reading.consumed])
      && (reading.consumed < |slots| ==> |reading.rows| == Wanted(latestOnly))
      && (reading.capped <==> !latestOnly && |reading.rows| == MAX_PERIODS && reading.consumed < |periods|)
      && (reading.anyPublished <==> exists i :: 0 <= i < reading.consumed && Published(slots[i]))
    ensures reading.NothingRetrieved? <==>
      (exists i :: 0 <= i < |slots| && slots[i].TimedOut?) && forall i :: 0 <= i < |slots| ==> !Published(slots[i])
  {
    var window, want := Window(periods, latestOnly), Wanted(latestOnly);
    var rows: seq<R> := [];
    var missing: seq<Period> := [];
    var anyPublished := false;
    var consumed := 0;
    while consumed < |slots| && |rows| < want
      invariant 0 <= consumed <= |slots| && |rows| <= want
      invariant rows == RowsIn(parse, slots[..consumed])
      invariant missing == StoppedIn(window, slots[..consumed])
      invariant missing != [] <==> exists i :: 0 <= i < consumed && slots[i].TimedOut?
      invariant anyPublished <==> exists i :: 0 <= i < consumed && Published(slots[i])
      invariant rows != [] ==> anyPublished
    {
      var slot := slots[consumed];
      assert slots[..consumed + 1][..consumed] == slots[..consumed];
      consumed := consumed + 1;
      if slot.TimedOut? {
        missing := missing + [window[consumed - 1]];
      } else if Published(slot) {
        anyPublished := true;
        var row := parse(slot.csv.value);
        if row.Some? {
          rows := rows + [row.value];
        }
      }
    }
    if rows == [] && !anyPublished && missing != [] {
      return NothingRetrieved;
    }
    return Reading(rows, missing, anyPublished, consumed, !latestOnly && |rows| >= want && |periods| > consumed);
  }
}
