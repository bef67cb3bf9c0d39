/** When place resolution answers, when it stops, and what its first candidate and its notice guarantee. */
module ResolverTheorems {
  import opened Options
  import opened Sorting
  import opened Resolver

  // ---- the filters ----

  /** The catalog links the place to the town as one municipality. */
  ghost predicate IsPlaceOf(place: Scored, town: Scored) {
    Level(place) == PLACE &&
    exists p :: p in place.candidate.parents && p.level == TOWN && p.geoid == town.candidate.geoid
  }

  /**
   * The town fold drops exactly the towns whose own municipality is in the list as a place, which stays;
   * the metro filter drops exactly the metros, and only where it applies and an exact match of another
   * kind stays. So neither empties a list that had rows.
   */
  lemma FiltersKeepAnAnswer(rows: seq<Scored>, applies: bool)
    ensures forall c :: c in Folded(rows) <==> c in rows && !(Level(c) == TOWN && exists p :: p in rows && IsPlaceOf(p, c))
    ensures forall c :: c in rows && c !in Folded(rows) ==> exists p :: p in Folded(rows) && IsPlaceOf(p, c)
    ensures forall c :: c in MetrosAsFallback(rows, applies) <==>
      c in rows && !(Level(c) == METRO && applies && exists d :: d in rows && d.isExact && Level(d) != METRO)
    ensures forall c :: c in rows && c !in MetrosAsFallback(rows, applies) ==>
      exists d :: d in MetrosAsFallback(rows, applies) && d.isExact && Level(d) != METRO
    ensures rows != [] ==> Folded(rows) != [] && MetrosAsFallback(rows, applies) != []
  {
    forall c | c in rows
      ensures c !in Folded(rows) <==> Level(c) == TOWN && exists p :: p in rows && IsPlaceOf(p, c)
      ensures c !in Folded(rows) ==> exists p :: p in Folded(rows) && IsPlaceOf(p, c)
    {
      if c !in Folded(rows) {
        assert c.candidate.geoid in TwinTowns(rows);
        var p, parent :| p in rows && Level(p) == PLACE && parent in p.candidate.parents && parent.level == TOWN
          && parent.geoid == c.candidate.geoid;
        assert p in Folded(rows) && IsPlaceOf(p, c);
      }
      if Level(c) == TOWN && exists p :: p in rows && IsPlaceOf(p, c) {
        var p :| p in rows && IsPlaceOf(p, c);
        var parent :| parent in p.candidate.parents && parent.level == TOWN && parent.geoid == c.candidate.geoid;
        assert c.candidate.geoid in TwinTowns(rows);
      }
    }
    var exact := Filter(rows, (c: Scored) => c.isExact && Level(c) != METRO);
    if exact != [] {
      assert exact[0] in exact;
      assert exact[0] in MetrosAsFallback(rows, applies);
    }
    if rows != [] {
      assert rows[0] in rows;
    }
  }

  /** A town whose own municipality is in the list as a place. */
  ghost predicate FoldsAway(rows: seq<Scored>, c: Scored) { Level(c) == TOWN && exists p :: p in rows && IsPlaceOf(p, c) }

  /** Both filters and the county's leave the rest in its order: this is what remains of a list under all three. */
  ghost predicate Remains(rows: seq<Scored>, asked: Asked, c: Scored) {
    && c in rows && !FoldsAway(rows, c)
    && !(Level(c) == METRO && asked.stateFips.Some? && !asked.levelsGiven
         && exists d :: d in rows && !FoldsAway(rows, d) && d.isExact && Level(d) != METRO)
    && (asked.county.Some? ==> exists p :: p in c.candidate.parents && p.level == COUNTY && p.normalizedName == asked.county.value)
  }

  lemma PoolMembers(rows: seq<Scored>, asked: Asked, c: Scored)
    ensures c in Pool(rows, asked) <==> Remains(rows, asked, c)
  {
    FiltersKeepAnAnswer(rows, true);
    FiltersKeepAnAnswer(Folded(rows), asked.stateFips.Some? && !asked.levelsGiven);
    hide Folded, MetrosAsFallback;
    var metros := MetrosAsFallback(Folded(rows), asked.stateFips.Some? && !asked.levelsGiven);
    assert asked.county.Some? ==> (c in InCounty(metros, asked.county) <==> c in metros && HasCounty(c, asked.county.value));
  }

  lemma PoolIsFiltered(rows: seq<Scored>, asked: Asked) returns (kept: Scored -> bool)
    ensures Pool(rows, asked) == Filter(rows, kept)
  {
    var folded, applies := Folded(rows), asked.stateFips.Some? && !asked.levelsGiven;
    var unfolded := Unfolded(TwinTowns(rows));
    var metros := MetrosAsFallback(folded, applies);
    var notMetro := if metros == folded then (c: Scored) => true else (c: Scored) => Level(c) != METRO;
    FilterKeepsAll(folded, (c: Scored) => true);
    var mid := (c: Scored) => unfolded(c) && notMetro(c);
    FilterTwice(rows, unfolded, notMetro, mid);
    kept := mid;
    if asked.county.Some? {
      var county := (c: Scored) => HasCounty(c, asked.county.value);
      kept := (c: Scored) => mid(c) && county(c);
      FilterTwice(rows, mid, county, kept);
    }
  }

  ghost function Remaining(rows: seq<Scored>, asked: Asked): Scored -> bool { (c: Scored) => Remains(rows, asked, c) }

  /**
   * The rows ranked are those that all three filters leave, as often as they were and in their order:
   * metros give way under a state without a kind, the county keeps its own.
   */
  lemma PoolExactly(rows: seq<Scored>, asked: Asked)
    ensures Pool(rows, asked) == Filter(rows, Remaining(rows, asked))
  {
    var kept := PoolIsFiltered(rows, asked);
    hide Pool, Remains;
    forall c | c in rows ensures kept(c) <==> Remaining(rows, asked)(c) {
      PoolMembers(rows, asked, c);
      assert c in Filter(rows, kept) <==> kept(c);
    }
    FilterTwice(rows, kept, kept, Remaining(rows, asked));
    FilterTwice(rows, kept, kept, kept);
  }

  // ---- ranking ----

  lemma {:induction false} LargestIsAttained(s: seq<Scored>, among: Scored -> bool)
    ensures forall c :: c in s && among(c) ==> Pop(c) <= Largest(s, among)
    ensures Largest(s, among) > 0 ==> exists c :: c in s && among(c) && Pop(c) == Largest(s, among)
  {
    if s != [] {
      var front, last := s[..|s| - 1], s[|s| - 1];
      LargestIsAttained(front, among);
      assert s == front + [last];
      assert last in s;
      if Largest(front, among) > 0 {
        var c :| c in front && among(c) && Pop(c) == Largest(front, among);
        assert c in s;
      }
    }
  }

  lemma RankOrderIsPreorder(pool: seq<Scored>)
    ensures TotalPreorder(RankOrder(pool)) && TotalPreorder(ByPopulation())
  {
  }

  /** Ranking reorders the pool: tier by tier, and by score within a tier. */
  lemma RankedSortsPool(rows: seq<Scored>, asked: Asked)
    ensures multiset(Ranked(rows, asked)) == multiset(Pool(rows, asked))
    ensures forall c :: c in Ranked(rows, asked) <==> c in Pool(rows, asked)
    ensures Sorted(Ranked(rows, asked), RankOrder(Pool(rows, asked)))
  {
    var pool := Pool(rows, asked);
    SortPermutes(pool, RankOrder(pool));
    RankOrderIsPreorder(pool);
    SortSorts(pool, RankOrder(pool));
  }

  lemma FirstRanksBefore(rows: seq<Scored>, asked: Asked, c: Scored)
    requires c in Pool(rows, asked)
    ensures Ranked(rows, asked) != [] && RankOrder(Pool(rows, asked))(Ranked(rows, asked)[0], c)
    ensures Ranked(rows, asked)[0] in Pool(rows, asked)
  {
    var ranked := Ranked(rows, asked);
    RankedSortsPool(rows, asked);
    var i :| 0 <= i < |ranked| && ranked[i] == c;
    assert ranked[0] in ranked;
  }

  /** A row is dominated by a state exactly when some exact state has ten times its known population. */
  lemma DominatedByStateExactly(c: Scored, pool: seq<Scored>)
    ensures IsDominatedByState(c, pool) <==>
      && c.isExact && Level(c) != STATE && c.candidate.population.Some?
      && exists s :: s in pool && s.isExact && Level(s) == STATE && Pop(s) > 0 && Pop(s) >= STATE_DOMINANCE_RATIO * Pop(c)
  {
    LargestIsAttained(pool, ExactState());
  }

  /**
   * A town is dominated exactly when some exact match that is no town has ten times its population, an unknown
   * one counting as none.
   */
  lemma DominatedTownExactly(c: Scored, pool: seq<Scored>)
    ensures IsDominatedTown(c, pool) <==>
      && Level(c) == TOWN
      && exists d :: d in pool && d.isExact && Level(d) != TOWN && Pop(d) > 0 && Pop(d) >= STATE_DOMINANCE_RATIO * Pop(c)
  {
    LargestIsAttained(pool, ExactNonTown());
  }

  /** The four groups of the ranking: exact matches, exact ones passed over for a state, inexact ones, dominated towns. */
  ghost predicate GroupedBefore(a: Scored, b: Scored, pool: seq<Scored>) {
    && (IsDominatedTown(a, pool) ==> IsDominatedTown(b, pool))
    && (!a.isExact ==> !b.isExact || IsDominatedTown(b, pool))
    && (IsDominatedByState(a, pool) ==> IsDominatedByState(b, pool) || !b.isExact || IsDominatedTown(b, pool))
  }

  ghost predicate SameGroup(a: Scored, b: Scored, pool: seq<Scored>) {
    && (IsDominatedTown(a, pool) <==> IsDominatedTown(b, pool))
    && (!IsDominatedTown(a, pool) ==> a.isExact == b.isExact && (IsDominatedByState(a, pool) <==> IsDominatedByState(b, pool)))
  }

  lemma TierIsGroup(a: Scored, b: Scored, pool: seq<Scored>)
    ensures Tier(a, pool) <= Tier(b, pool) ==> GroupedBefore(a, b, pool)
    ensures SameGroup(a, b, pool) ==> Tier(a, pool) == Tier(b, pool)
  {
  }

  /** The ranking goes group by group, and by falling score within a group; rows of one group and score keep their order. */
  lemma RankingOrder(rows: seq<Scored>, asked: Asked)
    ensures var pool, ranked := Pool(rows, asked), Ranked(rows, asked);
      forall i, j :: 0 <= i < j < |ranked| ==>
        GroupedBefore(ranked[i], ranked[j], pool) && (SameGroup(ranked[i], ranked[j], pool) ==> ranked[i].score >= ranked[j].score)
    ensures var pool, ranked := Pool(rows, asked), Ranked(rows, asked);
      forall a :: Filter(ranked, LikeIn(a, pool)) == Filter(pool, LikeIn(a, pool))
  {
    hide Pool, IsDominatedTown, IsDominatedByState;
    var pool, ranked := Pool(rows, asked), Ranked(rows, asked);
    RankedSortsPool(rows, asked);
    forall i, j | 0 <= i < j < |ranked|
      ensures GroupedBefore(ranked[i], ranked[j], pool)
      ensures SameGroup(ranked[i], ranked[j], pool) ==> ranked[i].score >= ranked[j].score
    {
      assert RankOrder(pool)(ranked[i], ranked[j]);
      TierIsGroup(ranked[i], ranked[j], pool);
    }
    RankOrderIsPreorder(pool);
    forall a, b, c ensures SameGroup(a, b, pool) && SameGroup(a, c, pool) ==> Tier(b, pool) == Tier(c, pool) {
      TierIsGroup(a, b, pool);
      TierIsGroup(a, c, pool);
    }
    forall a ensures Filter(ranked, LikeIn(a, pool)) == Filter(pool, LikeIn(a, pool)) {
      SortStable(pool, RankOrder(pool), LikeIn(a, pool));
    }
  }

  /** The rows that rank with this one. */
  ghost function LikeIn(a: Scored, pool: seq<Scored>): Scored -> bool {
    (b: Scored) => SameGroup(a, b, pool) && a.score == b.score
  }

  /** Dominance cannot set every exact match aside: what dominates is exact itself, and a state is never dominated. */
  lemma SomeExactUndominated(pool: seq<Scored>, c: Scored)
    requires c in pool && c.isExact
    ensures exists d :: d in pool && d.isExact && !Dominated(d, pool)
  {
    LargestIsAttained(pool, ExactNonTown());
    LargestIsAttained(pool, ExactState());
    if exists d :: d in pool && IsDominatedByState(d, pool) {
      var state :| state in pool && ExactState()(state) && Pop(state) == Largest(pool, ExactState());
      assert !Dominated(state, pool);
    } else if IsDominatedTown(c, pool) {
      var lead :| lead in pool && ExactNonTown()(lead) && Pop(lead) == Largest(pool, ExactNonTown());
      assert !Dominated(lead, pool);
    } else {
      assert !Dominated(c, pool);
    }
  }

  /** Whenever an exact match survives the filters, the first row is exact and undominated. */
  lemma TopIsExactAndUndominated(rows: seq<Scored>, asked: Asked)
    requires exists c :: c in Pool(rows, asked) && c.isExact
    ensures var ranked := Ranked(rows, asked);
      ranked != [] && ranked[0].isExact && !Dominated(ranked[0], Pool(rows, asked))
  {
    var pool := Pool(rows, asked);
    var ranked := Ranked(rows, asked);
    var c :| c in pool && c.isExact;
    SomeExactUndominated(pool, c);
    var d :| d in pool && d.isExact && !Dominated(d, pool);
    FirstRanksBefore(rows, asked, d);
    assert Tier(d, pool) == 0;
  }

  // ---- when an answer is given ----

  /** Undominated exact matches are all of one kind. */
  ghost predicate KindsSettled(pool: seq<Scored>) {
    forall a, b :: a in pool && b in pool && a.isExact && b.isExact && !Dominated(a, pool) && !Dominated(b, pool)
      ==> Level(a) == Level(b)
  }

  /** One of these, counted once, has ten times the population of every other. */
  ghost predicate OneLeads(rivals: seq<Scored>) {
    exists lead :: lead in rivals && LeadsAll(lead, multiset(rivals) - multiset{lead})
  }

  ghost predicate LeadsAll(lead: Scored, others: multiset<Scored>) {
    forall r :: r in others ==> Pop(lead) >= STATE_DOMINANCE_RATIO * Pop(r)
  }

  /** Exact towns sharing the top town's name and state: one alone, or one that leads tenfold. */
  ghost predicate TownsSettled(ranked: seq<Scored>) {
    ranked != [] && ranked[0].isExact && Level(ranked[0]) == TOWN ==> OneLeads(TownRivals(ranked))
  }

  /** These lie in one state, or one of them has ten times the population of each in another state. */
  ghost predicate StatesSettled(rivals: seq<Scored>) {
    || OneState(rivals)
    || (exists lead :: lead in rivals && LeadsElsewhere(rivals, lead))
  }

  ghost predicate LeadsElsewhere(rivals: seq<Scored>, lead: Scored) {
    forall r :: r in rivals && r.candidate.stateFips != lead.candidate.stateFips
      ==> Pop(lead) >= STATE_DOMINANCE_RATIO * Pop(r)
  }

  ghost predicate Settled(rows: seq<Scored>, asked: Asked) {
    var ranked := Ranked(rows, asked);
    && (asked.kindGiven || KindsSettled(Pool(rows, asked)))
    && TownsSettled(ranked)
    && (asked.stateFips == None && asked.limit > 0 && ranked != [] ==> StatesSettled(StateRivals(ranked, Some(Level(ranked[0])))))
  }

  lemma SeveralMeansTwo<T(!new)>(s: set<T>)
    ensures |s| > 1 <==> exists a, b :: a in s && b in s && a != b
  {
    if |s| > 1 {
      var a :| a in s;
      assert |s - {a}| == |s| - 1;
      var b :| b in s - {a};
    } else if s != {} {
      var a :| a in s;
      assert |s - {a}| == 0;
      assert s == {a};
    }
  }

  lemma KindsSettledExactly(rows: seq<Scored>, asked: Asked)
    ensures var pool := Pool(rows, asked);
      |StrongKinds(Ranked(rows, asked), pool)| > 1 <==> !KindsSettled(pool)
  {
    var pool := Pool(rows, asked);
    var kinds := StrongKinds(Ranked(rows, asked), pool);
    RankedSortsPool(rows, asked);
    SeveralMeansTwo(kinds);
    if !KindsSettled(pool) {
      var a, b :| a in pool && b in pool && a.isExact && b.isExact && !Dominated(a, pool) && !Dominated(b, pool)
        && Level(a) != Level(b);
      assert Level(a) in kinds && Level(b) in kinds;
    }
  }

  ghost predicate Descending(s: seq<Scored>) {
    forall i, j :: 0 <= i < j < |s| ==> Pop(s[i]) >= Pop(s[j])
  }

  lemma ByPopulationDescends(rivals: seq<Scored>)
    ensures var byPop := Sort(rivals, ByPopulation());
      && Descending(byPop) && multiset(byPop) == multiset(rivals) && |byPop| == |rivals|
      && forall r :: r in byPop <==> r in rivals
  {
    SortPermutes(rivals, ByPopulation());
    RankOrderIsPreorder(rivals);
    SortSorts(rivals, ByPopulation());
  }

  lemma FirstLeadsRest(first: Scored, rest: seq<Scored>)
    requires rest != [] && Descending([first] + rest)
    ensures Pop(first) >= STATE_DOMINANCE_RATIO * Pop(rest[0]) <==> LeadsAll(first, multiset(rest))
  {
    assert rest[0] in multiset(rest);
    forall r | r in multiset(rest) ensures Pop(rest[0]) >= Pop(r) {
      var i :| 0 <= i < |rest| && rest[i] == r;
      assert ([first] + rest)[i + 1] == r && ([first] + rest)[1] == rest[0];
    }
  }

  lemma OtherLeaderMeansNoPeople(byPop: seq<Scored>, lead: Scored)
    requires byPop != [] && Descending(byPop) && lead in byPop && lead != byPop[0]
    requires LeadsAll(lead, multiset(byPop) - multiset{lead})
    ensures Pop(byPop[0]) == 0
  {
    var i :| 0 <= i < |byPop| && byPop[i] == lead;
    assert byPop[0] in multiset(byPop);
    assert byPop[0] in multiset(byPop) - multiset{lead};
  }

  /** In a list sorted by population, the first leads the second tenfold exactly when some row leads all others. */
  lemma FirstLeadsExactly(byPop: seq<Scored>)
    requires |byPop| >= 2 && Descending(byPop)
    ensures Pop(byPop[0]) >= STATE_DOMINANCE_RATIO * Pop(byPop[1]) <==> OneLeads(byPop)
  {
    var first, rest := byPop[0], byPop[1..];
    assert byPop == [first] + rest;
    assert multiset(byPop) - multiset{first} == multiset(rest);
    FirstLeadsRest(first, rest);
    if OneLeads(byPop) {
      var lead :| lead in byPop && LeadsAll(lead, multiset(byPop) - multiset{lead});
      if lead != first {
        OtherLeaderMeansNoPeople(byPop, lead);
      }
    }
  }

  lemma TownsSettledExactly(ranked: seq<Scored>)
    ensures SameStateTownRivals(ranked) == None <==> TownsSettled(ranked)
  {
    if ranked != [] && ranked[0].isExact && Level(ranked[0]) == TOWN {
      var rivals := TownRivals(ranked);
      assert ranked[0] in ranked;
      assert ranked[0] in rivals;
      if |rivals| >= 2 {
        ByPopulationDescends(rivals);
        FirstLeadsExactly(Sort(rivals, ByPopulation()));
        assert OneLeads(Sort(rivals, ByPopulation())) <==> OneLeads(rivals);
      } else {
        assert rivals == [ranked[0]];
        assert multiset(rivals) - multiset{ranked[0]} == multiset{};
      }
    }
  }

  /** The first of the most populous rows, one without a population counting as empty. */
  function FirstLargest(s: seq<Scored>): Scored
    requires s != []
  {
    if |s| == 1 then s[0]
    else
      var c := FirstLargest(s[..|s| - 1]);
      if Pop(s[|s| - 1]) > Pop(c) then s[|s| - 1] else c
  }

  lemma {:induction false} FirstLargestComesFirst(s: seq<Scored>)
    requires s != []
    ensures var byPop := Sort(s, ByPopulation()); byPop != [] && byPop[0] == FirstLargest(s)
    ensures FirstLargest(s) in s && forall c :: c in s ==> Pop(c) <= Pop(FirstLargest(s))
  {
    var front, last := s[..|s| - 1], s[|s| - 1];
    assert s == front + [last];
    RankOrderIsPreorder(s);
    if front == [] {
      assert s == [last] && Sort(front, ByPopulation()) == [];
    } else {
      FirstLargestComesFirst(front);
      SortSorts(front, ByPopulation());
      InsertHead(Sort(front, ByPopulation()), last, ByPopulation());
    }
  }

  /** The two rivals that are compared: the most populous, and the most populous of the other states. */
  ghost predicate LeadersKnown(rivals: seq<Scored>) {
    rivals != [] ==>
      var lead := FirstLargest(rivals);
      var others := Elsewhere(rivals, lead.candidate.stateFips);
      lead.candidate.population.Some? && (others != [] ==> FirstLargest(others).candidate.population.Some?)
  }

  lemma RunnerUpIsLargestElsewhere(rivals: seq<Scored>, state: Option<string>)
    ensures var others := Elsewhere(Sort(rivals, ByPopulation()), state);
      if Elsewhere(rivals, state) == [] then others == [] else others != [] && others[0] == FirstLargest(Elsewhere(rivals, state))
  {
    RankOrderIsPreorder(rivals);
    FilterSort(rivals, (c: Scored) => c.candidate.stateFips != state, ByPopulation());
    if Elsewhere(rivals, state) != [] {
      FirstLargestComesFirst(Elsewhere(rivals, state));
    }
  }

  ghost predicate OneState(rivals: seq<Scored>) {
    forall a, b :: a in rivals && b in rivals ==> a.candidate.stateFips == b.candidate.stateFips
  }

  lemma OneStateExactly(rivals: seq<Scored>)
    ensures |StatesOf(rivals)| <= 1 <==> OneState(rivals)
  {
    SeveralMeansTwo(StatesOf(rivals));
    forall a | a in rivals ensures a.candidate.stateFips in StatesOf(rivals) {
    }
  }

  /**
   * Among several states one dominates exactly when some rival outweighs tenfold every rival elsewhere and the
   * leaders' populations are known.
   */
  lemma DominantStateExactly(rivals: seq<Scored>)
    requires !OneState(rivals)
    ensures HasDominantState(rivals) <==> LeadersKnown(rivals) && exists lead :: lead in rivals && LeadsElsewhere(rivals, lead)
  {
    hide FirstLargest, Sort, LeadsElsewhere;
    var first := FirstLargest(rivals);
    var others := Elsewhere(rivals, first.candidate.stateFips);
    FirstLargestComesFirst(rivals);
    RunnerUpIsLargestElsewhere(rivals, first.candidate.stateFips);
    assert others != [] by {
      var a, b :| a in rivals && b in rivals && a.candidate.stateFips != b.candidate.stateFips;
      assert a in others || b in others;
    }
    FirstLargestComesFirst(others);
    LeadMeansFirstLeads(rivals);
  }

  /**
   * If any rival outweighs every rival elsewhere, the most populous one outweighs the most populous elsewhere;
   * and the reverse.
   */
  lemma LeadMeansFirstLeads(rivals: seq<Scored>)
    requires rivals != [] && Elsewhere(rivals, FirstLargest(rivals).candidate.stateFips) != []
    ensures var first := FirstLargest(rivals);
      Pop(first) >= STATE_DOMINANCE_RATIO * Pop(FirstLargest(Elsewhere(rivals, first.candidate.stateFips)))
      <==> exists lead :: lead in rivals && LeadsElsewhere(rivals, lead)
  {
    var first := FirstLargest(rivals);
    var others := Elsewhere(rivals, first.candidate.stateFips);
    var next := FirstLargest(others);
    FirstLargestComesFirst(rivals);
    FirstLargestComesFirst(others);
    assert next in others;
    if Pop(first) >= STATE_DOMINANCE_RATIO * Pop(next) {
      assert LeadsElsewhere(rivals, first) by {
        forall r | r in rivals && r.candidate.stateFips != first.candidate.stateFips ensures Pop(r) <= Pop(next) {
          assert r in others;
        }
      }
    }
    if lead :| lead in rivals && LeadsElsewhere(rivals, lead) {
      if lead.candidate.stateFips == first.candidate.stateFips {
        assert Pop(lead) >= STATE_DOMINANCE_RATIO * Pop(next);
      } else {
        assert Pop(lead) >= STATE_DOMINANCE_RATIO * Pop(first);
      }
    }
  }

  lemma StatesSettledExactly(rivals: seq<Scored>)
    ensures |StatesOf(rivals)| <= 1 || HasDominantState(rivals)
      <==> StatesSettled(rivals) && (OneState(rivals) || LeadersKnown(rivals))
    ensures (forall r :: r in rivals ==> r.candidate.population.Some?) ==> LeadersKnown(rivals)
  {
    OneStateExactly(rivals);
    if !OneState(rivals) {
      DominantStateExactly(rivals);
    }
    if rivals != [] {
      FirstLargestComesFirst(rivals);
      var others := Elsewhere(rivals, FirstLargest(rivals).candidate.stateFips);
      if others != [] {
        FirstLargestComesFirst(others);
      }
    }
  }

  /** The third stop, in terms of the first ranked row. */
  ghost predicate StopsForStates(ranked: seq<Scored>, asked: Asked) {
    && asked.stateFips == None && asked.limit > 0 && ranked != []
    && var rivals := StateRivals(ranked, Some(Level(ranked[0])));
    |StatesOf(rivals)| > 1 && !HasDominantState(rivals)
  }

  lemma TopKindIsTheFirst(ranked: seq<Scored>, limit: nat)
    ensures var taken := Taken(ranked, limit);
      && (taken == [] <==> limit == 0 || ranked == [])
      && (taken != [] ==> taken[0] == ranked[0])
    ensures StatesOf(StateRivals(ranked, None)) == {}
  {
    FilterDropsAll(ranked, (c: Scored) => c.isExact && Some(Level(c)) == None && c.candidate.stateFips.Some?);
  }

  /** An answer is given when none of the three stops applies. */
  lemma OkUnlessStopped(rows: seq<Scored>, asked: Asked)
    ensures var ranked := Ranked(rows, asked);
      Resolve(rows, asked).Ok? <==>
        && (asked.kindGiven || |StrongKinds(ranked, Pool(rows, asked))| <= 1)
        && SameStateTownRivals(ranked) == None
        && !StopsForStates(ranked, asked)
  {
    TopKindIsTheFirst(Ranked(rows, asked), asked.limit);
  }

  /**
   * An answer is only given when nothing is left to choose: without a kind hint the undominated exact
   * matches are of one kind, same-name towns of one state have a tenfold leader, and without a state
   * the exact matches of the top kind lie in one state or have a tenfold leader.
   */
  lemma AnswerIsSettled(rows: seq<Scored>, asked: Asked)
    requires Resolve(rows, asked).Ok?
    ensures Settled(rows, asked)
  {
    var ranked := Ranked(rows, asked);
    OkUnlessStopped(rows, asked);
    KindsSettledExactly(rows, asked);
    TownsSettledExactly(ranked);
    if ranked != [] {
      StatesSettledExactly(StateRivals(ranked, Some(Level(ranked[0]))));
    }
  }

  /** The rivals whose states are compared when the caller gave none. */
  ghost predicate ComparesStates(rows: seq<Scored>, asked: Asked) {
    asked.stateFips == None && asked.limit > 0 && Ranked(rows, asked) != []
  }

  /**
   * And an answer is given whenever nothing is left to choose, unless the populations of the leaders of
   * several states are unknown, which the code takes for no lead.
   */
  lemma StopsExactlyWhenUnsettled(rows: seq<Scored>, asked: Asked)
    ensures Resolve(rows, asked).Ok? <==>
      Settled(rows, asked) && (ComparesStates(rows, asked) ==>
        var rivals := StateRivals(Ranked(rows, asked), Some(Level(Ranked(rows, asked)[0])));
        OneState(rivals) || LeadersKnown(rivals))
    ensures (forall c :: c in Pool(rows, asked) && c.isExact ==> c.candidate.population.Some?) ==>
      (Resolve(rows, asked).Ok? <==> Settled(rows, asked))
  {
    hide Resolve, Pool, Ranked, HasDominantState, SameStateTownRivals, KindsSettled, TownsSettled, StatesSettled, OneState, LeadersKnown;
    var ranked := Ranked(rows, asked);
    RankedSortsPool(rows, asked);
    OkUnlessStopped(rows, asked);
    KindsSettledExactly(rows, asked);
    TownsSettledExactly(ranked);
    if ranked != [] {
      StatesSettledExactly(StateRivals(ranked, Some(Level(ranked[0]))));
    }
  }

  /**
   * In an answer without a kind hint, some exact match has ten times the population of every exact match of
   * another kind.
   */
  lemma OtherKindsAreOutweighed(rows: seq<Scored>, asked: Asked, c: Scored)
    requires Resolve(rows, asked).Ok? && !asked.kindGiven
    requires c in Pool(rows, asked) && c.isExact && Level(c) != Level(Ranked(rows, asked)[0])
    ensures exists d :: d in Pool(rows, asked) && d.isExact && Pop(d) > 0 && Pop(d) >= STATE_DOMINANCE_RATIO * Pop(c)
  {
    var pool := Pool(rows, asked);
    AnswerIsSettled(rows, asked);
    TopIsExactAndUndominated(rows, asked);
    RankedSortsPool(rows, asked);
    assert Ranked(rows, asked)[0] in pool;
    assert Dominated(c, pool);
    LargestIsAttained(pool, ExactNonTown());
    LargestIsAttained(pool, ExactState());
  }

  // ---- what an answer holds ----

  /** The rivals of a town stop and of a state stop are these rows of the ranking. */
  lemma RivalsAre(ranked: seq<Scored>, kind: string, c: Scored)
    ensures ranked != [] ==> (c in TownRivals(ranked) <==>
      c in ranked && c.isExact && Level(c) == TOWN && c.candidate.stateFips == ranked[0].candidate.stateFips)
    ensures c in StateRivals(ranked, Some(kind)) <==>
      c in ranked && c.isExact && Level(c) == kind && c.candidate.stateFips.Some?
  {
  }

  /** A candidate as it is flagged once among ambiguous ones. */
  ghost predicate FlaggedOnce(flagged: Candidate, c: Candidate) {
    flagged == c.(flags := flagged.flags) && flagged.flags == if AMBIGUOUS in c.flags then c.flags else c.flags + [AMBIGUOUS]
  }

  /**
   * Every answer holds the first rows of the ranking, as many as asked for, in order. An answer given
   * leaves each as it is, but for the flag of the first when there is a notice; an ambiguous one flags
   * each once.
   */
  lemma AnswerHoldsRanked(rows: seq<Scored>, asked: Asked)
    ensures var ranked, answer := Ranked(rows, asked), Resolve(rows, asked);
      && |answer.candidates| == (if asked.limit <= |ranked| then asked.limit else |ranked|)
      && (answer.Ok? ==> forall i :: 0 <= i < |answer.candidates| ==>
            answer.candidates[i] == if i == 0 && answer.notice.Some? then Announced(ranked[i]) else ranked[i].candidate)
      && (answer.Ambiguous? ==> forall i :: 0 <= i < |answer.candidates| ==>
            FlaggedOnce(answer.candidates[i], ranked[i].candidate))
  {
    hide Ranked, Pool, StrongKinds, SameStateTownRivals, StateRivals, HasDominantState, ByState;
  }

  /** The reason of a stop: several kinds before several towns, and several states last. */
  lemma ReasonOfStop(rows: seq<Scored>, asked: Asked)
    requires Resolve(rows, asked).Ambiguous?
    ensures var pool, ranked, reason := Pool(rows, asked), Ranked(rows, asked), Resolve(rows, asked).reason;
      var severalKinds := !asked.kindGiven && !KindsSettled(pool);
      && (reason == SeveralKinds <==> severalKinds)
      && (reason == SeveralTowns <==> !severalKinds && !TownsSettled(ranked))
      && (reason == SeveralStates <==> !severalKinds && TownsSettled(ranked))
  {
    hide Ranked, Pool, StrongKinds, SameStateTownRivals, StateRivals, HasDominantState, ByState, KindsSettled, TownsSettled;
    KindsSettledExactly(rows, asked);
    TownsSettledExactly(Ranked(rows, asked));
  }

  // ---- the notice ----

  /** How an answer is put together once nothing stopped it. */
  lemma AnswerShape(rows: seq<Scored>, asked: Asked)
    requires Resolve(rows, asked).Ok?
    ensures var ranked, byState, answer := Ranked(rows, asked), ByState(Pool(rows, asked)), Resolve(rows, asked);
      && (answer.notice.Some? <==> !asked.kindGiven && asked.limit > 0 && ranked != [] && ranked[0].isExact && Level(ranked[0]) == STATE && byState != [])
      && (answer.notice.Some? ==>
            && answer.notice.value.passedOver == byState
            && answer.candidates != [] && answer.candidates[0] == answer.notice.value.state
            && answer.candidates[0] == ranked[0].candidate.(flags := ranked[0].candidate.flags + [DOMINANT_MATCH]))
  {
    hide Ranked, Pool, StrongKinds, SameStateTownRivals, StateRivals, HasDominantState, ByState;
  }

  /** In an answer without a kind hint, a row passed over for a state leaves an exact state first. */
  lemma PassedOverLeavesStateFirst(rows: seq<Scored>, asked: Asked, c: Scored)
    requires Resolve(rows, asked).Ok? && !asked.kindGiven
    requires c in Pool(rows, asked) && IsDominatedByState(c, Pool(rows, asked))
    ensures var ranked := Ranked(rows, asked);
      ranked != [] && ranked[0].isExact && Level(ranked[0]) == STATE
  {
    hide Resolve, Pool, Ranked, Largest, StrongKinds;
    var pool := Pool(rows, asked);
    TopIsExactAndUndominated(rows, asked);
    RankedSortsPool(rows, asked);
    OkUnlessStopped(rows, asked);
    KindsSettledExactly(rows, asked);
    LargestIsAttained(pool, ExactState());
    var state :| state in pool && ExactState()(state) && Pop(state) == Largest(pool, ExactState());
    assert !Dominated(state, pool);
    assert Ranked(rows, asked)[0] in pool;
  }

  /**
   * No place is set aside silently: an answer without a kind hint that passed over an exact match
   * for a same-name state puts an exact state first, flags it and says so, naming everything passed
   * over; and it says so only then, never when a kind was asked for or no candidate is wanted.
   */
  lemma NothingSetAsideSilently(rows: seq<Scored>, asked: Asked)
    requires Resolve(rows, asked).Ok?
    ensures var pool := Pool(rows, asked);
      var answer := Resolve(rows, asked);
      && (answer.notice.Some? <==> !asked.kindGiven && asked.limit > 0 && exists c :: c in pool && IsDominatedByState(c, pool))
      && (answer.notice.Some? ==>
            && Ranked(rows, asked) != [] && Ranked(rows, asked)[0].isExact
            && answer.candidates != [] && answer.candidates[0] == answer.notice.value.state
            && answer.candidates[0].level == STATE
            && DOMINANT_MATCH in answer.candidates[0].flags
            && forall c :: c in answer.notice.value.passedOver <==> c in pool && IsDominatedByState(c, pool))
  {
    var pool := Pool(rows, asked);
    AnswerShape(rows, asked);
    forall c ensures c in ByState(pool) <==> c in pool && IsDominatedByState(c, pool) {
    }
    if ByState(pool) != [] && !asked.kindGiven {
      PassedOverLeavesStateFirst(rows, asked, ByState(pool)[0]);
    }
  }

  /** The exact state that is announced: the first in the list among those of the highest score. */
  ghost predicate IsAnnounced(pool: seq<Scored>, i: nat) {
    && i < |pool| && ExactState()(pool[i])
    && (forall j :: 0 <= j < |pool| && ExactState()(pool[j]) ==> pool[j].score <= pool[i].score)
    && (forall j :: 0 <= j < i && ExactState()(pool[j]) ==> pool[j].score < pool[i].score)
  }

  lemma {:induction false} SomeAnnounced(pool: seq<Scored>) returns (i: nat)
    requires exists c :: c in pool && ExactState()(c)
    ensures IsAnnounced(pool, i)
  {
    var front, last := pool[..|pool| - 1], pool[|pool| - 1];
    assert pool == front + [last];
    if exists c :: c in front && ExactState()(c) {
      i := SomeAnnounced(front);
      if ExactState()(last) && last.score > front[i].score {
        i := |pool| - 1;
      }
    } else {
      i := |pool| - 1;
      assert ExactState()(last);
      forall j | 0 <= j < |front| ensures !ExactState()(pool[j]) {
        assert pool[j] in front;
      }
    }
  }

  /** The row at `i` has ten times the population of every other row that meets the condition. */
  ghost predicate Outweighs(pool: seq<Scored>, i: nat, among: Scored -> bool)
    requires i < |pool|
  {
    forall j :: 0 <= j < |pool| && j != i && among(pool[j]) ==> Pop(pool[i]) >= STATE_DOMINANCE_RATIO * Pop(pool[j])
  }

  function IsExact(): Scored -> bool { (c: Scored) => c.isExact }

  /** Where kinds are settled on states, the announced state is ranked first. */
  lemma AnnouncedRanksFirst(rows: seq<Scored>, asked: Asked, i: nat)
    requires KindsSettled(Pool(rows, asked)) && IsAnnounced(Pool(rows, asked), i)
    ensures Ranked(rows, asked) != [] && Ranked(rows, asked)[0] == Pool(rows, asked)[i]
  {
    hide Pool, Largest;
    var pool := Pool(rows, asked);
    RankOrderIsPreorder(pool);
    assert pool[i] in pool && Tier(pool[i], pool) == 0;
    forall j | 0 <= j < |pool|
      ensures RankOrder(pool)(pool[i], pool[j]) && (j < i ==> !RankOrder(pool)(pool[j], pool[i]))
    {
      if Tier(pool[j], pool) == 0 {
        assert pool[j] in pool;
        assert Level(pool[j]) == Level(pool[i]);
      }
    }
    SortFirst(pool, RankOrder(pool), i);
  }

  /**
   * The answer with a notice announces one exact state of the list, and what the notice claims of it,
   * ten times the population of every other exact match, is true exactly when that state has ten times
   * the population of every other exact state: a condition on the list, before any ranking.
   */
  lemma NoticeTrueExactlyAmongStates(rows: seq<Scored>, asked: Asked)
    requires Resolve(rows, asked).Ok? && !asked.kindGiven && asked.limit > 0 && Resolve(rows, asked).notice.Some?
    ensures exists i: nat :: IsAnnounced(Pool(rows, asked), i)
    ensures forall i: nat :: IsAnnounced(Pool(rows, asked), i) ==>
      && Resolve(rows, asked).notice.value.state == Announced(Pool(rows, asked)[i])
      && (Outweighs(Pool(rows, asked), i, IsExact()) <==> Outweighs(Pool(rows, asked), i, ExactState()))
  {
    hide Resolve, Pool, Ranked, Outweighs, KindsSettled;
    var pool, ranked := Pool(rows, asked), Ranked(rows, asked);
    AnswerShape(rows, asked);
    OkUnlessStopped(rows, asked);
    KindsSettledExactly(rows, asked);
    RankedSortsPool(rows, asked);
    assert ranked[0] in pool && ExactState()(ranked[0]);
    var announced := SomeAnnounced(pool);
    forall i: nat | IsAnnounced(pool, i)
      ensures Resolve(rows, asked).notice.value.state == Announced(pool[i])
      ensures Outweighs(pool, i, IsExact()) <==> Outweighs(pool, i, ExactState())
    {
      AnnouncedRanksFirst(rows, asked, i);
      LeadingStateOutweighs(pool, i);
    }
  }

  /** A candidate as it is announced. */
  function Announced(c: Scored): Candidate { c.candidate.(flags := c.candidate.flags + [DOMINANT_MATCH]) }

  /** Where kinds are settled, an exact state leads every exact match exactly when it leads every exact state. */
  lemma LeadingStateOutweighs(pool: seq<Scored>, i: nat)
    requires KindsSettled(pool) && i < |pool| && ExactState()(pool[i])
    ensures Outweighs(pool, i, IsExact()) <==> Outweighs(pool, i, ExactState())
  {
    hide KindsSettled;
    if Outweighs(pool, i, ExactState()) {
      LeadingStateIsLargest(pool, i);
      forall j | 0 <= j < |pool| && j != i && IsExact()(pool[j]) ensures Pop(pool[i]) >= STATE_DOMINANCE_RATIO * Pop(pool[j]) {
        assert pool[i] in pool && pool[j] in pool;
        if Level(pool[j]) != STATE {
          ExactBesideStatesIsSmall(pool, pool[j], pool[i]);
        }
      }
    }
  }

  lemma LeadingStateIsLargest(pool: seq<Scored>, i: nat)
    requires i < |pool| && ExactState()(pool[i]) && Outweighs(pool, i, ExactState())
    ensures Pop(pool[i]) == Largest(pool, ExactState())
  {
    LargestIsAttained(pool, ExactState());
    assert pool[i] in pool;
    if Largest(pool, ExactState()) > 0 {
      var state :| state in pool && ExactState()(state) && Pop(state) == Largest(pool, ExactState());
      var j :| 0 <= j < |pool| && pool[j] == state;
    }
  }

  /**
   * Where kinds are settled on a state, the largest state has ten times the population of every exact match that
   * is none.
   */
  lemma ExactBesideStatesIsSmall(pool: seq<Scored>, c: Scored, state: Scored)
    requires KindsSettled(pool) && c in pool && c.isExact && Level(c) != STATE
    requires state in pool && ExactState()(state) && Pop(state) == Largest(pool, ExactState())
    ensures Pop(state) >= STATE_DOMINANCE_RATIO * Pop(c)
  {
    assert !Dominated(state, pool);
    assert Dominated(c, pool);
    LargestIsAttained(pool, ExactNonTown());
    LargestIsAttained(pool, ExactState());
    if IsDominatedTown(c, pool) {
      var lead :| lead in pool && ExactNonTown()(lead) && Pop(lead) == Largest(pool, ExactNonTown());
      assert Level(lead) != STATE ==> Dominated(lead, pool);
    }
  }

  /** With one exact state in the list, what the notice claims of it is true. */
  lemma NoticeTrueOfASoleState(rows: seq<Scored>, asked: Asked, i: nat)
    requires Resolve(rows, asked).Ok? && !asked.kindGiven && asked.limit > 0 && Resolve(rows, asked).notice.Some?
    requires i < |Pool(rows, asked)| && ExactState()(Pool(rows, asked)[i])
    requires forall j :: 0 <= j < |Pool(rows, asked)| && j != i ==> !ExactState()(Pool(rows, asked)[j])
    ensures Resolve(rows, asked).notice.value.state == Announced(Pool(rows, asked)[i])
    ensures Outweighs(Pool(rows, asked), i, IsExact())
  {
    hide Resolve, Pool;
    NoticeTrueExactlyAmongStates(rows, asked);
    assert IsAnnounced(Pool(rows, asked), i);
  }

  /** An exact match without parents, ranked by `score`. */
  function Bare(level: string, state: string, population: nat, score: int): Scored {
    Scored(Candidate(state, "", level, Some(state), Some(population), [], []), score, true)
  }

  const WIDE := Bare(STATE, "01", 100, 20)
  const BIG := Bare(STATE, "02", 1000, 10)
  const CITY := Bare(PLACE, "03", 50, 5)
  const UNASKED := Asked(false, false, None, None, 10)

  lemma TwoStatesPool()
    ensures Pool([WIDE, BIG, CITY], UNASKED) == [WIDE, BIG, CITY]
  {
    var rows := [WIDE, BIG, CITY];
    assert TwinTowns(rows) == {};
    FilterKeepsAll(rows, Unfolded({}));
  }

  lemma TwoStatesDominance()
    ensures var rows := [WIDE, BIG, CITY];
      IsDominatedByState(CITY, rows) && !Dominated(WIDE, rows) && !Dominated(BIG, rows)
  {
    var rows := [WIDE, BIG, CITY];
    assert BIG in rows;
    LargestIsAttained(rows, ExactState());
  }

  lemma TwoStatesRanked()
    ensures var ranked := Ranked([WIDE, BIG, CITY], UNASKED);
      ranked != [] && ranked[0] == WIDE && exists j :: 0 < j < |ranked| && ranked[j] == BIG
  {
    hide Ranked, Pool;
    var rows := [WIDE, BIG, CITY];
    TwoStatesPool();
    TwoStatesDominance();
    RankedSortsPool(rows, UNASKED);
    assert WIDE in rows && BIG in rows;
    assert Tier(WIDE, rows) == Tier(BIG, rows) == 0 && Tier(CITY, rows) == 1;
    FirstRanksBefore(rows, UNASKED, WIDE);
    var ranked := Ranked(rows, UNASKED);
    assert ranked[0] == WIDE;
    var j :| 0 <= j < |ranked| && ranked[j] == BIG;
  }

  /** A leading exact state settles a query whose first row is a state. */
  lemma LeadingStateSettles(rows: seq<Scored>, asked: Asked, lead: Scored)
    requires Ranked(rows, asked) != [] && Level(Ranked(rows, asked)[0]) == STATE
    requires KindsSettled(Pool(rows, asked))
    requires lead in Pool(rows, asked) && ExactState()(lead) && lead.candidate.stateFips.Some?
    requires forall r :: r in Pool(rows, asked) && ExactState()(r) ==>
      r.candidate.stateFips == lead.candidate.stateFips || Pop(lead) >= STATE_DOMINANCE_RATIO * Pop(r)
    ensures Settled(rows, asked)
  {
    RankedSortsPool(rows, asked);
    var rivals := StateRivals(Ranked(rows, asked), Some(STATE));
    assert lead in rivals;
    assert LeadsElsewhere(rivals, lead);
  }

  lemma TwoStatesAnswered()
    ensures Resolve([WIDE, BIG, CITY], UNASKED).Ok?
  {
    hide Resolve, Ranked, Pool, Settled;
    var rows := [WIDE, BIG, CITY];
    TwoStatesPool();
    TwoStatesDominance();
    TwoStatesRanked();
    assert BIG in rows;
    LeadingStateSettles(rows, UNASKED, BIG);
    StopsExactlyWhenUnsettled(rows, UNASKED);
  }

  /**
   * With two exact states the notice can overstate: the larger by land is announced, while the smaller
   * by land is the one that outweighed the place passed over.
   */
  lemma NoticeCanOverstate()
    ensures var rows := [WIDE, BIG, CITY];
      && Pool(rows, UNASKED) == rows && Resolve(rows, UNASKED).Ok? && Resolve(rows, UNASKED).notice.Some?
      && Resolve(rows, UNASKED).notice.value.state == Announced(WIDE) && !Outweighs(rows, 0, IsExact())
  {
    hide Resolve, Pool, Ranked, IsDominatedTown;
    var rows := [WIDE, BIG, CITY];
    TwoStatesAnswered();
    TwoStatesDominance();
    TwoStatesPool();
    assert CITY in rows;
    NothingSetAsideSilently(rows, UNASKED);
    NoticeTrueExactlyAmongStates(rows, UNASKED);
    assert IsAnnounced(rows, 0);
    assert rows[1] == BIG;
  }

  const COUNTED := Scored(Candidate("01", "", PLACE, Some("01"), Some(1000), [], []), 10, true)
  const UNCOUNTED := Scored(Candidate("02", "", PLACE, Some("02"), None, [], []), 5, true)

  lemma CountedAndUncountedPool()
    ensures Pool([COUNTED, UNCOUNTED], UNASKED) == [COUNTED, UNCOUNTED]
  {
    var rows := [COUNTED, UNCOUNTED];
    assert TwinTowns(rows) == {};
    FilterKeepsAll(rows, Unfolded({}));
  }

  /** The rivals are those two, and the leader of the other state has no population. */
  lemma UncountedLeadsElsewhere(rivals: seq<Scored>)
    requires forall c :: c in rivals <==> c == COUNTED || c == UNCOUNTED
    ensures StatesSettled(rivals) && !OneState(rivals) && !LeadersKnown(rivals)
  {
    assert COUNTED in rivals && UNCOUNTED in rivals;
    assert LeadsElsewhere(rivals, COUNTED);
    FirstLargestComesFirst(rivals);
    assert FirstLargest(rivals) == COUNTED;
    var others := Elsewhere(rivals, Some("01"));
    assert UNCOUNTED in others;
    FirstLargestComesFirst(others);
  }

  /**
   * An unknown population stops the answer though nothing is left to choose: of two places of one name,
   * one in each of two states, the first has a thousand people and leads the second tenfold, whose
   * population is not known and counts as none.
   */
  lemma UnknownLeaderStops()
    ensures var rows := [COUNTED, UNCOUNTED];
      Pool(rows, UNASKED) == rows && Settled(rows, UNASKED) && !Resolve(rows, UNASKED).Ok?
  {
    hide Resolve, Pool, Ranked, OneState, LeadersKnown, StatesSettled;
    var rows := [COUNTED, UNCOUNTED];
    CountedAndUncountedPool();
    assert COUNTED in rows && UNCOUNTED in rows;
    var ranked := Ranked(rows, UNASKED);
    RankedSortsPool(rows, UNASKED);
    FirstRanksBefore(rows, UNASKED, COUNTED);
    assert ranked[0] in rows;
    UncountedLeadsElsewhere(StateRivals(ranked, Some(Level(ranked[0]))));
    StopsExactlyWhenUnsettled(rows, UNASKED);
  }
}
