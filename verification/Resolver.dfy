/**
 * Place resolution: from the scored rows of a name search to a ranked answer, or a stop that asks
 * the caller to choose. The rows are arbitrary; every score is an integer.
 */
module Resolver {
  import opened Options
  import opened Sorting

  const STATE_DOMINANCE_RATIO: nat := 10
  const STATE := "040"
  const COUNTY := "050"
  const TOWN := "060"
  const PLACE := "160"
  const METRO := "310"
  const AMBIGUOUS := "ambiguous"
  const DOMINANT_MATCH := "dominant_match"

  datatype Parent = Parent(geoid: string, level: string, normalizedName: string)

  datatype Candidate = Candidate(
    geoid: string,
    name: string,
    level: string,
    stateFips: Option<string>,
    population: Option<nat>,
    parents: seq<Parent>,
    flags: seq<string>)

  datatype Scored = Scored(candidate: Candidate, score: int, isExact: bool)

  /** What the caller asked beside the name. An unknown kind is given but selects no levels. */
  datatype Asked = Asked(kindGiven: bool, levelsGiven: bool, stateFips: Option<string>, county: Option<string>, limit: nat)

  /** The notice names the state that won and what it passed over. */
  datatype Notice = Notice(state: Candidate, passedOver: seq<Scored>)

  datatype Reason = SeveralKinds | SeveralTowns | SeveralStates

  datatype Answer =
    | Ok(candidates: seq<Candidate>, notice: Option<Notice>)
    | Ambiguous(candidates: seq<Candidate>, reason: Reason)

  function Pop(c: Scored): nat { c.candidate.population.GetOr(0) }

  function Level(c: Scored): string { c.candidate.level }

  // ---- filters ----

  /** The county subdivisions that are the same municipality as a place in the results. */
  function TwinTowns(scored: seq<Scored>): set<string> {
    set c, p | c in scored && Level(c) == PLACE && p in c.candidate.parents && p.level == TOWN :: p.geoid
  }

  function Unfolded(twins: set<string>): Scored -> bool {
    (c: Scored) => !(Level(c) == TOWN && c.candidate.geoid in twins)
  }

  function Folded(scored: seq<Scored>): seq<Scored> {
    Filter(scored, Unfolded(TwinTowns(scored)))
  }

  /** The fold as the source runs it: a set filled in two nested loops, then one filter. */
  method FoldTownTwins(scored: seq<Scored>) returns (folded: seq<Scored>)
    ensures folded == Folded(scored)
  {
    var twins: set<string> := {};
    for i := 0 to |scored|
      invariant twins == TwinTowns(scored[..i])
    {
      var c := scored[i];
      if Level(c) == PLACE {
        for j := 0 to |c.candidate.parents|
          invariant twins == TwinTowns(scored[..i]) + set p | p in c.candidate.parents[..j] && p.level == TOWN :: p.geoid
        {
          var p := c.candidate.parents[j];
          if p.level == TOWN {
            twins := twins + {p.geoid};
          }
          assert c.candidate.parents[..j + 1] == c.candidate.parents[..j] + [p];
        }
        assert c.candidate.parents[..|c.candidate.parents|] == c.candidate.parents;
      }
      assert scored[..i + 1] == scored[..i] + [c];
    }
    assert scored[..|scored|] == scored;
    folded := Filter(scored, Unfolded(twins));
  }

  function MetrosAsFallback(scored: seq<Scored>, applies: bool): seq<Scored> {
    if !applies || Filter(scored, (c: Scored) => c.isExact && Level(c) != METRO) == [] then scored
    else Filter(scored, (c: Scored) => Level(c) != METRO)
  }

  function InCounty(scored: seq<Scored>, county: Option<string>): seq<Scored> {
    if county == None then scored
    else Filter(scored, (c: Scored) => HasCounty(c, county.value))
  }

  predicate HasCounty(c: Scored, county: string) {
    exists p :: p in c.candidate.parents && p.level == COUNTY && p.normalizedName == county
  }

  /** The rows left to rank. */
  function Pool(rows: seq<Scored>, asked: Asked): seq<Scored> {
    InCounty(MetrosAsFallback(Folded(rows), asked.stateFips.Some? && !asked.levelsGiven), asked.county)
  }

  // ---- dominance ----

  /** The largest population among the rows that meet a condition, 0 when none does. */
  function Largest(s: seq<Scored>, among: Scored -> bool): nat {
    if s == [] then 0
    else
      var rest := Largest(s[..|s| - 1], among);
      var last := s[|s| - 1];
      if among(last) && Pop(last) > rest then Pop(last) else rest
  }

  function ExactNonTown(): Scored -> bool { (c: Scored) => c.isExact && Level(c) != TOWN }

  function ExactState(): Scored -> bool { (c: Scored) => c.isExact && Level(c) == STATE }

  predicate IsDominatedTown(c: Scored, pool: seq<Scored>) {
    Level(c) == TOWN &&
    var lead := Largest(pool, ExactNonTown());
    lead > 0 && lead >= STATE_DOMINANCE_RATIO * Pop(c)
  }

  predicate IsDominatedByState(c: Scored, pool: seq<Scored>) {
    c.isExact && Level(c) != STATE && c.candidate.population.Some? &&
    var state := Largest(pool, ExactState());
    state > 0 && state >= STATE_DOMINANCE_RATIO * Pop(c)
  }

  predicate Dominated(c: Scored, pool: seq<Scored>) {
    IsDominatedTown(c, pool) || IsDominatedByState(c, pool)
  }

  function ByState(pool: seq<Scored>): seq<Scored> { Filter(pool, (c: Scored) => IsDominatedByState(c, pool)) }

  // ---- ranking ----

  function Tier(c: Scored, pool: seq<Scored>): nat {
    if IsDominatedTown(c, pool) then 3
    else if !c.isExact then 2
    else if Dominated(c, pool) then 1
    else 0
  }

  function RankOrder(pool: seq<Scored>): (Scored, Scored) -> bool {
    (a: Scored, b: Scored) =>
      Tier(a, pool) < Tier(b, pool) || (Tier(a, pool) == Tier(b, pool) && a.score >= b.score)
  }

  function Ranked(rows: seq<Scored>, asked: Asked): seq<Scored> {
    var pool := Pool(rows, asked);
    Sort(pool, RankOrder(pool))
  }

  // ---- stopping ----

  function ByPopulation(): (Scored, Scored) -> bool { (a: Scored, b: Scored) => Pop(a) >= Pop(b) }

  function StrongKinds(ranked: seq<Scored>, pool: seq<Scored>): set<string> {
    set c | c in ranked && c.isExact && !Dominated(c, pool) :: Level(c)
  }

  function TownRivals(ranked: seq<Scored>): seq<Scored>
    requires ranked != []
  {
    Filter(ranked, (c: Scored) =>
      c.isExact && Level(c) == TOWN && c.candidate.stateFips == ranked[0].candidate.stateFips)
  }

  /** The rivals to choose between when same-state towns share the top candidate's name and none leads. */
  function SameStateTownRivals(ranked: seq<Scored>): Option<seq<Scored>> {
    if ranked == [] || !ranked[0].isExact || Level(ranked[0]) != TOWN then None
    else
      var rivals := TownRivals(ranked);
      if |rivals| < 2 then None
      else
        var byPop := Sort(rivals, ByPopulation());
        if |byPop| >= 2 && Pop(byPop[0]) >= STATE_DOMINANCE_RATIO * Pop(byPop[1]) then None
        else Some(rivals)
  }

  function StateRivals(ranked: seq<Scored>, kind: Option<string>): seq<Scored> {
    Filter(ranked, (c: Scored) => c.isExact && Some(Level(c)) == kind && c.candidate.stateFips.Some?)
  }

  function StatesOf(rivals: seq<Scored>): set<Option<string>> {
    set c | c in rivals :: c.candidate.stateFips
  }

  function Elsewhere(byPop: seq<Scored>, state: Option<string>): seq<Scored> {
    Filter(byPop, (c: Scored) => c.candidate.stateFips != state)
  }

  predicate HasDominantState(rivals: seq<Scored>) {
    var byPop := Sort(rivals, ByPopulation());
    && byPop != []
    && byPop[0].candidate.population.Some?
    && var others := Elsewhere(byPop, byPop[0].candidate.stateFips);
    && others != []
    && others[0].candidate.population.Some?
    && Pop(byPop[0]) >= STATE_DOMINANCE_RATIO * Pop(others[0])
  }

  function FlagAmbiguous(c: Candidate): Candidate {
    if AMBIGUOUS in c.flags then c else c.(flags := c.flags + [AMBIGUOUS])
  }

  function Taken(ranked: seq<Scored>, limit: nat): seq<Scored> {
    if limit <= |ranked| then ranked[..limit] else ranked
  }

  function Stop(taken: seq<Scored>, reason: Reason): Answer {
    Ambiguous(Map(taken, (c: Scored) => FlagAmbiguous(c.candidate)), reason)
  }

  function Resolve(rows: seq<Scored>, asked: Asked): Answer {
    var pool := Pool(rows, asked);
    var ranked := Ranked(rows, asked);
    var taken := Taken(ranked, asked.limit);
    var topKind := if taken == [] then None else Some(Level(taken[0]));
    var rivals := StateRivals(ranked, topKind);
    if !asked.kindGiven && |StrongKinds(ranked, pool)| > 1 then Stop(taken, SeveralKinds)
    else if SameStateTownRivals(ranked).Some? then Stop(taken, SeveralTowns)
    else if asked.stateFips == None && |StatesOf(rivals)| > 1 && !HasDominantState(rivals) then Stop(taken, SeveralStates)
    else
      var candidates := Map(taken, (c: Scored) => c.candidate);
      if !asked.kindGiven && taken != [] && taken[0].isExact && Level(taken[0]) == STATE && ByState(pool) != [] then
        var top := taken[0].candidate.(flags := taken[0].candidate.flags + [DOMINANT_MATCH]);
        Ok(candidates[0 := top], Some(Notice(top, ByState(pool))))
      else Ok(candidates, None)
  }
}
