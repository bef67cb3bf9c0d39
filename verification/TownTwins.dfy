/**
 * The edges from a place to the county subdivisions that are the same municipality: by one shared code,
 * with the place's share split by land area, and by name for a consolidated town whose code differs.
 */
module TownTwins {
  import opened Counting
  import opened Options

  /** What of a catalog entity the derivation reads. */
  datatype Entity = Entity(ucgid: string, geoid: string, level: string, name: string, funcstat: Option<string>, aland: Option<nat>)

  datatype Edge = Edge(child: string, parent: string, share: real)

  function Upto(s: string, n: nat): string { if |s| < n then s else s[..n] }

  function From(s: string, n: nat): string { if |s| < n then "" else s[n..] }

  predicate IsTown(e: Entity) { e.level == "060" }

  predicate IsPlace(e: Entity) { e.level == "160" }

  predicate IsConsolidated(e: Entity) { IsTown(e) && (e.funcstat == Some("B") || e.funcstat == Some("C")) }

  function KeyOf(geoid: string, rest: string): string { Upto(geoid, 2) + ":" + rest }

  function TownCode(e: Entity): string { KeyOf(e.geoid, From(e.geoid, 5)) }

  function PlaceCode(e: Entity): string { KeyOf(e.geoid, From(e.geoid, 2)) }

  function NameKey(bare: string -> string, e: Entity): string { KeyOf(e.geoid, bare(e.name)) }

  // ---- the three indexes ----

  datatype Index = TownsByCode | ConsolidatedByName | PlacesByName

  /** The key an index files an entity under, if it takes it. */
  function Filing(index: Index, bare: string -> string, e: Entity): Option<string> {
    match index
    case TownsByCode => if IsTown(e) then Some(TownCode(e)) else None
    case ConsolidatedByName => if IsConsolidated(e) then Some(NameKey(bare, e)) else None
    case PlacesByName => if IsPlace(e) then Some(NameKey(bare, e)) else None
  }

  /** The entities filed under a key, in order. */
  function Group(index: Index, bare: string -> string, entities: seq<Entity>, key: string): (group: seq<Entity>)
    ensures forall e :: e in group <==> e in entities && Filing(index, bare, e) == Some(key)
  {
    if entities == [] then []
    else
      var front, last := entities[..|entities| - 1], entities[|entities| - 1];
      assert entities == front + [last];
      Group(index, bare, front, key) + (if Filing(index, bare, last) == Some(key) then [last] else [])
  }

  /** The keys in use, by first appearance. */
  function Keys(index: Index, bare: string -> string, entities: seq<Entity>): (keys: seq<string>)
    ensures forall i, j :: 0 <= i < j < |keys| ==> keys[i] != keys[j]
  {
    if entities == [] then []
    else
      var keys := Keys(index, bare, entities[..|entities| - 1]);
      var key := Filing(index, bare, entities[|entities| - 1]);
      if key.Some? && key.value !in keys then keys + [key.value] else keys
  }

  /** A map from keys to lists that remembers the order its keys came in. */
  datatype Groups = Groups(keys: seq<string>, lists: map<string, seq<Entity>>)

  const NO_GROUPS := Groups([], map[])

  function Push(g: Groups, key: string, e: Entity): Groups {
    if key in g.lists then g.(lists := g.lists[key := g.lists[key] + [e]])
    else Groups(g.keys + [key], g.lists[key := [e]])
  }

  ghost predicate Holds(g: Groups, index: Index, bare: string -> string, entities: seq<Entity>) {
    && g.keys == Keys(index, bare, entities)
    && (forall k :: k in g.lists <==> k in g.keys)
    && (forall k :: k in g.lists ==> g.lists[k] == Group(index, bare, entities, k))
  }

  lemma {:induction false} UsedKeys(index: Index, bare: string -> string, entities: seq<Entity>, key: string)
    ensures key in Keys(index, bare, entities) <==> Group(index, bare, entities, key) != []
  {
    if entities != [] {
      UsedKeys(index, bare, entities[..|entities| - 1], key);
    }
  }

  lemma GroupAppend(index: Index, bare: string -> string, seen: seq<Entity>, e: Entity, key: string)
    ensures Group(index, bare, seen + [e], key)
         == Group(index, bare, seen, key) + (if Filing(index, bare, e) == Some(key) then [e] else [])
  {
    assert (seen + [e])[..|seen|] == seen;
  }

  function File(g: Groups, index: Index, bare: string -> string, e: Entity): Groups {
    match Filing(index, bare, e)
    case None => g
    case Some(key) => Push(g, key, e)
  }

  lemma FiledByLevel(g: Groups, bare: string -> string, e: Entity)
    ensures File(g, TownsByCode, bare, e) == if e.level == "060" then Push(g, TownCode(e), e) else g
    ensures File(g, ConsolidatedByName, bare, e)
      == if e.level == "060" && (e.funcstat == Some("B") || e.funcstat == Some("C")) then Push(g, NameKey(bare, e), e) else g
    ensures File(g, PlacesByName, bare, e) == if e.level == "160" then Push(g, NameKey(bare, e), e) else g
  {
  }

  lemma FileHolds(g: Groups, index: Index, bare: string -> string, seen: seq<Entity>, e: Entity)
    requires Holds(g, index, bare, seen)
    ensures Holds(File(g, index, bare, e), index, bare, seen + [e])
  {
    hide Filing, Group;
    var filed := File(g, index, bare, e);
    assert (seen + [e])[..|seen|] == seen;
    forall k | k in filed.lists ensures filed.lists[k] == Group(index, bare, seen + [e], k) {
      GroupAppend(index, bare, seen, e, k);
      UsedKeys(index, bare, seen, k);
    }
  }

  // ---- one code ----

  function TotalLand(twins: seq<Entity>): nat {
    if twins == [] then 0 else TotalLand(twins[..|twins| - 1]) + twins[|twins| - 1].aland.GetOr(0)
  }

  function Share(t: Entity, total: nat, count: nat): real
    requires count > 0
  {
    if total > 0 then t.aland.GetOr(0) as real / total as real else 1.0 / count as real
  }

  function Split(place: Entity, twins: seq<Entity>): seq<Edge> {
    seq(|twins|, i requires 0 <= i < |twins| =>
      Edge(place.ucgid, twins[i].ucgid, Share(twins[i], TotalLand(twins), |twins|)))
  }

  function Twins(bare: string -> string, all: seq<Entity>, place: Entity): seq<Entity> {
    Group(TownsByCode, bare, all, PlaceCode(place))
  }

  function CodeEdges(bare: string -> string, all: seq<Entity>, places: seq<Entity>): seq<Edge> {
    if places == [] then []
    else
      var place := places[|places| - 1];
      CodeEdges(bare, all, places[..|places| - 1]) + (if IsPlace(place) then Split(place, Twins(bare, all, place)) else [])
  }

  ghost function Parents(edges: seq<Edge>): set<string> { set e | e in edges :: e.parent }

  // ---- one name ----

  function NameEdge(bare: string -> string, all: seq<Entity>, linked: set<string>, key: string): Option<Edge> {
    var towns := Group(ConsolidatedByName, bare, all, key);
    var places := Group(PlacesByName, bare, all, key);
    if |towns| != 1 || |places| != 1 || towns[0].ucgid in linked then None
    else Some(Edge(places[0].ucgid, towns[0].ucgid, 1.0))
  }

  function NameEdges(bare: string -> string, all: seq<Entity>, linked: set<string>, keys: seq<string>): seq<Edge> {
    if keys == [] then []
    else
      var front := NameEdges(bare, all, linked, keys[..|keys| - 1]);
      var edge := NameEdge(bare, all, linked, keys[|keys| - 1]);
      if edge.Some? then front + [edge.value] else front
  }

  ghost function Derived(bare: string -> string, all: seq<Entity>): seq<Edge> {
    var byCode := CodeEdges(bare, all, all);
    byCode + NameEdges(bare, all, Parents(byCode), Keys(ConsolidatedByName, bare, all))
  }

  // ---- the derivation ----

  method FillIndexes(bare: string -> string, entities: seq<Entity>) returns (towns: Groups, consolidated: Groups, places: Groups)
    ensures Holds(towns, TownsByCode, bare, entities)
    ensures Holds(consolidated, ConsolidatedByName, bare, entities)
    ensures Holds(places, PlacesByName, bare, entities)
  {
    towns, consolidated, places := NO_GROUPS, NO_GROUPS, NO_GROUPS;
    for i := 0 to |entities|
      invariant Holds(towns, TownsByCode, bare, entities[..i])
      invariant Holds(consolidated, ConsolidatedByName, bare, entities[..i])
      invariant Holds(places, PlacesByName, bare, entities[..i])
    {
      hide Holds, Push, File, Filing, KeyOf, TownCode, NameKey;
      var e := entities[i];
      assert entities[..i + 1] == entities[..i] + [e];
      FileHolds(towns, TownsByCode, bare, entities[..i], e);
      FileHolds(consolidated, ConsolidatedByName, bare, entities[..i], e);
      FileHolds(places, PlacesByName, bare, entities[..i], e);
      FiledByLevel(towns, bare, e);
      FiledByLevel(consolidated, bare, e);
      FiledByLevel(places, bare, e);
      if e.level == "060" {
        towns := Push(towns, TownCode(e), e);
        if e.funcstat == Some("B") || e.funcstat == Some("C") {
          consolidated := Push(consolidated, NameKey(bare, e), e);
        }
      } else if e.level == "160" {
        places := Push(places, NameKey(bare, e), e);
      }
    }
    assert entities[..|entities|] == entities;
  }

  method AddSplit(place: Entity, twins: seq<Entity>, out0: seq<Edge>, linked0: set<string>) returns (out: seq<Edge>, linked: set<string>)
    requires linked0 == Parents(out0)
    ensures out == out0 + Split(place, twins) && linked == Parents(out)
  {
    out, linked := out0, linked0;
    var total := 0;
    for i := 0 to |twins|
      invariant total == TotalLand(twins[..i])
    {
      assert twins[..i + 1][..i] == twins[..i];
      total := total + twins[i].aland.GetOr(0);
    }
    assert twins[..|twins|] == twins;
    for i := 0 to |twins|
      invariant out == out0 + Split(place, twins)[..i] && linked == Parents(out)
    {
      var edge := Edge(place.ucgid, twins[i].ucgid, Share(twins[i], total, |twins|));
      ParentsAppend(out, edge);
      out := out + [edge];
      linked := linked + {twins[i].ucgid};
    }
  }

  lemma ParentsAppend(edges: seq<Edge>, edge: Edge)
    ensures Parents(edges + [edge]) == Parents(edges) + {edge.parent}
  {
    forall p ensures p in Parents(edges + [edge]) <==> p in Parents(edges) + {edge.parent} {
      if p in Parents(edges) + {edge.parent} {
        var e :| (e in edges || e == edge) && e.parent == p;
        assert e in edges + [edge];
      }
    }
  }

  method LinkByCode(bare: string -> string, entities: seq<Entity>, towns: Groups) returns (out: seq<Edge>, linked: set<string>)
    requires Holds(towns, TownsByCode, bare, entities)
    ensures out == CodeEdges(bare, entities, entities) && linked == Parents(out)
  {
    out, linked := [], {};
    for i := 0 to |entities|
      invariant out == CodeEdges(bare, entities, entities[..i]) && linked == Parents(out)
    {
      assert entities[..i + 1][..i] == entities[..i];
      var place := entities[i];
      if place.level == "160" {
        var key := PlaceCode(place);
        UsedKeys(TownsByCode, bare, entities, key);
        if key in towns.lists {
          out, linked := AddSplit(place, towns.lists[key], out, linked);
        }
      }
    }
    assert entities[..|entities|] == entities;
  }

  method LinkByName(bare: string -> string, ghost entities: seq<Entity>, consolidated: Groups, places: Groups, linked: set<string>)
    returns (out: seq<Edge>)
    requires Holds(consolidated, ConsolidatedByName, bare, entities) && Holds(places, PlacesByName, bare, entities)
    ensures out == NameEdges(bare, entities, linked, consolidated.keys)
  {
    out := [];
    var keys := consolidated.keys;
    for i := 0 to |keys|
      invariant out == NameEdges(bare, entities, linked, keys[..i])
    {
      var key := keys[i];
      assert keys[..i + 1][..i] == keys[..i] && key in keys;
      UsedKeys(PlacesByName, bare, entities, key);
      var towns := consolidated.lists[key];
      if |towns| == 1 && key in places.lists && |places.lists[key]| == 1 && towns[0].ucgid !in linked {
        out := out + [Edge(places.lists[key][0].ucgid, towns[0].ucgid, 1.0)];
      }
    }
    assert keys[..|keys|] == keys;
  }

  method DeriveTownTwins(bare: string -> string, entities: seq<Entity>) returns (out: seq<Edge>)
    ensures out == Derived(bare, entities)
  {
    var towns, consolidated, places := FillIndexes(bare, entities);
    var byCode, linked := LinkByCode(bare, entities, towns);
    var byName := LinkByName(bare, entities, consolidated, places, linked);
    return byCode + byName;
  }

  // ---- what the edges say ----

  /** A place and a county subdivision with one state and one code after the state, or the county. */
  predicate SameMunicipality(place: Entity, town: Entity) {
    && IsPlace(place) && IsTown(town)
    && Upto(place.geoid, 2) == Upto(town.geoid, 2) && From(place.geoid, 2) == From(town.geoid, 5)
  }

  lemma KeysSeparate(g: string, h: string, x: string, y: string)
    requires |g| < 2 ==> x == ""
    requires |h| < 2 ==> y == ""
    ensures KeyOf(g, x) == KeyOf(h, y) <==> Upto(g, 2) == Upto(h, 2) && x == y
  {
    var left, right := Upto(g, 2), Upto(h, 2);
    assert |KeyOf(g, x)| == |left| + 1 + |x| && |KeyOf(h, y)| == |right| + 1 + |y|;
    if KeyOf(g, x) == KeyOf(h, y) {
      assert |left| == |right|;
      assert left == KeyOf(g, x)[..|left|] == right;
      assert x == KeyOf(g, x)[|left| + 1..] == y;
    }
  }

  /** A consolidated town and a place are filed under one name exactly when state and bare name are the same. */
  lemma NamesFiledAlike(bare: string -> string, town: Entity, place: Entity)
    requires |town.geoid| >= 2 && |place.geoid| >= 2
    ensures Filing(ConsolidatedByName, bare, town).Some? && Filing(ConsolidatedByName, bare, town) == Filing(PlacesByName, bare, place) <==>
      && town.level == "060" && town.funcstat in {Some("B"), Some("C")} && place.level == "160"
      && town.geoid[..2] == place.geoid[..2] && bare(town.name) == bare(place.name)
  {
    KeysSeparate(town.geoid, place.geoid, bare(town.name), bare(place.name));
  }

  /** The twins of a place are exactly the entities that are its municipality. */
  lemma TwinsAreSameMunicipality(bare: string -> string, all: seq<Entity>, place: Entity, town: Entity)
    requires IsPlace(place)
    ensures town in Twins(bare, all, place) <==> town in all && SameMunicipality(place, town)
  {
    KeysSeparate(place.geoid, town.geoid, From(place.geoid, 2), From(town.geoid, 5));
  }

  ghost predicate IsCodePair(bare: string -> string, all: seq<Entity>, places: seq<Entity>, e: Edge, place: Entity, town: Entity) {
    && place in places && town in all && SameMunicipality(place, town)
    && (var twins := Twins(bare, all, place);
        twins != [] && e == Edge(place.ucgid, town.ucgid, Share(town, TotalLand(twins), |twins|)))
  }

  lemma SplitPairs(bare: string -> string, all: seq<Entity>, place: Entity, e: Edge)
    requires IsPlace(place)
    ensures e in Split(place, Twins(bare, all, place)) <==> exists town :: IsCodePair(bare, all, [place], e, place, town)
  {
    var twins := Twins(bare, all, place);
    if e in Split(place, twins) {
      var i :| 0 <= i < |twins| && e == Split(place, twins)[i];
      TwinsAreSameMunicipality(bare, all, place, twins[i]);
      assert IsCodePair(bare, all, [place], e, place, twins[i]);
    }
    if town :| IsCodePair(bare, all, [place], e, place, town) {
      TwinsAreSameMunicipality(bare, all, place, town);
      var i :| 0 <= i < |twins| && twins[i] == town;
      assert e == Split(place, twins)[i];
    }
  }

  /** The edges by code join exactly the places and subdivisions that are one municipality, with the land's share. */
  lemma {:induction false} CodeEdgesJoin(bare: string -> string, all: seq<Entity>, places: seq<Entity>, e: Edge)
    ensures e in CodeEdges(bare, all, places) <==> exists place, town :: IsCodePair(bare, all, places, e, place, town)
  {
    if places != [] {
      var front, last := places[..|places| - 1], places[|places| - 1];
      CodeEdgesJoin(bare, all, front, e);
      if IsPlace(last) {
        SplitPairs(bare, all, last, e);
      }
      if e in CodeEdges(bare, all, front) {
        var place, town :| IsCodePair(bare, all, front, e, place, town);
        assert IsCodePair(bare, all, places, e, place, town);
      } else if e in CodeEdges(bare, all, places) {
        var town :| IsCodePair(bare, all, [last], e, last, town);
        assert IsCodePair(bare, all, places, e, last, town);
      }
      if place, town :| IsCodePair(bare, all, places, e, place, town) {
        assert IsCodePair(bare, all, if place in front then front else [last], e, place, town);
      }
    }
  }

  /** The share a list of edges gives away in a place's name. */
  function Given(edges: seq<Edge>, child: string): real {
    if edges == [] then 0.0
    else
      var last := edges[|edges| - 1];
      Given(edges[..|edges| - 1], child) + (if last.child == child then last.share else 0.0)
  }

  lemma {:induction false} GivenAppend(a: seq<Edge>, b: seq<Edge>, child: string)
    ensures Given(a + b, child) == Given(a, child) + Given(b, child)
  {
    if b == [] {
      assert a + b == a;
    } else {
      assert (a + b)[..|a + b| - 1] == a + b[..|b| - 1];
      GivenAppend(a, b[..|b| - 1], child);
    }
  }

  lemma {:induction false} LandIsWithin(twins: seq<Entity>, i: nat)
    requires i < |twins|
    ensures twins[i].aland.GetOr(0) <= TotalLand(twins)
  {
    if i < |twins| - 1 {
      LandIsWithin(twins[..|twins| - 1], i);
    }
  }

  /** What a twin's share is a share of: its land of the total, or one of the count. */
  function Part(t: Entity, total: nat): nat { if total > 0 then t.aland.GetOr(0) else 1 }

  function Whole(total: nat, count: nat): nat { if total > 0 then total else count }

  predicate IsQuotient(q: real, part: nat, whole: nat) { q * whole as real == part as real }

  lemma QuotientIsUnique(p: real, q: real, part: nat, whole: nat)
    requires whole > 0 && IsQuotient(p, part, whole) && IsQuotient(q, part, whole)
    ensures p == q
  {
    var w := whole as real;
    assert (p - q) * w == 0.0;
  }

  lemma DivideQuotient(part: nat, whole: nat)
    requires whole > 0
    ensures IsQuotient(part as real / whole as real, part, whole)
  {
  }

  lemma ShareIsQuotient(t: Entity, total: nat, count: nat)
    requires count > 0
    ensures IsQuotient(Share(t, total, count), Part(t, total), Whole(total, count))
  {
    DivideQuotient(Part(t, total), Whole(total, count));
  }

  lemma GivenByNext(place: Entity, twins: seq<Entity>, n: nat)
    requires n < |twins|
    ensures var edges := Split(place, twins);
      Given(edges[..n + 1], place.ucgid)
      == Given(edges[..n], place.ucgid) + Share(twins[n], TotalLand(twins), |twins|)
  {
    var edges := Split(place, twins);
    assert edges[..n + 1][..n] == edges[..n];
  }

  function Parts(twins: seq<Entity>, total: nat): nat {
    if twins == [] then 0 else Parts(twins[..|twins| - 1], total) + Part(twins[|twins| - 1], total)
  }

  lemma {:induction false} PartsMakeTheWhole(twins: seq<Entity>, total: nat)
    ensures Parts(twins, total) == if total > 0 then TotalLand(twins) else |twins|
  {
    if twins != [] {
      PartsMakeTheWhole(twins[..|twins| - 1], total);
    }
  }

  /** The edges of the first `n` twins carry their parts of the whole. */
  lemma {:induction false} PartialShares(place: Entity, twins: seq<Entity>, total: nat, whole: nat, n: nat)
    requires n <= |twins| && total == TotalLand(twins) && whole == Whole(total, |twins|) && whole > 0
    ensures IsQuotient(Given(Split(place, twins)[..n], place.ucgid), Parts(twins[..n], total), whole)
  {
    if n > 0 {
      PartialShares(place, twins, total, whole, n - 1);
      GivenByNext(place, twins, n - 1);
      PartsByNext(twins, total, n - 1);
      ShareIsQuotient(twins[n - 1], total, |twins|);
      AddQuotients(Given(Split(place, twins)[..n - 1], place.ucgid), Share(twins[n - 1], total, |twins|),
                   Parts(twins[..n - 1], total), Part(twins[n - 1], total), whole);
    }
  }

  lemma AddQuotients(p: real, q: real, x: nat, y: nat, whole: nat)
    requires IsQuotient(p, x, whole) && IsQuotient(q, y, whole)
    ensures IsQuotient(p + q, x + y, whole)
  {
    var w := whole as real;
    assert (p + q) * w == p * w + q * w;
  }

  lemma PartsByNext(twins: seq<Entity>, total: nat, n: nat)
    requires n < |twins|
    ensures Parts(twins[..n + 1], total) == Parts(twins[..n], total) + Part(twins[n], total)
  {
    assert twins[..n + 1][..n] == twins[..n];
  }

  lemma SharesAreParts(place: Entity, twins: seq<Entity>)
    ensures forall e :: e in Split(place, twins) ==> 0.0 <= e.share <= 1.0
  {
    forall e | e in Split(place, twins) ensures 0.0 <= e.share <= 1.0 {
      var i :| 0 <= i < |twins| && e == Split(place, twins)[i];
      LandIsWithin(twins, i);
      ShareIsQuotient(twins[i], TotalLand(twins), |twins|);
      Fraction(e.share, Part(twins[i], TotalLand(twins)), Whole(TotalLand(twins), |twins|));
    }
  }

  lemma {:induction false} AllShares(place: Entity, twins: seq<Entity>, total: nat, whole: nat)
    requires total == TotalLand(twins) && whole == Whole(total, |twins|) && whole > 0
    ensures Given(Split(place, twins), place.ucgid) == 1.0
  {
    PartialShares(place, twins, total, whole, |twins|);
    PartsMakeTheWhole(twins, total);
    assert Split(place, twins)[..|twins|] == Split(place, twins) && twins[..|twins|] == twins;
    QuotientIsUnique(Given(Split(place, twins), place.ucgid), 1.0, whole, whole);
  }

  /**
   * A place split among its twins gives away exactly one whole, in parts from zero to one, whether land
   * areas are known, missing or all zero.
   */
  lemma SharesMakeOneWhole(place: Entity, twins: seq<Entity>)
    requires twins != []
    ensures Given(Split(place, twins), place.ucgid) == 1.0
    ensures forall e :: e in Split(place, twins) ==> 0.0 <= e.share <= 1.0
  {
    SharesAreParts(place, twins);
    AllShares(place, twins, TotalLand(twins), Whole(TotalLand(twins), |twins|));
  }

  lemma Proportional(p: real, q: real, w: real, a: real, b: real)
    requires p * w == a && q * w == b
    ensures p * b == q * a
  {
    assert p * (q * w) == q * (p * w);
  }

  lemma SharesAreProportional(s: Entity, t: Entity, total: nat, count: nat)
    requires total > 0 && count > 0
    ensures Share(s, total, count) * t.aland.GetOr(0) as real == Share(t, total, count) * s.aland.GetOr(0) as real
  {
    hide Share;
    ShareIsQuotient(s, total, count);
    ShareIsQuotient(t, total, count);
    Proportional(Share(s, total, count), Share(t, total, count), total as real, s.aland.GetOr(0) as real, t.aland.GetOr(0) as real);
  }

  /** Shares are as the land areas are, a missing one counting as none; where no twin has land they are equal. */
  lemma SharesFollowLand(place: Entity, twins: seq<Entity>, i: nat, j: nat)
    requires i < |twins| && j < |twins|
    ensures var edges := Split(place, twins);
      |edges| == |twins| && edges[i].child == place.ucgid && edges[i].parent == twins[i].ucgid
    ensures var edges := Split(place, twins);
      if exists t :: t in twins && t.aland.GetOr(0) > 0
      then edges[i].share * twins[j].aland.GetOr(0) as real == edges[j].share * twins[i].aland.GetOr(0) as real
      else edges[i].share == edges[j].share
  {
    if t :| t in twins && t.aland.GetOr(0) > 0 {
      hide Share, TotalLand;
      var k :| 0 <= k < |twins| && twins[k] == t;
      LandIsWithin(twins, k);
      SharesAreProportional(twins[i], twins[j], TotalLand(twins), |twins|);
    } else {
      NoLand(twins);
    }
  }

  lemma {:induction false} NoLand(twins: seq<Entity>)
    requires forall t :: t in twins ==> t.aland.GetOr(0) == 0
    ensures TotalLand(twins) == 0
  {
    if twins != [] {
      assert twins[|twins| - 1] in twins;
      NoLand(twins[..|twins| - 1]);
    }
  }

  lemma Fraction(q: real, part: nat, whole: nat)
    requires part <= whole && whole > 0 && IsQuotient(q, part, whole)
    ensures 0.0 <= q <= 1.0
  {
    var w := whole as real;
    if q > 1.0 {
      assert (q - 1.0) * w > 0.0;
    }
  }

  predicate IsTwinned(bare: string -> string, all: seq<Entity>, ucgid: string, e: Entity) {
    IsPlace(e) && e.ucgid == ucgid && Twins(bare, all, e) != []
  }

  lemma {:induction false} SplitGivesNothingElse(place: Entity, edges: seq<Edge>, child: string)
    requires child != place.ucgid && forall e :: e in edges ==> e.child == place.ucgid
    ensures Given(edges, child) == 0.0
  {
    if edges != [] {
      SplitGivesNothingElse(place, edges[..|edges| - 1], child);
    }
  }

  /** By code, an identifier gives away one whole for each place that bears it and has a twin. */
  lemma {:induction false} CodeEdgesGive(bare: string -> string, all: seq<Entity>, places: seq<Entity>, child: string)
    ensures Given(CodeEdges(bare, all, places), child) == Count(places, e => IsTwinned(bare, all, child, e)) as real
  {
    if places != [] {
      var front, place := places[..|places| - 1], places[|places| - 1];
      var twins := Twins(bare, all, place);
      var edges := if IsPlace(place) then Split(place, twins) else [];
      CodeEdgesGive(bare, all, front, child);
      GivenAppend(CodeEdges(bare, all, front), edges, child);
      if place.ucgid != child {
        SplitGivesNothingElse(place, edges, child);
      } else if edges != [] {
        SharesMakeOneWhole(place, twins);
      }
    }
  }

  predicate IsNamed(bare: string -> string, all: seq<Entity>, linked: set<string>, child: string, key: string) {
    var edge := NameEdge(bare, all, linked, key);
    edge.Some? && edge.value.child == child
  }

  lemma {:induction false} NameEdgesGive(bare: string -> string, all: seq<Entity>, linked: set<string>, keys: seq<string>, child: string)
    ensures Given(NameEdges(bare, all, linked, keys), child) == Count(keys, key => IsNamed(bare, all, linked, child, key)) as real
  {
    if keys != [] {
      var front := keys[..|keys| - 1];
      NameEdgesGive(bare, all, linked, front, child);
      var edge := NameEdge(bare, all, linked, keys[|keys| - 1]);
      if edge.Some? {
        var edges := NameEdges(bare, all, linked, front) + [edge.value];
        assert edges[..|edges| - 1] == NameEdges(bare, all, linked, front);
      }
    }
  }

  /** The entity at `i` is the only one an index files under its key. */
  ghost predicate IsSole(index: Index, bare: string -> string, all: seq<Entity>, key: string, i: nat) {
    i < |all| && forall j :: 0 <= j < |all| ==> (Filing(index, bare, all[j]) == Some(key) <==> j == i)
  }

  lemma {:induction false} EmptyGroup(index: Index, bare: string -> string, all: seq<Entity>, key: string)
    requires forall e :: e in all ==> Filing(index, bare, e) != Some(key)
    ensures Group(index, bare, all, key) == []
  {
    if all != [] {
      EmptyGroup(index, bare, all[..|all| - 1], key);
    }
  }

  lemma {:induction false} SoleGroup(index: Index, bare: string -> string, all: seq<Entity>, key: string, i: nat)
    requires IsSole(index, bare, all, key, i)
    ensures Group(index, bare, all, key) == [all[i]]
  {
    var front := all[..|all| - 1];
    if i == |front| {
      EmptyGroup(index, bare, front, key);
    } else {
      assert IsSole(index, bare, front, key, i);
      SoleGroup(index, bare, front, key, i);
    }
  }

  lemma NothingFiled(index: Index, bare: string -> string, all: seq<Entity>, key: string)
    requires Group(index, bare, all, key) == []
    ensures forall j :: 0 <= j < |all| ==> Filing(index, bare, all[j]) != Some(key)
  {
    forall j | 0 <= j < |all| ensures Filing(index, bare, all[j]) != Some(key) {
      assert all[j] in all && all[j] !in Group(index, bare, all, key);
    }
  }

  lemma LastIsSole(index: Index, bare: string -> string, front: seq<Entity>, last: Entity, key: string)
    requires Filing(index, bare, last) == Some(key)
    requires forall j :: 0 <= j < |front| ==> Filing(index, bare, front[j]) != Some(key)
    ensures IsSole(index, bare, front + [last], key, |front|)
  {
  }

  lemma StaysSole(index: Index, bare: string -> string, front: seq<Entity>, last: Entity, key: string, i: nat)
    requires Filing(index, bare, last) != Some(key) && IsSole(index, bare, front, key, i)
    ensures IsSole(index, bare, front + [last], key, i)
  {
  }

  lemma {:induction false} GroupOfOne(index: Index, bare: string -> string, all: seq<Entity>, key: string) returns (i: nat)
    requires |Group(index, bare, all, key)| == 1
    ensures IsSole(index, bare, all, key, i)
  {
    hide Filing, IsSole;
    var front, last := all[..|all| - 1], all[|all| - 1];
    assert all == front + [last];
    GroupAppend(index, bare, front, last, key);
    if Filing(index, bare, last) == Some(key) {
      i := |front|;
      assert Group(index, bare, front, key) == [];
      NothingFiled(index, bare, front, key);
      LastIsSole(index, bare, front, last, key);
    } else {
      i := GroupOfOne(index, bare, front, key);
      StaysSole(index, bare, front, last, key, i);
    }
  }

  /** No place of the list is one municipality with a town that has this identifier. */
  ghost predicate IsUnlinked(all: seq<Entity>, ucgid: string) {
    forall place, town :: place in all && town in all && SameMunicipality(place, town) ==> town.ucgid != ucgid
  }

  lemma UnlinkedExactly(bare: string -> string, all: seq<Entity>, ucgid: string)
    ensures ucgid !in Parents(CodeEdges(bare, all, all)) <==> IsUnlinked(all, ucgid)
  {
    var edges := CodeEdges(bare, all, all);
    if ucgid in Parents(edges) {
      var e :| e in edges && e.parent == ucgid;
      CodeEdgesJoin(bare, all, all, e);
      var place, town :| IsCodePair(bare, all, all, e, place, town);
      assert place in all && town in all && SameMunicipality(place, town);
    }
    if place, town :| place in all && town in all && SameMunicipality(place, town) && town.ucgid == ucgid {
      TwinsAreSameMunicipality(bare, all, place, town);
      var twins := Twins(bare, all, place);
      var e := Edge(place.ucgid, town.ucgid, Share(town, TotalLand(twins), |twins|));
      assert IsCodePair(bare, all, all, e, place, town);
      CodeEdgesJoin(bare, all, all, e);
      assert e in edges && e.parent == ucgid;
    }
  }

  /**
   * The town at `t` is the only consolidated one of its state and name, the place at `i` the only place, and no
   * code links the town.
   */
  ghost predicate IsNamePair(bare: string -> string, all: seq<Entity>, key: string, t: nat, i: nat) {
    IsSole(ConsolidatedByName, bare, all, key, t) && IsSole(PlacesByName, bare, all, key, i) && IsUnlinked(all, all[t].ucgid)
  }

  /** There is an edge by name exactly for such a pair, and it joins the two. */
  lemma NameEdgeMeans(bare: string -> string, all: seq<Entity>, key: string)
    ensures var edge := NameEdge(bare, all, Parents(CodeEdges(bare, all, all)), key);
      && (edge.Some? <==> exists t: nat, i: nat :: IsNamePair(bare, all, key, t, i))
      && forall t: nat, i: nat :: IsNamePair(bare, all, key, t, i) ==> edge == Some(Edge(all[i].ucgid, all[t].ucgid, 1.0))
  {
    hide Group, CodeEdges, Parents, IsUnlinked, Filing;
    var linked := Parents(CodeEdges(bare, all, all));
    if NameEdge(bare, all, linked, key).Some? {
      var t := GroupOfOne(ConsolidatedByName, bare, all, key);
      var i := GroupOfOne(PlacesByName, bare, all, key);
      SoleGroup(ConsolidatedByName, bare, all, key, t);
      UnlinkedExactly(bare, all, all[t].ucgid);
      assert IsNamePair(bare, all, key, t, i);
    }
    forall t: nat, i: nat | IsNamePair(bare, all, key, t, i)
      ensures NameEdge(bare, all, linked, key) == Some(Edge(all[i].ucgid, all[t].ucgid, 1.0))
    {
      SoleGroup(ConsolidatedByName, bare, all, key, t);
      SoleGroup(PlacesByName, bare, all, key, i);
      UnlinkedExactly(bare, all, all[t].ucgid);
    }
  }

  /** The entity at `i` is the only place with its identifier. */
  predicate IsSolePlace(all: seq<Entity>, i: nat) {
    i < |all| && IsPlace(all[i]) && forall j :: 0 <= j < |all| && j != i && IsPlace(all[j]) ==> all[j].ucgid != all[i].ucgid
  }

  /** One consolidated town, not linked by code, bears the name of this place alone. */
  ghost predicate IsNameMatched(bare: string -> string, all: seq<Entity>, place: Entity) {
    exists t: nat, i: nat :: IsNamePair(bare, all, NameKey(bare, place), t, i)
  }

  lemma SolePlaceNames(bare: string -> string, all: seq<Entity>, linked: set<string>, i: nat, key: string)
    requires IsSolePlace(all, i) && IsNamed(bare, all, linked, all[i].ucgid, key)
    ensures key == NameKey(bare, all[i])
  {
    var place := Group(PlacesByName, bare, all, key)[0];
    assert place in Group(PlacesByName, bare, all, key);
    var j :| 0 <= j < |all| && all[j] == place;
  }

  /** A name edge under a sole place's own key is that place's, and its key is in use. */
  lemma OwnNameEdge(bare: string -> string, all: seq<Entity>, linked: set<string>, i: nat)
    requires IsSolePlace(all, i)
    ensures var key := NameKey(bare, all[i]);
      && (IsNamed(bare, all, linked, all[i].ucgid, key) <==> NameEdge(bare, all, linked, key).Some?)
      && (NameEdge(bare, all, linked, key).Some? ==> key in Keys(ConsolidatedByName, bare, all))
  {
    var key := NameKey(bare, all[i]);
    UsedKeys(ConsolidatedByName, bare, all, key);
    assert all[i] in Group(PlacesByName, bare, all, key);
  }

  lemma SolePlaceNamedOnce(bare: string -> string, all: seq<Entity>, linked: set<string>, i: nat)
    requires IsSolePlace(all, i)
    ensures Count(Keys(ConsolidatedByName, bare, all), key => IsNamed(bare, all, linked, all[i].ucgid, key))
         == if NameEdge(bare, all, linked, NameKey(bare, all[i])).Some? then 1 else 0
  {
    var keys, key := Keys(ConsolidatedByName, bare, all), NameKey(bare, all[i]);
    var named := (k: string) => IsNamed(bare, all, linked, all[i].ucgid, k);
    forall k | k != key ensures !named(k) {
      if named(k) {
        SolePlaceNames(bare, all, linked, i, k);
      }
    }
    OwnNameEdge(bare, all, linked, i);
    if key in keys {
      var at :| 0 <= at < |keys| && keys[at] == key;
      CountAtMostOne(keys, at, named);
    } else {
      CountZero(keys, named);
    }
  }

  /**
   * The edges of a place give away one whole when it has twins by code, and one more when a consolidated
   * town matches it by name: all of them together make one whole exactly when one of the two rules applies.
   */
  lemma PlaceGivesExactly(bare: string -> string, all: seq<Entity>, i: nat)
    requires IsSolePlace(all, i)
    ensures Given(Derived(bare, all), all[i].ucgid)
         == (if Twins(bare, all, all[i]) != [] then 1.0 else 0.0) + (if IsNameMatched(bare, all, all[i]) then 1.0 else 0.0)
    ensures Given(Derived(bare, all), all[i].ucgid) == 1.0 <==> (Twins(bare, all, all[i]) != []) != IsNameMatched(bare, all, all[i])
  {
    var child, byCode := all[i].ucgid, CodeEdges(bare, all, all);
    var linked, keys := Parents(byCode), Keys(ConsolidatedByName, bare, all);
    GivenAppend(byCode, NameEdges(bare, all, linked, keys), child);
    CodeEdgesGive(bare, all, all, child);
    CountAtMostOne(all, i, e => IsTwinned(bare, all, child, e));
    NameEdgesGive(bare, all, linked, keys, child);
    SolePlaceNamedOnce(bare, all, linked, i);
    NameEdgeMeans(bare, all, NameKey(bare, all[i]));
  }

  const TWICE_MATCHED := Entity("p", "0100001", "160", "a", None, None)
  const SAME_CODE := Entity("t", "0100100001", "060", "b", None, None)
  const SAME_NAME := Entity("c", "0100100002", "060", "a", Some("C"), None)
  const THREE := [TWICE_MATCHED, SAME_CODE, SAME_NAME]

  lemma ExampleCodes(bare: string -> string)
    ensures SameMunicipality(TWICE_MATCHED, SAME_CODE) && !SameMunicipality(TWICE_MATCHED, SAME_NAME)
    ensures Filing(ConsolidatedByName, bare, SAME_NAME) == Some("01" + ":" + bare("a"))
    ensures Filing(PlacesByName, bare, TWICE_MATCHED) == Some("01" + ":" + bare("a"))
  {
    assert TWICE_MATCHED.geoid[2..] == "00001" == SAME_CODE.geoid[5..] && SAME_NAME.geoid[5..] == "00002";
    assert TWICE_MATCHED.geoid[..2] == "01" == SAME_CODE.geoid[..2] && SAME_NAME.geoid[..2] == "01";
  }

  lemma ExampleNamed(bare: string -> string)
    ensures IsNameMatched(bare, THREE, TWICE_MATCHED)
  {
    ExampleCodes(bare);
    var key := NameKey(bare, TWICE_MATCHED);
    assert IsSole(ConsolidatedByName, bare, THREE, key, 2);
    assert IsSole(PlacesByName, bare, THREE, key, 0);
    assert IsNamePair(bare, THREE, key, 2, 0);
  }

  /** A place with a twin of its own code can also match a consolidated town by name, and gives away two wholes. */
  lemma CanGiveTwice(bare: string -> string)
    ensures IsSolePlace(THREE, 0) && Given(Derived(bare, THREE), THREE[0].ucgid) == 2.0
  {
    ExampleCodes(bare);
    TwinsAreSameMunicipality(bare, THREE, TWICE_MATCHED, SAME_CODE);
    ExampleNamed(bare);
    PlaceGivesExactly(bare, THREE, 0);
  }
}
