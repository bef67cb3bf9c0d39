/**
 * GDP by industry from BEA: series keys that pack a table, a line and a place, and the fetch that asks
 * for every place of one table and line in a single call and takes the rows apart again.
 */
module Gdp {
  import opened Counting
  import opened Options
  import opened Sorting
  import opened Text

  const SEPARATOR: char := '|'
  const TABLES: set<string> := {"CAGDP2", "CAGDP9", "SAGDP2", "SAGDP9"}

  // ---- series keys ----

  datatype Series = Series(table: string, lineCode: string, geoFips: string)

  function IsStateGeoFips(geoFips: string): bool { |geoFips| == 5 && geoFips[2..] == "000" }

  function TableFor(isReal: bool, geoFips: string): string {
    if isReal then (if IsStateGeoFips(geoFips) then "SAGDP9" else "CAGDP9")
    else (if IsStateGeoFips(geoFips) then "SAGDP2" else "CAGDP2")
  }

  /** The line code of an industry on a table; `lines` is BEA's own list of them. */
  function LineCodeOf(lines: map<(string, string), string>, table: string, industry: string): string {
    if industry == "all" then "1"
    else if industry == "private" then "2"
    else if (table, industry) in lines then lines[(table, industry)] else "1"
  }

  function SeriesFor(lines: map<(string, string), string>, isReal: bool, geoFips: string, industry: string): Series {
    var table := TableFor(isReal, geoFips);
    Series(table, LineCodeOf(lines, table, industry), geoFips)
  }

  function BuildGdpKey(lines: map<(string, string), string>, isReal: bool, geoFips: string, industry: string): string {
    var s := SeriesFor(lines, isReal, geoFips, industry);
    Join([s.table, s.lineCode, s.geoFips], [SEPARATOR])
  }

  function ParseGdpKey(key: string): Option<Series> {
    var parts := Split(key, SEPARATOR);
    if |parts| < 3 || parts[0] == "" || parts[1] == "" || parts[2] == "" || parts[0] !in TABLES then None
    else Some(Series(parts[0], parts[1], parts[2]))
  }

  lemma SplitThree(a: string, b: string, rest: string, sep: char)
    requires sep !in a && sep !in b
    ensures Split(Join([a, b, rest], [sep]), sep) == [a, b] + Split(rest, sep)
  {
    assert [a, b, rest][1..] == [b, rest] && [b, rest][1..] == [rest];
    assert Join([b, rest], [sep]) == b + [sep] + rest;
    assert Join([a, b, rest], [sep]) == a + [sep] + (b + [sep] + rest);
    SplitAtFirst(a, sep, b + [sep] + rest);
    SplitAtFirst(b, sep, rest);
  }

  lemma TablesAreTables(isReal: bool, geoFips: string)
    ensures var table := TableFor(isReal, geoFips); table in TABLES && table != "" && SEPARATOR !in table
  {
  }

  /**
   * Parsing a built key gives back what it was built from exactly when the place code is not empty and holds no
   * separator.
   */
  lemma ParseUndoesBuildExactly(lines: map<(string, string), string>, isReal: bool, geoFips: string, industry: string)
    requires forall k :: k in lines ==> lines[k] != "" && SEPARATOR !in lines[k]
    ensures ParseGdpKey(BuildGdpKey(lines, isReal, geoFips, industry)) == Some(SeriesFor(lines, isReal, geoFips, industry))
      <==> geoFips != "" && SEPARATOR !in geoFips
  {
    var s := SeriesFor(lines, isReal, geoFips, industry);
    TablesAreTables(isReal, geoFips);
    SplitThree(s.table, s.lineCode, geoFips, SEPARATOR);
    FirstPartIsWholeExactly(geoFips, SEPARATOR);
  }

  lemma FirstPartIsWholeExactly(s: string, sep: char)
    ensures Split(s, sep)[0] == s <==> sep !in s
  {
    var i := IndexOf(s, sep);
    assert Split(s, sep)[0] == s[..i];
    assert |s[..i]| == i;
    if i == |s| {
      assert s[..i] == s;
    }
  }

  /** A key is malformed exactly when one of its first three parts is missing or empty, or its table is none of the four. */
  lemma MalformedExactly(key: string)
    ensures var parts := Split(key, '|');
      ParseGdpKey(key) == None <==>
        |parts| < 3 || parts[0] == "" || parts[1] == "" || parts[2] == ""
        || (parts[0] != "CAGDP2" && parts[0] != "CAGDP9" && parts[0] != "SAGDP2" && parts[0] != "SAGDP9")
    ensures var parts := Split(key, '|');
      ParseGdpKey(key).Some? ==> ParseGdpKey(key).value == Series(parts[0], parts[1], parts[2])
  {
  }

  /**
   * What a key is built from: a state's table for a code of five digits that ends in 000, a county's
   * otherwise, the real or the nominal one; the line of the industry, the total for all and for one the table
   * does not list, the private one for private.
   */
  lemma SeriesOfQuestion(lines: map<(string, string), string>, isReal: bool, geoFips: string, industry: string)
    ensures var s := SeriesFor(lines, isReal, geoFips, industry);
      var state := |geoFips| == 5 && geoFips[2..] == "000";
      && s.geoFips == geoFips
      && (s.table == "SAGDP9" <==> isReal && state) && (s.table == "CAGDP9" <==> isReal && !state)
      && (s.table == "SAGDP2" <==> !isReal && state) && (s.table == "CAGDP2" <==> !isReal && !state)
      && (industry == "all" ==> s.lineCode == "1") && (industry == "private" ==> s.lineCode == "2")
      && (industry != "all" && industry != "private" ==>
            s.lineCode == if (s.table, industry) in lines then lines[(s.table, industry)] else "1")
  {
  }

  // ---- what one key means ----

  /** A period of one place's series; a later period has the larger rank within its year. */
  datatype Observation = Observation(year: int, periodRank: int, value: Option<real>)

  datatype Row = Row(geoFips: string, observation: Observation)

  /** Everything BEA holds for one table and line. */
  type Tables = (string, string) -> seq<Row>

  function NewestFirst(): (Observation, Observation) -> bool {
    (a: Observation, b: Observation) => a.year > b.year || (a.year == b.year && a.periodRank >= b.periodRank)
  }

  function OfGeo(geoFips: string): Row -> bool { (r: Row) => r.geoFips == geoFips }

  function AmongGeos(geos: seq<string>): Row -> bool { (r: Row) => r.geoFips in geos }

  function ObservationOf(): Row -> Observation { (r: Row) => r.observation }

  /** The observations of one place in some rows, newest first. */
  function Newest(rows: seq<Row>, geoFips: string): seq<Observation> {
    Sort(Map(Filter(rows, OfGeo(geoFips)), ObservationOf()), NewestFirst())
  }

  /** What a key asks for, alone: nothing for a malformed key, else its own place's observations. */
  function Alone(bea: Tables, key: string): seq<Observation> {
    var series := ParseGdpKey(key);
    if series == None then [] else Newest(bea(series.value.table, series.value.lineCode), series.value.geoFips)
  }

  ghost function IsRow(geoFips: string, o: Observation): Row -> bool { (r: Row) => r == Row(geoFips, o) }

  /** One place's observations in some rows are those of its rows, each as often. */
  lemma {:induction false} ObservationsAreRows(rows: seq<Row>, geoFips: string, o: Observation)
    ensures multiset(Map(Filter(rows, OfGeo(geoFips)), ObservationOf()))[o] == Count(rows, IsRow(geoFips, o))
  {
    if rows != [] {
      var front, last := rows[..|rows| - 1], rows[|rows| - 1];
      ObservationsAreRows(front, geoFips, o);
      var before := Map(Filter(front, OfGeo(geoFips)), ObservationOf());
      if last.geoFips == geoFips {
        assert Map(Filter(rows, OfGeo(geoFips)), ObservationOf()) == before + [last.observation];
      }
    }
  }

  /** Later years first, and later periods first within a year. */
  ghost predicate NewestComeFirst(observations: seq<Observation>) {
    forall i, j :: 0 <= i < j < |observations| ==>
      observations[i].year > observations[j].year
      || (observations[i].year == observations[j].year && observations[i].periodRank >= observations[j].periodRank)
  }

  /** The answer to a key: nothing when it is malformed, else each of its place's rows in the table, newest first. */
  ghost predicate Answers(bea: Tables, key: string, observations: seq<Observation>) {
    match ParseGdpKey(key)
    case None => observations == []
    case Some(s) =>
      && NewestComeFirst(observations)
      && forall o :: multiset(observations)[o] == Count(bea(s.table, s.lineCode), IsRow(s.geoFips, o))
  }

  lemma NewestFirstIsPreorder()
    ensures TotalPreorder(NewestFirst())
  {
  }

  lemma AloneAnswers(bea: Tables, key: string)
    ensures Answers(bea, key, Alone(bea, key))
  {
    if ParseGdpKey(key).Some? {
      var s := ParseGdpKey(key).value;
      var rows := bea(s.table, s.lineCode);
      var own := Map(Filter(rows, OfGeo(s.geoFips)), ObservationOf());
      NewestFirstIsPreorder();
      SortSorts(own, NewestFirst());
      SortPermutes(own, NewestFirst());
      SortedIsNewestFirst(Sort(own, NewestFirst()));
      forall o ensures multiset(Alone(bea, key))[o] == Count(rows, IsRow(s.geoFips, o)) {
        ObservationsAreRows(rows, s.geoFips, o);
      }
    }
  }

  lemma SortedIsNewestFirst(observations: seq<Observation>)
    requires Sorted(observations, NewestFirst())
    ensures NewestComeFirst(observations)
  {
    forall i, j | 0 <= i < j < |observations|
      ensures observations[i].year > observations[j].year
        || (observations[i].year == observations[j].year && observations[i].periodRank >= observations[j].periodRank)
    {
      assert NewestFirst()(observations[i], observations[j]);
    }
  }

  lemma {:induction false} GeoWithinRequest(rows: seq<Row>, geos: seq<string>, geoFips: string)
    requires geoFips in geos
    ensures Filter(Filter(rows, AmongGeos(geos)), OfGeo(geoFips)) == Filter(rows, OfGeo(geoFips))
  {
    if rows != [] {
      var front, last := rows[..|rows| - 1], rows[|rows| - 1];
      GeoWithinRequest(front, geos, geoFips);
      var kept := Filter(front, AmongGeos(geos));
      if AmongGeos(geos)(last) {
        assert (kept + [last])[..|kept|] == kept;
      }
    }
  }

  // ---- the batched fetch ----

  datatype GroupKey = GroupKey(table: string, lineCode: string)

  /** The places of one table and line in the order first asked for, each with the keys that ask for it. */
  datatype Group = Group(geos: seq<string>, keysOf: map<string, seq<string>>)

  datatype SeriesResult = SeriesResult(seriesId: string, observations: seq<Observation>)

  /** One upstream call: a table and line, and every place asked of them. */
  datatype Request = Request(group: GroupKey, geos: seq<string>)

  function GroupOf(s: Series): GroupKey { GroupKey(s.table, s.lineCode) }

  ghost predicate Unrepeated<T>(s: seq<T>) { forall i, j :: 0 <= i < j < |s| ==> s[i] != s[j] }

  ghost predicate GroupOk(g: GroupKey, group: Group) {
    && Unrepeated(group.geos)
    && (forall geo :: geo in group.geos <==> geo in group.keysOf)
    && (forall geo, k :: geo in group.keysOf && k in group.keysOf[geo] ==>
          ParseGdpKey(k) == Some(Series(g.table, g.lineCode, geo)))
  }

  ghost predicate Holds(groups: map<GroupKey, Group>, k: string) {
    ParseGdpKey(k).Some? ==>
      && var s := ParseGdpKey(k).value;
      GroupOf(s) in groups && s.geoFips in groups[GroupOf(s)].keysOf && k in groups[GroupOf(s)].keysOf[s.geoFips]
  }

  function WithKey(group: Group, geoFips: string, key: string): Group {
    if geoFips in group.keysOf then group.(keysOf := group.keysOf[geoFips := group.keysOf[geoFips] + [key]])
    else Group(group.geos + [geoFips], group.keysOf[geoFips := [key]])
  }

  /** The table and line pairs of the well-formed keys. */
  ghost function GroupsOf(keys: seq<string>): set<GroupKey> {
    set k | k in keys && ParseGdpKey(k).Some? :: GroupOf(ParseGdpKey(k).value)
  }

  /** Some key asks this table and line for this place. */
  ghost predicate IsAsked(keys: seq<string>, g: GroupKey, geo: string) {
    exists k :: k in keys && ParseGdpKey(k) == Some(Series(g.table, g.lineCode, geo))
  }

  ghost predicate PlacesAsked(groups: map<GroupKey, Group>, keys: seq<string>) {
    forall g, geo :: g in groups && geo in groups[g].geos ==> IsAsked(keys, g, geo)
  }

  /** The groups in the order each was first asked for. */
  ghost predicate GroupingOk(order: seq<GroupKey>, groups: map<GroupKey, Group>, keys: seq<string>) {
    && Unrepeated(order)
    && (forall g :: g in order <==> g in groups)
    && groups.Keys == GroupsOf(keys)
    && (forall g :: g in groups ==> GroupOk(g, groups[g]))
    && (forall k :: k in keys ==> Holds(groups, k))
    && PlacesAsked(groups, keys)
  }

  lemma MalformedKeyAddsNothing(order: seq<GroupKey>, groups: map<GroupKey, Group>, keys: seq<string>, key: string)
    requires GroupingOk(order, groups, keys) && ParseGdpKey(key) == None
    ensures GroupingOk(order, groups, keys + [key])
  {
    assert GroupsOf(keys + [key]) == GroupsOf(keys);
    AskedStays(groups, keys, key);
  }

  lemma AskedStays(groups: map<GroupKey, Group>, keys: seq<string>, key: string)
    requires PlacesAsked(groups, keys)
    ensures PlacesAsked(groups, keys + [key])
  {
    forall g, geo | g in groups && geo in groups[g].geos ensures IsAsked(keys + [key], g, geo) {
      var k :| k in keys && ParseGdpKey(k) == Some(Series(g.table, g.lineCode, geo));
      assert k in keys + [key];
    }
  }

  lemma JoinedPlacesAsked(groups: map<GroupKey, Group>, group: Group, keys: seq<string>, key: string, s: Series)
    requires PlacesAsked(groups, keys) && ParseGdpKey(key) == Some(s)
    requires group == if GroupOf(s) in groups then groups[GroupOf(s)] else Group([], map[])
    ensures PlacesAsked(groups[GroupOf(s) := WithKey(group, s.geoFips, key)], keys + [key])
  {
    var longer := groups[GroupOf(s) := WithKey(group, s.geoFips, key)];
    AskedStays(groups, keys, key);
    forall g, geo | g in longer && geo in longer[g].geos ensures IsAsked(keys + [key], g, geo) {
      if g == GroupOf(s) && geo == s.geoFips {
        assert key in keys + [key];
      }
    }
  }

  lemma KeyJoinsItsGroup(order: seq<GroupKey>, groups: map<GroupKey, Group>, keys: seq<string>, key: string, s: Series)
    requires GroupingOk(order, groups, keys) && ParseGdpKey(key) == Some(s)
    ensures var g := GroupOf(s);
      var group := if g in groups then groups[g] else Group([], map[]);
      GroupingOk(if g in groups then order else order + [g], groups[g := WithKey(group, s.geoFips, key)], keys + [key])
  {
    var g := GroupOf(s);
    var group := if g in groups then groups[g] else Group([], map[]);
    var longer := WithKey(group, s.geoFips, key);
    WithKeyStaysOk(g, group, s.geoFips, key);
    GroupsGrow(keys, key, s);
    OrderGrows(order, groups, g, longer);
    KeysStayHeld(groups, keys, g, longer);
    NewKeyIsHeld(groups, g, longer, key, s);
    JoinedPlacesAsked(groups, group, keys, key, s);
    JoinedGroupingOk(if g in groups then order else order + [g], groups, g, longer, keys, key);
  }

  lemma NewKeyIsHeld(groups: map<GroupKey, Group>, g: GroupKey, longer: Group, key: string, s: Series)
    requires ParseGdpKey(key) == Some(s) && g == GroupOf(s) && s.geoFips in longer.keysOf && key in longer.keysOf[s.geoFips]
    ensures Holds(groups[g := longer], key)
  {
  }

  lemma JoinedGroupingOk(
    order: seq<GroupKey>, groups: map<GroupKey, Group>, g: GroupKey, longer: Group, keys: seq<string>, key: string)
    requires Unrepeated(order) && forall h :: h in order <==> h in groups[g := longer]
    requires groups.Keys + {g} == GroupsOf(keys + [key])
    requires GroupOk(g, longer) && forall h :: h in groups ==> GroupOk(h, groups[h])
    requires (forall k :: k in keys ==> Holds(groups[g := longer], k)) && Holds(groups[g := longer], key)
    requires PlacesAsked(groups[g := longer], keys + [key])
    ensures GroupingOk(order, groups[g := longer], keys + [key])
  {
    hide GroupOk, Holds, PlacesAsked, GroupsOf, Unrepeated;
    assert groups[g := longer].Keys == groups.Keys + {g};
  }

  lemma KeysStayHeld(groups: map<GroupKey, Group>, keys: seq<string>, g: GroupKey, longer: Group)
    requires forall k :: k in keys ==> Holds(groups, k)
    requires g in groups ==> Extends(groups[g], longer)
    ensures forall k :: k in keys ==> Holds(groups[g := longer], k)
  {
    forall k | k in keys ensures Holds(groups[g := longer], k) {
      HoldingLasts(groups, g, longer, k);
    }
  }

  ghost predicate Extends(group: Group, longer: Group) {
    forall geo, k :: geo in group.keysOf && k in group.keysOf[geo] ==> geo in longer.keysOf && k in longer.keysOf[geo]
  }

  lemma GroupsGrow(keys: seq<string>, key: string, s: Series)
    requires ParseGdpKey(key) == Some(s)
    ensures GroupsOf(keys + [key]) == GroupsOf(keys) + {GroupOf(s)}
  {
    var more := keys + [key];
    assert forall k :: k in more <==> k in keys || k == key;
  }

  lemma OrderGrows(order: seq<GroupKey>, groups: map<GroupKey, Group>, g: GroupKey, group: Group)
    requires Unrepeated(order) && forall h :: h in order <==> h in groups
    ensures var longer := if g in groups then order else order + [g];
      Unrepeated(longer) && forall h :: h in longer <==> h in groups[g := group]
  {
  }

  lemma HoldingLasts(groups: map<GroupKey, Group>, g: GroupKey, longer: Group, k: string)
    requires Holds(groups, k)
    requires g in groups ==> Extends(groups[g], longer)
    ensures Holds(groups[g := longer], k)
  {
  }

  /** Taken from a group's call, a place's rows are those its keys would get alone. */
  lemma OwnRowsAreAlone(bea: Tables, g: GroupKey, group: Group, geo: string)
    requires GroupOk(g, group) && geo in group.geos
    ensures var rows := Filter(bea(g.table, g.lineCode), AmongGeos(group.geos));
      forall k :: k in group.keysOf[geo] ==> Alone(bea, k) == Sort(Map(Filter(rows, OfGeo(geo)), ObservationOf()), NewestFirst())
  {
    GeoWithinRequest(bea(g.table, g.lineCode), group.geos, geo);
  }

  /** Rows put in lists by place, each list in the rows' order. */
  method ByGeo(rows: seq<Row>) returns (rowsByGeo: map<string, seq<Row>>)
    ensures forall geo :: Filter(rows, OfGeo(geo)) == if geo in rowsByGeo then rowsByGeo[geo] else []
  {
    rowsByGeo := map[];
    for i := 0 to |rows|
      invariant forall geo :: Filter(rows[..i], OfGeo(geo)) == if geo in rowsByGeo then rowsByGeo[geo] else []
    {
      var row := rows[i];
      var list := if row.geoFips in rowsByGeo then rowsByGeo[row.geoFips] else [];
      rowsByGeo := rowsByGeo[row.geoFips := list + [row]];
      assert rows[..i + 1][..i] == rows[..i];
    }
    assert rows[..|rows|] == rows;
  }

  class GdpFetcher {
    const bea: Tables
    var requests: seq<Request>

    constructor (bea: Tables)
      ensures this.bea == bea && requests == []
    {
      this.bea := bea;
      requests := [];
    }

    /** The upstream call: the rows of the table and line for the places asked, in the table's order. */
    method GetData(g: GroupKey, geos: seq<string>) returns (rows: seq<Row>)
      modifies this
      ensures rows == Filter(bea(g.table, g.lineCode), AmongGeos(geos))
      ensures requests == old(requests) + [Request(g, geos)]
    {
      requests := requests + [Request(g, geos)];
      rows := Filter(bea(g.table, g.lineCode), AmongGeos(geos));
    }

    /** One group's call, its rows put in lists by place, and a result set for every key of every place. */
    method FetchGroup(g: GroupKey, group: Group, results: map<string, seq<Observation>>)
      returns (extended: map<string, seq<Observation>>)
      requires GroupOk(g, group) && forall k :: k in results ==> results[k] == Alone(bea, k)
      modifies this
      ensures requests == old(requests) + [Request(g, group.geos)]
      ensures forall k :: k in extended ==> extended[k] == Alone(bea, k)
      ensures forall k :: k in results ==> k in extended
      ensures Covered(group, extended)
    {
      var rows := GetData(g, group.geos);
      var rowsByGeo := ByGeo(rows);
      extended := results;
      for j := 0 to |group.geos|
        invariant forall k :: k in extended ==> extended[k] == Alone(bea, k)
        invariant forall k :: k in results ==> k in extended
        invariant forall geo, k :: geo in group.geos[..j] && k in group.keysOf[geo] ==> k in extended
        invariant requests == old(requests) + [Request(g, group.geos)]
      {
        var geo := group.geos[j];
        var own := if geo in rowsByGeo then rowsByGeo[geo] else [];
        var observations := Sort(Map(own, ObservationOf()), NewestFirst());
        OwnRowsAreAlone(bea, g, group, geo);
        extended := SetAll(extended, group.keysOf[geo], observations);
      }
      assert group.geos[..|group.geos|] == group.geos;
    }

    method SetAll(results: map<string, seq<Observation>>, keys: seq<string>, observations: seq<Observation>)
      returns (extended: map<string, seq<Observation>>)
      requires forall k :: k in results ==> results[k] == Alone(bea, k)
      requires forall k :: k in keys ==> observations == Alone(bea, k)
      ensures forall k :: k in extended ==> extended[k] == Alone(bea, k)
      ensures forall k :: k in results || k in keys ==> k in extended
    {
      extended := results;
      for n := 0 to |keys|
        invariant forall k :: k in extended ==> extended[k] == Alone(bea, k)
        invariant forall k :: k in results || k in keys[..n] ==> k in extended
      {
        extended := extended[keys[n] := observations];
      }
    }

    /** The keys put in groups; malformed keys are answered at once. */
    method GroupKeys(keys: seq<string>)
      returns (order: seq<GroupKey>, groups: map<GroupKey, Group>, results: map<string, seq<Observation>>)
      ensures GroupingOk(order, groups, keys)
      ensures forall k :: k in results ==> results[k] == Alone(bea, k)
      ensures forall k :: k in keys && ParseGdpKey(k) == None ==> k in results
    {
      order, groups, results := [], map[], map[];
      for i := 0 to |keys|
        invariant GroupingOk(order, groups, keys[..i])
        invariant forall k :: k in results ==> results[k] == Alone(bea, k)
        invariant forall k :: k in keys[..i] && ParseGdpKey(k) == None ==> k in results
      {
        var key := keys[i];
        var parsed := ParseGdpKey(key);
        assert keys[..i + 1] == keys[..i] + [key];
        if parsed == None {
          MalformedKeyAddsNothing(order, groups, keys[..i], key);
          results := results[key := []];
        } else {
          KeyJoinsItsGroup(order, groups, keys[..i], key, parsed.value);
          var g := GroupOf(parsed.value);
          var group := if g in groups then groups[g] else Group([], map[]);
          if g !in groups {
            order := order + [g];
          }
          groups := groups[g := WithKey(group, parsed.value.geoFips, key)];
        }
      }
      assert keys[..|keys|] == keys;
    }

    /** One call for each group, in order. */
    method FetchGroups(order: seq<GroupKey>, groups: map<GroupKey, Group>, found: map<string, seq<Observation>>)
      returns (results: map<string, seq<Observation>>)
      requires forall g :: g in order ==> g in groups && GroupOk(g, groups[g])
      requires forall k :: k in found ==> found[k] == Alone(bea, k)
      modifies this
      ensures requests == old(requests) + RequestsFor(order, groups)
      ensures forall k :: k in results ==> results[k] == Alone(bea, k)
      ensures forall k :: k in found ==> k in results
      ensures forall g :: g in order ==> Covered(groups[g], results)
    {
      results := found;
      for n := 0 to |order|
        invariant requests == old(requests) + RequestsFor(order[..n], groups)
        invariant forall k :: k in results ==> results[k] == Alone(bea, k)
        invariant forall k :: k in found ==> k in results
        invariant forall g :: g in order[..n] ==> Covered(groups[g], results)
      {
        assert order[n] in order;
        results := FetchGroup(order[n], groups[order[n]], results);
        assert order[..n + 1] == order[..n] + [order[n]] && order[..n + 1][..n] == order[..n];
      }
      assert order[..|order|] == order;
    }

    /**
     * For any keys, duplicates and malformed ones among them: one result per key in request order,
     * each with exactly what the key alone means, from one upstream call per table and line.
     */
    method Fetch(keys: seq<string>) returns (answer: seq<SeriesResult>)
      modifies this
      ensures |answer| == |keys|
      ensures forall i :: 0 <= i < |keys| ==> answer[i].seriesId == keys[i] && Answers(bea, keys[i], answer[i].observations)
      ensures forall i :: 0 <= i < |keys| ==> answer[i] == SeriesResult(keys[i], Alone(bea, keys[i]))
      ensures exists asked :: requests == old(requests) + asked && OneCallEach(asked, keys)
    {
      hide Answers, OneCallEach, GroupOk, PlacesAsked, GroupsOf, Unrepeated, Alone, RequestsFor;
      var order, groups, malformed := GroupKeys(keys);
      assert forall g :: g in order ==> g in groups && GroupOk(g, groups[g]);
      var results := FetchGroups(order, groups, malformed);
      RequestsAreOneEach(order, groups, keys);
      ghost var asked := RequestsFor(order, groups);
      forall k | k in keys ensures k in results {
        assert Holds(groups, k);
      }
      answer := [];
      for i := 0 to |keys|
        invariant |answer| == i && requests == old(requests) + asked && OneCallEach(asked, keys)
        invariant forall j :: 0 <= j < i ==> answer[j] == SeriesResult(keys[j], Alone(bea, keys[j]))
        invariant forall j :: 0 <= j < i ==> Answers(bea, keys[j], answer[j].observations)
      {
        AloneAnswers(bea, keys[i]);
        answer := answer + [SeriesResult(keys[i], if keys[i] in results then results[keys[i]] else [])];
      }
    }
  }

  ghost predicate Covered(group: Group, results: map<string, seq<Observation>>) {
    forall geo, k :: geo in group.keysOf && k in group.keysOf[geo] ==> k in results
  }

  /**
   * The calls name each table and line of the keys exactly once, and ask it once for each place its keys name,
   * and no other.
   */
  ghost predicate OneCallEach(asked: seq<Request>, keys: seq<string>) {
    && (forall i, j :: 0 <= i < j < |asked| ==> asked[i].group != asked[j].group)
    && (forall g :: g in GroupsOf(keys) <==> exists i :: 0 <= i < |asked| && asked[i].group == g)
    && (forall i :: 0 <= i < |asked| ==> AsksItsPlaces(asked[i], keys))
  }

  ghost predicate AsksItsPlaces(r: Request, keys: seq<string>) {
    Unrepeated(r.geos) && forall geo :: geo in r.geos <==> IsAsked(keys, r.group, geo)
  }

  lemma GroupAsksItsPlaces(order: seq<GroupKey>, groups: map<GroupKey, Group>, keys: seq<string>, g: GroupKey)
    requires GroupingOk(order, groups, keys) && g in groups
    ensures AsksItsPlaces(Request(g, groups[g].geos), keys)
  {
    forall geo ensures geo in groups[g].geos <==> IsAsked(keys, g, geo) {
      if IsAsked(keys, g, geo) {
        var k :| k in keys && ParseGdpKey(k) == Some(Series(g.table, g.lineCode, geo));
        assert Holds(groups, k);
        assert GroupOk(g, groups[g]);
      }
    }
    assert GroupOk(g, groups[g]);
  }

  lemma RequestsAreOneEach(order: seq<GroupKey>, groups: map<GroupKey, Group>, keys: seq<string>)
    requires GroupingOk(order, groups, keys)
    ensures OneCallEach(RequestsFor(order, groups), keys)
  {
    hide AsksItsPlaces, GroupOk, Holds, PlacesAsked, GroupsOf, RequestsFor;
    var asked := RequestsFor(order, groups);
    RequestsAreGroups(order, groups);
    forall i | 0 <= i < |asked| ensures AsksItsPlaces(asked[i], keys) {
      assert order[i] in order;
      GroupAsksItsPlaces(order, groups, keys, order[i]);
    }
    forall g ensures g in GroupsOf(keys) <==> exists i :: 0 <= i < |asked| && asked[i].group == g {
      if g in GroupsOf(keys) {
        assert g in order;
        var i :| 0 <= i < |order| && order[i] == g;
        assert asked[i].group == g;
      }
    }
  }

  lemma WithKeyStaysOk(g: GroupKey, group: Group, geoFips: string, key: string)
    requires GroupOk(g, group) && ParseGdpKey(key) == Some(Series(g.table, g.lineCode, geoFips))
    ensures var more := WithKey(group, geoFips, key);
      && GroupOk(g, more) && geoFips in more.keysOf && key in more.keysOf[geoFips] && Extends(group, more)
  {
  }

  function RequestsFor(order: seq<GroupKey>, groups: map<GroupKey, Group>): seq<Request>
    requires forall g :: g in order ==> g in groups
  {
    if order == [] then []
    else
      var g := order[|order| - 1];
      RequestsFor(order[..|order| - 1], groups) + [Request(g, groups[g].geos)]
  }

  lemma {:induction false} RequestsAreGroups(order: seq<GroupKey>, groups: map<GroupKey, Group>)
    requires forall g :: g in order ==> g in groups
    ensures |RequestsFor(order, groups)| == |order|
    ensures forall i :: 0 <= i < |order| ==>
      order[i] in groups && RequestsFor(order, groups)[i] == Request(order[i], groups[order[i]].geos)
  {
    if order != [] {
      RequestsAreGroups(order[..|order| - 1], groups);
    }
  }
}
