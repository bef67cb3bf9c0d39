/**
 * The Geocorr crosswalk: one line of CSV, the quoting of a field (section 2 of RFC 4180), the rewriting
 * of a raw place-to-county export into the vendored schema, and the reading of that schema.
 */
module Geocorr {
  import opened Options
  import opened Text

  // ---- one line ----

  /** The fields of the rest of a line, `current` being read and inside quotes or not. */
  function FieldsFrom(rest: string, current: string, inQuotes: bool): (fields: seq<string>)
    ensures fields != []
    decreases |rest|
  {
    if rest == "" then [current]
    else if inQuotes then
      if rest[0] == '"' && |rest| > 1 && rest[1] == '"' then FieldsFrom(rest[2..], current + ['"'], true)
      else if rest[0] == '"' then FieldsFrom(rest[1..], current, false)
      else FieldsFrom(rest[1..], current + [rest[0]], true)
    else if rest[0] == '"' then FieldsFrom(rest[1..], current, true)
    else if rest[0] == ',' then [current] + FieldsFrom(rest[1..], "", false)
    else FieldsFrom(rest[1..], current + [rest[0]], false)
  }

  function Fields(line: string): seq<string> { FieldsFrom(line, "", false) }

  method ParseCsvLine(line: string) returns (fields: seq<string>)
    ensures fields == Fields(line)
  {
    fields := [];
    var current := "";
    var inQuotes := false;
    var i := 0;
    while i < |line|
      invariant 0 <= i <= |line|
      invariant fields + FieldsFrom(line[i..], current, inQuotes) == Fields(line)
    {
      var ch := line[i];
      assert line[i..][1..] == line[i + 1..];
      if inQuotes {
        if ch == '"' && i + 1 < |line| && line[i + 1] == '"' {
          assert line[i..][2..] == line[i + 2..];
          current := current + ['"'];
          i := i + 1;
        } else if ch == '"' {
          inQuotes := false;
        } else {
          current := current + [ch];
        }
      } else if ch == '"' {
        inQuotes := true;
      } else if ch == ',' {
        assert fields + ([current] + FieldsFrom(line[i + 1..], "", false)) == fields + [current] + FieldsFrom(line[i + 1..], "", false);
        fields := fields + [current];
        current := "";
      } else {
        current := current + [ch];
      }
      i := i + 1;
    }
    fields := fields + [current];
  }

  function DoubledChar(c: char): string { if c == '"' then ['"', '"'] else [c] }

  function Doubled(s: string): string {
    if s == "" then "" else DoubledChar(s[0]) + Doubled(s[1..])
  }

  function Quote(s: string): string { ['"'] + Doubled(s) + ['"'] }

  lemma QuotedChar(c: char, tail: string, current: string)
    ensures FieldsFrom(DoubledChar(c) + tail, current, true) == FieldsFrom(tail, current + [c], true)
  {
    var text := DoubledChar(c) + tail;
    assert text[|DoubledChar(c)|..] == tail;
  }

  lemma {:induction false} QuotedPart(s: string, rest: string, current: string)
    requires rest == "" || rest[0] != '"'
    ensures FieldsFrom(Doubled(s) + ['"'] + rest, current, true) == FieldsFrom(rest, current + s, false)
    decreases |s|
  {
    if s == "" {
      var text := ['"'] + rest;
      assert Doubled(s) + ['"'] + rest == text && text[1..] == rest;
      assert current + s == current;
    } else {
      var tail := Doubled(s[1..]) + ['"'] + rest;
      assert Doubled(s) + ['"'] + rest == DoubledChar(s[0]) + tail;
      QuotedChar(s[0], tail, current);
      QuotedPart(s[1..], rest, current + [s[0]]);
      assert current + [s[0]] + s[1..] == current + s;
    }
  }

  /** A quoted field is read back whole, whatever commas or quotes it holds. */
  lemma QuotedField(s: string, rest: string)
    requires rest == "" || rest[0] != '"'
    ensures FieldsFrom(Quote(s) + rest, "", false) == FieldsFrom(rest, s, false)
  {
    var tail := Doubled(s) + ['"'] + rest;
    assert Quote(s) + rest == ['"'] + tail;
    assert (['"'] + tail)[1..] == tail;
    QuotedPart(s, rest, "");
    assert "" + s == s;
  }

  lemma Comma(rest: string, current: string)
    ensures FieldsFrom("," + rest, current, false) == [current] + FieldsFrom(rest, "", false)
  {
    assert ("," + rest)[1..] == rest;
  }

  function Quoted(fields: seq<string>): seq<string> {
    seq(|fields|, i requires 0 <= i < |fields| => Quote(fields[i]))
  }

  /** Quoting fields and joining them with commas is undone by parsing. */
  lemma {:induction false} QuotedFieldsRoundTrip(fields: seq<string>)
    requires fields != []
    ensures Fields(Join(Quoted(fields), ",")) == fields
    decreases |fields|
  {
    var quoted := Quoted(fields);
    if |fields| == 1 {
      assert Join(quoted, ",") == Quote(fields[0]) + "";
      QuotedField(fields[0], "");
    } else {
      var rest := fields[1..];
      assert quoted[1..] == Quoted(rest);
      var tail := "," + Join(Quoted(rest), ",");
      assert Join(quoted, ",") == Quote(fields[0]) + tail;
      QuotedField(fields[0], tail);
      Comma(Join(Quoted(rest), ","), fields[0]);
      QuotedFieldsRoundTrip(rest);
      assert fields == [fields[0]] + rest;
    }
  }

  predicate IsPlain(s: string) { '"' !in s && ',' !in s }

  lemma {:induction false} PlainPart(s: string, rest: string, current: string)
    requires IsPlain(s)
    ensures FieldsFrom(s + rest, current, false) == FieldsFrom(rest, current + s, false)
    decreases |s|
  {
    if s == "" {
      assert s + rest == rest && current + s == current;
    } else {
      assert (s + rest)[1..] == s[1..] + rest;
      PlainPart(s[1..], rest, current + [s[0]]);
      assert current + [s[0]] + s[1..] == current + s;
    }
  }

  /** A plain field and its comma. */
  lemma PlainField(s: string, rest: string)
    requires IsPlain(s)
    ensures Fields(s + "," + rest) == [s] + Fields(rest)
  {
    assert s + "," + rest == s + ("," + rest) && "" + s == s;
    PlainPart(s, "," + rest, "");
    Comma(rest, s);
  }

  lemma QuotedFieldAndComma(s: string, rest: string)
    ensures Fields(Quote(s) + "," + rest) == [s] + Fields(rest)
  {
    assert Quote(s) + "," + rest == Quote(s) + ("," + rest);
    QuotedField(s, "," + rest);
    Comma(rest, s);
  }

  lemma {:induction false} PlainFieldsRoundTrip(fields: seq<string>)
    requires fields != [] && forall f :: f in fields ==> IsPlain(f)
    ensures Fields(Join(fields, ",")) == fields
  {
    assert fields[0] in fields;
    if |fields| == 1 {
      assert fields[0] + "" == fields[0] && "" + fields[0] == fields[0];
      PlainPart(fields[0], "", "");
    } else {
      forall f | f in fields[1..] ensures IsPlain(f) {
        assert f in fields;
      }
      PlainField(fields[0], Join(fields[1..], ","));
      PlainFieldsRoundTrip(fields[1..]);
    }
  }

  /** Fields are made of the line's own characters. */
  lemma {:induction false} FieldCharacters(rest: string, current: string, inQuotes: bool, field: string, c: char)
    requires field in FieldsFrom(rest, current, inQuotes) && c in field
    ensures c in rest || c in current
    decreases |rest|
  {
    if rest != "" {
      if inQuotes && rest[0] == '"' && |rest| > 1 && rest[1] == '"' {
        FieldCharacters(rest[2..], current + ['"'], true, field, c);
      } else if rest[0] == '"' {
        FieldCharacters(rest[1..], current, !inQuotes, field, c);
      } else if !inQuotes && rest[0] == ',' {
        if field != current {
          FieldCharacters(rest[1..], "", false, field, c);
        }
      } else {
        FieldCharacters(rest[1..], current + [rest[0]], inQuotes, field, c);
      }
    }
  }

  // ---- lines ----

  function WithoutReturn(line: string): string {
    if line != "" && line[|line| - 1] == '\r' then line[..|line| - 1] else line
  }

  /** The lines of a text: a newline ends one, with a carriage return before it or not. */
  function Lines(text: string): seq<string> {
    var parts := Split(text, '\n');
    seq(|parts|, i requires 0 <= i < |parts| => if i < |parts| - 1 then WithoutReturn(parts[i]) else parts[i])
  }

  function NonBlank(lines: seq<string>): seq<string> {
    if lines == [] then []
    else if Trim(lines[0]) == "" then NonBlank(lines[1..])
    else [lines[0]] + NonBlank(lines[1..])
  }

  function Trimmed(fields: seq<string>): seq<string> {
    seq(|fields|, i requires 0 <= i < |fields| => Trim(fields[i]))
  }

  function Columns(line: string): seq<string> {
    var fields := Fields(line);
    seq(|fields|, i requires 0 <= i < |fields| => Lower(Trim(fields[i])))
  }

  function At(fields: seq<string>, i: nat): Option<string> {
    if i < |fields| then Some(fields[i]) else None
  }

  // ---- the raw export ----

  const RAW_HEADER: seq<string> := ["state", "place", "county", "stab", "countyname", "placename", "pop20", "afact"]
  const VENDORED_COLUMNS: seq<string> :=
    ["geo_pair", "child_geoid", "child_name", "parent_geoid", "parent_name", "afact", "pop20"]
  const PLACE_COUNTY := "place_county"

  /** A missing field printed. */
  function Shown(field: Option<string>): string { field.GetOr("undefined") }

  predicate Given(field: Option<string>) { field.Some? && field.value != "" }

  function VendoredRow(f: seq<string>): string
    requires |f| >= 3
  {
    PLACE_COUNTY + "," + (f[0] + f[1]) + "," + Quote(At(f, 5).GetOr("")) + "," + f[2] + ","
      + Quote(At(f, 4).GetOr("")) + "," + Shown(At(f, 7)) + "," + Shown(At(f, 6))
  }

  /** A raw row in the vendored schema, or none when a place or county code is missing. */
  function Rewritten(line: string): Option<string> {
    var f := Trimmed(Fields(line));
    if !Given(At(f, 0)) || !Given(At(f, 1)) || !Given(At(f, 2)) then None
    else Some(VendoredRow(f))
  }

  function RewrittenRows(lines: seq<string>): seq<string> {
    if lines == [] then []
    else
      var row := Rewritten(lines[|lines| - 1]);
      if row.Some? then RewrittenRows(lines[..|lines| - 1]) + [row.value] else RewrittenRows(lines[..|lines| - 1])
  }

  /** The data rows of a raw export: what follows its two header lines. */
  function DataLines(raw: string): seq<string> {
    var lines := NonBlank(Lines(raw));
    if |lines| <= 2 then [] else lines[2..]
  }

  predicate HasRawHeader(raw: string) {
    var lines := NonBlank(Lines(raw));
    var header := Columns(if lines == [] then "" else lines[0]);
    |header| >= |RAW_HEADER| && header[..|RAW_HEADER|] == RAW_HEADER
  }

  /** The rewritten export, or none when the header is not the expected one. */
  function Transformed(raw: string): Option<string> {
    if !HasRawHeader(raw) then None
    else Some(Join([Join(VENDORED_COLUMNS, ",")] + RewrittenRows(DataLines(raw)), "\n"))
  }

  method RewriteRows(data: seq<string>) returns (rows: seq<string>)
    ensures rows == RewrittenRows(data)
  {
    rows := [];
    for i := 0 to |data|
      invariant rows == RewrittenRows(data[..i])
    {
      assert data[..i + 1][..i] == data[..i];
      var fields := ParseCsvLine(data[i]);
      var f := Trimmed(fields);
      if Given(At(f, 0)) && Given(At(f, 1)) && Given(At(f, 2)) {
        rows := rows + [VendoredRow(f)];
      }
    }
    assert data[..|data|] == data;
  }

  method TransformGeocorrPlaceCounty(raw: string) returns (text: Option<string>)
    ensures text == Transformed(raw)
  {
    if !HasRawHeader(raw) {
      return None;
    }
    var rows := RewriteRows(DataLines(raw));
    return Some(Join([Join(VENDORED_COLUMNS, ",")] + rows, "\n"));
  }

  // ---- the vendored schema ----

  datatype Edge = Edge(childUcgid: string, parentUcgid: string, share: real)

  function Ucgid(level: string, geoid: string): string { level + "0000US" + geoid }

  /** The summary levels of the child and parent columns of a pair. */
  function LevelsOf(pair: string): Option<(string, string)> {
    if pair == PLACE_COUNTY then Some(("160", "050"))
    else if pair == "cousub_cbsa" then Some(("060", "310"))
    else if pair == "zcta_tract" then Some(("140", "860"))
    else None
  }

  function ColumnOf(columns: seq<string>, name: string): Option<nat> {
    if columns == [] then None
    else if columns[0] == name then Some(0)
    else
      var rest := ColumnOf(columns[1..], name);
      if rest == None then None else Some(rest.value + 1)
  }

  datatype Layout = Layout(pair: nat, child: nat, parent: nat, afact: nat)

  function LayoutOf(columns: seq<string>): Option<Layout> {
    var p, c := ColumnOf(columns, "geo_pair"), ColumnOf(columns, "child_geoid");
    var q, a := ColumnOf(columns, "parent_geoid"), ColumnOf(columns, "afact");
    if p == None || c == None || q == None || a == None then None else Some(Layout(p.value, c.value, q.value, a.value))
  }

  /** The edge of one line; `number` is how a text is read as a finite number. */
  function EdgeIn(number: string -> Option<real>, pair: string, levels: (string, string), at: Layout, line: string): Option<Edge> {
    var f := Fields(line);
    if at.pair >= |f| || Trim(f[at.pair]) != pair then None
    else if at.child >= |f| || at.parent >= |f| || Trim(f[at.child]) == "" || Trim(f[at.parent]) == "" then None
    else if at.afact >= |f| || number(Trim(f[at.afact])) == None then None
    else Some(Edge(Ucgid(levels.0, Trim(f[at.child])), Ucgid(levels.1, Trim(f[at.parent])), number(Trim(f[at.afact])).value))
  }

  function EdgesIn(number: string -> Option<real>, pair: string, levels: (string, string), at: Layout, lines: seq<string>): seq<Edge> {
    if lines == [] then []
    else
      var front := EdgesIn(number, pair, levels, at, lines[..|lines| - 1]);
      var edge := EdgeIn(number, pair, levels, at, lines[|lines| - 1]);
      if edge.Some? then front + [edge.value] else front
  }

  /** The edges of a vendored text for one pair, or none when its header lacks a column. */
  function Edges(number: string -> Option<real>, text: string, pair: string): Option<seq<Edge>> {
    var levels := LevelsOf(pair);
    var lines := NonBlank(Lines(text));
    if levels == None || lines == [] then Some([])
    else
      var at := LayoutOf(Columns(lines[0]));
      if at == None then None else Some(EdgesIn(number, pair, levels.value, at.value, lines[1..]))
  }

  method ParseGeocorr(number: string -> Option<real>, text: string, pair: string) returns (edges: Option<seq<Edge>>)
    ensures edges == Edges(number, text, pair)
  {
    var levels := LevelsOf(pair);
    var lines := NonBlank(Lines(text));
    if levels == None || lines == [] {
      return Some([]);
    }
    var at := LayoutOf(Columns(lines[0]));
    if at == None {
      return None;
    }
    var out: seq<Edge> := [];
    var data := lines[1..];
    for i := 0 to |data|
      invariant out == EdgesIn(number, pair, levels.value, at.value, data[..i])
    {
      assert data[..i + 1][..i] == data[..i];
      var edge := EdgeIn(number, pair, levels.value, at.value, data[i]);
      if edge.Some? {
        out := out + [edge.value];
      }
    }
    assert data[..|data|] == data;
    return Some(out);
  }
}
