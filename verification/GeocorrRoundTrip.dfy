/** Reading back what the rewriting of a raw export wrote: one edge for each row, whatever its names contain. */
module GeocorrRoundTrip {
  import opened Options
  import opened Text
  import opened Geocorr

  predicate IsDigits(s: string) { s != "" && forall c :: c in s ==> '0' <= c <= '9' }

  predicate IsNumeral(s: string) {
    s != "" && forall c :: c in s ==> '0' <= c <= '9' || c == '.' || c == '+' || c == '-' || c == 'e' || c == 'E'
  }

  /** A raw row that names a place and a county by digits and its share by a numeral. */
  predicate WellFormed(line: string) {
    var f := Trimmed(Fields(line));
    |f| > 7 && IsDigits(f[0]) && IsDigits(f[1]) && IsDigits(f[2]) && IsNumeral(f[7])
  }

  /** What a raw row means, read directly from it. */
  function RawEdge(number: string -> Option<real>, line: string): Option<Edge> {
    var f := Trimmed(Fields(line));
    if |f| <= 7 || f[0] == "" || f[1] == "" || f[2] == "" || number(f[7]) == None then None
    else Some(Edge(Ucgid("160", f[0] + f[1]), Ucgid("050", f[2]), number(f[7]).value))
  }

  function RawEdges(number: string -> Option<real>, lines: seq<string>): seq<Edge> {
    if lines == [] then []
    else
      var edge := RawEdge(number, lines[|lines| - 1]);
      if edge.Some? then RawEdges(number, lines[..|lines| - 1]) + [edge.value] else RawEdges(number, lines[..|lines| - 1])
  }

  /** What any raw row gives: a well-formed one its own meaning, another at most one edge of its own. */
  function RowEdge(number: string -> Option<real>, line: string): Option<Edge> {
    if WellFormed(line) then RawEdge(number, line)
    else if Rewritten(line) == None then None
    else EdgeIn(number, PLACE_COUNTY, ("160", "050"), AT, Rewritten(line).value)
  }

  function RowEdges(number: string -> Option<real>, lines: seq<string>): seq<Edge> {
    if lines == [] then []
    else
      var edge := RowEdge(number, lines[|lines| - 1]);
      if edge.Some? then RowEdges(number, lines[..|lines| - 1]) + [edge.value] else RowEdges(number, lines[..|lines| - 1])
  }

  // ---- trimming ----

  lemma {:induction false} TrimIsTrimmed(s: string)
    ensures Trim(Trim(s)) == Trim(s)
    ensures forall c :: c in Trim(s) ==> c in s
    ensures Trim(s) != "" ==> !IsSpace(Trim(s)[0]) && !IsSpace(Trim(s)[|Trim(s)| - 1])
    decreases |s|
  {
    if s != "" && IsSpace(s[0]) {
      TrimIsTrimmed(s[1..]);
    } else if s != "" && IsSpace(s[|s| - 1]) {
      TrimIsTrimmed(s[..|s| - 1]);
    }
  }

  lemma SolidIsTrimmed(s: string)
    requires s == "" || (!IsSpace(s[0]) && !IsSpace(s[|s| - 1]))
    ensures Trim(s) == s
  {
  }

  lemma DigitsAreSolid(s: string)
    requires IsDigits(s) || IsNumeral(s)
    ensures Trim(s) == s && IsPlain(s)
  {
    assert s[0] in s && s[|s| - 1] in s;
    SolidIsTrimmed(s);
  }

  lemma {:induction false} LeadingSolidIsNotBlank(s: string)
    requires s != "" && !IsSpace(s[0])
    ensures Trim(s) != ""
    decreases |s|
  {
    if IsSpace(s[|s| - 1]) {
      LeadingSolidIsNotBlank(s[..|s| - 1]);
    }
  }

  // ---- one row ----

  function Row(geoid: string, placeName: string, county: string, countyName: string, afact: string, pop: string): string {
    PLACE_COUNTY + "," + geoid + "," + Quote(placeName) + "," + county + "," + Quote(countyName) + "," + afact + "," + pop
  }

  function RowTail(county: string, countyName: string, afact: string, pop: string): string {
    county + "," + (Quote(countyName) + "," + (afact + "," + pop))
  }

  lemma RowTailFields(county: string, countyName: string, afact: string, pop: string)
    requires IsPlain(county) && IsPlain(afact)
    ensures Fields(RowTail(county, countyName, afact, pop)) == [county, countyName, afact] + Fields(pop)
  {
    PlainField(county, Quote(countyName) + "," + (afact + "," + pop));
    QuotedFieldAndComma(countyName, afact + "," + pop);
    PlainField(afact, pop);
  }

  lemma RowIsTailed(geoid: string, placeName: string, county: string, countyName: string, afact: string, pop: string)
    ensures Row(geoid, placeName, county, countyName, afact, pop)
      == PLACE_COUNTY + "," + (geoid + "," + (Quote(placeName) + "," + RowTail(county, countyName, afact, pop)))
  {
    hide Quote;
    var q, r := Quote(placeName), Quote(countyName);
    assert RowTail(county, countyName, afact, pop) == county + "," + r + "," + afact + "," + pop;
  }

  lemma RowFields(geoid: string, placeName: string, county: string, countyName: string, afact: string, pop: string)
    requires IsPlain(geoid) && IsPlain(county) && IsPlain(afact)
    ensures Fields(Row(geoid, placeName, county, countyName, afact, pop))
      == [PLACE_COUNTY, geoid, placeName, county, countyName, afact] + Fields(pop)
  {
    var tail := RowTail(county, countyName, afact, pop);
    RowIsTailed(geoid, placeName, county, countyName, afact, pop);
    PlainField(PLACE_COUNTY, geoid + "," + (Quote(placeName) + "," + tail));
    PlainField(geoid, Quote(placeName) + "," + tail);
    QuotedFieldAndComma(placeName, tail);
    RowTailFields(county, countyName, afact, pop);
  }

  const AT: Layout := Layout(0, 1, 3, 5)

  /** The rewritten row is read back as the edge the raw row means. */
  lemma RowIsReadBack(number: string -> Option<real>, line: string)
    requires WellFormed(line)
    ensures Rewritten(line).Some? && EdgeIn(number, PLACE_COUNTY, ("160", "050"), AT, Rewritten(line).value) == RawEdge(number, line)
  {
    var f := Trimmed(Fields(line));
    var geoid := f[0] + f[1];
    DigitsAreSolid(f[0]);
    DigitsAreSolid(f[1]);
    DigitsAreSolid(f[2]);
    DigitsAreSolid(f[7]);
    assert IsDigits(geoid);
    DigitsAreSolid(geoid);
    RowFields(geoid, f[5], f[2], f[4], f[7], f[6]);
    assert Rewritten(line).value == Row(geoid, f[5], f[2], f[4], f[7], f[6]);
    SolidIsTrimmed(PLACE_COUNTY);
  }

  /** A row is rewritten only when it names a place and a county, and it starts as every row does and holds no line end. */
  lemma RewrittenIsOneLine(line: string)
    requires '\n' !in line && Rewritten(line).Some?
    ensures var row := Rewritten(line).value;
      row != "" && !IsSpace(row[0]) && '\n' !in row && row[|row| - 1] != '\r'
  {
    var f := Trimmed(Fields(line));
    forall i | 0 <= i < |f| ensures '\n' !in f[i] && Trim(f[i]) == f[i] {
      TrimIsTrimmed(Fields(line)[i]);
      if '\n' in f[i] {
        FieldCharacters(line, "", false, Fields(line)[i], '\n');
      }
    }
    NoNewlineInQuote(At(f, 5).GetOr(""));
    NoNewlineInQuote(At(f, 4).GetOr(""));
    if |f| > 6 {
      TrimIsTrimmed(Fields(line)[6]);
    }
  }

  lemma {:induction false} NoNewlineInDoubled(s: string)
    requires '\n' !in s
    ensures '\n' !in Doubled(s)
  {
    if s != "" {
      NoNewlineInDoubled(s[1..]);
    }
  }

  lemma NoNewlineInQuote(s: string)
    requires '\n' !in s
    ensures '\n' !in Quote(s)
  {
    NoNewlineInDoubled(s);
  }

  // ---- the text ----

  predicate IsRowLine(row: string) { row != "" && !IsSpace(row[0]) && '\n' !in row && row[|row| - 1] != '\r' }

  lemma {:induction false} NothingBlank(lines: seq<string>)
    requires forall l :: l in lines ==> IsRowLine(l)
    ensures NonBlank(lines) == lines
  {
    if lines != [] {
      assert lines[0] in lines;
      LeadingSolidIsNotBlank(lines[0]);
      NothingBlank(lines[1..]);
    }
  }

  /** Lines written one after another are read back as they are. */
  lemma LinesAreReadBack(lines: seq<string>)
    requires lines != [] && forall l :: l in lines ==> IsRowLine(l)
    ensures NonBlank(Lines(Join(lines, "\n"))) == lines
  {
    forall l | l in lines ensures '\n' !in l {
      assert IsRowLine(l);
    }
    SplitJoin(lines, '\n');
    assert "\n" == ['\n'];
    var read := Lines(Join(lines, "\n"));
    forall i | 0 <= i < |lines| ensures read[i] == lines[i] {
      assert IsRowLine(lines[i]);
    }
    assert read == lines;
    NothingBlank(lines);
  }

  /**
   * An export written as a header of these columns, a line of labels and its rows: the rows are its data, and it
   * is taken exactly when its first eight columns are the expected ones.
   */
  lemma RawExportIsItsRows(columns: seq<string>, labels: string, rows: seq<string>)
    requires columns != [] && (forall c :: c in columns ==> IsWord(c)) && IsRowLine(labels) && forall row :: row in rows ==> IsRowLine(row)
    ensures var raw := Join([Join(columns, ","), labels] + rows, "\n");
      && DataLines(raw) == rows
      && (Transformed(raw).Some? <==>
          |columns| >= 8 && columns[..8] == ["state", "place", "county", "stab", "countyname", "placename", "pop20", "afact"])
  {
    JoinedWords(columns);
    WordsAreReadBack(columns);
    LinesAreReadBack([Join(columns, ","), labels] + rows);
  }

  predicate IsWord(s: string) { s != "" && forall c :: c in s ==> 'a' <= c <= 'z' || '0' <= c <= '9' || c == '_' }

  lemma WordIsItself(s: string)
    requires IsWord(s)
    ensures IsPlain(s) && Lower(Trim(s)) == s
  {
    assert s[0] in s && s[|s| - 1] in s;
    SolidIsTrimmed(s);
    forall k | 0 <= k < |s| ensures !('A' <= s[k] <= 'Z') {
      assert s[k] in s;
    }
    assert Lower(s) == s;
  }

  lemma {:induction false} JoinedWords(words: seq<string>)
    requires words != [] && forall w :: w in words ==> IsWord(w)
    ensures IsRowLine(Join(words, ","))
  {
    var first := words[0];
    assert first in words && first[0] in first && first[|first| - 1] in first;
    if |words| > 1 {
      forall w | w in words[1..] ensures IsWord(w) {
        assert w in words;
      }
      JoinedWords(words[1..]);
    }
  }

  lemma WordsAreReadBack(words: seq<string>)
    requires words != [] && forall w :: w in words ==> IsWord(w)
    ensures Columns(Join(words, ",")) == words
  {
    forall w | w in words ensures IsPlain(w) && Lower(Trim(w)) == w {
      WordIsItself(w);
    }
    PlainFieldsRoundTrip(words);
  }

  lemma HeaderIsReadBack()
    ensures IsRowLine(Join(VENDORED_COLUMNS, ",")) && LayoutOf(Columns(Join(VENDORED_COLUMNS, ","))) == Some(AT)
  {
    var columns := VENDORED_COLUMNS;
    assert forall c :: c in columns ==> IsWord(c);
    JoinedWords(columns);
    WordsAreReadBack(columns);
    LayoutOfVendored();
  }

  lemma LayoutOfVendored()
    ensures LayoutOf(VENDORED_COLUMNS) == Some(AT)
  {
    var c := VENDORED_COLUMNS;
    assert c[4..][1..] == c[5..] && c[3..][1..] == c[4..] && c[2..][1..] == c[3..] && c[1..][1..] == c[2..];
    assert ColumnOf(c[5..], "afact") == Some(0);
    assert ColumnOf(c[4..], "afact") == Some(1);
    assert ColumnOf(c[3..], "afact") == Some(2) && ColumnOf(c[3..], "parent_geoid") == Some(0);
    assert ColumnOf(c[2..], "afact") == Some(3) && ColumnOf(c[2..], "parent_geoid") == Some(1);
    assert ColumnOf(c[1..], "afact") == Some(4) && ColumnOf(c[1..], "parent_geoid") == Some(2);
    assert ColumnOf(c[1..], "child_geoid") == Some(0);
  }

  // ---- any vendored text ----

  predicate IsColumn(columns: seq<string>, name: string, at: nat) {
    at < |columns| && columns[at] == name && name !in columns[..at]
  }

  lemma {:induction false} ColumnIsFound(columns: seq<string>, name: string, at: nat)
    requires IsColumn(columns, name, at)
    ensures ColumnOf(columns, name) == Some(at)
  {
    if at > 0 {
      assert columns[0] in columns[..at];
      assert columns[1..][..at - 1] == columns[..at][1..];
      ColumnIsFound(columns[1..], name, at - 1);
    }
  }

  predicate IsLayout(columns: seq<string>, at: Layout) {
    && IsColumn(columns, "geo_pair", at.pair) && IsColumn(columns, "child_geoid", at.child)
    && IsColumn(columns, "parent_geoid", at.parent) && IsColumn(columns, "afact", at.afact)
  }

  predicate AreRecords(records: seq<seq<string>>, columns: seq<string>) {
    forall r :: r in records ==> |r| == |columns| && forall f :: f in r ==> '\n' !in f
  }

  function Written(records: seq<seq<string>>): seq<string> {
    seq(|records|, i requires 0 <= i < |records| => Join(Quoted(records[i]), ","))
  }

  /** What a record means for one pair, its identifiers written with these prefixes. */
  function Meaning(number: string -> Option<real>, pair: string, child: string, parent: string, at: Layout, fields: seq<string>): Option<Edge>
    requires at.pair < |fields| && at.child < |fields| && at.parent < |fields| && at.afact < |fields|
  {
    var c, p, share := Trim(fields[at.child]), Trim(fields[at.parent]), number(Trim(fields[at.afact]));
    if Trim(fields[at.pair]) == pair && c != "" && p != "" && share.Some? then Some(Edge(child + c, parent + p, share.value)) else None
  }

  function Meanings(
    number: string -> Option<real>, pair: string, child: string, parent: string, at: Layout, records: seq<seq<string>>): seq<Edge>
    requires forall r :: r in records ==> at.pair < |r| && at.child < |r| && at.parent < |r| && at.afact < |r|
  {
    if records == [] then []
    else
      var front, last := records[..|records| - 1], records[|records| - 1];
      var edge := Meaning(number, pair, child, parent, at, last);
      if edge.Some? then Meanings(number, pair, child, parent, at, front) + [edge.value] else Meanings(number, pair, child, parent, at, front)
  }

  lemma QuotedRowIsRowLine(fields: seq<string>)
    requires fields != [] && forall f :: f in fields ==> '\n' !in f
    ensures IsRowLine(Join(Quoted(fields), ","))
  {
    forall f | f in fields ensures '\n' !in Quote(f) {
      NoNewlineInQuote(f);
    }
    JoinedQuotes(fields);
  }

  lemma {:induction false} JoinedQuotes(fields: seq<string>)
    requires fields != [] && forall f :: f in fields ==> '\n' !in Quote(f)
    ensures var row := Join(Quoted(fields), ",");
      row != "" && row[0] == '"' && row[|row| - 1] == '"' && '\n' !in row
  {
    assert fields[0] in fields;
    if |fields| > 1 {
      forall f | f in fields[1..] ensures '\n' !in Quote(f) {
        assert f in fields;
      }
      assert Quoted(fields)[1..] == Quoted(fields[1..]);
      JoinedQuotes(fields[1..]);
    }
  }

  lemma {:induction false} RecordsAreRead(
    number: string -> Option<real>, pair: string, levels: (string, string), at: Layout, records: seq<seq<string>>)
    requires forall r :: r in records ==> at.pair < |r| && at.child < |r| && at.parent < |r| && at.afact < |r|
    ensures EdgesIn(number, pair, levels, at, Written(records))
      == Meanings(number, pair, levels.0 + "0000US", levels.1 + "0000US", at, records)
  {
    if records != [] {
      var front, last := records[..|records| - 1], records[|records| - 1];
      RecordsAreRead(number, pair, levels, at, front);
      assert Written(records)[..|records| - 1] == Written(front);
      QuotedFieldsRoundTrip(last);
    }
  }

  /** The pairs, with what precedes the codes of their child and parent columns. */
  const PAIR_PREFIXES: set<(string, string, string)> := {
    ("place_county", "1600000US", "0500000US"), ("cousub_cbsa", "0600000US", "3100000US"), ("zcta_tract", "1400000US", "8600000US")}

  lemma LevelsOfPair(pair: string, child: string, parent: string)
    requires (pair, child, parent) in PAIR_PREFIXES
    ensures LevelsOf(pair).Some? && child == LevelsOf(pair).value.0 + "0000US" && parent == LevelsOf(pair).value.1 + "0000US"
  {
  }

  lemma RecordRowsAreRowLines(records: seq<seq<string>>, columns: seq<string>)
    requires columns != [] && AreRecords(records, columns)
    ensures forall row :: row in Written(records) ==> IsRowLine(row)
  {
    hide IsRowLine, Quoted, Join;
    forall row | row in Written(records) ensures IsRowLine(row) {
      var i :| 0 <= i < |records| && Written(records)[i] == row;
      assert records[i] in records;
      QuotedRowIsRowLine(records[i]);
    }
  }

  /** What is read from a header of columns and rows under it, for a known pair. */
  lemma RowsUnderColumns(number: string -> Option<real>, columns: seq<string>, rows: seq<string>, pair: string)
    requires columns != [] && (forall c :: c in columns ==> IsWord(c)) && forall row :: row in rows ==> IsRowLine(row)
    requires LevelsOf(pair).Some?
    ensures var at, edges := LayoutOf(columns), Edges(number, Join([Join(columns, ",")] + rows, "\n"), pair);
      edges == if at == None then None else Some(EdgesIn(number, pair, LevelsOf(pair).value, at.value, rows))
  {
    hide EdgesIn, Lines, NonBlank, Fields, IsRowLine, Join, Columns, LayoutOf, LevelsOf;
    var header := Join(columns, ",");
    JoinedWords(columns);
    WordsAreReadBack(columns);
    LinesAreReadBack([header] + rows);
    assert ([header] + rows)[1..] == rows && ([header] + rows)[0] == header;
  }

  /**
   * A text of quoted records under any header that has the four columns, wherever they stand, is read
   * for each pair as what the records of that pair mean, in order.
   */
  lemma VendoredTextIsRead(
    number: string -> Option<real>, columns: seq<string>, records: seq<seq<string>>, at: Layout, pair: string, child: string, parent: string)
    requires columns != [] && (forall c :: c in columns ==> IsWord(c)) && AreRecords(records, columns) && IsLayout(columns, at)
    requires (pair, child, parent) in PAIR_PREFIXES
    ensures Edges(number, Join([Join(columns, ",")] + Written(records), "\n"), pair)
      == Some(Meanings(number, pair, child, parent, at, records))
  {
    hide Edges, EdgesIn, Meanings, Written, IsRowLine, IsWord, Join, LevelsOf;
    RecordRowsAreRowLines(records, columns);
    LevelsOfPair(pair, child, parent);
    RowsUnderColumns(number, columns, Written(records), pair);
    ColumnIsFound(columns, "geo_pair", at.pair);
    ColumnIsFound(columns, "child_geoid", at.child);
    ColumnIsFound(columns, "parent_geoid", at.parent);
    ColumnIsFound(columns, "afact", at.afact);
    RecordsAreRead(number, pair, LevelsOf(pair).value, at, records);
  }

  /** A header that lacks one of the four columns is refused. */
  lemma MissingColumnIsRefused(number: string -> Option<real>, columns: seq<string>, rows: seq<string>, pair: string)
    requires columns != [] && (forall c :: c in columns ==> IsWord(c)) && forall row :: row in rows ==> IsRowLine(row)
    requires LevelsOf(pair).Some?
    ensures Edges(number, Join([Join(columns, ",")] + rows, "\n"), pair) == None
      <==> exists name :: name in {"geo_pair", "child_geoid", "parent_geoid", "afact"} && name !in columns
  {
    hide Edges, EdgesIn, IsRowLine, IsWord, Join, LevelsOf;
    RowsUnderColumns(number, columns, rows, pair);
    ColumnIsMissing(columns, "geo_pair");
    ColumnIsMissing(columns, "child_geoid");
    ColumnIsMissing(columns, "parent_geoid");
    ColumnIsMissing(columns, "afact");
  }

  lemma {:induction false} ColumnIsMissing(columns: seq<string>, name: string)
    ensures ColumnOf(columns, name) == None <==> name !in columns
  {
    if columns != [] && columns[0] != name {
      ColumnIsMissing(columns[1..], name);
    }
  }

  // ---- the round trip ----

  lemma {:induction false} RowsAreLines(lines: seq<string>)
    requires forall l :: l in lines ==> '\n' !in l
    ensures forall row :: row in RewrittenRows(lines) ==> IsRowLine(row)
  {
    if lines != [] {
      var front, last := lines[..|lines| - 1], lines[|lines| - 1];
      RowsAreLines(front);
      if Rewritten(last).Some? {
        RewrittenIsOneLine(last);
      }
    }
  }

  lemma OneMoreRow(number: string -> Option<real>, rows: seq<string>, row: string)
    ensures EdgesIn(number, PLACE_COUNTY, ("160", "050"), AT, rows + [row]) ==
      var edge := EdgeIn(number, PLACE_COUNTY, ("160", "050"), AT, row);
      EdgesIn(number, PLACE_COUNTY, ("160", "050"), AT, rows) + if edge.Some? then [edge.value] else []
  {
    assert (rows + [row])[..|rows|] == rows;
  }

  lemma {:induction false} RowsAreReadBack(number: string -> Option<real>, lines: seq<string>)
    ensures EdgesIn(number, PLACE_COUNTY, ("160", "050"), AT, RewrittenRows(lines)) == RowEdges(number, lines)
  {
    if lines != [] {
      var front, last := lines[..|lines| - 1], lines[|lines| - 1];
      RowsAreReadBack(number, front);
      if WellFormed(last) {
        RowIsReadBack(number, last);
      }
      if Rewritten(last).Some? {
        OneMoreRow(number, RewrittenRows(front), Rewritten(last).value);
      }
    }
  }

  lemma {:induction false} OnlyMeanings(number: string -> Option<real>, lines: seq<string>)
    requires forall l :: l in lines ==> WellFormed(l) || Rewritten(l) == None
    ensures RowEdges(number, lines) == RawEdges(number, lines)
  {
    if lines != [] {
      OnlyMeanings(number, lines[..|lines| - 1]);
    }
  }

  lemma {:induction false} SplitPartsAreFree(s: string, sep: char)
    ensures forall p :: p in Split(s, sep) ==> sep !in p
    decreases |s|
  {
    var i := IndexOf(s, sep);
    if i < |s| {
      SplitPartsAreFree(s[i + 1..], sep);
    }
  }

  lemma {:induction false} NonBlankIsAmong(lines: seq<string>, l: string)
    requires l in NonBlank(lines)
    ensures l in lines
  {
    if Trim(lines[0]) == "" || l != lines[0] {
      NonBlankIsAmong(lines[1..], l);
    }
  }

  lemma DataLinesAreLines(raw: string, l: string)
    requires l in DataLines(raw)
    ensures '\n' !in l
  {
    var parts := Split(raw, '\n');
    SplitPartsAreFree(raw, '\n');
    NonBlankIsAmong(Lines(raw), l);
    var i :| 0 <= i < |parts| && Lines(raw)[i] == l;
    assert parts[i] in parts;
  }

  /**
   * Every raw export is read back from its rewriting row by row, in order: each well-formed row as
   * the edge it means, whatever commas or quotes its names hold, and each other row as at most one edge
   * that depends on that row alone. Where no other row is kept, the edges are the rows' meanings.
   */
  lemma RewrittenExportIsReadBack(number: string -> Option<real>, raw: string)
    requires HasRawHeader(raw)
    ensures Transformed(raw).Some?
      && Edges(number, Transformed(raw).value, PLACE_COUNTY) == Some(RowEdges(number, DataLines(raw)))
    ensures (forall l :: l in DataLines(raw) ==> WellFormed(l) || Rewritten(l) == None) ==>
      RowEdges(number, DataLines(raw)) == RawEdges(number, DataLines(raw))
  {
    var data := DataLines(raw);
    forall l | l in data ensures '\n' !in l {
      DataLinesAreLines(raw, l);
    }
    RowsAreLines(data);
    RowsAreReadBack(number, data);
    HeaderIsReadBack();
    TextIsReadBack(number, Join(VENDORED_COLUMNS, ","), RewrittenRows(data));
    if forall l :: l in data ==> WellFormed(l) || Rewritten(l) == None {
      OnlyMeanings(number, data);
    }
  }

  lemma TextIsReadBack(number: string -> Option<real>, header: string, rows: seq<string>)
    requires IsRowLine(header) && LayoutOf(Columns(header)) == Some(AT) && forall row :: row in rows ==> IsRowLine(row)
    ensures Edges(number, Join([header] + rows, "\n"), PLACE_COUNTY) == Some(EdgesIn(number, PLACE_COUNTY, ("160", "050"), AT, rows))
  {
    LinesAreReadBack([header] + rows);
    assert ([header] + rows)[1..] == rows;
  }
}
