/** Every spelling of an address names one network, and the pool test is its range. */
module IdentifyTheorems {
  import opened Options
  import opened Text
  import opened Identify

  // ---- dotted octets ----

  lemma {:induction false} SpelledDecimalLeads(n: nat)
    ensures n > 0 ==> Spell(n, 10)[0] != '0'
    ensures forall c :: c in Spell(n, 10) ==> '0' <= c <= '9'
  {
    if n >= 10 {
      SpelledDecimalLeads(n / 10);
      assert Spell(n, 10)[0] == Spell(n / 10, 10)[0];
    }
  }

  lemma SpelledOctet(n: nat)
    requires n <= 255
    ensures IsOctet(Spell(n, 10)) && Value(Spell(n, 10), 10) == n
  {
    SpelledDecimalLeads(n);
    SpellLength(n);
    ValueOfSpell(n, 10);
  }

  function OctetsValue(octets: seq<nat>): nat
    requires |octets| == 4
  {
    ((octets[0] * 256 + octets[1]) * 256 + octets[2]) * 256 + octets[3]
  }

  lemma DottedTextSplits(octets: seq<nat>)
    requires AreOctets(octets)
    ensures Split(DottedText(octets), '.') ==
      [Spell(octets[0], 10), Spell(octets[1], 10), Spell(octets[2], 10), Spell(octets[3], 10)]
    ensures IsIPv4(DottedText(octets))
    ensures forall c :: c in DottedText(octets) ==> c == '.' || '0' <= c <= '9'
  {
    var parts := [Spell(octets[0], 10), Spell(octets[1], 10), Spell(octets[2], 10), Spell(octets[3], 10)];
    forall i | 0 <= i < 4 ensures IsOctet(parts[i]) {
      SpelledOctet(octets[i]);
    }
    SplitJoin(parts, '.');
    forall c | c in DottedText(octets) ensures c == '.' || '0' <= c <= '9' {
      JoinCharacters(parts, ".", c);
    }
  }

  lemma FourOctetsToInt(p: seq<string>)
    requires |p| == 4
    ensures OctetsToInt(p, 0) == ShiftedIn(ShiftedIn(ShiftedIn(ShiftedIn(0, Value(p[0], 10)), Value(p[1], 10)), Value(p[2], 10)), Value(p[3], 10))
  {
    var q := p[1..];
    var r := q[1..];
    var last := r[1..];
    var v := ShiftedIn(0, Value(p[0], 10));
    var w := ShiftedIn(v, Value(q[0], 10));
    assert OctetsToInt(p, 0) == OctetsToInt(q, v) == OctetsToInt(r, w);
    assert OctetsToInt(last, ShiftedIn(w, Value(r[0], 10))) == ShiftedIn(ShiftedIn(w, Value(r[0], 10)), Value(last[0], 10));
  }

  lemma ShiftFits(value: nat, octet: nat)
    requires value < 0x100_0000 && octet <= 255
    ensures ShiftedIn(value, octet) == value * 256 + octet < 0x1_0000_0000
  {
  }

  /** The parsed integer is the octets' own value, 32 bits wide. */
  lemma DottedTextToInt(octets: seq<nat>)
    requires AreOctets(octets)
    ensures IPv4ToInt(DottedText(octets)) == OctetsValue(octets) < 0x1_0000_0000
  {
    hide Split, DottedText, Spell, Value, OctetsToInt, ShiftedIn, IsOctet, IsIPv4;
    DottedTextSplits(octets);
    SpelledOctet(octets[0]);
    SpelledOctet(octets[1]);
    SpelledOctet(octets[2]);
    SpelledOctet(octets[3]);
    FourOctetsToInt([Spell(octets[0], 10), Spell(octets[1], 10), Spell(octets[2], 10), Spell(octets[3], 10)]);
    ShiftFits(0, octets[0]);
    ShiftFits(octets[0], octets[1]);
    ShiftFits(octets[0] * 256 + octets[1], octets[2]);
    ShiftFits((octets[0] * 256 + octets[1]) * 256 + octets[2], octets[3]);
  }

  // ---- joined groups ----

  ghost predicate AreGroups(groups: seq<string>) { forall g :: g in groups ==> IsGroup(g) }

  ghost predicate HasNoGap(s: string) { forall k :: 0 <= k < |s| ==> !GapAt(s, k) }

  lemma JoinedGroups(groups: seq<string>)
    requires AreGroups(groups)
    ensures HasNoGap(Join(groups, ":")) && (Join(groups, ":") == "" <==> groups == [])
    ensures groups != [] ==> NoColonEnds(Join(groups, ":")) && |Join(groups, ":")| < 5 * |groups|
    ensures Groups(Join(groups, ":")) == Values(groups)
  {
    if groups != [] {
      GroupsAreTight(groups);
      forall g | g in groups ensures ':' !in g {
        assert IsGroup(g);
      }
      SplitJoin(groups, ':');
    }
  }

  ghost predicate NoColonEnds(s: string) { s != "" && s[0] != ':' && s[|s| - 1] != ':' }

  lemma {:induction false} GroupsAreTight(groups: seq<string>)
    requires AreGroups(groups) && groups != []
    ensures var text := Join(groups, ":"); HasNoGap(text) && NoColonEnds(text) && |text| < 5 * |groups|
  {
    var first := groups[0];
    assert IsGroup(first);
    forall k | 0 <= k < |first| ensures first[k] != ':' {
      assert first[k] in first;
    }
    if |groups| > 1 {
      assert AreGroups(groups[1..]) by {
        forall g | g in groups[1..] ensures IsGroup(g) {
          assert g in groups;
        }
      }
      GroupsAreTight(groups[1..]);
      JoinIsTight(first, Join(groups[1..], ":"));
    }
  }

  lemma JoinIsTight(first: string, rest: string)
    requires first != "" && (forall k :: 0 <= k < |first| ==> first[k] != ':') && HasNoGap(rest) && NoColonEnds(rest)
    ensures HasNoGap(first + ":" + rest) && NoColonEnds(first + ":" + rest)
  {
    var text := first + ":" + rest;
    forall k | 0 <= k < |text| ensures !GapAt(text, k) {
      if k > |first| {
        assert text[k] == rest[k - |first| - 1];
        assert !GapAt(rest, k - |first| - 1);
      }
    }
  }

  lemma JoinedGroupsCharacters(groups: seq<string>, c: char)
    requires AreGroups(groups) && c in Join(groups, ":")
    ensures c == ':' || IsDigit(c, 16)
  {
    JoinCharacters(groups, ":", c);
  }

  // ---- expansion ----

  lemma FirstGap(s: string, i: nat)
    requires GapAt(s, i) && forall k :: 0 <= k < i ==> !GapAt(s, k)
    ensures FindGap(s) == Some(i)
  {
    var found := FindGap(s);
    if found.Some? && found.value > i {
      assert false;
    }
  }

  lemma GapOfTwoParts(front: seq<string>, back: seq<string>)
    requires AreGroups(front) && AreGroups(back)
    ensures FindGap(Join(front, ":") + "::" + Join(back, ":")) == Some(|Join(front, ":")|)
  {
    var head, tail := Join(front, ":"), Join(back, ":");
    var text := head + "::" + tail;
    JoinedGroups(front);
    forall k | 0 <= k < |head| ensures !GapAt(text, k) {
      assert text[k] == head[k];
      if k + 1 < |head| {
        assert text[k + 1] == head[k + 1];
        assert !GapAt(head, k);
      }
    }
    FirstGap(text, |head|);
  }

  lemma NoGapIsFound(s: string)
    requires HasNoGap(s)
    ensures FindGap(s) == None
  {
  }

  lemma ExpandsAtGap(text: string, head: string, tail: string, front: seq<nat>, back: seq<nat>)
    requires text == head + "::" + tail && FindGap(text) == Some(|head|) && HasNoGap(tail)
    requires Groups(head) == front && Groups(tail) == back && |front| + |back| <= 7
    ensures ExpandGroups(text) == Some(front + Zeros(8 - |front| - |back|) + back)
  {
    hide FindGap, Groups, HasNoGap, GapAt, Zeros;
    assert text[..|head|] == head;
    assert text[|head| + 2..] == tail;
    NoGapIsFound(tail);
  }

  lemma ExpandsGapped(front: seq<string>, back: seq<string>)
    requires AreGroups(front) && AreGroups(back) && |front| + |back| <= 7
    ensures ExpandGroups(Join(front, ":") + "::" + Join(back, ":"))
      == Some(Values(front) + Zeros(8 - |front| - |back|) + Values(back))
  {
    hide ExpandGroups, FindGap, Groups, Join, HasNoGap;
    var head, tail := Join(front, ":"), Join(back, ":");
    assert Groups(head) == Values(front) && Groups(tail) == Values(back) && HasNoGap(tail) by {
      JoinedGroups(front);
      JoinedGroups(back);
    }
    GapOfTwoParts(front, back);
    ExpandsAtGap(head + "::" + tail, head, tail, Values(front), Values(back));
  }

  /** A spelling in hexadecimal groups only is expanded to its address. */
  lemma ExpandsHexadecimal(sp: Spelling)
    requires Valid(sp) && sp.octets == []
    ensures ExpandGroups(TextOf(sp)) == Some(AddressOf(sp))
  {
    hide ExpandGroups, Join, Zeros;
    assert sp.front + DottedPart(sp) == sp.front && sp.back + DottedPart(sp) == sp.back;
    assert Values(sp.back) + OctetGroups(sp.octets) == Values(sp.back);
    if sp.gap {
      ExpandsGapped(sp.front, sp.back);
    } else {
      ExpandsFull(sp.front);
      AddressOfFull(sp);
    }
  }

  lemma ExpandsFull(groups: seq<string>)
    requires AreGroups(groups) && |groups| == 8
    ensures ExpandGroups(Join(groups, ":")) == Some(Values(groups))
  {
    hide Join, Groups, FindGap, HasNoGap;
    JoinedGroups(groups);
    NoGapIsFound(Join(groups, ":"));
  }

  lemma AddressOfFull(sp: Spelling)
    requires Valid(sp) && sp.octets == [] && !sp.gap
    ensures AddressOf(sp) == Values(sp.front)
  {
  }

  lemma HexadecimalStaysAsItIs(sp: Spelling)
    requires Valid(sp) && sp.octets == []
    ensures Undotted(TextOf(sp)) == TextOf(sp)
    ensures forall c :: c in TextOf(sp) ==> c == ':' || IsDigit(c, 16)
  {
    var text := TextOf(sp);
    assert sp.front + DottedPart(sp) == sp.front && sp.back + DottedPart(sp) == sp.back;
    forall c | c in text ensures c == ':' || IsDigit(c, 16) {
      if c in Join(sp.front, ":") {
        JoinedGroupsCharacters(sp.front, c);
      } else if c != ':' {
        JoinedGroupsCharacters(sp.back, c);
      }
    }
    var tail := text[AfterLastColon(text)..];
    forall k | 0 <= k < |tail| ensures tail[k] != '.' {
      assert tail[k] in text;
    }
    assert Split(tail, '.') == [tail];
  }

  /** The low 32 bits as two hexadecimal groups. */
  function LowGroups(octets: seq<nat>): (low: seq<string>)
    requires AreOctets(octets)
    ensures |low| == 2 && IsGroup(low[0]) && IsGroup(low[1])
  {
    SpellLength(octets[0] * 256 + octets[1]);
    SpellLength(octets[2] * 256 + octets[3]);
    [Spell(octets[0] * 256 + octets[1], 16), Spell(octets[2] * 256 + octets[3], 16)]
  }

  /** The same address with its decimal octets written as two hexadecimal groups. */
  function Hexed(sp: Spelling): (h: Spelling)
    requires Valid(sp) && sp.octets != []
    ensures Valid(h) && h.octets == []
  {
    if sp.gap then sp.(back := sp.back + LowGroups(sp.octets), octets := [])
    else sp.(front := sp.front + LowGroups(sp.octets), octets := [])
  }

  lemma ValuesAppend(a: seq<string>, b: seq<string>)
    ensures Values(a + b) == Values(a) + Values(b)
  {
  }

  lemma LowGroupsValues(octets: seq<nat>)
    requires AreOctets(octets)
    ensures Values(LowGroups(octets)) == OctetGroups(octets)
  {
    ValueOfSpell(octets[0] * 256 + octets[1], 16);
    ValueOfSpell(octets[2] * 256 + octets[3], 16);
  }

  lemma HexedIsTheSameAddress(sp: Spelling)
    requires Valid(sp) && sp.octets != []
    ensures AddressOf(Hexed(sp)) == AddressOf(sp)
  {
    LowGroupsValues(sp.octets);
    ValuesAppend(sp.back, LowGroups(sp.octets));
    ValuesAppend(sp.front, LowGroups(sp.octets));
    if sp.gap {
      assert Values(Hexed(sp).back) + OctetGroups([]) == Values(sp.back) + OctetGroups(sp.octets);
    } else {
      assert AddressOf(sp) == Values(sp.front) + OctetGroups(sp.octets);
      assert AddressOf(Hexed(sp)) == Values(Hexed(sp).front);
    }
  }

  /** What stands before the decimal octets, up to and with the last colon. */
  function BeforeOctets(sp: Spelling): string
    requires Valid(sp) && sp.octets != []
  {
    if !sp.gap then Join(sp.front, ":") + ":"
    else if sp.back == [] then Join(sp.front, ":") + "::"
    else Join(sp.front, ":") + "::" + Join(sp.back, ":") + ":"
  }

  lemma BeforeOctetsEnds(sp: Spelling)
    requires Valid(sp) && sp.octets != []
    ensures var before := BeforeOctets(sp); before != "" && before[|before| - 1] == ':'
  {
    hide Join;
  }

  lemma OctetsComeLast(sp: Spelling)
    requires Valid(sp) && sp.octets != []
    ensures TextOf(sp) == BeforeOctets(sp) + DottedText(sp.octets)
  {
    JoinAppend(if sp.gap then sp.back else sp.front, ":", DottedText(sp.octets));
  }

  lemma HexedTextFollows(sp: Spelling)
    requires Valid(sp) && sp.octets != []
    ensures TextOf(Hexed(sp)) == BeforeOctets(sp) + LowGroups(sp.octets)[0] + ":" + LowGroups(sp.octets)[1]
  {
    hide Join, DottedText, Spell;
    var low := LowGroups(sp.octets);
    var groups := if sp.gap then sp.back else sp.front;
    JoinAppend(groups, ":", low[0]);
    JoinAppend(groups + [low[0]], ":", low[1]);
    assert groups + [low[0]] + [low[1]] == groups + low;
    var h := Hexed(sp);
    assert h.back + DottedPart(h) == h.back && h.front + DottedPart(h) == h.front;
  }

  lemma LastColon(before: string, rest: string)
    requires before != "" && before[|before| - 1] == ':' && ':' !in rest
    ensures AfterLastColon(before + rest) == |before|
  {
    var s := before + rest;
    var at := AfterLastColon(s);
    assert s[|before| - 1] == ':';
    assert forall k :: at <= k < |s| ==> s[k] == s[at..][k - at];
    assert forall k :: |before| <= k < |s| ==> s[k] == rest[k - |before|];
  }

  lemma HighAndLow(octets: seq<nat>)
    requires AreOctets(octets)
    ensures OctetsValue(octets) / 0x1_0000 == octets[0] * 256 + octets[1]
    ensures OctetsValue(octets) % 0x1_0000 == octets[2] * 256 + octets[3]
  {
  }

  lemma UndottedAt(text: string, before: string, dotted: string)
    requires text == before + dotted && AfterLastColon(text) == |before| && IsIPv4(dotted)
    ensures var value := IPv4ToInt(dotted);
      Undotted(text) == before + Spell(value / 0x1_0000, 16) + ":" + Spell(value % 0x1_0000, 16)
  {
    hide Spell, IPv4ToInt, IsIPv4, AfterLastColon;
    assert text[|before|..] == dotted && text[..|before|] == before;
  }

  /** Rewriting a decimal tail turns one spelling of the address into another. */
  lemma UndottedIsHexed(sp: Spelling)
    requires Valid(sp) && sp.octets != []
    ensures Undotted(TextOf(sp)) == TextOf(Hexed(sp))
  {
    hide Join, Spell, DottedText, IPv4ToInt, IsIPv4, AfterLastColon, TextOf, Hexed, Undotted, BeforeOctets;
    var before, dotted := BeforeOctets(sp), DottedText(sp.octets);
    OctetsComeLast(sp);
    HexedTextFollows(sp);
    DottedTextSplits(sp.octets);
    DottedTextToInt(sp.octets);
    BeforeOctetsEnds(sp);
    LastColon(before, dotted);
    UndottedAt(TextOf(sp), before, dotted);
    HighAndLow(sp.octets);
  }

  /**
   * However an address is written (where the gap stands, leading zeros, a decimal tail), expansion
   * gives its eight groups.
   */
  lemma ExpandsEverySpelling(sp: Spelling)
    requires Valid(sp)
    ensures ExpandIPv6(TextOf(sp)) == Some(AddressOf(sp))
  {
    if sp.octets == [] {
      HexadecimalStaysAsItIs(sp);
      ExpandsHexadecimal(sp);
    } else {
      HexedIsTheSameAddress(sp);
      UndottedIsHexed(sp);
      ExpandsHexadecimal(Hexed(sp));
    }
  }

  // ---- networks ----

  lemma HexadecimalFits(sp: Spelling)
    requires Valid(sp) && sp.octets == []
    ensures ':' in TextOf(sp) && |TextOf(sp)| <= 45
  {
    JoinedGroups(sp.front);
    JoinedGroups(sp.back);
    assert sp.front + DottedPart(sp) == sp.front && sp.back + DottedPart(sp) == sp.back;
    if !sp.gap {
      assert Join(sp.front, ":") == sp.front[0] + ":" + Join(sp.front[1..], ":");
    }
  }

  lemma BeforeOctetsFits(sp: Spelling)
    requires Valid(sp) && sp.octets != []
    ensures forall c :: c in BeforeOctets(sp) ==> c == ':' || IsDigit(c, 16)
    ensures ':' in BeforeOctets(sp) && |BeforeOctets(sp)| <= 30
  {
    hide Join, HasNoGap, NoColonEnds, Groups, Values;
    JoinedGroups(sp.front);
    JoinedGroups(sp.back);
    BeforeOctetsEnds(sp);
    forall c | c in BeforeOctets(sp) ensures c == ':' || IsDigit(c, 16) {
      if c in Join(sp.front, ":") {
        JoinedGroupsCharacters(sp.front, c);
      } else if c != ':' {
        JoinedGroupsCharacters(sp.back, c);
      }
    }
  }

  lemma AddressFits(sp: Spelling)
    requires Valid(sp)
    ensures forall c :: c in TextOf(sp) ==> c == ':' || c == '.' || IsDigit(c, 16)
    ensures ':' in TextOf(sp) && |TextOf(sp)| <= 45
  {
    if sp.octets == [] {
      HexadecimalStaysAsItIs(sp);
      HexadecimalFits(sp);
    } else {
      OctetsComeLast(sp);
      BeforeOctetsFits(sp);
      DottedTextSplits(sp.octets);
      DottedTextIsShort(sp.octets);
    }
  }

  lemma JoinFour(a: string, b: string, c: string, d: string, sep: string)
    ensures Join([a, b, c, d], sep) == a + sep + b + sep + c + sep + d
  {
    assert [a, b, c, d][1..] == [b, c, d] && [b, c, d][1..] == [c, d] && [c, d][1..] == [d];
    assert Join([c, d], sep) == c + sep + d;
    assert Join([b, c, d], sep) == b + sep + (c + sep + d);
    assert Join([a, b, c, d], sep) == a + sep + (b + sep + (c + sep + d));
  }

  lemma DottedTextIsShort(octets: seq<nat>)
    requires AreOctets(octets)
    ensures |DottedText(octets)| <= 15
  {
    JoinFour(Spell(octets[0], 10), Spell(octets[1], 10), Spell(octets[2], 10), Spell(octets[3], 10), ".");
    SpellLength(octets[0]);
    SpellLength(octets[1]);
    SpellLength(octets[2]);
    SpellLength(octets[3]);
  }

  lemma {:induction false} SplitCovers(s: string, sep: char, c: char)
    requires c in s && c != sep
    ensures exists p :: p in Split(s, sep) && c in p
  {
    var i := IndexOf(s, sep);
    var k :| 0 <= k < |s| && s[k] == c;
    if i == |s| {
      assert s in Split(s, sep);
    } else if k < i {
      assert s[..i][k] == c;
      assert s[..i] in Split(s, sep);
    } else {
      assert s[i + 1..][k - i - 1] == c;
      SplitCovers(s[i + 1..], sep, c);
      var p :| p in Split(s[i + 1..], sep) && c in p;
      assert p in Split(s, sep);
    }
  }

  lemma OnlyDottedIsIPv4(s: string, c: char)
    requires c in s && c != '.' && !('0' <= c <= '9')
    ensures !IsIPv4(s)
  {
    SplitCovers(s, '.', c);
  }

  /** Blank-padded, in either case and with a zone, a spelled text is cleaned to itself. */
  lemma CleanedIsTheText(raw: string, text: string, zone: string)
    requires Lower(Trim(raw)) == text + zone && (zone == "" || zone[0] == '%')
    requires '%' !in text && |text| <= 45
    ensures Cleaned(raw) == text
  {
    var whole := text + zone;
    var bounded := if |whole| > MAX_ADDRESS_LENGTH then whole[..MAX_ADDRESS_LENGTH] else whole;
    assert forall k :: 0 <= k < |text| ==> bounded[k] == text[k];
    assert |text| < |bounded| ==> bounded[|text|] == '%';
    assert bounded[..|text|] == text;
  }

  /** The network of an IPv6 address depends on its eight groups alone. */
  lemma NetworkOfIPv6(raw: string, sp: Spelling, zone: string)
    requires Valid(sp) && Lower(Trim(raw)) == TextOf(sp) + zone && (zone == "" || zone[0] == '%')
    ensures NetworkOf(raw) == NetworkText(AddressOf(sp))
  {
    AddressFits(sp);
    CleanedIsTheText(raw, TextOf(sp), zone);
    OnlyDottedIsIPv4(TextOf(sp), ':');
    ExpandsEverySpelling(sp);
  }

  lemma SpelledTextIsSolid(sp: Spelling, raw: string)
    requires Valid(sp) && Lower(raw) == TextOf(sp)
    ensures IsSolid(raw)
  {
    AddressFits(sp);
    var text := TextOf(sp);
    assert |raw| == |text| && text[0] in text && text[|text| - 1] in text;
  }

  /**
   * The same for a text as a request carries it: letters of either case, blanks around it and a zone after it do
   * not matter.
   */
  lemma NetworkOfWritten(before: string, raw: string, zone: string, after: string, sp: Spelling)
    requires Valid(sp) && Lower(raw) == TextOf(sp) && IsBlank(before) && IsBlank(after)
    requires zone == "" || (zone[0] == '%' && IsSolid(zone))
    ensures NetworkOf(before + raw + zone + after) == NetworkText(AddressOf(sp))
  {
    hide TextOf, NetworkOf, NetworkText, AddressOf, Valid;
    SpelledTextIsSolid(sp, raw);
    TrimTakesBlanks(before, raw + zone, after);
    assert before + raw + zone + after == before + (raw + zone) + after;
    assert Lower(raw + zone) == TextOf(sp) + Lower(zone);
    NetworkOfIPv6(before + raw + zone + after, sp, Lower(zone));
  }

  lemma NetworkOfIPv4(raw: string, octets: seq<nat>, zone: string)
    requires AreOctets(octets) && Lower(Trim(raw)) == DottedText(octets) + zone && (zone == "" || zone[0] == '%')
    ensures NetworkOf(raw) == DottedText(octets)
  {
    DottedTextSplits(octets);
    DottedTextIsShort(octets);
    CleanedIsTheText(raw, DottedText(octets), zone);
  }

  lemma SpelledGroupsAreInjective(a: seq<nat>, b: seq<nat>)
    requires |a| == |b| && SpelledGroups(a) == SpelledGroups(b)
    ensures a == b
  {
    forall i | 0 <= i < |a| ensures a[i] == b[i] {
      ValueOfSpell(a[i], 16);
      ValueOfSpell(b[i], 16);
      assert SpelledGroups(a)[i] == SpelledGroups(b)[i];
    }
  }

  lemma SpelledGroupsSplit(a: seq<nat>)
    requires a != []
    ensures Split(Join(SpelledGroups(a), ":"), ':') == SpelledGroups(a)
  {
    forall s | s in SpelledGroups(a) ensures ':' !in s {
    }
    SplitJoin(SpelledGroups(a), ':');
  }

  lemma PrefixTextIsInjective(a: seq<nat>, b: seq<nat>)
    requires |a| == |b| == 8 && Join(SpelledGroups(a[..4]), ":") == Join(SpelledGroups(b[..4]), ":")
    ensures a[..4] == b[..4]
  {
    SpelledGroupsSplit(a[..4]);
    SpelledGroupsSplit(b[..4]);
    SpelledGroupsAreInjective(a[..4], b[..4]);
  }

  lemma DottedTextIsInjective(a: seq<nat>, b: seq<nat>)
    requires AreOctets(a) && AreOctets(b) && DottedText(a) == DottedText(b)
    ensures a == b
  {
    DottedTextSplits(a);
    DottedTextSplits(b);
    forall i | 0 <= i < 4 ensures a[i] == b[i] {
      SpelledOctet(a[i]);
      SpelledOctet(b[i]);
      assert Split(DottedText(a), '.')[i] == Spell(a[i], 10) && Split(DottedText(b), '.')[i] == Spell(b[i], 10);
    }
  }

  ghost predicate AreWords(groups: seq<nat>) { |groups| == 8 && forall i :: 0 <= i < 8 ==> groups[i] < 0x1_0000 }

  /**
   * Two addresses are one network exactly when both are IPv6 proper with the same first 64 bits, or
   * both are the same mapped IPv4 address.
   */
  lemma SameNetworkExactly(a: seq<nat>, b: seq<nat>)
    requires AreWords(a) && AreWords(b)
    ensures NetworkText(a) == NetworkText(b) <==>
      IsMapped(a) == IsMapped(b) && (if IsMapped(a) then a == b else a[..4] == b[..4])
  {
    if IsMapped(a) && IsMapped(b) {
      if NetworkText(a) == NetworkText(b) {
        DottedTextIsInjective(MappedOctets(a), MappedOctets(b));
        MappedOctetsDetermine(a, b);
      }
    } else if IsMapped(a) {
      DottedTextSplits(MappedOctets(a));
      assert '/' in NetworkText(b);
    } else if IsMapped(b) {
      DottedTextSplits(MappedOctets(b));
      assert '/' in NetworkText(a);
    } else {
      var suffix := "::/64";
      var p, q := Join(SpelledGroups(a[..4]), ":"), Join(SpelledGroups(b[..4]), ":");
      if p + suffix == q + suffix {
        assert |p| == |q|;
        assert p == (p + suffix)[..|p|] && q == (q + suffix)[..|q|];
        PrefixTextIsInjective(a, b);
      }
    }
  }

  lemma MappedOctetsDetermine(a: seq<nat>, b: seq<nat>)
    requires |a| == |b| == 8 && IsMapped(a) && IsMapped(b) && MappedOctets(a) == MappedOctets(b)
    ensures a == b
  {
    assert a[6] == a[6] / 256 * 256 + a[6] % 256 && a[7] == a[7] / 256 * 256 + a[7] % 256;
    assert MappedOctets(a)[0] == b[6] / 256 && MappedOctets(a)[1] == b[6] % 256;
    assert MappedOctets(a)[2] == b[7] / 256 && MappedOctets(a)[3] == b[7] % 256;
    assert forall i :: 0 <= i < 5 ==> a[i] == a[..5][i] && b[i] == b[..5][i];
  }

  /** The first four groups, spelled, then a gap. */
  function PrefixSpelling(groups: seq<nat>): Spelling
    requires |groups| == 8
  {
    Spelling(SpelledGroups(groups[..4]), true, [], [])
  }

  lemma PrefixIsSpelled(groups: seq<nat>)
    requires AreWords(groups)
    ensures var sp := PrefixSpelling(groups);
      Valid(sp) && TextOf(sp) == Join(SpelledGroups(groups[..4]), ":") + "::" && AddressOf(sp) == groups[..4] + Zeros(4)
  {
    hide Spell, Value, Join;
    var sp := PrefixSpelling(groups);
    forall i | 0 <= i < 4 ensures IsGroup(sp.front[i]) && Value(sp.front[i], 16) == groups[i] {
      SpellLength(groups[i]);
      ValueOfSpell(groups[i], 16);
    }
    assert Values(sp.front) == groups[..4];
    assert Values(sp.back) + OctetGroups(sp.octets) == [];
    assert sp.back + DottedPart(sp) == [];
    JoinedGroups(sp.back);
  }

  /**
   * The network of an unmapped address is written as a prefix: its text before the length is an address with the
   * same first 64 bits and no others.
   */
  lemma NetworkTextReadsBack(groups: seq<nat>)
    requires AreWords(groups) && !IsMapped(groups)
    ensures exists prefix :: NetworkText(groups) == prefix + "/64" && IsIPv6(prefix) && ExpandIPv6(prefix) == Some(groups[..4] + Zeros(4))
  {
    hide Valid, TextOf, AddressOf, ExpandIPv6, Join, SpelledGroups, PrefixSpelling, Zeros;
    var sp := PrefixSpelling(groups);
    PrefixIsSpelled(groups);
    ExpandsEverySpelling(sp);
    assert IsIPv6(TextOf(sp));
    assert NetworkText(groups) == TextOf(sp) + "/64";
  }

  lemma GroupIsWord(s: string)
    requires IsGroup(s)
    ensures Value(s, 16) < 0x1_0000
  {
    forall k | 0 <= k < |s| ensures DigitValue(s[k]) < 16 {
      assert s[k] in s;
    }
    assert Value(s[..0], 16) == 0;
    assert s[..1][..0] == s[..0] && Value(s[..1], 16) < 0x10;
    if |s| >= 2 {
      assert s[..2][..1] == s[..1] && Value(s[..2], 16) < 0x100;
    }
    if |s| >= 3 {
      assert s[..3][..2] == s[..2] && Value(s[..3], 16) < 0x1000;
    }
    if |s| >= 4 {
      assert s[..4][..3] == s[..3] && Value(s[..4], 16) < 0x1_0000;
    }
    assert s[..|s|] == s;
  }

  lemma AddressIsWords(sp: Spelling)
    requires Valid(sp)
    ensures AreWords(AddressOf(sp))
  {
    forall g | g in sp.front || g in sp.back ensures Value(g, 16) < 0x1_0000 {
      GroupIsWord(g);
    }
  }

  /** Two valid spellings name the same network exactly as their addresses say, wherever spaces, case or a zone differ. */
  lemma SpelledNetworksAgreeExactly(rawA: string, a: Spelling, zoneA: string, rawB: string, b: Spelling, zoneB: string)
    requires Valid(a) && Lower(Trim(rawA)) == TextOf(a) + zoneA && (zoneA == "" || zoneA[0] == '%')
    requires Valid(b) && Lower(Trim(rawB)) == TextOf(b) + zoneB && (zoneB == "" || zoneB[0] == '%')
    requires !IsMapped(AddressOf(a)) && !IsMapped(AddressOf(b))
    ensures NetworkOf(rawA) == NetworkOf(rawB) <==> AddressOf(a)[..4] == AddressOf(b)[..4]
  {
    NetworkOfIPv6(rawA, a, zoneA);
    NetworkOfIPv6(rawB, b, zoneB);
    AddressIsWords(a);
    AddressIsWords(b);
    SameNetworkExactly(AddressOf(a), AddressOf(b));
  }

  /** A mapped address is the network of the IPv4 address it maps (section 2.5.5.2 of RFC 4291). */
  lemma MappedIsItsIPv4(rawA: string, a: Spelling, zoneA: string, rawB: string, octets: seq<nat>)
    requires Valid(a) && Lower(Trim(rawA)) == TextOf(a) + zoneA && (zoneA == "" || zoneA[0] == '%')
    requires AreOctets(octets) && Lower(Trim(rawB)) == DottedText(octets)
    requires AddressOf(a) == [0, 0, 0, 0, 0, 0xffff, octets[0] * 256 + octets[1], octets[2] * 256 + octets[3]]
    ensures NetworkOf(rawA) == NetworkOf(rawB) == DottedText(octets)
  {
    assert NetworkOf(rawB) == DottedText(octets) by {
      assert Lower(Trim(rawB)) == DottedText(octets) + "";
      NetworkOfIPv4(rawB, octets, "");
    }
    assert NetworkOf(rawA) == NetworkText(AddressOf(a)) by {
      NetworkOfIPv6(rawA, a, zoneA);
    }
    OctetsAreMapped(AddressOf(a), octets);
  }

  lemma OctetsAreMapped(groups: seq<nat>, octets: seq<nat>)
    requires AreOctets(octets) && |groups| == 8
    requires groups == [0, 0, 0, 0, 0, 0xffff, octets[0] * 256 + octets[1], octets[2] * 256 + octets[3]]
    ensures IsMapped(groups) && NetworkText(groups) == DottedText(octets)
  {
    assert MappedOctets(groups) == octets;
  }

  ghost predicate IsPlain(s: string) {
    0 < |s| <= 45 && forall c :: c in s ==> c == '.' || c == '/' || c == ':' || IsDigit(c, 16)
  }

  lemma PlainTextIsCleaned(s: string)
    requires IsPlain(s)
    ensures Cleaned(s) == s
  {
    assert s[0] in s && s[|s| - 1] in s;
    assert Trim(s) == s;
    forall k | 0 <= k < |s| ensures !('A' <= s[k] <= 'Z') {
      assert s[k] in s;
    }
    assert Lower(s) == s;
    assert s == s + "";
    CleanedIsTheText(s, s, "");
  }

  lemma DottedTextIsPlain(octets: seq<nat>)
    requires AreOctets(octets)
    ensures IsPlain(DottedText(octets))
  {
    DottedTextSplits(octets);
    DottedTextIsShort(octets);
    assert DottedText(octets) != "" by {
      assert IndexOf("", '.') == 0;
      assert Split("", '.') == [""];
    }
  }

  lemma PrefixTextIsPlain(groups: seq<nat>)
    requires AreWords(groups)
    ensures IsPlain(Join(SpelledGroups(groups[..4]), ":") + "::/64")
  {
    var p := SpelledGroups(groups[..4]);
    forall i | 0 <= i < 4 ensures |p[i]| <= 4 {
      SpellLength(groups[i]);
    }
    JoinFour(p[0], p[1], p[2], p[3], ":");
    assert p == [p[0], p[1], p[2], p[3]];
    forall c | c in Join(p, ":") ensures c == ':' || IsDigit(c, 16) {
      JoinCharacters(p, ":", c);
    }
  }

  lemma IPv6NetworkIsANetwork(raw: string, sp: Spelling, zone: string)
    requires Valid(sp) && Lower(Trim(raw)) == TextOf(sp) + zone && (zone == "" || zone[0] == '%')
    ensures NetworkOf(NetworkOf(raw)) == NetworkOf(raw)
  {
    var groups := AddressOf(sp);
    NetworkOfIPv6(raw, sp, zone);
    AddressIsWords(sp);
    if IsMapped(groups) {
      DottedTextIsPlain(MappedOctets(groups));
      PlainTextIsCleaned(NetworkText(groups));
      DottedTextSplits(MappedOctets(groups));
    } else {
      PrefixTextIsPlain(groups);
      PlainTextIsCleaned(NetworkText(groups));
      SlashIsNoAddress(NetworkText(groups));
    }
  }

  lemma SlashIsNoAddress(s: string)
    requires '/' in s
    ensures !IsIPv4(s) && !IsIPv6(s)
  {
    OnlyDottedIsIPv4(s, '/');
    forall sp | Valid(sp) ensures TextOf(sp) != s {
      AddressFits(sp);
    }
  }

  lemma IPv4NetworkIsANetwork(raw: string, octets: seq<nat>, zone: string)
    requires AreOctets(octets) && Lower(Trim(raw)) == DottedText(octets) + zone && (zone == "" || zone[0] == '%')
    ensures NetworkOf(NetworkOf(raw)) == NetworkOf(raw)
  {
    NetworkOfIPv4(raw, octets, zone);
    DottedTextIsPlain(octets);
    PlainTextIsCleaned(DottedText(octets));
    DottedTextSplits(octets);
  }

  /** The text, in either case and with spaces or a zone around it, is this one. */
  ghost predicate Writes(raw: string, text: string) {
    exists zone :: Lower(Trim(raw)) == text + zone && (zone == "" || zone[0] == '%')
  }

  /** Taking the network of the network of any address, IPv4 or IPv6, changes nothing, as the pool test relies on. */
  lemma NetworkOfIsIdempotent(raw: string)
    requires (exists sp :: Valid(sp) && Writes(raw, TextOf(sp))) || (exists octets :: AreOctets(octets) && Writes(raw, DottedText(octets)))
    ensures NetworkOf(NetworkOf(raw)) == NetworkOf(raw)
  {
    if sp :| Valid(sp) && Writes(raw, TextOf(sp)) {
      var zone :| Lower(Trim(raw)) == TextOf(sp) + zone && (zone == "" || zone[0] == '%');
      IPv6NetworkIsANetwork(raw, sp, zone);
    } else {
      var octets :| AreOctets(octets) && Writes(raw, DottedText(octets));
      var zone :| Lower(Trim(raw)) == DottedText(octets) + zone && (zone == "" || zone[0] == '%');
      IPv4NetworkIsANetwork(raw, octets, zone);
    }
  }

  lemma MaskedRange(a: nat, b: nat, c: nat, d: nat)
    requires a <= 255 && b <= 255 && c <= 255 && d <= 255
    ensures Masked(((a * 256 + b) * 256 + c) * 256 + d) == ((160 * 256 + 79) * 256 + 104) * 256
      <==> a == 160 && b == 79 && 104 <= c <= 111
  {
  }

  lemma MaskTest(octets: seq<nat>, base: nat)
    requires AreOctets(octets) && base == ((160 * 256 + 79) * 256 + 104) * 256
    ensures Masked(IPv4ToInt(DottedText(octets))) == base
      <==> octets[0] == 160 && octets[1] == 79 && 104 <= octets[2] <= 111
  {
    DottedTextToInt(octets);
    MaskedRange(octets[0], octets[1], octets[2], octets[3]);
  }

  /** An address is in the pool exactly when its IPv4 form lies from 160.79.104.0 to 160.79.111.255. */
  lemma PoolIsItsRange(raw: string, octets: seq<nat>)
    requires AreOctets(octets) && NetworkOf(raw) == DottedText(octets)
    ensures IsClaudeAiPool(raw) <==> octets[0] == 160 && octets[1] == 79 && 104 <= octets[2] <= 111
  {
    DottedTextSplits(octets);
    DottedTextToInt(POOL_FIRST);
    MaskTest(octets, POOL_BASE);
  }

  lemma OctetsInRange(high: nat, low: nat)
    ensures high / 256 == 160 && high % 256 == 79 <==> high == 160 * 256 + 79
    ensures 104 <= low / 256 <= 111 <==> 104 * 256 <= low < 112 * 256
  {
  }

  /** No IPv6 address is in the pool but those that map an address of its range. */
  lemma PoolTakesMappedOnly(raw: string, sp: Spelling, zone: string)
    requires Valid(sp) && Lower(Trim(raw)) == TextOf(sp) + zone && (zone == "" || zone[0] == '%')
    ensures IsClaudeAiPool(raw) <==>
      IsMapped(AddressOf(sp)) && AddressOf(sp)[6] == 160 * 256 + 79 && 104 * 256 <= AddressOf(sp)[7] < 112 * 256
  {
    hide AddressOf, NetworkOf, TextOf, Trim, Lower;
    var groups := AddressOf(sp);
    NetworkOfIPv6(raw, sp, zone);
    AddressIsWords(sp);
    if IsMapped(groups) {
      PoolIsItsRange(raw, MappedOctets(groups));
      OctetsInRange(groups[6], groups[7]);
    } else {
      SlashIsNoAddress(NetworkText(groups));
    }
  }
}
