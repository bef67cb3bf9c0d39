/** Splitting, joining and number spelling on strings, as the source's string methods do them. */
module Text {
  /** The first place of `c` in `s`, or the length of `s` when there is none. */
  function IndexOf(s: string, c: char): (i: nat)
    ensures i <= |s| && forall k :: 0 <= k < i ==> s[k] != c
    ensures i < |s| ==> s[i] == c
  {
    if s == "" || s[0] == c then 0 else 1 + IndexOf(s[1..], c)
  }

  function Split(s: string, sep: char): (parts: seq<string>)
    ensures parts != []
  {
    var i := IndexOf(s, sep);
    if i == |s| then [s] else [s[..i]] + Split(s[i + 1..], sep)
  }

  function Join(parts: seq<string>, sep: string): string {
    if parts == [] then ""
    else if |parts| == 1 then parts[0]
    else parts[0] + sep + Join(parts[1..], sep)
  }

  lemma SplitAtFirst(a: string, sep: char, rest: string)
    requires sep !in a
    ensures Split(a + [sep] + rest, sep) == [a] + Split(rest, sep)
  {
    var s := a + [sep] + rest;
    var i := IndexOf(s, sep);
    assert s[|a|] == sep && forall k :: 0 <= k < |a| ==> s[k] == a[k];
    assert s[..i] == a && s[i + 1..] == rest;
  }

  /** Splitting undoes joining when no part holds the separator. */
  lemma {:induction false} SplitJoin(parts: seq<string>, sep: char)
    requires parts != [] && forall p :: p in parts ==> sep !in p
    ensures Split(Join(parts, [sep]), sep) == parts
  {
    assert parts[0] in parts;
    if |parts| == 1 {
      assert IndexOf(parts[0], sep) == |parts[0]|;
    } else {
      forall p | p in parts[1..] ensures sep !in p {
        assert p in parts;
      }
      SplitJoin(parts[1..], sep);
      SplitAtFirst(parts[0], sep, Join(parts[1..], [sep]));
    }
  }

  /** Every character of a joined text comes from a part or from the separator. */
  lemma {:induction false} JoinCharacters(parts: seq<string>, sep: string, c: char)
    requires c in Join(parts, sep)
    ensures c in sep || exists p :: p in parts && c in p
  {
    if |parts| > 1 && c !in parts[0] && c !in sep {
      JoinCharacters(parts[1..], sep, c);
      var p :| p in parts[1..] && c in p;
      assert p in parts;
    } else if parts != [] {
      assert parts[0] in parts;
    }
  }

  lemma {:induction false} JoinAppend(parts: seq<string>, sep: string, last: string)
    ensures Join(parts + [last], sep) == if parts == [] then last else Join(parts, sep) + sep + last
  {
    if |parts| == 1 {
      assert parts + [last] == [parts[0], last];
    } else if |parts| > 1 {
      assert (parts + [last])[1..] == parts[1..] + [last];
      JoinAppend(parts[1..], sep, last);
    }
  }

  // ---- trimming and case ----

  predicate IsSpace(c: char) { c == ' ' || c == '\t' || c == '\n' || c == '\r' }

  function Trim(s: string): string
    decreases |s|
  {
    if s != "" && IsSpace(s[0]) then Trim(s[1..])
    else if s != "" && IsSpace(s[|s| - 1]) then Trim(s[..|s| - 1])
    else s
  }

  ghost predicate IsBlank(s: string) { forall c :: c in s ==> IsSpace(c) }

  ghost predicate IsSolid(s: string) { s != "" && !IsSpace(s[0]) && !IsSpace(s[|s| - 1]) }

  lemma {:induction false} TrimTakesBlanks(before: string, s: string, after: string)
    requires IsBlank(before) && IsBlank(after) && IsSolid(s)
    ensures Trim(before + s + after) == s
    decreases |before| + |after|
  {
    var text := before + s + after;
    if before != "" {
      assert text[0] == before[0] && text[1..] == before[1..] + s + after;
      TrimTakesBlanks(before[1..], s, after);
    } else if after != "" {
      var shorter := after[..|after| - 1];
      assert text[|text| - 1] == after[|after| - 1] && text[..|text| - 1] == before + s + shorter;
      TrimTakesBlanks(before, s, shorter);
    } else {
      assert text == s;
    }
  }

  function Lower(s: string): string {
    seq(|s|, i requires 0 <= i < |s| => if 'A' <= s[i] <= 'Z' then 'a' + (s[i] - 'A') else s[i])
  }

  // ---- numbers ----

  function Digit(k: nat): char
    requires k < 16
  {
    if k < 10 then '0' + k as char else 'a' + (k - 10) as char
  }

  predicate IsDigit(c: char, radix: nat) {
    ('0' <= c <= '9' && DigitValue(c) < radix) || ('a' <= c <= 'f' && DigitValue(c) < radix)
  }

  function DigitValue(c: char): nat {
    if '0' <= c <= '9' then (c - '0') as nat else if 'a' <= c <= 'f' then (c - 'a') as nat + 10 else 0
  }

  function Spell(n: nat, radix: nat): (s: string)
    requires radix == 10 || radix == 16
    ensures s != "" && forall c :: c in s ==> IsDigit(c, radix)
  {
    if n < radix then [Digit(n)] else Spell(n / radix, radix) + [Digit(n % radix)]
  }

  /** The number a text of digits spells. */
  function Value(s: string, radix: nat): nat {
    if s == "" then 0 else Value(s[..|s| - 1], radix) * radix + DigitValue(s[|s| - 1])
  }

  lemma {:induction false} ValueOfSpell(n: nat, radix: nat)
    requires radix == 10 || radix == 16
    ensures Value(Spell(n, radix), radix) == n
  {
    if n >= radix {
      ValueOfSpell(n / radix, radix);
      var front := Spell(n / radix, radix);
      assert Spell(n, radix) == front + [Digit(n % radix)];
      assert Spell(n, radix)[..|front|] == front;
    } else {
      assert Spell(n, radix)[..0] == "";
    }
  }

  /** Numbers of at most 16 bits take at most four hexadecimal digits, and octets at most three decimal ones. */
  lemma SpellLength(n: nat)
    ensures n < 0x1_0000 ==> |Spell(n, 16)| <= 4
    ensures n < 256 ==> |Spell(n, 10)| <= 3
  {
    assert n < 0x1_0000 ==> n / 16 < 0x1000 && n / 16 / 16 < 0x100 && n / 16 / 16 / 16 < 16;
    if n < 0x1_0000 && n >= 16 {
      if n / 16 >= 16 {
        if n / 16 / 16 >= 16 {
          assert |Spell(n / 16 / 16 / 16, 16)| == 1;
        }
        assert |Spell(n / 16 / 16, 16)| <= 2;
      }
      assert |Spell(n / 16, 16)| <= 3;
    }
    if n < 256 && n >= 10 {
      assert |Spell(n / 10, 10)| <= 2;
    }
  }
}
