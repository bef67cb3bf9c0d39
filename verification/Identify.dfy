/**
 * The network a caller's address stands for: IPv4 as it is, IPv6 by its first 64 bits, and IPv4-mapped
 * IPv6 as the IPv4 address inside it.
 */
module Identify {
  import opened Options
  import opened Text

  const MAX_ADDRESS_LENGTH: nat := 64

  // ---- IPv4 ----

  predicate IsOctet(s: string) {
    && 1 <= |s| <= 3
    && (forall c :: c in s ==> '0' <= c <= '9')
    && (|s| > 1 ==> s[0] != '0')
    && Value(s, 10) <= 255
  }

  predicate IsIPv4(s: string) {
    var parts := Split(s, '.');
    |parts| == 4 && forall p :: p in parts ==> IsOctet(p)
  }

  predicate AreOctets(octets: seq<nat>) {
    |octets| == 4 && octets[0] <= 255 && octets[1] <= 255 && octets[2] <= 255 && octets[3] <= 255
  }

  function DottedText(octets: seq<nat>): string
    requires |octets| == 4
  {
    Join([Spell(octets[0], 10), Spell(octets[1], 10), Spell(octets[2], 10), Spell(octets[3], 10)], ".")
  }

  /** One octet shifted in, on 32 bits. */
  function ShiftedIn(value: nat, octet: nat): nat { (value * 256 + octet) % 0x1_0000_0000 }

  function OctetsToInt(parts: seq<string>, value: nat): nat {
    if parts == [] then value else OctetsToInt(parts[1..], ShiftedIn(value, Value(parts[0], 10)))
  }

  function IPv4ToInt(address: string): nat { OctetsToInt(Split(address, '.'), 0) }

  /** The /21 mask on a 32-bit number. */
  function Masked(address: nat): nat { address - address % 0x800 }

  /** On 32-bit words, shifting an octet in and masking with 0xfffff800 are the arithmetic of `ShiftedIn` and `Masked`. */
  lemma ShiftAndMaskAreArithmetic(value: bv32, octet: bv32)
    requires octet <= 255
    ensures (value << 8) | octet == value * 256 + octet
    ensures value & 0xfffff800 == value - value % 0x800
  {
  }

  // ---- IPv6 ----

  predicate GapAt(s: string, i: nat) { i + 1 < |s| && s[i] == ':' && s[i + 1] == ':' }

  /** The first "::" of the text. */
  function FindGap(s: string): (i: Option<nat>)
    ensures i == None ==> forall k :: 0 <= k < |s| ==> !GapAt(s, k)
    ensures i.Some? ==> GapAt(s, i.value) && forall k :: 0 <= k < i.value ==> !GapAt(s, k)
  {
    if |s| < 2 then None
    else if s[0] == ':' && s[1] == ':' then Some(0)
    else
      var rest := FindGap(s[1..]);
      assert forall k :: 0 < k < |s| ==> GapAt(s, k) == GapAt(s[1..], k - 1);
      if rest == None then None else Some(rest.value + 1)
  }

  function AfterLastColon(s: string): (i: nat)
    ensures i <= |s| && ':' !in s[i..] && (i > 0 ==> s[i - 1] == ':')
  {
    if s == "" then 0
    else if s[|s| - 1] == ':' then |s|
    else
      var i := AfterLastColon(s[..|s| - 1]);
      assert s[i..] == s[..|s| - 1][i..] + [s[|s| - 1]];
      i
  }

  /** A dotted tail rewritten as two hexadecimal groups. */
  function Undotted(address: string): string {
    var at := AfterLastColon(address);
    if IsIPv4(address[at..]) then
      var value := IPv4ToInt(address[at..]);
      address[..at] + Spell(value / 0x1_0000, 16) + ":" + Spell(value % 0x1_0000, 16)
    else address
  }

  function Groups(part: string): seq<nat> {
    if part == "" then []
    else
      var parts := Split(part, ':');
      seq(|parts|, i requires 0 <= i < |parts| => Value(parts[i], 16))
  }

  function Zeros(n: nat): seq<nat> { seq(n, _ => 0) }

  function ExpandIPv6(address: string): Option<seq<nat>> { ExpandGroups(Undotted(address)) }

  /** The eight groups of a text of hexadecimal groups, its gap filled with zeros. */
  function ExpandGroups(text: string): Option<seq<nat>> {
    var gap := FindGap(text);
    if gap == None then
      var front := Groups(text);
      if |front| == 8 then Some(front) else None
    else
      var rest := text[gap.value + 2..];
      if FindGap(rest).Some? then None else Filled(Groups(text[..gap.value]), Groups(rest))
  }

  function Filled(front: seq<nat>, back: seq<nat>): Option<seq<nat>> {
    if |front| + |back| > 7 then None else Some(front + Zeros(8 - |front| - |back|) + back)
  }

  /**
   * One way of writing an IPv6 address: groups of one to four hexadecimal digits, at most one gap
   * for a run of zero groups, and optionally the last 32 bits as four decimal octets (section 2.2 of
   * RFC 4291).
   */
  datatype Spelling = Spelling(front: seq<string>, gap: bool, back: seq<string>, octets: seq<nat>)

  predicate IsGroup(s: string) { 1 <= |s| <= 4 && forall c :: c in s ==> IsDigit(c, 16) }

  predicate Valid(sp: Spelling) {
    && (forall g :: g in sp.front ==> IsGroup(g)) && (forall g :: g in sp.back ==> IsGroup(g))
    && (sp.octets == [] || AreOctets(sp.octets))
    && var groups := |sp.front| + |sp.back| + |sp.octets| / 2;
    if sp.gap then groups <= 7 else groups == 8 && sp.back == []
  }

  function DottedPart(sp: Spelling): seq<string>
    requires Valid(sp)
  {
    if sp.octets == [] then [] else [DottedText(sp.octets)]
  }

  function TextOf(sp: Spelling): string
    requires Valid(sp)
  {
    if sp.gap then Join(sp.front, ":") + "::" + Join(sp.back + DottedPart(sp), ":")
    else Join(sp.front + DottedPart(sp), ":")
  }

  function Values(groups: seq<string>): seq<nat> {
    seq(|groups|, i requires 0 <= i < |groups| => Value(groups[i], 16))
  }

  function OctetGroups(octets: seq<nat>): seq<nat> {
    if |octets| != 4 then [] else [octets[0] * 256 + octets[1], octets[2] * 256 + octets[3]]
  }

  /** The eight 16-bit groups a spelling stands for. */
  function AddressOf(sp: Spelling): (groups: seq<nat>)
    requires Valid(sp)
    ensures |groups| == 8
  {
    var low := Values(sp.back) + OctetGroups(sp.octets);
    Values(sp.front) + Zeros(8 - |sp.front| - |low|) + low
  }

  ghost predicate IsIPv6(s: string) { exists sp :: Valid(sp) && TextOf(sp) == s }

  // ---- the network ----

  /** The bounded address without its zone. */
  function Cleaned(address: string): string {
    var text := Lower(Trim(address));
    var bounded := if |text| > MAX_ADDRESS_LENGTH then text[..MAX_ADDRESS_LENGTH] else text;
    bounded[..IndexOf(bounded, '%')]
  }

  predicate IsMapped(groups: seq<nat>)
    requires |groups| == 8
  {
    groups[..5] == [0, 0, 0, 0, 0] && groups[5] == 0xffff
  }

  function MappedOctets(groups: seq<nat>): seq<nat>
    requires |groups| == 8
  {
    [groups[6] / 256, groups[6] % 256, groups[7] / 256, groups[7] % 256]
  }

  function SpelledGroups(groups: seq<nat>): seq<string> {
    seq(|groups|, i requires 0 <= i < |groups| => Spell(groups[i], 16))
  }

  function NetworkText(groups: seq<nat>): string
    requires |groups| == 8
  {
    if IsMapped(groups) then DottedText(MappedOctets(groups))
    else Join(SpelledGroups(groups[..4]), ":") + "::/64"
  }

  ghost function NetworkOf(address: string): string {
    var cleaned := Cleaned(address);
    if IsIPv4(cleaned) || !IsIPv6(cleaned) || ExpandIPv6(cleaned) == None || |ExpandIPv6(cleaned).value| != 8 then cleaned
    else NetworkText(ExpandIPv6(cleaned).value)
  }

  /** The pool's range starts at 160.79.104.0. */
  const POOL_FIRST: seq<nat> := [160, 79, 104, 0]

  const POOL_BASE: nat := IPv4ToInt(DottedText(POOL_FIRST))

  ghost predicate IsClaudeAiPool(address: string) {
    IsIPv4(NetworkOf(address)) && Masked(IPv4ToInt(NetworkOf(address))) == POOL_BASE
  }
}
