/** Blocklist feeds of lib/blocklist.rs: from feed text to the published category map. */
module Blocklist {
  import opened Prelude
  import opened Texts
  import opened Categories

  datatype FeedFormat = Plain | Hosts | Adblock

  const NEWLINE: byte := 10
  const RETURN: byte := 13
  const SPACE: byte := 32
  const BANG: byte := 33
  const HASH: byte := 35
  const DOLLAR: byte := 36
  const HYPHEN: byte := 45
  const SLASH: byte := 47
  const AT_SIGN: byte := 64
  const BRACKET: byte := 91
  const CARET: byte := 94
  const UNDERSCORE: byte := 95
  const BAR: byte := 124

  /** ASCII without whitespace. */
  predicate IsGraphic(b: byte) {
    b < 0x80 && !(9 <= b <= 13) && b != SPACE
  }

  /**
   * How many bytes the whitespace character at the start of `s` takes in UTF-8, 0 when there is none:
   * the characters of Unicode's White_Space property, as `trim` and `split_whitespace` see them.
   */
  function SpaceAt(s: Text): (n: nat)
    ensures n <= |s|
  {
    if s == [] then 0
    else if 9 <= s[0] <= 13 || s[0] == SPACE then 1
    else if |s| >= 2 && s[0] == 0xC2 && s[1] in {0x85, 0xA0} then 2
    else if |s| >= 3 && s[0] == 0xE1 && s[1] == 0x9A && s[2] == 0x80 then 3
    else if |s| >= 3 && s[0] == 0xE2 && s[1] == 0x80 && (0x80 <= s[2] <= 0x8A || s[2] in {0xA8, 0xA9, 0xAF}) then 3
    else if |s| >= 3 && s[0] == 0xE2 && s[1] == 0x81 && s[2] == 0x9F then 3
    else if |s| >= 3 && s[0] == 0xE3 && s[1] == 0x80 && s[2] == 0x80 then 3
    else 0
  }

  /** The same for the whitespace character at the end of `s`. */
  function SpaceBefore(s: Text): (n: nat)
    ensures n <= |s|
  {
    if |s| >= 1 && SpaceAt(s[|s| - 1..]) == 1 then 1
    else if |s| >= 2 && SpaceAt(s[|s| - 2..]) == 2 then 2
    else if |s| >= 3 && SpaceAt(s[|s| - 3..]) == 3 then 3
    else 0
  }

  /** White space ends before a visible octet. */
  lemma SpaceStops(s: Text, k: nat)
    requires k < |s| && IsGraphic(s[k])
    ensures SpaceAt(s) <= k
  {
  }

  lemma GraphicEnds(s: Text)
    requires s != []
    ensures IsGraphic(s[0]) ==> SpaceAt(s) == 0
    ensures IsGraphic(s[|s| - 1]) ==> SpaceBefore(s) == 0
  {
    hide SpaceAt, IsGraphic;
    if IsGraphic(s[0]) {
      SpaceStops(s, 0);
    }
    if IsGraphic(s[|s| - 1]) {
      SpaceStops(s[|s| - 1..], 0);
      if |s| >= 2 {
        SpaceStops(s[|s| - 2..], 1);
      }
      if |s| >= 3 {
        SpaceStops(s[|s| - 3..], 2);
      }
    }
  }

  function TrimStart(s: Text): Text {
    if SpaceAt(s) > 0 then TrimStart(s[SpaceAt(s)..]) else s
  }

  function TrimEnd(s: Text): Text {
    if SpaceBefore(s) > 0 then TrimEnd(s[..|s| - SpaceBefore(s)]) else s
  }

  function Trim(s: Text): Text {
    TrimEnd(TrimStart(s))
  }

  /** The part of `s` before the first byte of `stops`, or all of it. */
  function Before(s: Text, stops: set<byte>): Text {
    if s == [] || s[0] in stops then [] else [s[0]] + Before(s[1..], stops)
  }

  /** `split_whitespace`: the maximal runs without whitespace. */
  function Tokens(s: Text): seq<Text>
    decreases |s|
  {
    if s == [] then []
    else if SpaceAt(s) > 0 then Tokens(s[SpaceAt(s)..])
    else
      var t := Token(s);
      [t] + Tokens(s[|t|..])
  }

  function Token(s: Text): (t: Text)
    ensures t <= s && (s != [] && SpaceAt(s) == 0 ==> t != [])
  {
    if s == [] || SpaceAt(s) > 0 then [] else [s[0]] + Token(s[1..])
  }

  /**
   * `lines`: split at newlines, without a final empty line, each ended line without the carriage
   * return before its newline.
   */
  function Lines(s: Text): seq<Text>
    decreases |s|
  {
    if s == [] then []
    else
      var line := Before(s, {NEWLINE});
      BeforePrefix(s, {NEWLINE});
      if |line| < |s| then [DropReturn(line)] + Lines(s[|line| + 1..]) else [line]
  }

  function DropReturn(line: Text): Text {
    if line != [] && line[|line| - 1] == RETURN then line[..|line| - 1] else line
  }

  lemma {:induction false} BeforePrefix(s: Text, stops: set<byte>)
    ensures Before(s, stops) <= s
    ensures forall i :: 0 <= i < |Before(s, stops)| ==> s[i] !in stops
    ensures |Before(s, stops)| < |s| ==> s[|Before(s, stops)|] in stops
  {
    if s != [] && s[0] !in stops {
      BeforePrefix(s[1..], stops);
    }
  }

  // ---------------------------------------------------------------- one domain

  predicate IsDomainByte(b: byte) {
    97 <= b <= 122 || 48 <= b <= 57 || b == DOT || b == HYPHEN || b == UNDERSCORE
  }

  predicate IsLetter(b: byte) {
    97 <= b <= 122 || 65 <= b <= 90
  }

  /** The checks a stripped token must pass. */
  predicate Acceptable(domain: Text) {
    && 0 < |domain| <= 253
    && (forall i :: 0 <= i < |domain| ==> IsDomainByte(domain[i]))
    && DOT in domain
    && exists i :: 0 <= i < |domain| && IsLetter(domain[i])
  }

  function Sanitized(token: Text): Option<Text> {
    var domain := TrimEndDots(StripStars(Lower(Trim(token))));
    if Acceptable(domain) then Some(domain) else None
  }

  method Sanitize(token: Text) returns (r: Option<Text>)
    ensures r == Sanitized(token)
  {
    var domain := Lower(Trim(token));
    while StarDot(domain)
      invariant StripStars(domain) == StripStars(Lower(Trim(token)))
      decreases |domain|
    {
      domain := domain[2..];
    }
    domain := TrimEndDots(domain);
    if Acceptable(domain) {
      return Some(domain);
    }
    return None;
  }

  /** The domains a feed can contribute. */
  predicate Usable(domain: Text) {
    Acceptable(domain) && domain[|domain| - 1] != DOT
  }

  lemma TrimNothing(s: Text)
    requires s != [] ==> IsGraphic(s[0]) && IsGraphic(s[|s| - 1])
    ensures Trim(s) == s
  {
    hide SpaceAt, SpaceBefore, IsGraphic;
    if s != [] {
      GraphicEnds(s);
    }
  }

  lemma DomainBytesStand(domain: Text)
    requires |domain| > 0 && forall i :: 0 <= i < |domain| ==> IsDomainByte(domain[i])
    ensures Trim(domain) == domain && Lower(domain) == domain && !StarDot(domain)
  {
    TrimNothing(domain);
    LowerFixed(domain);
  }

  /** What sanitizing accepts is usable and in the index's normal form, and sanitizing it again keeps it. */
  lemma SanitizedIsUsable(token: Text)
    ensures Sanitized(token).Some? ==> Usable(Sanitized(token).value)
  {
    TrimEndDotsFixed(StripStars(Lower(Trim(token))));
  }

  lemma UsableIsFixed(domain: Text)
    ensures Usable(domain) <==> Sanitized(domain) == Some(domain)
    ensures Usable(domain) ==> CanonicalKey(domain)
  {
    hide Trim, Lower;
    if Usable(domain) {
      DomainBytesStand(domain);
    }
    SanitizedIsUsable(domain);
  }

  // ---------------------------------------------------------------- lines and feeds

  function PlainDomains(line: Text): set<Text> {
    var t := Trim(line);
    if t == [] || t[0] == HASH then {} else AsSet(Sanitized(Trim(Before(t, {HASH}))))
  }

  function HostsDomains(line: Text): set<Text> {
    var t := Trim(line);
    if t == [] || t[0] == HASH then {}
    else
      var tokens := Tokens(t);
      if tokens == [] then {} else SanitizedAll(tokens[1..])
  }

  function AdblockDomains(line: Text): set<Text> {
    var t := Trim(line);
    if t == [] || t[0] == BANG || t[0] == BRACKET || [AT_SIGN, AT_SIGN] <= t then {}
    else if [BAR, BAR] <= t then AsSet(Sanitized(Before(t[2..], {CARET, DOLLAR, SLASH})))
    else {}
  }

  function AsSet(domain: Option<Text>): set<Text> {
    if domain.Some? then {domain.value} else {}
  }

  function SanitizedAll(tokens: seq<Text>): set<Text> {
    if tokens == [] then {} else AsSet(Sanitized(tokens[0])) + SanitizedAll(tokens[1..])
  }

  function LineDomains(format: FeedFormat, line: Text): set<Text> {
    match format
    case Plain => PlainDomains(line)
    case Hosts => HostsDomains(line)
    case Adblock => AdblockDomains(line)
  }

  function LinesDomains(format: FeedFormat, lines: seq<Text>): set<Text> {
    if lines == [] then {} else LineDomains(format, lines[0]) + LinesDomains(format, lines[1..])
  }

  method ParsePlainLine(line: Text, out: set<Text>) returns (r: set<Text>)
    ensures r == out + PlainDomains(line)
  {
    hide Sanitized;
    r := out;
    var t := Trim(line);
    if t == [] || t[0] == HASH {
      return;
    }
    var domain := Sanitize(Trim(Before(t, {HASH})));
    if domain.Some? {
      r := r + {domain.value};
    }
  }

  method ParseHostsLine(line: Text, out: set<Text>) returns (r: set<Text>)
    ensures r == out + HostsDomains(line)
  {
    hide Sanitized, Tokens;
    r := out;
    var t := Trim(line);
    if t == [] || t[0] == HASH {
      return;
    }
    var tokens := Tokens(t);
    var i := 1;
    while i < |tokens|
      invariant 1 <= i && (i <= |tokens| || tokens == [])
      invariant tokens != [] ==> r + SanitizedAll(tokens[i..]) == out + SanitizedAll(tokens[1..])
      invariant tokens == [] ==> r == out
      decreases |tokens| - i
    {
      var domain := Sanitize(tokens[i]);
      assert tokens[i..][1..] == tokens[i + 1..];
      if domain.Some? {
        r := r + {domain.value};
      }
      i := i + 1;
    }
  }

  method ParseAdblockLine(line: Text, out: set<Text>) returns (r: set<Text>)
    ensures r == out + AdblockDomains(line)
  {
    hide Sanitized;
    r := out;
    var t := Trim(line);
    if t == [] || t[0] == BANG || t[0] == BRACKET {
      return;
    }
    if [AT_SIGN, AT_SIGN] <= t {
      return;
    }
    if [BAR, BAR] <= t {
      var cut := Before(t[2..], {CARET, DOLLAR, SLASH});
      var domain := Sanitize(cut);
      if domain.Some? {
        r := r + {domain.value};
      }
    }
  }

  method ParseDomains(format: FeedFormat, text: Text) returns (r: set<Text>)
    ensures r == LinesDomains(format, Lines(text))
  {
    hide PlainDomains, HostsDomains, AdblockDomains, Lines;
    r := {};
    var lines := Lines(text);
    var i := 0;
    while i < |lines|
      invariant 0 <= i <= |lines|
      invariant r + LinesDomains(format, lines[i..]) == LinesDomains(format, lines)
    {
      assert lines[i..][1..] == lines[i + 1..];
      match format {
        case Plain => r := ParsePlainLine(lines[i], r);
        case Hosts => r := ParseHostsLine(lines[i], r);
        case Adblock => r := ParseAdblockLine(lines[i], r);
      }
      i := i + 1;
    }
  }

  lemma {:induction false} TokensUsable(tokens: seq<Text>)
    ensures forall d :: d in SanitizedAll(tokens) ==> Usable(d)
  {
    hide Sanitized, Usable;
    if tokens != [] {
      SanitizedIsUsable(tokens[0]);
      TokensUsable(tokens[1..]);
    }
  }

  lemma LineUsable(format: FeedFormat, line: Text)
    ensures forall d :: d in LineDomains(format, line) ==> Usable(d)
  {
    hide Sanitized, Usable, Trim, Before, Tokens;
    var t := Trim(line);
    SanitizedIsUsable(Trim(Before(t, {HASH})));
    if Tokens(t) != [] {
      TokensUsable(Tokens(t)[1..]);
    }
    if |t| >= 2 {
      SanitizedIsUsable(Before(t[2..], {CARET, DOLLAR, SLASH}));
    }
  }

  /** Every domain of a feed is usable, so a fixed point of sanitizing and a canonical index key. */
  lemma {:induction false} FeedUsable(format: FeedFormat, lines: seq<Text>)
    ensures forall d :: d in LinesDomains(format, lines) ==>
                          Usable(d) && Sanitized(d) == Some(d) && CanonicalKey(d)
  {
    hide Sanitized, Usable, LineDomains, CanonicalKey;
    if lines != [] {
      LineUsable(format, lines[0]);
      forall d | d in LineDomains(format, lines[0])
        ensures Usable(d) && Sanitized(d) == Some(d) && CanonicalKey(d)
      {
        UsableIsFixed(d);
      }
      FeedUsable(format, lines[1..]);
    }
  }

  lemma {:induction false} BeforeStop(s: Text, stop: byte, rest: Text, stops: set<byte>)
    requires stop in stops && forall i :: 0 <= i < |s| ==> s[i] !in stops
    ensures Before(s + [stop] + rest, stops) == s
  {
    var x := s + [stop] + rest;
    if s != [] {
      assert x[1..] == s[1..] + [stop] + rest;
      BeforeStop(s[1..], stop, rest, stops);
    }
  }

  lemma {:induction false} BeforeAll(s: Text, stops: set<byte>)
    requires forall i :: 0 <= i < |s| ==> s[i] !in stops
    ensures Before(s, stops) == s
  {
    if s != [] {
      BeforeAll(s[1..], stops);
    }
  }
}
