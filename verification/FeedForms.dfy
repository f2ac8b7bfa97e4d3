/**
 * What the lines of a blocklist feed may look like, spelled out: the spellings of a domain, comments, options
 * and words; and that lib/blocklist.rs takes from each line just the domains it spells.
 */
module FeedForms {
  import opened Prelude
  import opened Texts
  import opened Blocklist
  import opened Blanks

  // ---------------------------------------------------------------- one domain

  const DIGITS := "0123456789"
  const MARKS := ".-_"

  predicate Among(b: byte, chars: string) {
    exists i :: 0 <= i < |chars| && chars[i] as int == b
  }

  /** Lower-case letters, digits, dots, hyphens and underscores, as many as a name can have: a dot and a letter, too. */
  predicate Listable(d: Text) {
    && 0 < |d| <= 253
    && (forall i :: 0 <= i < |d| ==> Among(d[i], LOWER) || Among(d[i], DIGITS) || Among(d[i], MARKS))
    && (exists i :: 0 <= i < |d| && d[i] == '.' as int)
    && (exists i :: 0 <= i < |d| && Among(d[i], LOWER))
    && d[|d| - 1] != '.' as int
  }

  lemma LowerLetters(b: byte)
    ensures Among(b, LOWER) <==> 97 <= b <= 122
  {
    forall i | 0 <= i < 26
      ensures LOWER[i] as int == 97 + i
    {
      Alphabet(i);
    }
    if 97 <= b <= 122 {
      assert LOWER[b - 97] as int == b;
    }
  }

  lemma DigitsAndMarks(b: byte)
    ensures Among(b, DIGITS) <==> 48 <= b <= 57
    ensures Among(b, MARKS) <==> b == 45 || b == 46 || b == 95
  {
    forall i | 0 <= i < 10
      ensures DIGITS[i] as int == 48 + i
    {
    }
    if 48 <= b <= 57 {
      assert DIGITS[b - 48] as int == b;
    }
    assert MARKS[0] as int == 46 && MARKS[1] as int == 45 && MARKS[2] as int == 95;
  }

  lemma ListableIsUsable(d: Text)
    ensures Listable(d) <==> Usable(d)
  {
    hide Among;
    forall i | 0 <= i < |d|
      ensures IsDomainByte(d[i]) <==> Among(d[i], LOWER) || Among(d[i], DIGITS) || Among(d[i], MARKS)
      ensures IsDomainByte(d[i]) ==> (IsLetter(d[i]) <==> Among(d[i], LOWER))
    {
      LowerLetters(d[i]);
      DigitsAndMarks(d[i]);
    }
    assert DOT in d <==> exists i :: 0 <= i < |d| && d[i] == '.' as int;
  }

  function Stars(k: nat): Text {
    if k == 0 then [] else ['*' as int, '.' as int] + Stars(k - 1)
  }

  function Dots(n: nat): Text {
    if n == 0 then [] else ['.' as int] + Dots(n - 1)
  }

  /** A domain in any letter case, behind any number of `*.`s, before any number of dots, between blanks. */
  ghost predicate Spelling(token: Text, d: Text) {
    exists a, k: nat, x, n: nat, b ::
      Blank(a) && Blank(b) && TextLowersTo(x, d) && token == a + (Stars(k) + x + Dots(n)) + b
  }

  lemma {:induction false} StarsStripped(k: nat, t: Text)
    requires !StarDot(t)
    ensures StripStars(Stars(k) + t) == t
  {
    if k == 0 {
      assert Stars(k) + t == t;
    } else {
      StarsStripped(k - 1, t);
      assert (Stars(k) + t)[2..] == Stars(k - 1) + t;
    }
  }

  lemma {:induction false} DotsShape(n: nat)
    ensures |Dots(n)| == n && forall i :: 0 <= i < n ==> Dots(n)[i] == '.' as int
  {
    if n > 0 {
      DotsShape(n - 1);
    }
  }

  lemma {:induction false} StarsShape(k: nat)
    ensures |Stars(k)| == 2 * k
    ensures forall i :: 0 <= i < 2 * k ==> Stars(k)[i] == if i % 2 == 0 then '*' as int else '.' as int
  {
    if k > 0 {
      StarsShape(k - 1);
    }
  }

  lemma {:induction false} DotsTrimmed(t: Text, n: nat)
    requires t == [] || t[|t| - 1] != DOT
    ensures TrimEndDots(t + Dots(n)) == t
  {
    DotsShape(n);
    if n == 0 {
      assert t + Dots(n) == t;
    } else {
      DotsShape(n - 1);
      DotsTrimmed(t, n - 1);
      assert (t + Dots(n))[..|t| + n - 1] == t + Dots(n - 1);
    }
  }

  /** A spelling between its blanks starts and ends visibly, and folds to its domain. */
  lemma SpelledCore(k: nat, x: Text, n: nat, d: Text)
    requires TextLowersTo(x, d) && Usable(d)
    ensures var t := Stars(k) + x + Dots(n);
            && t != [] && IsGraphic(t[0]) && IsGraphic(t[|t| - 1])
            && TrimEndDots(StripStars(Lower(t))) == d
  {
    hide LowersTo, Acceptable, StarDot, IsGraphic;
    LowerIsTable(x, d);
    StarsShape(k);
    DotsShape(n);
    var t := Stars(k) + x + Dots(n);
    SpelledOctets(x, d);
    SpelledLower(k, x, n, d);
    assert Lower(t) == Stars(k) + (d + Dots(n));
    UsableStart(d, Dots(n));
    StarsStripped(k, d + Dots(n));
    DotsTrimmed(d, n);
    StarAndDotShow();
  }

  lemma StarAndDotShow()
    ensures IsGraphic('*' as int) && IsGraphic('.' as int)
  {
  }

  lemma SpelledOctets(x: Text, d: Text)
    requires d == Lower(x) && Usable(d)
    ensures |x| == |d| > 0 && IsGraphic(x[0]) && IsGraphic(x[|x| - 1])
  {
    assert |d| == |x| && d[0] == LowerByte(x[0]) && d[|d| - 1] == LowerByte(x[|x| - 1]);
    assert IsDomainByte(d[0]) && IsDomainByte(d[|d| - 1]);
  }

  lemma SpelledLower(k: nat, x: Text, n: nat, d: Text)
    requires d == Lower(x)
    ensures Lower(Stars(k) + x + Dots(n)) == Stars(k) + (d + Dots(n))
  {
    StarsShape(k);
    DotsShape(n);
  }

  lemma UsableStart(d: Text, rest: Text)
    requires Usable(d)
    ensures !StarDot(d + rest)
  {
    assert IsDomainByte(d[0]) && (d + rest)[0] == d[0];
  }

  /** Sanitizing accepts exactly the spellings of listable domains, and gives back the domain. */
  lemma SanitizedExact(token: Text, d: Text)
    ensures Sanitized(token) == Some(d) <==> Listable(d) && Spelling(token, d)
  {
    hide Listable, Spelling, Sanitized;
    ListableIsUsable(d);
    if Sanitized(token) == Some(d) {
      SanitizedIsUsable(token);
      SanitizedSpelled(token, d);
    }
    if Usable(d) && Spelling(token, d) {
      SpelledSanitized(token, d);
    }
  }

  lemma SpelledSanitized(token: Text, d: Text)
    requires Usable(d) && Spelling(token, d)
    ensures Sanitized(token) == Some(d)
  {
    hide Trim, TrimEndDots, StripStars, Lower, Blank, TextLowersTo, Stars, Dots, IsGraphic;
    var a, k: nat, x, n: nat, b :|
      Blank(a) && Blank(b) && TextLowersTo(x, d) && token == a + (Stars(k) + x + Dots(n)) + b;
    SpelledCore(k, x, n, d);
    TrimBetween(a, Stars(k) + x + Dots(n), b);
  }

  lemma SanitizedSpelled(token: Text, d: Text)
    requires Sanitized(token) == Some(d)
    ensures Spelling(token, d)
  {
    hide Trim, TrimEndDots, StripStars, Lower, Blank, TextLowersTo, Stars, Dots, Acceptable;
    var a, b := TrimTakes(token);
    var k, x, n := CoreSpelled(Trim(token), d);
    assert token == a + (Stars(k) + x + Dots(n)) + b;
  }

  lemma CoreSpelled(t: Text, d: Text) returns (k: nat, x: Text, n: nat)
    requires d == TrimEndDots(StripStars(Lower(t)))
    ensures t == Stars(k) + x + Dots(n) && TextLowersTo(x, d)
  {
    hide TrimEndDots, StripStars, TextLowersTo, Stars, Dots, Lower;
    var rest;
    k, rest := StarsSpelled(t);
    n, x := DotsSpelled(rest);
    LowerIsTable(x, d);
  }

  lemma {:induction false} StarsSpelled(t: Text) returns (k: nat, rest: Text)
    ensures t == Stars(k) + rest && StripStars(Lower(t)) == Lower(rest)
    decreases |t|
  {
    k, rest := 0, t;
    assert Stars(0) + t == t;
    if StarDot(Lower(t)) {
      assert t == ['*' as int, '.' as int] + t[2..] && Lower(t)[2..] == Lower(t[2..]);
      k, rest := StarsSpelled(t[2..]);
      k := k + 1;
    }
  }

  lemma {:induction false} DotsSpelled(t: Text) returns (n: nat, x: Text)
    ensures t == x + Dots(n) && TrimEndDots(Lower(t)) == Lower(x)
    decreases |t|
  {
    n, x := 0, t;
    assert t + Dots(0) == t;
    if t != [] && Lower(t)[|t| - 1] == DOT {
      var init := t[..|t| - 1];
      assert t == init + ['.' as int] && Lower(t)[..|t| - 1] == Lower(init);
      n, x := DotsSpelled(init);
      DotsSnoc(n);
      n := n + 1;
    }
  }

  lemma {:induction false} DotsSnoc(n: nat)
    ensures Dots(n + 1) == Dots(n) + ['.' as int]
  {
    if n > 0 {
      DotsSnoc(n - 1);
    }
  }

  lemma SanitizedAround(a: Text, t: Text, b: Text)
    requires Blank(a) && Blank(b)
    ensures Sanitized(a + t + b) == Sanitized(t)
  {
    hide Trim, Blank, Acceptable, Lower, StripStars, TrimEndDots;
    TrimAround(a, t, b);
  }

  lemma TrimmedSame(s: Text)
    ensures Sanitized(Trim(s)) == Sanitized(s) == Sanitized(TrimStart(s)) == Sanitized(TrimEnd(s))
  {
    hide Sanitized, Trim, Blank, TrimStart, TrimEnd;
    NoBlank();
    var a, b := TrimTakes(s);
    SanitizedAround(a, Trim(s), b);
    var c := TrimStartTakes(s);
    SanitizedAround(c, TrimStart(s), []);
    assert c + TrimStart(s) + [] == s;
    var e := TrimEndTakes(s);
    SanitizedAround([], TrimEnd(s), e);
    assert [] + TrimEnd(s) + e == s;
  }

  // ---------------------------------------------------------------- plain lines

  /** A plain line lists the domain spelled before its first `#`, comments and blanks aside. */
  lemma PlainExact(head: Text, tail: Text, d: Text)
    requires '#' as int !in head && (tail == [] || tail[0] == '#' as int)
    ensures d in PlainDomains(head + tail) <==> Listable(d) && Spelling(head, d)
  {
    hide Trim, TrimStart, Sanitized, Listable, Spelling, Before;
    SanitizedExact(head, d);
    TrimmedSame(head);
    NothingSanitized();
    if tail == [] {
      assert head + tail == head;
      WholeLine(head);
      TrimmedSame(Trim(head));
    } else {
      CommentCut(head, tail);
      TrimmedSame(TrimStart(head));
    }
  }

  lemma NothingSanitized()
    ensures Sanitized([]) == None
  {
    NoBlank();
    AllBlank([]);
  }

  lemma WholeLine(head: Text)
    requires '#' as int !in head
    ensures '#' as int !in Trim(head) && Before(Trim(head), {HASH}) == Trim(head)
  {
    hide Trim, Blank;
    var a, b := TrimTakes(head);
    assert forall i :: 0 <= i < |Trim(head)| ==> Trim(head)[i] == head[|a| + i];
    BeforeAll(Trim(head), {HASH});
  }

  lemma CommentCut(head: Text, tail: Text)
    requires '#' as int !in head && tail != [] && tail[0] == '#' as int
    ensures var t := Trim(head + tail);
            t != [] && (t[0] == HASH <==> TrimStart(head) == []) && Before(t, {HASH}) == TrimStart(head)
  {
    hide TrimStart, TrimEnd, Blank, SpaceAt;
    TrimStartCut(head, tail);
    var h := TrimStart(head);
    var a := TrimStartTakes(head);
    assert forall i :: 0 <= i < |h| ==> h[i] == head[|a| + i];
    assert h + tail == (h + [HASH]) + tail[1..];
    TrimEndKeeps(h + [HASH], tail[1..]);
    BeforeStop(h, HASH, TrimEnd(tail[1..]), {HASH});
  }

  // ---------------------------------------------------------------- adblock lines

  /** An adblock line lists the domain spelled between its `||` and the first `^`, `$` or `/`, if any. */
  lemma AdblockExact(a: Text, head: Text, tail: Text, d: Text)
    requires Blank(a) && '^' as int !in head && '$' as int !in head && '/' as int !in head
    requires tail == [] || tail[0] == '^' as int || tail[0] == '$' as int || tail[0] == '/' as int
    ensures d in AdblockDomains(a + ['|' as int, '|' as int] + head + tail) <==> Listable(d) && Spelling(head, d)
  {
    hide Trim, Sanitized, Listable, Spelling, Before, Blank, TrimEnd;
    var bars: Text := ['|' as int, '|' as int];
    var y := bars + (head + tail);
    assert a + bars + head + tail == a + y;
    AdblockTrimmed(a, y);
    TrimEndKeeps(bars, head + tail);
    SanitizedExact(head, d);
    TrimmedSame(head);
    AdblockCut(head, tail);
    assert Trim(a + y)[2..] == TrimEnd(head + tail);
  }

  lemma AdblockTrimmed(a: Text, y: Text)
    requires Blank(a) && SpaceAt(y) == 0
    ensures Trim(a + y) == TrimEnd(y) <= y
  {
    hide TrimStart, TrimEnd, Blank, SpaceAt;
    TrimStartBlank(a, y);
    TrimEndEnds(y);
  }

  lemma AdblockCut(head: Text, tail: Text)
    requires '^' as int !in head && '$' as int !in head && '/' as int !in head
    requires tail == [] || tail[0] == '^' as int || tail[0] == '$' as int || tail[0] == '/' as int
    ensures Before(TrimEnd(head + tail), {CARET, DOLLAR, SLASH}) == if tail == [] then TrimEnd(head) else head
  {
    hide TrimEnd;
    if tail == [] {
      assert head + tail == head;
      TrimEndEnds(head);
      BeforeAll(TrimEnd(head), {CARET, DOLLAR, SLASH});
    } else {
      assert head + tail == (head + [tail[0]]) + tail[1..];
      TrimEndKeeps(head + [tail[0]], tail[1..]);
      BeforeStop(head, tail[0], TrimEnd(tail[1..]), {CARET, DOLLAR, SLASH});
    }
  }

  /** Every other line, exceptions and comments included, lists nothing. */
  lemma AdblockOther(a: Text, y: Text)
    requires Blank(a) && SpaceAt(y) == 0 && !(['|' as int, '|' as int] <= y)
    ensures AdblockDomains(a + y) == {}
  {
    hide Trim, TrimEnd, Blank, SpaceAt, Sanitized;
    AdblockTrimmed(a, y);
    var t := Trim(a + y);
    assert |t| >= 2 ==> t[0] == y[0] && t[1] == y[1];
  }

  // ---------------------------------------------------------------- hosts lines

  /** Words, each behind its gap. */
  function Spaced(gaps: seq<Text>, words: seq<Text>): Text
    requires |gaps| == |words|
  {
    if words == [] then [] else gaps[0] + words[0] + Spaced(gaps[1..], words[1..])
  }

  /** Words with white space before them, and between any two. */
  ghost predicate Words(gaps: seq<Text>, words: seq<Text>) {
    && |gaps| == |words|
    && (forall i :: 0 <= i < |gaps| ==> Blank(gaps[i]) && (i > 0 ==> gaps[i] != []))
    && forall i :: 0 <= i < |words| ==> Word(words[i])
  }

  lemma {:induction false} BlankSkipped(g: Text, s: Text)
    requires Blank(g)
    ensures Tokens(g + s) == Tokens(s)
    decreases |g|
  {
    hide SpaceAt, IsSpace, Token;
    if g == [] {
      assert g + s == s;
    } else {
      var n :| 0 < n <= |g| && IsSpace(g[..n]) && Blank(g[n..]);
      SpaceFacts(g[..n]);
      assert g + s == g[..n] + (g[n..] + s) && (g + s)[n..] == g[n..] + s;
      BlankSkipped(g[n..], s);
    }
  }

  /** Characters, none of them white space. */
  predicate Word(w: Text) {
    w != [] && !(0x80 <= w[0] < 0xC0) && Solid(w)
  }

  predicate Solid(w: Text) {
    forall i :: 0 <= i < |w| ==> SpaceAt(w[i..]) == 0
  }

  lemma SolidHead(w: Text, r: Text)
    requires Solid(w) && w != [] && (r == [] || SpaceAt(r) > 0)
    ensures SpaceAt(w + r) == 0 && Solid(w[1..])
  {
    hide SpaceAt;
    assert w[0..] == w;
    assert forall i :: 0 <= i < |w| - 1 ==> w[1..][i..] == w[i + 1..];
    if r == [] {
      assert w + r == w;
    } else {
      SpaceStarts(r);
      NothingCompleted(w, r);
    }
  }

  lemma {:induction false} TokenBefore(w: Text, r: Text)
    requires Solid(w)
    requires r == [] || SpaceAt(r) > 0
    ensures Token(w + r) == w
  {
    hide SpaceAt, Solid;
    if w == [] {
      assert w + r == r;
    } else {
      SolidHead(w, r);
      TokenBefore(w[1..], r);
      assert (w + r)[1..] == w[1..] + r;
    }
  }

  lemma WordTaken(w: Text, r: Text)
    requires Word(w)
    requires r == [] || SpaceAt(r) > 0
    ensures Tokens(w + r) == [w] + Tokens(r)
  {
    hide SpaceAt, Solid, Token;
    SolidHead(w, r);
    TokenBefore(w, r);
    assert (w + r)[|w|..] == r;
  }

  /** White space is not met from behind a word, nor across its start. */
  lemma WordLast(x: Text, w: Text)
    requires Word(w)
    ensures SpaceBefore(x + w) == 0
  {
    hide SpaceAt, SpaceBefore, EndsInSpace;
    SpaceBeforeEnds(x + w);
    NotInWord(x, w, 1);
    NotInWord(x, w, 2);
    NotInWord(x, w, 3);
  }

  lemma NotInWord(x: Text, w: Text, n: nat)
    requires Word(w) && n > 0
    ensures !EndsInSpace(x + w, n)
  {
    hide SpaceAt, IsSpace;
    var s := x + w;
    if n <= |s| {
      var c := s[|s| - n..];
      if n <= |w| {
        assert c == w[|w| - n..];
      } else {
        assert c[n - |w|] == w[0];
        if SpaceAt(c) == n {
          GoesOn(c);
        }
      }
    }
  }

  /** Every octet of a space but its first goes on a character. */
  lemma GoesOn(c: Text)
    requires SpaceAt(c) == |c| > 0
    ensures forall i :: 0 < i < |c| ==> 0x80 <= c[i] < 0xC0
  {
  }

  lemma GapStarts(g: Text, s: Text)
    requires Blank(g) && g != []
    ensures SpaceAt(g + s) > 0
  {
    hide SpaceAt, IsSpace;
    var n :| 0 < n <= |g| && IsSpace(g[..n]) && Blank(g[n..]);
    SpaceFacts(g[..n]);
    assert g + s == g[..n] + (g[n..] + s);
  }

  lemma {:induction false} SpacedTokens(gaps: seq<Text>, words: seq<Text>)
    requires Words(gaps, words)
    ensures Tokens(Spaced(gaps, words)) == words
    decreases |words|
  {
    hide Tokens, Word, Blank, SpaceAt;
    NoTokens();
    if words != [] {
      var rest := Spaced(gaps[1..], words[1..]);
      SpacedTokens(gaps[1..], words[1..]);
      assert gaps[0] + words[0] + rest == gaps[0] + (words[0] + rest);
      BlankSkipped(gaps[0], words[0] + rest);
      if |words| > 1 {
        var after := words[1] + Spaced(gaps[2..], words[2..]);
        assert gaps[1..][1..] == gaps[2..] && words[1..][1..] == words[2..];
        assert rest == gaps[1] + after;
        GapStarts(gaps[1], after);
      }
      WordTaken(words[0], rest);
      assert words == [words[0]] + words[1..];
    }
  }

  lemma NoTokens()
    ensures Tokens([]) == []
  {
  }

  lemma {:induction false} SpacedLast(gaps: seq<Text>, words: seq<Text>)
    requires Words(gaps, words) && words != []
    ensures Spaced(gaps, words) != [] && SpaceBefore(Spaced(gaps, words)) == 0
    decreases |words|
  {
    hide Word, Blank, SpaceBefore;
    var n := |words| - 1;
    var x := SpacedInit(gaps, words);
    WordLast(x, words[n]);
    WordNotEmpty(words[n]);
  }

  lemma WordNotEmpty(w: Text)
    requires Word(w)
    ensures w != []
  {
  }

  lemma {:induction false} SpacedInit(gaps: seq<Text>, words: seq<Text>) returns (x: Text)
    requires |gaps| == |words| > 0
    ensures Spaced(gaps, words) == x + words[|words| - 1]
    decreases |words|
  {
    x := gaps[0];
    if |words| > 1 {
      var y := SpacedInit(gaps[1..], words[1..]);
      x := gaps[0] + words[0] + y;
    } else {
      assert Spaced(gaps, words) == gaps[0] + words[0] + [];
    }
  }

  lemma {:induction false} AllMembers(tokens: seq<Text>, d: Text)
    ensures d in SanitizedAll(tokens) <==> exists i :: 0 <= i < |tokens| && Sanitized(tokens[i]) == Some(d)
  {
    hide Sanitized;
    if tokens != [] {
      AllMembers(tokens[1..], d);
      assert forall i :: 0 <= i < |tokens| - 1 ==> tokens[1..][i] == tokens[i + 1];
    }
  }

  /**
   * A hosts line lists the domains its words spell, all but the first; there is no comment but a whole line,
   * so the words of a comment behind the hosts are listed too.
   */
  lemma HostsExact(gaps: seq<Text>, words: seq<Text>, b: Text, d: Text)
    requires Words(gaps, words) && words != [] && Blank(b)
    ensures d in HostsDomains(Spaced(gaps, words) + b) <==>
            && words[0][0] != '#' as int
            && exists i :: 1 <= i < |words| && Listable(d) && Spelling(words[i], d)
  {
    hide Trim, Tokens, Sanitized, Listable, Spelling, Solid, Blank;
    HostsTrimmed(gaps, words, b);
    AllMembers(words[1..], d);
    forall i | 1 <= i < |words|
      ensures Sanitized(words[1..][i - 1]) == Some(d) <==> Listable(d) && Spelling(words[i], d)
    {
      SanitizedExact(words[i], d);
    }
    if exists i :: 1 <= i < |words| && Listable(d) && Spelling(words[i], d) {
      var i :| 1 <= i < |words| && Listable(d) && Spelling(words[i], d);
      assert Sanitized(words[1..][i - 1]) == Some(d);
    }
  }

  lemma FirstWordShows(gaps: seq<Text>, words: seq<Text>)
    requires Words(gaps, words) && words != []
    ensures SpaceAt(words[0] + Spaced(gaps[1..], words[1..])) == 0
  {
    hide Solid, Blank, SpaceAt;
    var rest := Spaced(gaps[1..], words[1..]);
    if |words| > 1 {
      var after := words[1] + Spaced(gaps[2..], words[2..]);
      assert gaps[1..][1..] == gaps[2..] && words[1..][1..] == words[2..];
      assert rest == gaps[1] + after;
      GapStarts(gaps[1], after);
    }
    SolidHead(words[0], rest);
  }

  lemma HostsTrimmed(gaps: seq<Text>, words: seq<Text>, b: Text)
    requires Words(gaps, words) && words != [] && Blank(b)
    ensures var t := Trim(Spaced(gaps, words) + b);
            t != [] && t[0] == words[0][0] && Tokens(t) == words
  {
    hide TrimStart, TrimEnd, Tokens, Solid, Blank, SpaceAt, SpaceBefore;
    var bare := [[]] + gaps[1..];
    NoBlank();
    SpacedTokens(bare, words);
    SpacedLast(bare, words);
    assert bare[1..] == gaps[1..];
    var t := Spaced(bare, words);
    assert t == words[0] + Spaced(gaps[1..], words[1..]);
    assert Spaced(gaps, words) + b == gaps[0] + t + b;
    assert t[0] == words[0][0];
    FirstWordShows(gaps, words);
    NoSpaceMade(t, b);
    assert gaps[0] + t + b == gaps[0] + (t + b);
    TrimStartBlank(gaps[0], t + b);
    TrimEndBlank(t, b);
  }

  // ---------------------------------------------------------------- feeds

  /** Lines end in a newline, with or without a carriage return before it; the last need not end. */
  lemma LineEnds(line: Text, rest: Text)
    requires '\n' as int !in line
    ensures Lines(line + [13, 10] + rest) == [line] + Lines(rest)
    ensures line == [] || line[|line| - 1] != 13 ==> Lines(line + [10] + rest) == [line] + Lines(rest)
    ensures line != [] ==> Lines(line) == [line]
    ensures Lines([]) == []
  {
    hide Before;
    var ended: Text := line + [13];
    assert line + [13, 10] + rest == ended + [NEWLINE] + rest;
    LineTaken(ended, rest);
    LineTaken(line, rest);
    BeforeAll(line, {NEWLINE});
  }

  lemma LineTaken(line: Text, rest: Text)
    requires '\n' as int !in line
    ensures Lines(line + [NEWLINE] + rest) == [DropReturn(line)] + Lines(rest)
  {
    hide Before;
    BeforeStop(line, NEWLINE, rest, {NEWLINE});
    assert (line + [NEWLINE] + rest)[|line| + 1..] == rest;
  }

  /** A feed lists what some line of it lists. */
  lemma {:induction false} FeedMembers(format: FeedFormat, lines: seq<Text>, d: Text)
    ensures format == Plain ==>
              (d in LinesDomains(format, lines) <==> exists i :: 0 <= i < |lines| && d in PlainDomains(lines[i]))
    ensures format == Hosts ==>
              (d in LinesDomains(format, lines) <==> exists i :: 0 <= i < |lines| && d in HostsDomains(lines[i]))
    ensures format == Adblock ==>
              (d in LinesDomains(format, lines) <==> exists i :: 0 <= i < |lines| && d in AdblockDomains(lines[i]))
  {
    hide PlainDomains, HostsDomains, AdblockDomains;
    if lines != [] {
      FeedMembers(format, lines[1..], d);
      assert forall i :: 0 <= i < |lines| - 1 ==> lines[1..][i] == lines[i + 1];
    }
  }

  // ---------------------------------------------------------------- printing a feed and parsing it

  const NULL_IP: Text := [48, DOT, 48, DOT, 48, DOT, 48]

  /** How a feed of each format lists a domain. */
  function LineFor(format: FeedFormat, domain: Text): Text {
    match format
    case Plain => [STAR, DOT] + domain
    case Hosts => NULL_IP + [SPACE] + domain
    case Adblock => [BAR, BAR] + domain + [CARET]
  }

  function FeedText(format: FeedFormat, domains: seq<Text>): Text {
    if domains == [] then [] else LineFor(format, domains[0]) + [NEWLINE] + FeedText(format, domains[1..])
  }

  lemma SpelledAs(k: nat, domain: Text)
    requires Usable(domain)
    ensures Spelling(Stars(k) + domain, domain)
  {
    hide Blank, Stars, TextLowersTo;
    NoBlank();
    DomainBytesStand(domain);
    LowerIsTable(domain, domain);
    assert Dots(0) == [];
    assert Stars(k) + domain == [] + (Stars(k) + domain + Dots(0)) + [];
  }

  lemma OneSpelling(token: Text, domain: Text, d: Text)
    requires Usable(domain) && Spelling(token, domain)
    ensures Listable(d) && Spelling(token, d) <==> d == domain
  {
    hide Listable, Usable, Spelling, Sanitized;
    ListableIsUsable(domain);
    SanitizedExact(token, domain);
    SanitizedExact(token, d);
  }

  lemma DomainIsWord(domain: Text)
    requires Usable(domain)
    ensures Word(domain) && '#' as int !in domain
    ensures '^' as int !in domain && '$' as int !in domain && '/' as int !in domain
  {
    hide SpaceAt;
    assert domain[0] < 0x80;
    GraphicWord(domain);
  }

  lemma GraphicWord(w: Text)
    requires w != [] && forall i :: 0 <= i < |w| ==> IsGraphic(w[i])
    ensures Word(w)
  {
    hide SpaceAt;
    forall i | 0 <= i < |w|
      ensures SpaceAt(w[i..]) == 0
    {
      SpaceStops(w[i..], 0);
    }
  }

  lemma ListedPlain(domain: Text, d: Text)
    requires Usable(domain)
    ensures d in PlainDomains(LineFor(Plain, domain)) <==> d == domain
  {
    hide PlainDomains, Listable, Spelling, Usable, Word;
    var line := LineFor(Plain, domain);
    DomainIsWord(domain);
    SpelledAs(1, domain);
    assert Stars(1) == ['*' as int, '.' as int] + Stars(0) == [STAR, DOT];
    assert line + [] == line;
    PlainExact(line, [], d);
    OneSpelling(line, domain, d);
  }

  lemma ListedHosts(domain: Text, d: Text)
    requires Usable(domain)
    ensures d in HostsDomains(LineFor(Hosts, domain)) <==> d == domain
  {
    hide HostsDomains, Listable, Spelling, Usable, Blank, Word;
    var gaps: seq<Text>, words: seq<Text> := [[], [SPACE]], [NULL_IP, domain];
    DomainIsWord(domain);
    SpelledAs(0, domain);
    NoBlank();
    OneBlankOctet();
    GraphicWord(NULL_IP);
    assert Stars(0) + domain == domain;
    assert gaps[1..] == [[SPACE]] && words[1..] == [domain] && words[1..][1..] == [];
    assert Spaced(gaps[1..], words[1..]) == [SPACE] + domain + [];
    assert Spaced(gaps, words) + [] == LineFor(Hosts, domain);
    NonEmptyUsable(domain);
    HostsExact(gaps, words, [], d);
    OneSpelling(domain, domain, d);
    assert words[1] == domain;
  }

  lemma NonEmptyUsable(domain: Text)
    requires Usable(domain)
    ensures domain != []
  {
  }

  lemma OneBlankOctet()
    ensures Blank([SPACE])
  {
    assert White(32) && Encoded(32) == [SPACE];
    OneBlank([SPACE]);
  }

  lemma ListedAdblock(domain: Text, d: Text)
    requires Usable(domain)
    ensures d in AdblockDomains(LineFor(Adblock, domain)) <==> d == domain
  {
    hide AdblockDomains, Listable, Spelling, Usable, Word, Blank;
    DomainIsWord(domain);
    SpelledAs(0, domain);
    NoBlank();
    assert Stars(0) + domain == domain;
    AdblockExact([], domain, [CARET], d);
    assert [] + [BAR, BAR] + domain + [CARET] == LineFor(Adblock, domain);
    OneSpelling(domain, domain, d);
  }

  /** A listed line contributes exactly its domain. */
  lemma ListedLine(format: FeedFormat, domain: Text)
    requires Usable(domain)
    ensures LineDomains(format, LineFor(format, domain)) == {domain}
  {
    hide PlainDomains, HostsDomains, AdblockDomains, Usable, LineFor;
    forall d
      ensures d in LineDomains(format, LineFor(format, domain)) <==> d == domain
    {
      match format
      case Plain => ListedPlain(domain, d);
      case Hosts => ListedHosts(domain, d);
      case Adblock => ListedAdblock(domain, d);
    }
  }

  lemma LinePlainEnd(format: FeedFormat, domain: Text)
    requires Usable(domain)
    ensures var line := LineFor(format, domain);
            (forall i :: 0 <= i < |line| ==> line[i] != NEWLINE) && DropReturn(line) == line
  {
    var line := LineFor(format, domain);
    forall i | 0 <= i < |line| ensures line[i] != NEWLINE && line[i] != RETURN {
      var k := if format.Hosts? then 8 else 2;
      if k <= i < k + |domain| {
        assert line[i] == domain[i - k];
      }
    }
  }

  /** Printing usable domains as a feed of any format and parsing it gives back exactly those domains. */
  lemma {:induction false} FeedRoundTrip(format: FeedFormat, domains: seq<Text>)
    requires forall d :: d in domains ==> Usable(d)
    ensures LinesDomains(format, Lines(FeedText(format, domains))) == set d | d in domains
    decreases |domains|
  {
    hide Usable, LineFor, LineDomains, DropReturn;
    if domains != [] {
      var line, rest := LineFor(format, domains[0]), FeedText(format, domains[1..]);
      var text := FeedText(format, domains);
      assert text == line + [NEWLINE] + rest;
      LinePlainEnd(format, domains[0]);
      BeforeStop(line, NEWLINE, rest, {NEWLINE});
      assert text[|line| + 1..] == rest;
      assert Lines(text) == [line] + Lines(rest);
      ListedLine(format, domains[0]);
      FeedRoundTrip(format, domains[1..]);
      assert ([line] + Lines(rest))[1..] == Lines(rest);
      assert domains == [domains[0]] + domains[1..];
    }
  }
}
