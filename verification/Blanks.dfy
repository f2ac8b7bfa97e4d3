/**
 * White space as the lines of a blocklist feed have it: Unicode's White_Space characters in UTF-8, and that
 * trimming takes away exactly the blanks on both sides.
 */
module Blanks {
  import opened Prelude
  import opened Blocklist

  // ---------------------------------------------------------------- white space

  /** The code points of Unicode's White_Space property. */
  predicate White(c: int) {
    || 9 <= c <= 13 || c == 32 || c == 0x85 || c == 0xA0 || c == 0x1680 || 0x2000 <= c <= 0x200A
    || c == 0x2028 || c == 0x2029 || c == 0x202F || c == 0x205F || c == 0x3000
  }

  /** A code point of the basic plane in UTF-8 (section 3 of RFC 3629). */
  function Encoded(c: int): Text
    requires 0 <= c < 0x1_0000
  {
    if c < 0x80 then [c]
    else if c < 0x800 then [0xC0 + c / 64, 0x80 + c % 64]
    else [0xE0 + c / 4096, 0x80 + c / 64 % 64, 0x80 + c % 64]
  }

  /** One white space character. */
  ghost predicate IsSpace(w: Text) {
    exists c :: White(c) && w == Encoded(c)
  }

  /** What starts with white space, by the table of code points. */
  lemma SpaceIsWhite(s: Text)
    ensures SpaceAt(s) > 0 ==> IsSpace(s[..SpaceAt(s)])
    ensures forall c :: White(c) && Encoded(c) <= s ==> SpaceAt(s) == |Encoded(c)|
  {
    if SpaceAt(s) == 1 {
      assert White(s[0]) && s[..1] == Encoded(s[0]);
    } else if SpaceAt(s) == 2 {
      WideSpace(s);
    } else if SpaceAt(s) == 3 {
      WiderSpace(s);
    }
    forall c | White(c) && Encoded(c) <= s
      ensures SpaceAt(s) == |Encoded(c)|
    {
      EncodedSpace(c, s);
    }
  }

  lemma WideSpace(s: Text)
    requires SpaceAt(s) == 2
    ensures IsSpace(s[..2])
  {
    var c := if s[1] == 0x85 then 0x85 else 0xA0;
    assert White(c) && s[..2] == Encoded(c);
  }

  lemma WiderSpace(s: Text)
    requires SpaceAt(s) == 3
    ensures IsSpace(s[..3])
  {
    var c := if s[0] == 0xE1 then 0x1680 else if s[0] == 0xE3 then 0x3000
             else if s[1] == 0x81 then 0x205F else 0x1F80 + s[2] as int;
    assert White(c);
    assert s[..3] == [s[0], s[1], s[2]] == Encoded(c);
  }

  lemma EncodedSpace(c: int, s: Text)
    requires White(c) && Encoded(c) <= s
    ensures SpaceAt(s) == |Encoded(c)|
  {
    var w := Encoded(c);
    assert forall i :: 0 <= i < |w| ==> s[i] == w[i];
    if 0x2000 <= c <= 0x200A {
      assert c / 4096 == 2 && c / 64 % 64 == 0 && c % 64 == c - 0x2000;
    }
  }

  /** White space characters one after another. */
  ghost predicate Blank(x: Text)
    decreases |x|
  {
    x == [] || exists n :: 0 < n <= |x| && IsSpace(x[..n]) && Blank(x[n..])
  }

  lemma SpaceFacts(w: Text)
    requires IsSpace(w)
    ensures |w| > 0
    ensures forall x :: SpaceAt(w + x) == |w|
    ensures forall x :: SpaceBefore(x + w) == |w|
  {
    var c :| White(c) && w == Encoded(c);
    forall x
      ensures SpaceAt(w + x) == |w|
    {
      EncodedSpace(c, w + x);
    }
    forall x
      ensures SpaceBefore(x + w) == |w|
    {
      SpaceLast(c, x);
    }
  }

  lemma SpaceLast(c: int, x: Text)
    requires White(c)
    ensures SpaceBefore(x + Encoded(c)) == |Encoded(c)|
  {
    var w := Encoded(c);
    var s := x + w;
    assert s[|x|..] == w;
    EncodedSpace(c, w);
    assert s[|s| - 1..] == [w[|w| - 1]];
    if |w| >= 2 {
      assert s[|s| - 2..] == [w[|w| - 2], w[|w| - 1]];
      ContinuationOctets(c);
    }
  }

  /** No octet but the first of an encoded space could start another. */
  lemma ContinuationOctets(c: int)
    requires White(c) && |Encoded(c)| >= 2
    ensures forall i :: 0 < i < |Encoded(c)| ==> 0x80 <= Encoded(c)[i] < 0xC0
  {
  }

  lemma OneBlank(w: Text)
    requires IsSpace(w)
    ensures Blank(w)
  {
    SpaceFacts(w);
    assert w[..|w|] == w && w[|w|..] == [];
  }

  lemma {:induction false} BlankAppend(x: Text, y: Text)
    requires Blank(x) && Blank(y)
    ensures Blank(x + y)
    decreases |x|
  {
    hide IsSpace;
    if x == [] {
      assert x + y == y;
    } else {
      var n :| 0 < n <= |x| && IsSpace(x[..n]) && Blank(x[n..]);
      BlankAppend(x[n..], y);
      assert (x + y)[..n] == x[..n] && (x + y)[n..] == x[n..] + y;
    }
  }

  /** Blanks can be taken from the end as well. */
  lemma {:induction false} BlankLast(x: Text) returns (n: nat)
    requires Blank(x) && x != []
    ensures 0 < n <= |x| && IsSpace(x[|x| - n..]) && Blank(x[..|x| - n])
    decreases |x|
  {
    hide IsSpace;
    var m :| 0 < m <= |x| && IsSpace(x[..m]) && Blank(x[m..]);
    if m == |x| {
      n := m;
      assert x[..m] == x[|x| - n..] == x && x[..|x| - n] == [];
    } else {
      n := BlankLast(x[m..]);
      Cuts(x, m, n);
    }
  }

  /** Cutting `m` octets from the front and `n` from the back, in either order. */
  lemma Cuts(x: Text, m: nat, n: nat)
    requires m + n <= |x|
    ensures x[m..][|x| - m - n..] == x[|x| - n..]
    ensures x[..|x| - n][..m] == x[..m]
    ensures x[..|x| - n][m..] == x[m..][..|x| - m - n]
  {
  }

  lemma {:induction false} TrimStartBlank(a: Text, t: Text)
    requires Blank(a) && SpaceAt(t) == 0
    ensures TrimStart(a + t) == t
    decreases |a|
  {
    hide SpaceAt, IsSpace;
    if a == [] {
      assert a + t == t;
    } else {
      var n :| 0 < n <= |a| && IsSpace(a[..n]) && Blank(a[n..]);
      SpaceFacts(a[..n]);
      assert a + t == a[..n] + (a[n..] + t) && (a + t)[n..] == a[n..] + t;
      TrimStartBlank(a[n..], t);
    }
  }

  lemma {:induction false} TrimEndBlank(t: Text, b: Text)
    requires Blank(b) && SpaceBefore(t) == 0
    ensures TrimEnd(t + b) == t
    decreases |b|
  {
    hide SpaceBefore, IsSpace, Blank;
    if b == [] {
      assert t + b == t;
    } else {
      var n := BlankLast(b);
      SpaceFacts(b[|b| - n..]);
      assert t + b == (t + b[..|b| - n]) + b[|b| - n..];
      assert (t + b)[..|t + b| - n] == t + b[..|b| - n];
      TrimEndBlank(t, b[..|b| - n]);
    }
  }

  /** What stands between blanks is what trimming leaves. */
  lemma TrimBetween(a: Text, t: Text, b: Text)
    requires Blank(a) && Blank(b) && t != [] && IsGraphic(t[0]) && IsGraphic(t[|t| - 1])
    ensures Trim(a + t + b) == t
  {
    hide SpaceAt, SpaceBefore, Blank, TrimStart, TrimEnd, IsGraphic;
    assert a + t + b == a + (t + b) && (t + b)[0] == t[0];
    GraphicEnds(t + b);
    GraphicEnds(t);
    TrimStartBlank(a, t + b);
    TrimEndBlank(t, b);
  }

  lemma {:induction false} TrimStartTakes(s: Text) returns (a: Text)
    ensures Blank(a) && s == a + TrimStart(s) && SpaceAt(TrimStart(s)) == 0
    decreases |s|
  {
    hide SpaceAt, IsSpace, Blank;
    a := [];
    NoBlank();
    var n := SpaceAt(s);
    if n > 0 {
      SpaceIsWhite(s);
      a := TrimStartTakes(s[n..]);
      OneBlank(s[..n]);
      BlankAppend(s[..n], a);
      a := s[..n] + a;
    }
  }

  lemma NoBlank()
    ensures Blank([])
  {
  }

  lemma {:induction false} TrimEndTakes(s: Text) returns (b: Text)
    ensures Blank(b) && s == TrimEnd(s) + b
    decreases |s|
  {
    hide SpaceBefore, IsSpace, Blank;
    b := [];
    NoBlank();
    var n := SpaceBefore(s);
    if n > 0 {
      LastSpaceIsWhite(s);
      b := TrimEndTakes(s[..|s| - n]);
      OneBlank(s[|s| - n..]);
      BlankAppend(b, s[|s| - n..]);
      b := b + s[|s| - n..];
    }
  }

  lemma LastSpaceIsWhite(s: Text)
    requires SpaceBefore(s) > 0
    ensures IsSpace(s[|s| - SpaceBefore(s)..])
  {
    hide SpaceAt, IsSpace;
    var x := s[|s| - SpaceBefore(s)..];
    SpaceIsWhite(x);
    assert x[..|x|] == x;
  }

  /** Trimming takes blanks from both ends. */
  lemma TrimTakes(s: Text) returns (a: Text, b: Text)
    ensures Blank(a) && Blank(b) && s == a + Trim(s) + b
  {
    hide SpaceAt, Blank, TrimStart, TrimEnd;
    a := TrimStartTakes(s);
    b := TrimEndTakes(TrimStart(s));
    assert s == a + (Trim(s) + b) == a + Trim(s) + b;
  }

  // ---------------------------------------------------------------- what trimming leaves alone

  /** White space starts with an octet that could not go on a character, so it completes nothing before it. */
  lemma NothingCompleted(c: Text, z: Text)
    requires c != [] && SpaceAt(c) == 0 && z != [] && !(0x80 <= z[0] < 0xC0)
    ensures SpaceAt(c + z) == 0
  {
  }

  lemma NoSpaceMade(c: Text, z: Text)
    requires c != [] && SpaceAt(c) == 0 && (Blank(z) || (z != [] && IsGraphic(z[0])))
    ensures SpaceAt(c + z) == 0
  {
    hide IsSpace, SpaceAt;
    if z == [] {
      assert c + z == c;
    } else {
      if Blank(z) {
        BlankHead(z);
      }
      NothingCompleted(c, z);
    }
  }

  lemma SpaceStarts(r: Text)
    requires SpaceAt(r) > 0
    ensures r != [] && !(0x80 <= r[0] < 0xC0)
  {
  }

  lemma SpaceHead(w: Text)
    requires IsSpace(w)
    ensures |w| > 0 && !(0x80 <= w[0] < 0xC0)
  {
    var c :| White(c) && w == Encoded(c);
  }

  lemma BlankHead(z: Text)
    requires Blank(z) && z != []
    ensures !(0x80 <= z[0] < 0xC0) && SpaceAt(z) > 0
  {
    hide IsSpace, SpaceAt;
    var n :| 0 < n <= |z| && IsSpace(z[..n]) && Blank(z[n..]);
    SpaceHead(z[..n]);
    SpaceFacts(z[..n]);
    assert z == z[..n] + z[n..];
  }

  lemma {:induction false} TrimEndEnds(s: Text)
    ensures SpaceBefore(TrimEnd(s)) == 0 && TrimEnd(s) <= s
    decreases |s|
  {
    hide SpaceBefore;
    if SpaceBefore(s) > 0 {
      TrimEndEnds(s[..|s| - SpaceBefore(s)]);
    }
  }

  lemma SpaceOfPrefix(p: Text, s: Text)
    requires p <= s && SpaceAt(s) == 0
    ensures SpaceAt(p) == 0
  {
  }

  lemma TrimAround(a: Text, t: Text, b: Text)
    requires Blank(a) && Blank(b)
    ensures Trim(a + t + b) == Trim(t)
  {
    hide SpaceAt, SpaceBefore, Blank, TrimStart, TrimEnd;
    var p, q := TrimTakes(t);
    var c := Trim(t);
    BlankAppend(a, p);
    BlankAppend(q, b);
    assert a + t + b == (a + p) + (c + (q + b));
    var u := TrimStartTakes(t);
    TrimEndEnds(TrimStart(t));
    SpaceOfPrefix(c, TrimStart(t));
    if c == [] {
      BlankAppend(a + p, q + b);
      AllBlank(a + p + (q + b));
      assert a + t + b == a + p + (q + b);
    } else {
      NoSpaceMade(c, q + b);
      TrimStartBlank(a + p, c + (q + b));
      TrimEndBlank(c, q + b);
    }
  }

  lemma AllBlank(z: Text)
    requires Blank(z)
    ensures Trim(z) == []
  {
    hide Blank, TrimStart;
    TrimStartBlank(z, []);
    assert z + [] == z;
  }

  lemma {:induction false} TrimStartCut(p: Text, y: Text)
    requires y != [] && IsGraphic(y[0])
    ensures TrimStart(p + y) == TrimStart(p) + y
    decreases |p|
  {
    hide SpaceAt, IsGraphic, Blank, IsSpace;
    if p == [] {
      assert p + y == y;
      GraphicEnds(y);
      SpaceOfNothing();
    } else if SpaceAt(p) == 0 {
      NoSpaceMade(p, y);
    } else {
      var n := SpaceAt(p);
      SpaceIsWhite(p);
      SpaceFacts(p[..n]);
      assert p + y == p[..n] + (p[n..] + y) && (p + y)[n..] == p[n..] + y;
      TrimStartCut(p[n..], y);
    }
  }

  lemma SpaceOfNothing()
    ensures SpaceAt([]) == 0 && SpaceBefore([]) == 0
  {
  }

  /** Trimming the end stops at a visible octet. */
  lemma {:induction false} TrimEndKeeps(h: Text, y: Text)
    requires h != [] && IsGraphic(h[|h| - 1])
    ensures TrimEnd(h + y) == h + TrimEnd(y)
    decreases |y|
  {
    hide SpaceAt, SpaceBefore, IsGraphic;
    SpaceBeforeCut(h, y);
    var n := SpaceBefore(y);
    if n > 0 {
      TrimEndKeeps(h, y[..|y| - n]);
      assert (h + y)[..|h + y| - n] == h + y[..|y| - n];
    }
  }

  /** The last `n` octets are a space. */
  predicate EndsInSpace(s: Text, n: nat) {
    |s| >= n && SpaceAt(s[|s| - n..]) == n
  }

  lemma SpaceBeforeEnds(s: Text)
    ensures SpaceBefore(s) == if EndsInSpace(s, 1) then 1 else if EndsInSpace(s, 2) then 2
                              else if EndsInSpace(s, 3) then 3 else 0
  {
    hide SpaceAt;
  }

  lemma SpaceBeforeCut(h: Text, y: Text)
    requires h != [] && IsGraphic(h[|h| - 1])
    ensures SpaceBefore(h + y) == SpaceBefore(y)
  {
    hide SpaceBefore, EndsInSpace, IsGraphic;
    SpaceBeforeEnds(h + y);
    SpaceBeforeEnds(y);
    SuffixSpace(h, y, 1);
    SuffixSpace(h, y, 2);
    SuffixSpace(h, y, 3);
  }

  lemma SuffixSpace(h: Text, y: Text, n: nat)
    requires h != [] && IsGraphic(h[|h| - 1])
    ensures EndsInSpace(h + y, n) <==> EndsInSpace(y, n)
  {
    hide SpaceAt, IsGraphic;
    var s := h + y;
    if n <= |y| {
      assert s[|s| - n..] == y[|y| - n..];
    } else if n <= |s| {
      var x := s[|s| - n..];
      assert x[n - |y| - 1] == h[|h| - 1];
      SpaceInvisible(x);
    }
  }

  lemma SpaceInvisible(s: Text)
    ensures forall i :: 0 <= i < SpaceAt(s) ==> !IsGraphic(s[i])
  {
  }
}
