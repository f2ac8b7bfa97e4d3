/** Dotted names as byte strings: splitting, joining, trimming and case folding. */
module Texts {
  import opened Prelude

  const DOT: byte := '.' as int
  const STAR: byte := '*' as int

  const UPPER := "ABCDEFGHIJKLMNOPQRSTUVWXYZ"
  const LOWER := "abcdefghijklmnopqrstuvwxyz"

  function LowerByte(b: byte): byte {
    if 65 <= b <= 90 then b + 32 else b
  }

  /** ASCII lowercasing, byte by byte. */
  function Lower(s: Text): Text {
    seq(|s|, i requires 0 <= i < |s| => LowerByte(s[i]))
  }

  predicate IsLower(s: Text) {
    forall i :: 0 <= i < |s| ==> !(65 <= s[i] <= 90)
  }

  predicate IsAscii(s: Text) {
    forall i :: 0 <= i < |s| ==> s[i] < 128
  }

  predicate HasSuffix<T(==)>(s: seq<T>, x: seq<T>) {
    |x| <= |s| && s[|s| - |x|..] == x
  }

  /** `split('.')`: never empty, and the empty string has one empty label. */
  function Split(s: Text): (r: seq<Text>)
    ensures |r| >= 1
  {
    if s == [] then [[]]
    else
      var rest := Split(s[1..]);
      if s[0] == DOT then [[]] + rest else [[s[0]] + rest[0]] + rest[1..]
  }

  function Join(ls: seq<Text>): Text {
    if ls == [] then []
    else if |ls| == 1 then ls[0]
    else ls[0] + [DOT] + Join(ls[1..])
  }

  /** `trim_end_matches('.')`. */
  function TrimEndDots(s: Text): Text {
    if s != [] && s[|s| - 1] == DOT then TrimEndDots(s[..|s| - 1]) else s
  }

  predicate StarDot(s: Text) {
    |s| >= 2 && s[0] == STAR && s[1] == DOT
  }

  /** `trim_start_matches("*.")`. */
  function StripStars(s: Text): Text {
    if StarDot(s) then StripStars(s[2..]) else s
  }

  function Normalize(s: Text): Text {
    Lower(TrimEndDots(s))
  }

  predicate NoEmpty(ls: seq<Text>) {
    forall i :: 0 <= i < |ls| ==> ls[i] != []
  }

  predicate NoDots(ls: seq<Text>) {
    forall i :: 0 <= i < |ls| ==> DOT !in ls[i]
  }

  // ---- splitting and joining are inverse ----

  lemma {:induction false} SplitHasNoDots(s: Text)
    ensures NoDots(Split(s))
  {
    if s != [] {
      SplitHasNoDots(s[1..]);
    }
  }

  lemma {:induction false} JoinSplit(s: Text)
    ensures Join(Split(s)) == s
  {
    if s != [] {
      JoinSplit(s[1..]);
      var rest := Split(s[1..]);
      if s[0] == DOT {
        assert ([[]] + rest)[1..] == rest;
      } else {
        var r := Split(s);
        assert r[1..] == rest[1..];
        assert r[0] == [s[0]] + rest[0];
      }
    }
  }

  lemma {:induction false} SplitLabel(l: Text)
    requires DOT !in l
    ensures Split(l) == [l]
  {
    if l != [] {
      assert l[0] in l && forall b :: b in l[1..] ==> b in l;
      SplitLabel(l[1..]);
      assert [l[0]] + l[1..] == l;
      assert [l[1..]][1..] == [];
    }
  }

  lemma SplitCons(c: byte, rest: seq<Text>, rb: seq<Text>)
    requires rest != []
    ensures [[]] + (rest + rb) == ([[]] + rest) + rb
    ensures [[c] + (rest + rb)[0]] + (rest + rb)[1..] == ([[c] + rest[0]] + rest[1..]) + rb
  {
  }

  lemma {:induction false} SplitAtDot(a: Text, b: Text)
    ensures Split(a + [DOT] + b) == Split(a) + Split(b)
  {
    var s := a + [DOT] + b;
    if a == [] {
      assert s[1..] == b;
    } else {
      var rest, rb := Split(a[1..]), Split(b);
      assert Split(s[1..]) == rest + rb by {
        SplitAtDot(a[1..], b);
        assert s[1..] == a[1..] + [DOT] + b;
      }
      SplitCons(a[0], rest, rb);
    }
  }

  lemma {:induction false} SplitJoin(ls: seq<Text>)
    requires ls != [] && NoDots(ls)
    ensures Split(Join(ls)) == ls
  {
    SplitLabel(ls[0]);
    if |ls| > 1 {
      SplitJoin(ls[1..]);
      SplitAtDot(ls[0], Join(ls[1..]));
      assert ls == [ls[0]] + ls[1..];
    }
  }

  lemma {:induction false} JoinAppend(a: seq<Text>, b: seq<Text>)
    requires a != [] && b != []
    ensures Join(a + b) == Join(a) + [DOT] + Join(b)
  {
    assert (a + b)[0] == a[0];
    if |a| == 1 {
      assert (a + b)[1..] == b;
    } else {
      JoinAppend(a[1..], b);
      assert (a + b)[1..] == a[1..] + b;
      assert Join(a + b) == a[0] + [DOT] + Join(a[1..] + b);
      assert a[0] + [DOT] + (Join(a[1..]) + [DOT] + Join(b)) == (a[0] + [DOT] + Join(a[1..])) + [DOT] + Join(b);
    }
  }

  /** A string ends in a dot exactly when its last label is empty (and it has more than one). */
  lemma {:induction false} LastLabel(s: Text)
    ensures var ls := Split(s);
            ls[|ls| - 1] == [] <==> (s == [] || s[|s| - 1] == DOT)
  {
    if s != [] {
      var rest := Split(s[1..]);
      LastLabel(s[1..]);
      if s[0] == DOT {
        assert Split(s) == [[]] + rest;
      } else {
        assert Split(s) == [[s[0]] + rest[0]] + rest[1..];
      }
      if s[1..] == [] {
        assert s == [s[0]];
      } else {
        assert s[1..][|s| - 2] == s[|s| - 1];
      }
    }
  }

  /**
   * String suffixes are label suffixes: a string is `suffix`, or ends in a dot and `suffix`,
   * exactly when the labels of `suffix` are the last labels of the string.
   */
  lemma DottedSuffixIsLabelSuffix(q: Text, suffix: Text)
    ensures (q == suffix || HasSuffix(q, [DOT] + suffix)) <==> HasSuffix(Split(q), Split(suffix))
  {
    hide Split, Join;
    var lq, lx := Split(q), Split(suffix);
    if HasSuffix(q, [DOT] + suffix) {
      var a := q[..|q| - |suffix| - 1];
      assert q == a + [DOT] + suffix;
      SplitAtDot(a, suffix);
    }
    if HasSuffix(lq, lx) {
      JoinSplit(q);
      JoinSplit(suffix);
      var pre := lq[..|lq| - |lx|];
      assert lq == pre + lx;
      if pre == [] {
        assert lq == lx;
      } else {
        JoinAppend(pre, lx);
        DottedTail(q, Join(pre), suffix);
      }
    }
  }

  lemma DottedTail(q: Text, a: Text, suffix: Text)
    requires q == a + [DOT] + suffix
    ensures HasSuffix(q, [DOT] + suffix)
  {
    assert q == a + ([DOT] + suffix);
  }

  lemma HasSuffixTransitive<T>(a: seq<T>, b: seq<T>, c: seq<T>)
    requires HasSuffix(a, b) && HasSuffix(b, c)
    ensures HasSuffix(a, c)
  {
    assert a[|a| - |c|..] == a[|a| - |b|..][|b| - |c|..];
  }

  // ---- trimming and folding ----

  /** Trimming takes away the final dots, all of them and nothing else. */
  lemma {:induction false} TrimEndDotsFixed(s: Text)
    ensures var t := TrimEndDots(s);
            t <= s && (t == [] || t[|t| - 1] != DOT) && forall i :: |t| <= i < |s| ==> s[i] == '.' as int
  {
    if s != [] && s[|s| - 1] == DOT {
      TrimEndDotsFixed(s[..|s| - 1]);
    }
  }

  /** Normalizing twice is normalizing once. */
  lemma NormalizeIdempotent(s: Text)
    ensures Normalize(Normalize(s)) == Normalize(s)
  {
    TrimEndDotsFixed(s);
    var t := Normalize(s);
    assert TrimEndDots(t) == t;
    assert Lower(t) == t;
  }

  lemma LowerFixed(s: Text)
    ensures Lower(s) == s <==> IsLower(s)
    ensures IsLower(Lower(s)) && Lower(Lower(s)) == Lower(s)
  {
    if Lower(s) == s {
      forall i | 0 <= i < |s|
        ensures !(65 <= s[i] <= 90)
      {
        assert Lower(s)[i] == s[i];
      }
    }
    assert Lower(Lower(s)) == Lower(s);
  }

  /** Stripping takes away the leading `*.`s, all of them and nothing else. */
  lemma {:induction false} StripStarsFixed(s: Text)
    ensures var t := StripStars(s);
            && HasSuffix(s, t) && !StarDot(t) && StripStars(t) == t
            && (|s| - |t|) % 2 == 0
            && forall i :: 0 <= i < |s| - |t| ==> s[i] == if i % 2 == 0 then '*' as int else '.' as int
  {
    if StarDot(s) {
      StripStarsFixed(s[2..]);
      assert forall i :: 2 <= i < |s| ==> s[i] == s[2..][i - 2];
    }
  }

  // ---- letter case ----

  /** By the alphabet, letter by letter: an upper-case letter and its lower case, or one other octet twice. */
  predicate LowersTo(b: byte, c: byte) {
    if exists i :: 0 <= i < 26 && UPPER[i] as int == b
    then exists i :: 0 <= i < 26 && UPPER[i] as int == b && LOWER[i] as int == c
    else b == c
  }

  lemma Alphabet(i: int)
    requires 0 <= i < 26
    ensures UPPER[i] as int == 65 + i && LOWER[i] as int == 97 + i
  {
  }

  lemma LowerByteIsTable(b: byte, c: byte)
    ensures LowersTo(b, c) <==> c == LowerByte(b)
  {
    forall i | 0 <= i < 26
      ensures UPPER[i] as int == 65 + i && LOWER[i] as int == 97 + i
    {
      Alphabet(i);
    }
    if 65 <= b <= 90 {
      assert UPPER[b - 65] as int == b;
    }
  }

  predicate TextLowersTo(s: Text, t: Text) {
    |s| == |t| && forall i :: 0 <= i < |s| ==> LowersTo(s[i], t[i])
  }

  /** Lowercasing is the alphabet's, octet by octet, and nothing else is. */
  lemma LowerIsTable(s: Text, t: Text)
    ensures TextLowersTo(s, t) <==> t == Lower(s)
  {
    hide LowersTo, LowerByte;
    if |s| == |t| {
      forall i | 0 <= i < |s|
        ensures LowersTo(s[i], t[i]) <==> t[i] == LowerByte(s[i])
      {
        LowerByteIsTable(s[i], t[i]);
      }
      if TextLowersTo(s, t) {
        assert t == Lower(s);
      }
    }
  }

  /** Two texts that differ at most in the case of letters. */
  predicate SameLetters(s: Text, t: Text) {
    |s| == |t| && forall i :: 0 <= i < |s| ==> s[i] == t[i] || LowersTo(s[i], t[i]) || LowersTo(t[i], s[i])
  }

  lemma SameLettersFold(s: Text, t: Text)
    ensures SameLetters(s, t) <==> Lower(s) == Lower(t)
  {
    hide LowersTo;
    if |s| == |t| {
      forall i | 0 <= i < |s|
        ensures s[i] == t[i] || LowersTo(s[i], t[i]) || LowersTo(t[i], s[i]) <==> Lower(s)[i] == Lower(t)[i]
      {
        LowerByteIsTable(s[i], t[i]);
        LowerByteIsTable(t[i], s[i]);
      }
    }
    if Lower(s) == Lower(t) {
      assert |s| == |Lower(s)| == |Lower(t)| == |t|;
      forall i | 0 <= i < |s|
        ensures s[i] == t[i] || LowersTo(s[i], t[i]) || LowersTo(t[i], s[i])
      {
        assert Lower(s)[i] == Lower(t)[i];
      }
    }
  }

  /** Folding case and trimming do not get in each other's way. */
  lemma {:induction false} LowerTrims(s: Text)
    ensures TrimEndDots(Lower(s)) == Lower(TrimEndDots(s))
    decreases |s|
  {
    if s != [] {
      LowerTrims(s[..|s| - 1]);
      assert Lower(s)[..|s| - 1] == Lower(s[..|s| - 1]);
    }
  }

  lemma {:induction false} LowerStrips(s: Text)
    ensures StripStars(Lower(s)) == Lower(StripStars(s))
    decreases |s|
  {
    if |s| >= 2 {
      LowerStrips(s[2..]);
      assert Lower(s)[2..] == Lower(s[2..]);
    }
  }

  lemma SameLettersSuffix(q: Text, x: Text)
    ensures HasSuffix(Lower(q), [DOT] + Lower(x)) <==>
            |q| > |x| && q[|q| - |x| - 1] == '.' as int && SameLetters(q[|q| - |x|..], x)
  {
    hide SameLetters;
    if |q| > |x| {
      var k := |q| - |x| - 1;
      SameLettersFold(q[k + 1..], x);
      assert Lower(q)[k..] == [LowerByte(q[k])] + Lower(q[k + 1..]);
      assert |[DOT] + Lower(x)| == |q| - k;
      if Lower(q)[k..] == [DOT] + Lower(x) {
        assert ([DOT] + Lower(x))[1..] == Lower(x) && Lower(q)[k..][1..] == Lower(q[k + 1..]);
        assert Lower(q)[k..][0] == LowerByte(q[k]);
      }
    }
  }
}
