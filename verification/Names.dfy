/**
 * Domain names on the wire (sections 3.1 and 4.1.4 of RFC 1035): what a name at an offset
 * spells, what the writer emits, and that the two undo each other.
 */
module Names {
  import opened Prelude
  import opened Texts

  const MAX_JUMPS := 5

  // ---------------------------------------------------------------- integers on the wire

  function U16Bytes(v: u16): seq<byte> {
    [v / 0x100, v % 0x100]
  }

  function U32Bytes(v: u32): seq<byte> {
    [v / 0x100_0000, v / 0x1_0000 % 0x100, v / 0x100 % 0x100, v % 0x100]
  }

  /** The big-endian integers that stand at offset `p` of `b`. */
  function U16In(b: seq<byte>, p: nat): u16
    requires p + 2 <= |b|
  {
    (b[p] as int) * 0x100 + b[p + 1] as int
  }

  function U32In(b: seq<byte>, p: nat): u32
    requires p + 4 <= |b|
  {
    (b[p] as int) * 0x100_0000 + (b[p + 1] as int) * 0x1_0000 + (b[p + 2] as int) * 0x100 + b[p + 3] as int
  }

  function U16At(b: seq<byte>, p: nat): Result<u16> {
    if p + 2 <= |b| then Ok(U16In(b, p)) else Err(EndOfBuffer)
  }

  function U32At(b: seq<byte>, p: nat): Result<u32> {
    if p + 4 <= |b|
    then Ok(U32In(b, p))
    else Err(EndOfBuffer)
  }

  function Word(w: bv16): nat {
    w as int
  }

  lemma JoinOctets(hi: bv16, lo: bv16)
    requires hi < 256 && lo < 256
    ensures Word((hi << 8) | lo) == Word(hi) * 256 + Word(lo) && Word(lo) < 256
  {
  }

  lemma Halves(w: bv16)
    ensures w >> 8 < 256 && w & 0xFF < 256 && w == ((w >> 8) << 8) | (w & 0xFF)
  {
  }

  lemma IsOctet(x: bv16)
    requires Word(x) < 256
    ensures x < 256
  {
  }

  /** The code's shifts and masks on 16-bit words are the sums and digits read and written. */
  lemma WordOperators(b: seq<byte>, p: nat, hi: bv16, lo: bv16, v: u16, w: bv16)
    requires p + 2 <= |b| && b[p] == Word(hi) && b[p + 1] == Word(lo) && v == Word(w)
    ensures U16In(b, p) == Word((hi << 8) | lo)
    ensures U16Bytes(v) == [Word(w >> 8), Word(w & 0xFF)]
  {
    hide Word;
    IsOctet(hi);
    IsOctet(lo);
    JoinOctets(hi, lo);
    Halves(w);
    JoinOctets(w >> 8, w & 0xFF);
  }

  /** A 32-bit word is its two 16-bit halves, the high one first. */
  lemma LongIsTwoWords(b: seq<byte>, p: nat, v: u32)
    requires p + 4 <= |b|
    ensures U32In(b, p) == U16In(b, p) * 65536 + U16In(b, p + 2)
    ensures U32Bytes(v) == U16Bytes(v / 65536) + U16Bytes(v % 65536)
  {
    var hi, lo := v / 65536, v % 65536;
    assert v == 65536 * hi + lo && lo == 256 * (lo / 256) + lo % 256 && hi == 256 * (hi / 256) + hi % 256;
    assert v / 0x100_0000 == hi / 256;
    assert v / 0x100 == 256 * hi + lo / 256;
  }

  /** The bytes `x` stand at offset `p` of `b`. */
  predicate At(b: seq<byte>, p: nat, x: seq<byte>) {
    p + |x| <= |b| && b[p..p + |x|] == x
  }

  lemma AtSplit(b: seq<byte>, p: nat, x: seq<byte>, y: seq<byte>)
    ensures At(b, p, x + y) <==> At(b, p, x) && At(b, p + |x|, y)
  {
    if At(b, p, x + y) {
      assert x == (x + y)[..|x|] == b[p..p + |x|];
      assert y == (x + y)[|x|..] == b[p + |x|..p + |x| + |y|];
    }
    if At(b, p, x) && At(b, p + |x|, y) {
      assert b[p..p + |x + y|] == b[p..p + |x|] + b[p + |x|..p + |x| + |y|];
    }
  }

  lemma U16RoundTrip(b: seq<byte>, p: nat, v: u16)
    requires At(b, p, U16Bytes(v))
    ensures U16At(b, p) == Ok(v)
  {
    assert b[p] == b[p..p + 2][0] && b[p + 1] == b[p..p + 2][1];
  }

  lemma U32RoundTrip(b: seq<byte>, p: nat, v: u32)
    requires At(b, p, U32Bytes(v))
    ensures U32At(b, p) == Ok(v)
  {
    var s := b[p..p + 4];
    assert b[p] == s[0] && b[p + 1] == s[1] && b[p + 2] == s[2] && b[p + 3] == s[3];
    U32Digits(v);
  }

  lemma U32Digits(v: u32)
    ensures v / 0x100_0000 * 0x100_0000 + v / 0x1_0000 % 0x100 * 0x1_0000 + v / 0x100 % 0x100 * 0x100 + v % 0x100 == v
  {
    var x := v / 0x100;
    var y := x / 0x100;
    assert y == v / 0x1_0000;
    assert y / 0x100 == v / 0x100_0000;
  }

  // ---------------------------------------------------------------- reading

  /** The labels a name spells, and the offset just past it where it was met. */
  datatype NameRead = NameRead(labels: seq<seq<byte>>, next: nat)

  /**
   * Follow the labels at `p`, through at most `jumps` compression pointers. A length octet
   * below 0xC0 starts a label (0x40..0xBF included, as the reader has it), one of 0xC0 or more
   * is the first byte of a pointer, and zero ends the name.
   */
  function ReadLabels(b: seq<byte>, p: nat, jumps: nat): Result<NameRead>
    decreases jumps, |b| - p
  {
    if p >= |b| then Err(EndOfBuffer)
    else if b[p] >= 0xC0 then
      if p + 1 >= |b| then Err(EndOfBuffer)
      else if jumps == 0 then Err(TooManyJumps)
      else
        match ReadLabels(b, U16In(b, p) - 0xC000, jumps - 1)
        case Err(e) => Err(e)
        case Ok(r) => Ok(NameRead(r.labels, p + 2))
    else if b[p] == 0 then Ok(NameRead([], p + 1))
    else if p + 1 + b[p] > |b| then Err(EndOfBuffer)
    else
      match ReadLabels(b, p + 1 + b[p], jumps)
      case Err(e) => Err(e)
      case Ok(r) => Ok(NameRead([b[p + 1..p + 1 + b[p]]] + r.labels, r.next))
  }

  /** Where the first pointer on the way from `p` leaves the cursor, if there is one. */
  function FirstPointer(b: seq<byte>, p: nat): Option<nat>
    decreases |b| - p
  {
    if p >= |b| then None
    else if b[p] >= 0xC0 then Some(p + 2)
    else if b[p] == 0 || p + 1 + b[p] > |b| then None
    else FirstPointer(b, p + 1 + b[p])
  }

  function LowerAll(ls: seq<Text>): seq<Text> {
    seq(|ls|, i requires 0 <= i < |ls| => Lower(ls[i]))
  }

  /** The text of a name: its lowercased labels joined by dots. */
  function NameText(ls: seq<Text>): Text {
    Join(LowerAll(ls))
  }

  // ---------------------------------------------------------------- the grammar of section 4.1.4

  /** One element of a name on the wire before its final zero octet. */
  datatype Piece = Label(bytes: seq<byte>) | Pointer(target: nat)

  /** The pieces, then a zero octet, are what stands at `p`, each pointer moving to its target. */
  predicate Spells(b: seq<byte>, p: nat, pieces: seq<Piece>)
    decreases |pieces|
  {
    p < |b| &&
    if pieces == [] then b[p] == 0
    else match pieces[0]
      case Label(bytes) =>
        && 0 < |bytes| < 0xC0
        && b[p] == |bytes|
        && At(b, p + 1, bytes)
        && Spells(b, p + 1 + |bytes|, pieces[1..])
      case Pointer(target) =>
        && p + 1 < |b|
        && b[p] >= 0xC0
        && target == U16In(b, p) - 0xC000
        && Spells(b, target, pieces[1..])
  }

  function Labels(pieces: seq<Piece>): seq<seq<byte>> {
    if pieces == [] then []
    else (if pieces[0].Label? then [pieces[0].bytes] else []) + Labels(pieces[1..])
  }

  function Pointers(pieces: seq<Piece>): nat {
    if pieces == [] then 0
    else (if pieces[0].Pointer? then 1 else 0) + Pointers(pieces[1..])
  }

  /** Just past the first pointer, or past the zero octet when there is none. */
  function After(p: nat, pieces: seq<Piece>): nat
    decreases |pieces|
  {
    if pieces == [] then p + 1
    else if pieces[0].Pointer? then p + 2
    else After(p + 1 + |pieces[0].bytes|, pieces[1..])
  }

  lemma {:induction false} SpelledIsRead(b: seq<byte>, p: nat, pieces: seq<Piece>, jumps: nat)
    requires Spells(b, p, pieces) && Pointers(pieces) <= jumps
    ensures ReadLabels(b, p, jumps) == Ok(NameRead(Labels(pieces), After(p, pieces)))
    decreases |pieces|
  {
    if pieces != [] {
      match pieces[0]
      case Label(bytes) =>
        SpelledIsRead(b, p + 1 + |bytes|, pieces[1..], jumps);
      case Pointer(target) =>
        SpelledIsRead(b, target, pieces[1..], jumps - 1);
        assert Labels(pieces) == Labels(pieces[1..]);
    }
  }

  lemma {:induction false} ReadIsSpelled(b: seq<byte>, p: nat, jumps: nat) returns (pieces: seq<Piece>)
    requires ReadLabels(b, p, jumps).Ok?
    ensures Spells(b, p, pieces) && Pointers(pieces) <= jumps
    decreases jumps, |b| - p
  {
    if b[p] >= 0xC0 {
      var target := U16In(b, p) - 0xC000;
      var rest := ReadIsSpelled(b, target, jumps - 1);
      pieces := [Pointer(target)] + rest;
    } else if b[p] == 0 {
      pieces := [];
    } else {
      var rest := ReadIsSpelled(b, p + 1 + b[p], jumps);
      pieces := [Label(b[p + 1..p + 1 + b[p]])] + rest;
    }
  }

  /**
   * Reading is the grammar: it succeeds exactly when some chain of labels and at most five
   * pointers leads from `p` to a zero octet, and then yields that chain's labels and offset.
   */
  lemma ReadRefinesGrammar(b: seq<byte>, p: nat)
    ensures ReadLabels(b, p, MAX_JUMPS).Ok? <==>
            exists pieces :: Spells(b, p, pieces) && Pointers(pieces) <= 5
    ensures forall pieces :: Spells(b, p, pieces) && Pointers(pieces) <= 5 ==>
              ReadLabels(b, p, MAX_JUMPS) == Ok(NameRead(Labels(pieces), After(p, pieces)))
  {
    forall pieces | Spells(b, p, pieces) && Pointers(pieces) <= MAX_JUMPS
      ensures ReadLabels(b, p, MAX_JUMPS) == Ok(NameRead(Labels(pieces), After(p, pieces)))
    {
      SpelledIsRead(b, p, pieces, MAX_JUMPS);
    }
    if ReadLabels(b, p, MAX_JUMPS).Ok? {
      var pieces := ReadIsSpelled(b, p, MAX_JUMPS);
    }
  }

  /** The chain from an offset is unique, so the grammar is unambiguous. */
  lemma {:induction false} SpellingUnique(b: seq<byte>, p: nat, x: seq<Piece>, y: seq<Piece>)
    requires Spells(b, p, x) && Spells(b, p, y)
    ensures x == y
    decreases |x|
  {
    if x != [] && y != [] {
      assert x[0] == y[0];
      var q := if x[0].Pointer? then x[0].target else p + 1 + |x[0].bytes|;
      SpellingUnique(b, q, x[1..], y[1..]);
      assert x == [x[0]] + x[1..] && y == [y[0]] + y[1..];
    }
  }

  // ---------------------------------------------------------------- the text, letter by letter

  /** The text read is the spelled labels, joined by dots, each letter in lower case by the alphabet. */
  lemma TextReadByTable(b: seq<byte>, p: nat, pieces: seq<Piece>)
    requires Spells(b, p, pieces) && Pointers(pieces) <= 5
    ensures ReadLabels(b, p, MAX_JUMPS).Ok?
    ensures TextLowersTo(Join(Labels(pieces)), NameText(ReadLabels(b, p, MAX_JUMPS).value.labels))
  {
    hide Lower, NameText;
    SpelledIsRead(b, p, pieces, MAX_JUMPS);
    LowerAllJoin(Labels(pieces));
    LowerIsTable(Join(Labels(pieces)), NameText(Labels(pieces)));
  }

  predicate SameLabels(x: seq<Text>, y: seq<Text>) {
    |x| == |y| && forall i :: 0 <= i < |x| ==> SameLetters(x[i], y[i])
  }

  /** Names that differ only in the case of letters, wherever they stand, are read as the same text. */
  lemma CaseDoesNotMatter(b: seq<byte>, p: nat, x: seq<Piece>, c: seq<byte>, q: nat, y: seq<Piece>)
    requires Spells(b, p, x) && Pointers(x) <= 5 && Spells(c, q, y) && Pointers(y) <= 5
    requires SameLabels(Labels(x), Labels(y))
    ensures ReadLabels(b, p, MAX_JUMPS).Ok? && ReadLabels(c, q, MAX_JUMPS).Ok?
    ensures NameText(ReadLabels(b, p, MAX_JUMPS).value.labels) == NameText(ReadLabels(c, q, MAX_JUMPS).value.labels)
  {
    hide SameLetters, Lower, Spells, ReadLabels, Pointers;
    SpelledIsRead(b, p, x, MAX_JUMPS);
    SpelledIsRead(c, q, y, MAX_JUMPS);
    forall i | 0 <= i < |Labels(x)|
      ensures Lower(Labels(x)[i]) == Lower(Labels(y)[i])
    {
      SameLettersFold(Labels(x)[i], Labels(y)[i]);
    }
    assert LowerAll(Labels(x)) == LowerAll(Labels(y));
  }

  /** `ls` are labels that stand one after another from `p` to `x`. */
  predicate LabelsLead(b: seq<byte>, p: nat, ls: seq<Text>, x: nat)
    decreases |ls|
  {
    if ls == [] then p == x
    else p < |b| && b[p] == |ls[0]| && 0 < |ls[0]| < 0xC0 && At(b, p + 1, ls[0])
         && LabelsLead(b, p + 1 + |ls[0]|, ls[1..], x)
  }

  /** Where a read goes after its first pointer: just past it, when labels alone lead to one. */
  lemma {:induction false} FirstPointerFound(b: seq<byte>, p: nat, ls: seq<Text>, x: nat)
    requires LabelsLead(b, p, ls, x) && x < |b| && b[x] >= 0xC0
    ensures FirstPointer(b, p) == Some(x + 2)
    decreases |ls|
  {
    if ls != [] {
      FirstPointerFound(b, p + 1 + |ls[0]|, ls[1..], x);
    }
  }

  lemma {:induction false} FirstPointerLed(b: seq<byte>, p: nat) returns (ls: seq<Text>, x: nat)
    requires FirstPointer(b, p).Some?
    ensures LabelsLead(b, p, ls, x) && x < |b| && b[x] >= 0xC0 && FirstPointer(b, p) == Some(x + 2)
    decreases |b| - p
  {
    if b[p] >= 0xC0 {
      ls, x := [], p;
    } else {
      var rest;
      rest, x := FirstPointerLed(b, p + 1 + b[p]);
      var part := b[p + 1..p + 1 + b[p]];
      ls := [part] + rest;
      assert ls[0] == part && ls[1..] == rest;
    }
  }

  // ---------------------------------------------------------------- reserved lengths

  /** Reading as section 4.1.4 of RFC 1035 has it: length octets 0x40..0xBF are reserved. */
  function ReadStrictly(b: seq<byte>, p: nat, jumps: nat): Result<NameRead>
    decreases jumps, |b| - p
  {
    if p >= |b| then Err(EndOfBuffer)
    else if b[p] >= 0xC0 then
      if p + 1 >= |b| then Err(EndOfBuffer)
      else if jumps == 0 then Err(TooManyJumps)
      else
        match ReadStrictly(b, U16In(b, p) - 0xC000, jumps - 1)
        case Err(e) => Err(e)
        case Ok(r) => Ok(NameRead(r.labels, p + 2))
    else if b[p] == 0 then Ok(NameRead([], p + 1))
    else if b[p] > 0x3F then Err(LabelTooLong)
    else if p + 1 + b[p] > |b| then Err(EndOfBuffer)
    else
      match ReadStrictly(b, p + 1 + b[p], jumps)
      case Err(e) => Err(e)
      case Ok(r) => Ok(NameRead([b[p + 1..p + 1 + b[p]]] + r.labels, r.next))
  }

  lemma ShortCons(l: Text, ls: seq<Text>)
    ensures ShortLabels([l] + ls) <==> |l| <= 0x3F && ShortLabels(ls)
  {
    if ShortLabels([l] + ls) {
      assert ([l] + ls)[0] == l && forall i :: 0 <= i < |ls| ==> ls[i] == ([l] + ls)[i + 1];
    }
  }

  /** A name that is read is read the same by the standard exactly when its labels have at most 63 octets. */
  lemma {:induction false} StrictlyReadExactly(b: seq<byte>, p: nat, jumps: nat)
    requires ReadLabels(b, p, jumps).Ok?
    ensures ReadStrictly(b, p, jumps) == ReadLabels(b, p, jumps) <==> ShortLabels(ReadLabels(b, p, jumps).value.labels)
    ensures ReadStrictly(b, p, jumps).Ok? ==> ReadStrictly(b, p, jumps) == ReadLabels(b, p, jumps)
    decreases jumps, |b| - p
  {
    hide ShortLabels;
    if b[p] >= 0xC0 {
      StrictlyReadExactly(b, U16In(b, p) - 0xC000, jumps - 1);
    } else if b[p] == 0 {
      NoneShort();
    } else {
      var rest := ReadLabels(b, p + 1 + b[p], jumps).value;
      StrictlyReadExactly(b, p + 1 + b[p], jumps);
      ShortCons(b[p + 1..p + 1 + b[p]], rest.labels);
    }
  }

  lemma NoneShort()
    ensures ShortLabels([])
  {
  }

  /** A witness for every reserved length: one label of that many octets is read, against the standard. */
  lemma ReservedLengthRead(part: Text)
    requires 0x40 <= |part| < 0xC0
    ensures var b := [|part|] + part + [0];
            && ReadLabels(b, 0, MAX_JUMPS) == Ok(NameRead([part], |b|))
            && ReadStrictly(b, 0, MAX_JUMPS) == Err(LabelTooLong)
  {
    var b := [|part|] + part + [0];
    ReadEnd(b, 1 + |part|, MAX_JUMPS);
    assert b[0 + 1..0 + 1 + b[0]] == part;
    assert [part] + [] == [part];
  }

  // ---------------------------------------------------------------- bounds on reading

  lemma {:induction false} LowerAllText(ls: seq<Text>)
    ensures ls != [] ==> NameText(ls) == Lower(ls[0]) + (if |ls| == 1 then [] else [DOT] + NameText(ls[1..]))
  {
    if ls != [] {
      assert LowerAll(ls)[1..] == LowerAll(ls[1..]);
    }
  }

  lemma {:induction false} ReadOutputBound(b: seq<byte>, p: nat, jumps: nat)
    requires ReadLabels(b, p, jumps).Ok?
    ensures var r := ReadLabels(b, p, jumps).value;
            |NameText(r.labels)| <= |b| - p + jumps * |b| && p < r.next <= |b|
    decreases jumps, |b| - p
  {
    if b[p] >= 0xC0 {
      ReadOutputBound(b, U16In(b, p) - 0xC000, jumps - 1);
      assert jumps * |b| == (jumps - 1) * |b| + |b|;
    } else if b[p] != 0 {
      ReadOutputBound(b, p + 1 + b[p], jumps);
      var r := ReadLabels(b, p, jumps).value;
      LowerAllText(r.labels);
      assert r.labels[1..] == ReadLabels(b, p + 1 + b[p], jumps).value.labels;
      assert jumps * |b| >= 0;
    }
  }

  predicate AllAscii(ls: seq<Text>) {
    forall i :: 0 <= i < |ls| ==> IsAscii(ls[i])
  }

  /**
   * Reading a name always advances the cursor within the message, wherever the pointers lead. It
   * follows at most six times as many label octets and dots as the message has octets, and when the
   * labels are ASCII that is the length of the text.
   */
  lemma DecompressionBound(b: seq<byte>, p: nat)
    requires ReadLabels(b, p, MAX_JUMPS).Ok?
    ensures var r := ReadLabels(b, p, MAX_JUMPS).value;
            && p < r.next <= |b|
            && |Join(r.labels)| <= 6 * |b|
            && (AllAscii(r.labels) ==> |NameText(r.labels)| <= 6 * |b|)
  {
    ReadOutputBound(b, p, MAX_JUMPS);
    LowerAllSize(ReadLabels(b, p, MAX_JUMPS).value.labels);
  }

  // ---------------------------------------------------------------- writing

  /** The bytes a writer emits, and whether it went through or stopped there with an error. */
  datatype Emission = Emission(bytes: seq<byte>, ok: bool) {
    function Then(next: Emission): Emission {
      if ok then Emission(bytes + next.bytes, next.ok) else this
    }
  }

  function Plain(bytes: seq<byte>): Emission {
    Emission(bytes, true)
  }

  function EmitLabels(ls: seq<Text>): Emission {
    if ls == [] then Plain([0])
    else if |ls[0]| > 0x3F then Emission([], false)
    else Plain([|ls[0]|] + ls[0]).Then(EmitLabels(ls[1..]))
  }

  function EmitName(name: Text): Emission {
    EmitLabels(Split(name))
  }

  predicate ShortLabels(ls: seq<Text>) {
    forall i :: 0 <= i < |ls| ==> |ls[i]| <= 63
  }

  lemma {:induction false} EmitLabelsOk(ls: seq<Text>)
    ensures EmitLabels(ls).ok <==> ShortLabels(ls)
    ensures EmitLabels(ls).ok ==> |EmitLabels(ls).bytes| >= 1
  {
    if ls != [] {
      EmitLabelsOk(ls[1..]);
      if EmitLabels(ls).ok {
        forall i | 0 <= i < |ls| ensures |ls[i]| <= 0x3F {
          if i > 0 {
            assert ls[i] == ls[1..][i - 1];
          }
        }
      }
    }
  }

  /** Every label of a written name, empty ones too, stands after its length octet, and a zero ends the name. */
  lemma {:induction false} EmittedLabelStands(b: seq<byte>, p: nat, ls: seq<Text>, k: nat)
    requires EmitLabels(ls).ok && At(b, p, EmitLabels(ls).bytes) && k <= |ls|
    ensures var x := p + EncodedSize(ls[..k]) - 1;
            && x < |b|
            && b[x] == (if k < |ls| then |ls[k]| else 0)
            && (k < |ls| ==> At(b, x + 1, ls[k]))
    decreases k
  {
    hide EmitLabels, At;
    EmittedHead(b, p, ls);
    if k > 0 {
      EmittedLabelStands(b, p + 1 + |ls[0]|, ls[1..], k - 1);
      assert ls[..k][1..] == ls[1..][..k - 1];
    }
  }

  /** The names that survive the wire: labels of 1..63 octets, ASCII, already lowercase. */
  predicate WireSafe(name: Text) {
    IsAscii(name) && IsLower(name) && NoEmpty(Split(name)) && ShortLabels(Split(name))
  }

  /** What the reader makes of emitted labels: everything up to the first empty label. */
  function UntilEmpty(ls: seq<Text>): seq<Text> {
    if ls == [] || ls[0] == [] then [] else [ls[0]] + UntilEmpty(ls[1..])
  }

  function EncodedSize(ls: seq<Text>): nat {
    if ls == [] then 1 else 1 + |ls[0]| + EncodedSize(ls[1..])
  }

  lemma {:induction false} EmittedLabelsRead(b: seq<byte>, p: nat, ls: seq<Text>, jumps: nat)
    requires EmitLabels(ls).ok && At(b, p, EmitLabels(ls).bytes)
    ensures ReadLabels(b, p, jumps) == Ok(NameRead(UntilEmpty(ls), p + EncodedSize(UntilEmpty(ls))))
    decreases |ls|
  {
    hide ReadLabels, EmitLabels;
    EmittedHead(b, p, ls);
    if ls == [] || ls[0] == [] {
      ReadEnd(b, p, jumps);
    } else {
      EmittedLabelsRead(b, p + 1 + |ls[0]|, ls[1..], jumps);
      ReadOneLabel(b, p, ls[0], jumps);
      assert UntilEmpty(ls)[1..] == UntilEmpty(ls[1..]);
    }
  }

  lemma ReadEnd(b: seq<byte>, p: nat, jumps: nat)
    requires p < |b| && b[p] == 0
    ensures ReadLabels(b, p, jumps) == Ok(NameRead([], p + 1))
  {
  }

  lemma ReadOneLabel(b: seq<byte>, p: nat, l: Text, jumps: nat)
    requires 0 < |l| <= 0x3F && p < |b| && b[p] == |l| && At(b, p + 1, l)
    requires ReadLabels(b, p + 1 + |l|, jumps).Ok?
    ensures var r := ReadLabels(b, p + 1 + |l|, jumps).value;
            ReadLabels(b, p, jumps) == Ok(NameRead([l] + r.labels, r.next))
  {
  }

  lemma EmittedHead(b: seq<byte>, p: nat, ls: seq<Text>)
    requires EmitLabels(ls).ok && At(b, p, EmitLabels(ls).bytes)
    ensures p < |b| && b[p] == if ls == [] then 0 else |ls[0]|
    ensures ls != [] ==>
              && EmitLabels(ls[1..]).ok
              && |ls[0]| <= 0x3F
              && At(b, p + 1, ls[0])
              && At(b, p + 1 + |ls[0]|, EmitLabels(ls[1..]).bytes)
  {
    if ls == [] {
      assert b[p] == b[p..p + 1][0];
    } else {
      AtSplit(b, p, [|ls[0]|] + ls[0], EmitLabels(ls[1..]).bytes);
      AtSplit(b, p, [|ls[0]|], ls[0]);
      assert b[p] == b[p..p + 1][0];
    }
  }

  lemma {:induction false} UntilEmptyAll(ls: seq<Text>)
    ensures UntilEmpty(ls) == ls <==> NoEmpty(ls)
    ensures EmitLabels(ls).ok ==> |EmitLabels(ls).bytes| == EncodedSize(ls)
    ensures EncodedSize(UntilEmpty(ls)) <= EncodedSize(ls)
    ensures EncodedSize(UntilEmpty(ls)) == EncodedSize(ls) ==> NoEmpty(ls)
  {
    if ls != [] {
      UntilEmptyAll(ls[1..]);
      if ls[0] != [] {
        assert UntilEmpty(ls)[1..] == UntilEmpty(ls[1..]);
        if NoEmpty(ls[1..]) {
          forall i | 0 <= i < |ls| ensures ls[i] != [] {
            if i > 0 { assert ls[i] == ls[1..][i - 1]; }
          }
        }
        if NoEmpty(ls) {
          assert ls == [ls[0]] + ls[1..];
        }
      }
    }
  }

  /** The reader undoes the writer: `name` is read back at `p`, ending exactly where it was written. */
  predicate ReadsBack(b: seq<byte>, p: nat, name: Text) {
    var e := EmitName(name);
    && e.ok
    && ReadLabels(b, p, MAX_JUMPS).Ok?
    && NameText(ReadLabels(b, p, MAX_JUMPS).value.labels) == name
    && ReadLabels(b, p, MAX_JUMPS).value.next == p + |e.bytes|
  }

  /** What is read where a name was written, whatever the name. */
  lemma WrittenNameRead(b: seq<byte>, p: nat, name: Text)
    requires EmitName(name).ok && At(b, p, EmitName(name).bytes)
    ensures ReadLabels(b, p, MAX_JUMPS) ==
            Ok(NameRead(UntilEmpty(Split(name)), p + EncodedSize(UntilEmpty(Split(name)))))
    ensures |EmitName(name).bytes| == EncodedSize(Split(name))
  {
    EmittedLabelsRead(b, p, Split(name), MAX_JUMPS);
    UntilEmptyAll(Split(name));
  }

  lemma {:induction false} LowerAllJoin(ls: seq<Text>)
    ensures NameText(ls) == Lower(Join(ls))
  {
    if |ls| > 1 {
      LowerAllText(ls);
      LowerAllJoin(ls[1..]);
      assert Lower(Join(ls)) == Lower(ls[0]) + [DOT] + Lower(Join(ls[1..]));
    }
  }

  /** At any offset, a written ASCII name reads back exactly when it is wire-safe. */
  lemma NameRoundTrip(b: seq<byte>, p: nat, name: Text)
    requires IsAscii(name)
    requires EmitName(name).ok ==> At(b, p, EmitName(name).bytes)
    ensures ReadsBack(b, p, name) <==> WireSafe(name)
  {
    var ls := Split(name);
    EmitLabelsOk(ls);
    UntilEmptyAll(ls);
    JoinSplit(name);
    LowerFixed(name);
    LowerAllJoin(ls);
    if EmitName(name).ok {
      WrittenNameRead(b, p, name);
    }
  }

  /** The root name is the counterexample: it is written as two zero octets and read as one. */
  lemma RootNameDoesNotRoundTrip()
    ensures EmitName([]) == Plain([0, 0])
    ensures ReadLabels([0, 0], 0, MAX_JUMPS) == Ok(NameRead([], 1))
    ensures !ReadsBack([0, 0], 0, [])
  {
    assert EmitLabels([[]]) == Plain([0, 0]);
  }

  lemma {:induction false} EncodedSizeOfJoin(ls: seq<Text>)
    requires ls != []
    ensures EncodedSize(ls) == |Join(ls)| + 2
  {
    if |ls| > 1 {
      EncodedSizeOfJoin(ls[1..]);
    }
  }

  lemma LowerAllSize(ls: seq<Text>)
    ensures |NameText(ls)| == |Join(ls)|
  {
    LowerAllJoin(ls);
  }

  /** The text of an ASCII name survives exactly when it is wire-safe, or the root. */
  lemma TextSurvives(name: Text)
    requires IsAscii(name) && EmitName(name).ok
    ensures NameText(UntilEmpty(Split(name))) == name <==> WireSafe(name) || name == []
  {
    hide EmitLabels;
    var ls := Split(name);
    var kept := UntilEmpty(ls);
    EmitLabelsOk(ls);
    UntilEmptyAll(ls);
    JoinSplit(name);
    LowerFixed(name);
    LowerAllJoin(ls);
    LowerAllSize(kept);
    EncodedSizeOfJoin(ls);
    if kept != [] {
      EncodedSizeOfJoin(kept);
    }
  }

  // ---------------------------------------------------------------- one octet out of step

  /**
   * A name read one octet early, with a 1 before it, never spells itself: each length octet would
   * have to be the label before it, all the way to the final zero.
   */
  lemma {:induction false} ShiftedNameDiffers(b: seq<byte>, p: nat, ls: seq<Text>, jumps: nat)
    requires ls != [] && NoDots(ls) && EmitLabels(ls).ok
    requires p < |b| && b[p] == 1 && At(b, p + 1, EmitLabels(ls).bytes)
    requires ReadLabels(b, p, jumps).Ok?
    ensures NameText(ReadLabels(b, p, jumps).value.labels) != Join(ls)
    decreases |ls|
  {
    hide ReadLabels, EmitLabels, NameText, Join, At;
    EmittedHead(b, p + 1, ls);
    ReadOneOctet(b, p, jumps);
    var rest := ReadLabels(b, p + 2, jumps).value;
    var labels := [[b[p + 1]]] + rest.labels;
    assert labels[1..] == rest.labels;
    LowerAllText(labels);
    assert Lower([b[p + 1]]) == [b[p + 1]];
    JoinHead(ls);
    if NameText(labels) == Join(ls) {
      var s := if |labels| == 1 then [] else [DOT] + NameText(rest.labels);
      var t := if |ls| == 1 then [] else [DOT] + Join(ls[1..]);
      SameFirstLabel(ls[0], s, t);
      AtByte(b, p + 2, 1);
      ReadOneOctet(b, p + 2, jumps);
      assert s[1..] == t[1..];
      ShiftedNameDiffers(b, p + 2, ls[1..], jumps);
    }
  }

  lemma SameFirstLabel(l: Text, s: Text, t: Text)
    requires DOT !in l && |l| < 0x40 && [|l|] + s == l + t
    requires (s == [] || s[0] == DOT) && (t == [] || t[0] == DOT)
    ensures l == [1] && s == t
  {
    var x := [|l|] + s;
    assert x == l + t && x[0] == |l|;
    assert forall i :: 0 <= i < |l| ==> x[i] == l[i] && l[i] in l;
    assert |x| == 1 + |s| == |l| + |t|;
    assert s == x[1..] && t == x[|l|..];
  }

  lemma AtByte(b: seq<byte>, p: nat, v: byte)
    requires At(b, p, [v])
    ensures p < |b| && b[p] == v
  {
    assert b[p] == b[p..p + 1][0];
  }

  lemma TwoZeros(b: seq<byte>, p: nat)
    requires At(b, p, [0, 0])
    ensures p + 1 < |b| && b[p] == 0 && b[p + 1] == 0
  {
    assert b[p] == b[p..p + 2][0] && b[p + 1] == b[p..p + 2][1];
  }

  lemma ReadOneOctet(b: seq<byte>, p: nat, jumps: nat)
    requires p < |b| && b[p] == 1 && ReadLabels(b, p, jumps).Ok?
    ensures p + 1 < |b| && ReadLabels(b, p + 2, jumps).Ok?
    ensures ReadLabels(b, p, jumps).value.labels == [[b[p + 1]]] + ReadLabels(b, p + 2, jumps).value.labels
  {
    assert b[p + 1..p + 2] == [b[p + 1]];
  }

  /** How a joined name starts: its first label, and a dot after it when there are more. */
  lemma JoinHead(ls: seq<Text>)
    requires ls != [] && NoDots(ls)
    ensures Join(ls) == ls[0] + (if |ls| == 1 then [] else [DOT] + Join(ls[1..]))
    ensures forall i :: 0 <= i < |ls[0]| ==> Join(ls)[i] == ls[0][i] != DOT
  {
  }
}
