/**
 * Sections 4.1.2 and 4.1.3 of RFC 1035 as the program takes them: what it means for a name, a question, a
 * record or a whole message to stand at an offset, and that this is what lib/protocol reads there.
 */
module WireGrammar {
  import opened Prelude
  import opened Texts
  import opened Names
  import opened Headers
  import opened Questions
  import opened Records
  import opened Packets

  // ---------------------------------------------------------------- names

  /** Labels and at most five pointers lead from `p` to a zero octet and spell `text`, in lower case. */
  ghost predicate NameStands(b: seq<byte>, p: nat, text: Text, next: nat) {
    exists pieces ::
      && Spells(b, p, pieces) && Pointers(pieces) <= 5
      && TextLowersTo(Join(Labels(pieces)), text) && next == After(p, pieces)
  }

  lemma NameIsGrammar(b: seq<byte>, p: nat, text: Text, next: nat)
    ensures NameStands(b, p, text, next) <==>
            && ReadLabels(b, p, MAX_JUMPS).Ok?
            && NameText(ReadLabels(b, p, MAX_JUMPS).value.labels) == text
            && ReadLabels(b, p, MAX_JUMPS).value.next == next
  {
    hide ReadLabels, Spells, Labels, Pointers, After, TextLowersTo, NameText;
    ReadRefinesGrammar(b, p);
    forall pieces | Spells(b, p, pieces) && Pointers(pieces) <= 5
      ensures TextLowersTo(Join(Labels(pieces)), text) <==> text == NameText(Labels(pieces))
    {
      LowerAllJoin(Labels(pieces));
      LowerIsTable(Join(Labels(pieces)), text);
    }
  }

  // ---------------------------------------------------------------- character strings

  /** An octet taken as a code point, in UTF-8 (section 3 of RFC 3629). */
  function Utf8Of(point: byte): Text {
    if point < 128 then [point] else [192 + point / 64, 128 + point % 64]
  }

  function Utf8(points: seq<byte>): Text {
    if points == [] then [] else Utf8Of(points[0]) + Utf8(points[1..])
  }

  /** Length-prefixed strings, one after another, as long as `end` is not reached. */
  predicate StringsStand(b: seq<byte>, p: nat, strings: seq<seq<byte>>, end: nat, next: nat)
    decreases |strings|
  {
    if strings == [] then p >= end && next == p
    else
      && p < end && p < |b| && b[p] == |strings[0]| && At(b, p + 1, strings[0])
      && StringsStand(b, p + 1 + |strings[0]|, strings[1..], end, next)
  }

  function Flat(strings: seq<seq<byte>>): seq<byte> {
    if strings == [] then [] else strings[0] + Flat(strings[1..])
  }

  lemma {:induction false} Utf8Append(x: seq<byte>, y: seq<byte>)
    ensures Utf8(x + y) == Utf8(x) + Utf8(y)
  {
    hide Utf8Of;
    if x == [] {
      assert x + y == y;
    } else {
      Utf8Append(x[1..], y);
      assert (x + y)[0] == x[0] && (x + y)[1..] == x[1..] + y;
      var head, tail, rest := Utf8Of(x[0]), Utf8(x[1..]), Utf8(y);
      assert head + (tail + rest) == (head + tail) + rest;
    }
  }

  lemma {:induction false} CharsTextIsUtf8(octets: seq<byte>)
    ensures CharsText(octets) == Utf8(octets)
  {
    if octets != [] {
      var init, last := octets[..|octets| - 1], octets[|octets| - 1];
      CharsTextIsUtf8(init);
      Utf8Append(init, [last]);
      assert octets == init + [last];
      assert [last][1..] == [] && Utf8([]) == [];
      assert Utf8([last]) == CharText(last);
    }
  }

  lemma {:induction false} StringsAreRead(b: seq<byte>, p: nat, strings: seq<seq<byte>>, end: nat, next: nat)
    requires StringsStand(b, p, strings, end, next)
    ensures ParseTxt(b, p, end) == Ok(Parsed(Utf8(Flat(strings)), next))
    decreases |strings|
  {
    if strings != [] {
      StringsAreRead(b, p + 1 + b[p], strings[1..], end, next);
      CharsTextIsUtf8(strings[0]);
      Utf8Append(strings[0], Flat(strings[1..]));
    }
  }

  lemma {:induction false} ReadStringsStand(b: seq<byte>, p: nat, end: nat) returns (strings: seq<seq<byte>>)
    requires ParseTxt(b, p, end).Ok?
    ensures StringsStand(b, p, strings, end, ParseTxt(b, p, end).value.next)
    decreases |b| - p
  {
    strings := [];
    if p < end {
      var part := b[p + 1..p + 1 + b[p]];
      var rest := ReadStringsStand(b, p + 1 + b[p], end);
      strings := [part] + rest;
      assert strings[0] == part && strings[1..] == rest;
    }
  }

  ghost predicate TextStands(b: seq<byte>, p: nat, data: Text, end: nat, next: nat) {
    exists strings :: StringsStand(b, p, strings, end, next) && data == Utf8(Flat(strings))
  }

  lemma TextIsGrammar(b: seq<byte>, p: nat, data: Text, end: nat, next: nat)
    ensures TextStands(b, p, data, end, next) <==> ParseTxt(b, p, end) == Ok(Parsed(data, next))
  {
    forall strings | StringsStand(b, p, strings, end, next)
      ensures ParseTxt(b, p, end) == Ok(Parsed(Utf8(Flat(strings)), next))
    {
      StringsAreRead(b, p, strings, end, next);
    }
    if ParseTxt(b, p, end) == Ok(Parsed(data, next)) {
      var strings := ReadStringsStand(b, p, end);
      StringsAreRead(b, p, strings, end, next);
    }
  }

  // ---------------------------------------------------------------- questions and records

  /** A name, the number of a type, and two octets of any class. */
  ghost predicate QuestionStands(b: seq<byte>, p: nat, q: DnsQuestion, next: nat) {
    exists m: nat ::
      NameStands(b, p, q.name, m) && m + 4 <= |b| && HasNumber(q.qtype, U16In(b, m)) && next == m + 4
  }

  /** Data of `len` stated octets; only strings and unknown types go by that length. */
  ghost predicate DataStands(b: seq<byte>, p: nat, len: nat, r: DnsRecord, next: nat) {
    match r
    case RA(_, addr, _) => At(b, p, addr) && next == p + 4
    case RAAAA(_, addr6, _) => At(b, p, addr6) && next == p + 16
    case RCNAME(_, host, _) => NameStands(b, p, host, next)
    case RNS(_, host, _) => NameStands(b, p, host, next)
    case RMX(_, priority, host, _) => p + 2 <= |b| && priority == U16In(b, p) && NameStands(b, p + 2, host, next)
    case RTXT(_, data, _) => TextStands(b, p, data, p + len, next)
    case RUnknown(_, _, dataLen, _) => dataLen == len && next == p + len
  }

  /** The number of its type, any class, its ttl in four octets, the stated length, and the data. */
  ghost predicate TailStands(b: seq<byte>, m: nat, r: DnsRecord, next: nat) {
    && m + 10 <= |b|
    && HasNumber(KindOf(r), U16In(b, m))
    && r.ttl == U16In(b, m + 4) * 65536 + U16In(b, m + 6)
    && DataStands(b, m + 10, U16In(b, m + 8), r, next)
  }

  ghost predicate RecordStands(b: seq<byte>, p: nat, r: DnsRecord, next: nat) {
    exists m: nat :: NameStands(b, p, r.domain, m) && TailStands(b, m, r, next)
  }

  /** A question is read exactly where one stands. */
  lemma QuestionIsGrammar(b: seq<byte>, p: nat, q: DnsQuestion, next: nat)
    ensures ParseQuestion(b, p) == Ok(Parsed(q, next)) <==> QuestionStands(b, p, q, next)
  {
    hide ReadLabels, NameText, NameStands, QueryTypeFromNum, HasNumber;
    var n := ReadLabels(b, p, MAX_JUMPS);
    if n.Ok? && n.value.next + 4 <= |b| {
      var m := n.value.next;
      NameIsGrammar(b, p, q.name, m);
      TypeNumbers(q.qtype, U16In(b, m));
    }
    if QuestionStands(b, p, q, next) {
      var m: nat :| NameStands(b, p, q.name, m) && m + 4 <= |b| && HasNumber(q.qtype, U16In(b, m)) && next == m + 4;
      NameIsGrammar(b, p, q.name, m);
    }
  }

  lemma DataIsGrammar(b: seq<byte>, p: nat, domain: Text, num: u16, ttl: u32, len: u16, r: DnsRecord, next: nat)
    requires r.domain == domain && r.ttl == ttl
    ensures ParseData(b, p, domain, num, ttl, len) == Ok(Parsed(r, next)) <==>
            HasNumber(KindOf(r), num) && DataStands(b, p, len, r, next)
  {
    hide ReadLabels, NameText, NameStands, QueryTypeFromNum, HasNumber, ParseTxt, TextStands;
    TypeNumbers(KindOf(r), num);
    match r
    case RCNAME(_, host, _) => NameIsGrammar(b, p, host, next);
    case RNS(_, host, _) => NameIsGrammar(b, p, host, next);
    case RMX(_, _, host, _) => NameIsGrammar(b, p + 2, host, next);
    case RTXT(_, data, _) => TextIsGrammar(b, p, data, p + len, next);
    case RA(_, addr, _) => AddressAt(b, p, addr);
    case RAAAA(_, addr6, _) => AddressAt(b, p, addr6);
    case RUnknown(_, _, _, _) => UnknownNumber(num);
  }

  lemma UnknownNumber(num: u16)
    ensures QueryTypeFromNum(num).UNKNOWN? ==> QueryTypeFromNum(num) == UNKNOWN(num)
  {
  }

  lemma AddressAt(b: seq<byte>, p: nat, addr: seq<byte>)
    ensures At(b, p, addr) <==> p + |addr| <= |b| && b[p..p + |addr|] == addr
  {
  }

  lemma DataKeeps(b: seq<byte>, p: nat, domain: Text, num: u16, ttl: u32, len: u16)
    ensures var d := ParseData(b, p, domain, num, ttl, len);
            d.Ok? ==> d.value.value.domain == domain && d.value.value.ttl == ttl
  {
    hide ParseHost, ParseTxt;
  }

  /** A record is read exactly where one stands, whatever its kind. */
  lemma RecordIsGrammar(b: seq<byte>, p: nat, r: DnsRecord, next: nat)
    ensures ParseRecord(b, p) == Ok(Parsed(r, next)) <==> RecordStands(b, p, r, next)
  {
    hide RecordStands, ParseRecord;
    if ParseRecord(b, p) == Ok(Parsed(r, next)) {
      ReadRecordStands(b, p, r, next);
    }
    if RecordStands(b, p, r, next) {
      StandingRecordRead(b, p, r, next);
    }
  }

  lemma ReadRecordStands(b: seq<byte>, p: nat, r: DnsRecord, next: nat)
    requires ParseRecord(b, p) == Ok(Parsed(r, next))
    ensures RecordStands(b, p, r, next)
  {
    hide ReadLabels, NameText, NameStands, TailStands, ParseRecord;
    NoFixed(b, p);
    var m := ReadLabels(b, p, MAX_JUMPS).value.next;
    FixedIsGrammar(b, p, r, next, m);
    NameIsGrammar(b, p, r.domain, m);
  }

  lemma StandingRecordRead(b: seq<byte>, p: nat, r: DnsRecord, next: nat)
    requires RecordStands(b, p, r, next)
    ensures ParseRecord(b, p) == Ok(Parsed(r, next))
  {
    hide ReadLabels, NameText, NameStands, TailStands, ParseRecord;
    var m: nat :| NameStands(b, p, r.domain, m) && TailStands(b, m, r, next);
    NameIsGrammar(b, p, r.domain, m);
    TailFits(b, m, r, next);
    FixedIsGrammar(b, p, r, next, m);
  }

  lemma TailFits(b: seq<byte>, m: nat, r: DnsRecord, next: nat)
    requires TailStands(b, m, r, next)
    ensures m + 10 <= |b|
  {
  }

  lemma NoFixed(b: seq<byte>, p: nat)
    ensures var n := ReadLabels(b, p, MAX_JUMPS);
            n.Err? || n.value.next + 10 > |b| ==> ParseRecord(b, p).Err?
  {
    hide ReadLabels;
  }

  lemma FixedIsGrammar(b: seq<byte>, p: nat, r: DnsRecord, next: nat, m: nat)
    requires ReadLabels(b, p, MAX_JUMPS).Ok? && ReadLabels(b, p, MAX_JUMPS).value.next == m && m + 10 <= |b|
    ensures ParseRecord(b, p) == Ok(Parsed(r, next)) <==>
            && NameText(ReadLabels(b, p, MAX_JUMPS).value.labels) == r.domain
            && TailStands(b, m, r, next)
  {
    hide ReadLabels, NameText, ParseData, HasNumber, DataStands, U32In, U16In, U32Bytes, U16Bytes;
    var domain := NameText(ReadLabels(b, p, MAX_JUMPS).value.labels);
    var num, ttl, len := U16In(b, m), U32In(b, m + 4), U16In(b, m + 8);
    LongIsTwoWords(b, m + 4, 0);
    DataKeeps(b, m + 10, domain, num, ttl, len);
    if r.domain == domain && r.ttl == ttl {
      DataIsGrammar(b, m + 10, domain, num, ttl, len, r, next);
    }
  }

  // ---------------------------------------------------------------- sections and messages

  ghost predicate QuestionsStand(b: seq<byte>, p: nat, qs: seq<DnsQuestion>, next: nat)
    decreases |qs|
  {
    if qs == [] then next == p
    else exists m: nat :: QuestionStands(b, p, qs[0], m) && QuestionsStand(b, m, qs[1..], next)
  }

  ghost predicate RecordsStand(b: seq<byte>, p: nat, rs: seq<DnsRecord>, next: nat)
    decreases |rs|
  {
    if rs == [] then next == p
    else exists m: nat :: RecordStands(b, p, rs[0], m) && RecordsStand(b, m, rs[1..], next)
  }

  /** A header, and as many questions and records in each section as its counts say. */
  ghost predicate MessageStands(b: seq<byte>, p: nat, x: Packet, next: nat) {
    && ParseHeader(b, p) == Ok(Parsed(x.header, p + 12))
    && p + 12 <= |b| && U16In(b, p + 4) == |x.questions| && U16In(b, p + 6) == |x.answers|
    && U16In(b, p + 8) == |x.authorities| && U16In(b, p + 10) == |x.resources|
    && exists an: nat, ns: nat, ar: nat ::
         && QuestionsStand(b, p + 12, x.questions, an)
         && RecordsStand(b, an, x.answers, ns)
         && RecordsStand(b, ns, x.authorities, ar)
         && RecordsStand(b, ar, x.resources, next)
  }

  lemma {:induction false} QuestionsAreGrammar(b: seq<byte>, p: nat, qs: seq<DnsQuestion>, next: nat)
    ensures ParseQuestions(b, p, |qs|) == Ok(Parsed(qs, next)) <==> QuestionsStand(b, p, qs, next)
    decreases |qs|
  {
    hide ParseQuestion, QuestionStands;
    if qs != [] {
      assert qs == [qs[0]] + qs[1..];
      if ParseQuestions(b, p, |qs|) == Ok(Parsed(qs, next)) {
        var m := ParseQuestion(b, p).value.next;
        QuestionIsGrammar(b, p, qs[0], m);
        QuestionsAreGrammar(b, m, qs[1..], next);
      }
      if QuestionsStand(b, p, qs, next) {
        var m: nat :| QuestionStands(b, p, qs[0], m) && QuestionsStand(b, m, qs[1..], next);
        QuestionIsGrammar(b, p, qs[0], m);
        QuestionsAreGrammar(b, m, qs[1..], next);
      }
    }
  }

  lemma {:induction false} RecordsAreGrammar(b: seq<byte>, p: nat, rs: seq<DnsRecord>, next: nat)
    ensures ParseRecords(b, p, |rs|) == Ok(Parsed(rs, next)) <==> RecordsStand(b, p, rs, next)
    decreases |rs|
  {
    hide ParseRecord, RecordStands;
    if rs != [] {
      assert rs == [rs[0]] + rs[1..];
      if ParseRecords(b, p, |rs|) == Ok(Parsed(rs, next)) {
        var m := ParseRecord(b, p).value.next;
        RecordIsGrammar(b, p, rs[0], m);
        RecordsAreGrammar(b, m, rs[1..], next);
      }
      if RecordsStand(b, p, rs, next) {
        var m: nat :| RecordStands(b, p, rs[0], m) && RecordsStand(b, m, rs[1..], next);
        RecordIsGrammar(b, p, rs[0], m);
        RecordsAreGrammar(b, m, rs[1..], next);
      }
    }
  }

  /** A message is read exactly where one stands: every field of every section, and where it ends. */
  lemma MessageIsGrammar(b: seq<byte>, p: nat, x: Packet, next: nat)
    ensures ParsePacket(b, p) == Ok(Parsed(x, next)) <==> MessageStands(b, p, x, next)
  {
    hide ParseQuestions, ParseRecords, QuestionsStand, RecordsStand, HeaderOf;
    if ParsePacket(b, p) == Ok(Parsed(x, next)) {
      MessageRead(b, p, x, next);
    }
    if MessageStands(b, p, x, next) {
      var an: nat, ns: nat, ar: nat :|
        && QuestionsStand(b, p + 12, x.questions, an) && RecordsStand(b, an, x.answers, ns)
        && RecordsStand(b, ns, x.authorities, ar) && RecordsStand(b, ar, x.resources, next);
      HeaderLayout(b, p);
      QuestionsAreGrammar(b, p + 12, x.questions, an);
      RecordsAreGrammar(b, an, x.answers, ns);
      RecordsAreGrammar(b, ns, x.authorities, ar);
      RecordsAreGrammar(b, ar, x.resources, next);
    }
  }

  lemma MessageRead(b: seq<byte>, p: nat, x: Packet, next: nat)
    requires ParsePacket(b, p) == Ok(Parsed(x, next))
    ensures MessageStands(b, p, x, next)
  {
    hide ParseQuestions, ParseRecords, QuestionsStand, RecordsStand, HeaderOf;
    ParsedPacketSize(b, p, x, next);
    HeaderLayout(b, p);
    var h := x.header;
    var qs := ParseQuestions(b, p + 12, h.questions).value;
    QuestionsAreGrammar(b, p + 12, x.questions, qs.next);
    var an := ParseRecords(b, qs.next, h.answers).value;
    RecordsAreGrammar(b, qs.next, x.answers, an.next);
    var ns := ParseRecords(b, an.next, h.authoritativeEntries).value;
    RecordsAreGrammar(b, an.next, x.authorities, ns.next);
    var ar := ParseRecords(b, ns.next, h.resourceEntries).value;
    RecordsAreGrammar(b, ns.next, x.resources, ar.next);
  }
}
