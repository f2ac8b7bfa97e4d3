/**
 * Exactly which messages survive the wire: a message of A, AAAA and CNAME records reads back where it
 * was written precisely when it is wire-safe.
 */
module PacketExactness {
  import opened Prelude
  import opened Texts
  import opened Names
  import opened Headers
  import opened Questions
  import opened Records
  import opened Packets

  predicate AsciiNames(qs: seq<DnsQuestion>) {
    forall i :: 0 <= i < |qs| ==> IsAscii(qs[i].name)
  }

  predicate WireSafeNames(qs: seq<DnsQuestion>) {
    forall i :: 0 <= i < |qs| ==> WireSafe(qs[i].name)
  }

  predicate CanonicalTypes(qs: seq<DnsQuestion>) {
    forall i :: 0 <= i < |qs| ==> Canonical(qs[i].qtype)
  }

  lemma {:induction false} ParsedTypesCanonical(b: seq<byte>, p: nat, n: nat)
    requires ParseQuestions(b, p, n).Ok?
    ensures CanonicalTypes(ParseQuestions(b, p, n).value.value)
    decreases n
  {
    if n > 0 {
      hide ReadLabels, NameText, QueryTypeFromNum, Canonical;
      var q := ParseQuestion(b, p).value;
      QueryTypeRoundTrip(q.value.qtype, U16In(b, q.next - 4));
      ParsedTypesCanonical(b, q.next, n - 1);
    }
  }

  // ---------------------------------------------------------------- questions

  /** What is read at `p` gives back the value of `q`, wherever its encoding ends. */
  predicate ReadAs(b: seq<byte>, p: nat, q: DnsQuestion) {
    ParseQuestion(b, p).Ok? && ParseQuestion(b, p).value.value == q
  }

  /**
   * A question read back with the same value is wire-safe and read exactly, or it is the root
   * question of type zero, read one octet short.
   */
  lemma QuestionValueBack(b: seq<byte>, p: nat, q: DnsQuestion)
    requires IsAscii(q.name) && Canonical(q.qtype)
    requires EmitQuestion(q).ok && At(b, p, EmitQuestion(q).bytes) && ReadAs(b, p, q)
    ensures var next, end := ParseQuestion(b, p).value.next, p + |EmitQuestion(q).bytes|;
            || (WireSafe(q.name) && next == end)
            || (q.name == [] && next + 1 == end && next < |b| && b[next] == 1)
  {
    hide ReadLabels, NameText, EmitLabels, WireSafe, Canonical, At, Split, UntilEmpty;
    QuestionParts(b, p, q);
    WrittenNameRead(b, p, q.name);
    TextSurvives(q.name);
    if WireSafe(q.name) {
      QuestionRoundTrip(b, p, q);
    } else {
      RootQuestion(b, p, q);
    }
  }

  lemma RootQuestion(b: seq<byte>, p: nat, q: DnsQuestion)
    requires q.name == [] && EmitQuestion(q).ok && At(b, p, EmitQuestion(q).bytes) && ReadAs(b, p, q)
    ensures var next := ParseQuestion(b, p).value.next;
            next == p + 5 < |b| && |EmitQuestion(q).bytes| == 6 && b[next] == 1
  {
    hide At, ReadLabels;
    RootNameDoesNotRoundTrip();
    var kind := U16Bytes(q.qtype.ToNum());
    assert EmitQuestion(q).bytes == [0] + ([0] + kind + [0] + [1]);
    AtSplit(b, p, [0], [0] + kind + [0] + [1]);
    AtSplit(b, p + 1, [0] + kind + [0], [1]);
    AtByte(b, p, 0);
    AtByte(b, p + 5, 1);
    ReadEnd(b, p, MAX_JUMPS);
  }

  lemma NameNotShifted(b: seq<byte>, p: nat, name: Text)
    requires EmitName(name).ok && p < |b| && b[p] == 1 && At(b, p + 1, EmitName(name).bytes)
    requires ReadLabels(b, p, MAX_JUMPS).Ok?
    ensures NameText(ReadLabels(b, p, MAX_JUMPS).value.labels) != name
  {
    SplitHasNoDots(name);
    JoinSplit(name);
    ShiftedNameDiffers(b, p, Split(name), MAX_JUMPS);
  }

  /** As above for a whole section: only its last question can be the misread root. */
  lemma {:induction false} QuestionsValueBack(b: seq<byte>, p: nat, qs: seq<DnsQuestion>)
    requires AsciiNames(qs) && CanonicalTypes(qs)
    requires EmitQuestions(qs).ok && At(b, p, EmitQuestions(qs).bytes)
    requires ParseQuestions(b, p, |qs|).Ok? && ParseQuestions(b, p, |qs|).value.value == qs
    ensures var next, end := ParseQuestions(b, p, |qs|).value.next, p + |EmitQuestions(qs).bytes|;
            || (WireSafeNames(qs) && next == end)
            || (next + 1 == end && next < |b| && b[next] == 1)
    decreases |qs|
  {
    hide At, EmitQuestion, ParseQuestion, WireSafe, Canonical, IsAscii;
    if qs != [] {
      var e, rest := EmitQuestion(qs[0]), EmitQuestions(qs[1..]);
      AtSplit(b, p, e.bytes, rest.bytes);
      HeadRead(b, p, qs);
      QuestionValueBack(b, p, qs[0]);
      var next := ParseQuestion(b, p).value.next;
      if WireSafe(qs[0].name) && next == p + |e.bytes| {
        QuestionsValueBack(b, next, qs[1..]);
      } else if |qs| > 1 {
        SecondNotShifted(b, next, qs[1..]);
      }
    }
  }

  lemma HeadRead(b: seq<byte>, p: nat, qs: seq<DnsQuestion>)
    requires qs != [] && ParseQuestions(b, p, |qs|).Ok? && ParseQuestions(b, p, |qs|).value.value == qs
    ensures ReadAs(b, p, qs[0])
    ensures var m := ParseQuestion(b, p).value.next;
            && ParseQuestions(b, m, |qs| - 1).Ok?
            && ParseQuestions(b, m, |qs| - 1).value == Parsed(qs[1..], ParseQuestions(b, p, |qs|).value.next)
  {
    hide ParseQuestion;
  }

  lemma SecondNotShifted(b: seq<byte>, p: nat, qs: seq<DnsQuestion>)
    requires qs != [] && EmitQuestions(qs).ok && p < |b| && b[p] == 1 && At(b, p + 1, EmitQuestions(qs).bytes)
    ensures !(ParseQuestions(b, p, |qs|).Ok? && ParseQuestions(b, p, |qs|).value.value == qs)
  {
    hide At, EmitName, ReadLabels, NameText, EmitQuestions;
    EmitQuestionsCons(qs);
    AtSplit(b, p + 1, EmitQuestion(qs[0]).bytes, EmitQuestions(qs[1..]).bytes);
    QuestionParts(b, p + 1, qs[0]);
    if ReadLabels(b, p, MAX_JUMPS).Ok? {
      NameNotShifted(b, p, qs[0].name);
    }
  }

  // ---------------------------------------------------------------- records

  lemma UnreadDomain(b: seq<byte>, p: nat)
    requires ReadLabels(b, p, MAX_JUMPS).Err?
    ensures ParseRecord(b, p).Err?
  {
  }

  /**
   * A record read back with the same value is wire-safe and read exactly, or it is a CNAME to the
   * root, read one octet short.
   */
  lemma RecordValueBack(b: seq<byte>, p: nat, r: DnsRecord)
    requires Writable(r) && AsciiRecord(r) && EmitRecord(r).ok && At(b, p, EmitRecord(r).bytes)
    requires ParseRecord(b, p).Ok? && ParseRecord(b, p).value.value == r
    ensures var next, end := ParseRecord(b, p).value.next, p + |EmitRecord(r).bytes|;
            || (WireSafeRecord(r) && next == end)
            || (next + 1 == end && next < |b| && b[next] == 0)
  {
    hide ReadLabels, NameText, EmitName, WireSafe, At, ParseRecord, EmitRecord;
    if r.domain == [] {
      RootRecordLost(b, p, r);
    } else if !WireSafe(r.domain) {
      UnsafeDomainLost(b, p, r);
    } else if r.RCNAME? && !WireSafe(r.host) {
      RootHost(b, p, r);
    } else {
      RecordRoundTrip(b, p, r);
    }
  }

  lemma HostRead(b: seq<byte>, p: nat, r: DnsRecord)
    requires r.RCNAME? && ReadLabels(b, p, MAX_JUMPS).Ok?
    requires ParseRecord(b, p).Ok? && ParseRecord(b, p).value.value == r
    ensures var n := ReadLabels(b, ReadLabels(b, p, MAX_JUMPS).value.next + FIXED, MAX_JUMPS);
            n.Ok? && NameText(n.value.labels) == r.host && n.value.next == ParseRecord(b, p).value.next
  {
    hide ReadLabels, NameText, ParseTxt;
  }

  lemma RootHost(b: seq<byte>, p: nat, r: DnsRecord)
    requires r.RCNAME? && AsciiRecord(r) && EmitRecord(r).ok && At(b, p, EmitRecord(r).bytes)
    requires WireSafe(r.domain) && !WireSafe(r.host)
    requires ParseRecord(b, p).Ok? && ParseRecord(b, p).value.value == r
    ensures var next, end := ParseRecord(b, p).value.next, p + |EmitRecord(r).bytes|;
            next + 1 == end && next < |b| && b[next] == 0
  {
    hide ReadLabels, NameText, EmitLabels, WireSafe, At, ParseRecord, EmitRecord, EmitTail, Split, UntilEmpty, U16Bytes;
    RecordParts(b, p, r);
    CnameTail(r);
    NameRoundTrip(b, p, r.domain);
    HostRead(b, p, r);
    var e := EmitName(r.host);
    var q := p + |EmitName(r.domain).bytes| + FIXED;
    AtSplit(b, q - 2, U16Bytes(|e.bytes| % 0x1_0000), e.bytes);
    WrittenHost(r);
    WrittenNameRead(b, q, r.host);
    TextSurvives(r.host);
    RootNameDoesNotRoundTrip();
    TwoZeros(b, q);
    ReadEnd(b, q, MAX_JUMPS);
  }

  lemma WrittenHost(r: DnsRecord)
    requires r.RCNAME? && EmitTail(r).ok
    ensures EmitName(r.host).ok && forall n: u16 :: |U16Bytes(n)| == 2
  {
    hide EmitName;
  }

  /** Read one octet early, at the last octet of what was before it, a record never spells itself. */
  lemma ShiftedRecordDiffers(b: seq<byte>, p: nat, r: DnsRecord)
    requires Writable(r) && EmitRecord(r).ok && p < |b| && b[p] in {0, 1} && At(b, p + 1, EmitRecord(r).bytes)
    ensures !(ParseRecord(b, p).Ok? && ParseRecord(b, p).value.value == r)
  {
    hide ReadLabels, NameText, EmitName, At, ParseRecord, EmitRecord;
    RecordParts(b, p + 1, r);
    if ReadLabels(b, p, MAX_JUMPS).Err? {
      UnreadDomain(b, p);
    } else if b[p] == 1 {
      NameNotShifted(b, p, r.domain);
      ParsedDomain(b, p);
    } else {
      ReadEnd(b, p, MAX_JUMPS);
      ParsedDomain(b, p);
      RootText();
      if r.domain == [] {
        RootNameDoesNotRoundTrip();
        TwoZeros(b, p + 1);
        ZeroType(b, p);
      }
    }
  }

  lemma RootText()
    ensures NameText([]) == []
  {
  }

  predicate AllWritable(rs: seq<DnsRecord>) {
    forall i :: 0 <= i < |rs| ==> Writable(rs[i])
  }

  predicate AsciiRecords(rs: seq<DnsRecord>) {
    forall i :: 0 <= i < |rs| ==> AsciiRecord(rs[i])
  }

  /** The cursor is where the writer was, or one octet behind it, at the last octet written. */
  predicate OnTrack(b: seq<byte>, next: nat, end: nat, behind: bool) {
    if behind then next + 1 == end && next < |b| && b[next] in {0, 1} else next == end
  }

  /** A section read back with the same value keeps the cursor on track only if it is wire-safe. */
  lemma {:induction false} RecordsValueBack(b: seq<byte>, p: nat, e: nat, behind: bool, rs: seq<DnsRecord>)
    returns (late: bool)
    requires OnTrack(b, p, e, behind) && AllWritable(rs) && AsciiRecords(rs)
    requires EmitRecords(rs).ok && At(b, e, EmitRecords(rs).bytes)
    requires ParseRecords(b, p, |rs|).Ok? && ParseRecords(b, p, |rs|).value.value == rs
    ensures OnTrack(b, ParseRecords(b, p, |rs|).value.next, e + |EmitRecords(rs).bytes|, late)
    ensures !late ==> !behind && WireSafeRecords(rs)
    decreases |rs|
  {
    hide At, EmitRecord, ParseRecord, WireSafeRecord, AsciiRecord, Writable;
    if rs == [] {
      return behind;
    }
    var bytes, rest := EmitRecord(rs[0]).bytes, EmitRecords(rs[1..]);
    AtSplit(b, e, bytes, rest.bytes);
    FirstRead(b, p, rs);
    var next := ParseRecord(b, p).value.next;
    if behind {
      ShiftedRecordDiffers(b, p, rs[0]);
    } else {
      RecordValueBack(b, p, rs[0]);
    }
    late := RecordsValueBack(b, next, e + |bytes|, next != e + |bytes|, rs[1..]);
  }

  lemma FirstRead(b: seq<byte>, p: nat, rs: seq<DnsRecord>)
    requires rs != [] && ParseRecords(b, p, |rs|).Ok? && ParseRecords(b, p, |rs|).value.value == rs
    ensures ParseRecord(b, p).Ok? && ParseRecord(b, p).value.value == rs[0]
    ensures var m := ParseRecord(b, p).value.next;
            && ParseRecords(b, m, |rs| - 1).Ok?
            && ParseRecords(b, m, |rs| - 1).value == Parsed(rs[1..], ParseRecords(b, p, |rs|).value.next)
  {
    hide ParseRecord;
  }

  // ---------------------------------------------------------------- whole messages

  predicate AsciiPacket(p: Packet) {
    AsciiNames(p.questions) && AsciiRecords(p.answers) && AsciiRecords(p.authorities) && AsciiRecords(p.resources)
  }

  predicate WritablePacket(p: Packet) {
    AllWritable(p.answers) && AllWritable(p.authorities) && AllWritable(p.resources)
  }

  /** Written at `at`, the packet is read there as itself, counted, to the end of what was written. */
  predicate PacketReadsBack(b: seq<byte>, at: nat, p: Packet) {
    EmitPacket(p).ok && ParsePacket(b, at) == Ok(Parsed(Counted(p), at + |EmitPacket(p).bytes|))
  }

  lemma SectionsKeep(b: seq<byte>, p: nat, h: DnsHeader, qs: seq<DnsQuestion>)
    ensures ParseSections(b, p, h, qs).Ok? ==>
              && ParseSections(b, p, h, qs).value.value.header == h
              && ParseSections(b, p, h, qs).value.value.questions == qs
  {
    hide ParseRecords;
  }

  lemma SectionsRead(b: seq<byte>, p: nat, x: Packet, end: nat)
    requires ParseSections(b, p, CountedHeader(x), x.questions) == Ok(Parsed(Counted(x), end))
    ensures |x.answers| < 0x1_0000 && |x.authorities| < 0x1_0000 && |x.resources| < 0x1_0000
    ensures ParseRecords(b, p, |x.answers|).Ok? && ParseRecords(b, p, |x.answers|).value.value == x.answers
    ensures var ns := ParseRecords(b, p, |x.answers|).value.next;
            && ParseRecords(b, ns, |x.authorities|).Ok?
            && ParseRecords(b, ns, |x.authorities|).value.value == x.authorities
            && var ar := ParseRecords(b, ns, |x.authorities|).value.next;
               ParseRecords(b, ar, |x.resources|) == Ok(Parsed(x.resources, end))
  {
    hide ParseRecords;
    var h := CountedHeader(x);
    var an := ParseRecords(b, p, h.answers).value;
    RecordsProgress(b, p, h.answers);
    var ns := ParseRecords(b, an.next, h.authoritativeEntries).value;
    RecordsProgress(b, an.next, h.authoritativeEntries);
    RecordsProgress(b, ns.next, h.resourceEntries);
  }

  /**
   * For every ASCII packet of records that are written at all, and at any offset: it reads back as
   * itself, to the end of what was written, exactly when it is wire-safe, that is, when its opcode
   * fits, its sections can be counted, its types are canonical and its names have labels of 1..63
   * lowercase octets.
   */
  lemma PacketRoundTripExact(b: seq<byte>, at: nat, p: Packet)
    requires AsciiPacket(p) && WritablePacket(p)
    requires EmitPacket(p).ok ==> At(b, at, EmitPacket(p).bytes)
    ensures PacketReadsBack(b, at, p) <==> WireSafePacket(p)
  {
    hide EmitPacket, ParseHeader, ParseQuestions, ParseSections, At, EmitQuestions, EmitRecords, HeaderBytes;
    hide AsciiNames, AsciiRecords, AllWritable, WireSafeQuestions, WireSafeRecords, WireSafeNames, CanonicalTypes;
    if WireSafePacket(p) {
      SafePacketOk(p);
      PacketRoundTrip(b, at, p);
    } else if PacketReadsBack(b, at, p) {
      PacketParts(b, at, p);
      ParsedOpcode(b, at);
      var q := at + HEADER_SIZE;
      var h := ParseHeader(b, at).value;
      var qs := ParseQuestions(b, q, h.value.questions).value;
      SectionsKeep(b, qs.next, h.value, qs.value);
      HeaderRead(b, at, CountedHeader(p));
      QuestionsProgress(b, q, h.value.questions);
      ParsedTypesCanonical(b, q, h.value.questions);
      QuestionsValueBack(b, q, p.questions);
      var an := ParseQuestions(b, q, |p.questions|).value.next;
      var e := q + |EmitQuestions(p.questions).bytes|;
      SectionsBack(b, an, e, p, at + |EmitPacket(p).bytes|);
      SafeQuestions(p.questions);
    }
  }

  lemma SafeQuestions(qs: seq<DnsQuestion>)
    ensures WireSafeNames(qs) && CanonicalTypes(qs) <==> WireSafeQuestions(qs)
  {
    hide WireSafe, Canonical;
    if WireSafeQuestions(qs) {
      assert forall i :: 0 <= i < |qs| ==> WireSafeQuestion(qs[i]);
    }
  }

  /** The record sections as a whole: read back, they were met on track and are wire-safe. */
  lemma SectionsBack(b: seq<byte>, p: nat, e: nat, x: Packet, end: nat)
    requires WritablePacket(x) && AsciiPacket(x)
    requires p == e || OnTrack(b, p, e, true)
    requires EmitRecords(x.answers).ok && EmitRecords(x.authorities).ok && EmitRecords(x.resources).ok
    requires var ns := e + |EmitRecords(x.answers).bytes|;
             var ar := ns + |EmitRecords(x.authorities).bytes|;
             && At(b, e, EmitRecords(x.answers).bytes)
             && At(b, ns, EmitRecords(x.authorities).bytes)
             && At(b, ar, EmitRecords(x.resources).bytes)
             && end == ar + |EmitRecords(x.resources).bytes|
    requires ParseSections(b, p, CountedHeader(x), x.questions) == Ok(Parsed(Counted(x), end))
    ensures p == e && WireSafeRecords(x.answers) && WireSafeRecords(x.authorities) && WireSafeRecords(x.resources)
    ensures |x.answers| < 0x1_0000 && |x.authorities| < 0x1_0000 && |x.resources| < 0x1_0000
  {
    hide ParseRecords, ParseSections, At, EmitRecords, AsciiNames, AsciiRecords, AllWritable, WireSafeRecords;
    SectionsRead(b, p, x, end);
    var late := RecordsValueBack(b, p, e, p != e, x.answers);
    var ns := ParseRecords(b, p, |x.answers|).value.next;
    var f := e + |EmitRecords(x.answers).bytes|;
    late := RecordsValueBack(b, ns, f, late, x.authorities);
    var ar := ParseRecords(b, ns, |x.authorities|).value.next;
    late := RecordsValueBack(b, ar, f + |EmitRecords(x.authorities).bytes|, late, x.resources);
  }

  // ---------------------------------------------------------------- messages with skipped records

  /** The records that are written at all. */
  function Kept(rs: seq<DnsRecord>): seq<DnsRecord> {
    if rs == [] then [] else (if Writable(rs[0]) then [rs[0]] else []) + Kept(rs[1..])
  }

  predicate KeptSafe(rs: seq<DnsRecord>) {
    forall i :: 0 <= i < |rs| && Writable(rs[i]) ==> WireSafeRecord(rs[i])
  }

  lemma {:induction false} KeptFacts(rs: seq<DnsRecord>)
    ensures EmitRecords(Kept(rs)) == EmitRecords(rs)
    ensures KeptSafe(rs) ==> WireSafeRecords(Kept(rs))
    ensures |Kept(rs)| <= |rs| && (|Kept(rs)| == |rs| <==> AllWritable(rs))
  {
    hide EmitRecord, WireSafeRecord, Writable;
    if rs != [] {
      var rest := rs[1..];
      KeptFacts(rest);
      if AllWritable(rs) {
        assert forall i :: 0 <= i < |rest| ==> rest[i] == rs[i + 1];
      }
      if Writable(rs[0]) {
        assert Kept(rs)[1..] == Kept(rest);
      } else {
        SkippedEmitsNothing(rs[0]);
        assert Kept(rs) == Kept(rest);
        assert [] + EmitRecords(rest).bytes == EmitRecords(rest).bytes;
      }
    }
  }

  lemma SkippedEmitsNothing(r: DnsRecord)
    requires !Writable(r)
    ensures EmitRecord(r) == Plain([])
  {
  }

  lemma {:induction false} ParseRecordsAppend(b: seq<byte>, p: nat, m: nat, n: nat)
    ensures ParseRecords(b, p, m).Err? ==> ParseRecords(b, p, m + n) == ParseRecords(b, p, m)
    ensures ParseRecords(b, p, m).Ok? ==>
              var x := ParseRecords(b, p, m).value;
              var y := ParseRecords(b, x.next, n);
              (y.Err? ==> ParseRecords(b, p, m + n) == y) && (y.Ok? ==> ParseRecords(b, p, m + n).Ok?)
    decreases m
  {
    hide ParseRecord;
    if m > 0 && ParseRecord(b, p).Ok? {
      ParseRecordsAppend(b, ParseRecord(b, p).value.next, m - 1, n);
    }
  }

  lemma {:induction false} EmitRecordsAppend(a: seq<DnsRecord>, b: seq<DnsRecord>)
    ensures EmitRecords(a + b) == EmitRecords(a).Then(EmitRecords(b))
  {
    hide EmitRecord;
    if a == [] {
      assert a + b == b && [] + EmitRecords(b).bytes == EmitRecords(b).bytes;
    } else {
      EmitRecordsAppend(a[1..], b);
      assert (a + b)[0] == a[0] && (a + b)[1..] == a[1..] + b;
      var e, x, y := EmitRecord(a[0]), EmitRecords(a[1..]), EmitRecords(b);
      assert e.bytes + (x.bytes + y.bytes) == (e.bytes + x.bytes) + y.bytes;
    }
  }

  /** Asked for more records than stand before the end of the message, the parser runs out of it. */
  lemma {:induction false} TooManyAsked(b: seq<byte>, p: nat, rs: seq<DnsRecord>, n: nat)
    requires WireSafeRecords(rs) && At(b, p, EmitRecords(rs).bytes) && p + |EmitRecords(rs).bytes| == |b| && n > |rs|
    ensures ParseRecords(b, p, n) == Err(EndOfBuffer)
    decreases |rs|
  {
    hide At, EmitRecord, ParseRecord, WireSafeRecord;
    if rs == [] {
      NothingLeft(b, p);
    } else {
      var e, rest := EmitRecord(rs[0]), EmitRecords(rs[1..]);
      SafeRecordOk(rs[0]);
      AtSplit(b, p, e.bytes, rest.bytes);
      SafeRecordReads(b, p, rs[0]);
      TooManyAsked(b, p + |e.bytes|, rs[1..], n - 1);
    }
  }

  lemma NothingLeft(b: seq<byte>, p: nat)
    requires p == |b|
    ensures ParseRecord(b, p) == Err(EndOfBuffer)
  {
  }

  function AllRecords(p: Packet): seq<DnsRecord> {
    p.answers + p.authorities + p.resources
  }

  /** The sections fail as one run of all their records would. */
  lemma SectionsAsOne(b: seq<byte>, p: nat, h: DnsHeader, qs: seq<DnsQuestion>)
    requires ParseRecords(b, p, h.answers as int + h.authoritativeEntries + h.resourceEntries) == Err(EndOfBuffer)
    ensures ParseSections(b, p, h, qs) == Err(EndOfBuffer)
  {
    hide ParseRecords;
    var m, n, k: nat := h.answers, h.authoritativeEntries, h.resourceEntries;
    ParseRecordsAppend(b, p, m + n, k);
    ParseRecordsAppend(b, p, m, n);
    if ParseRecords(b, p, m).Ok? && ParseRecords(b, ParseRecords(b, p, m).value.next, n).Ok? {
      ParseRecordsAppend(b, ParseRecords(b, p, m).value.next, n, k);
      ParseRecordsAppend(b, p, m, n + k);
      assert m + n + k == m + (n + k);
    }
  }

  /** Everything a message writes after its questions. */
  lemma RecordsStand(b: seq<byte>, at: nat, p: Packet)
    requires EmitPacket(p).ok && At(b, at, EmitPacket(p).bytes)
    ensures var e, all := at + HEADER_SIZE + |EmitQuestions(p.questions).bytes|, EmitRecords(AllRecords(p));
            At(b, e, all.bytes) && e + |all.bytes| == at + |EmitPacket(p).bytes|
  {
    hide At, EmitQuestions, EmitRecords, HeaderBytes, EmitPacket;
    PacketParts(b, at, p);
    EmitRecordsAppend(p.answers, p.authorities);
    EmitRecordsAppend(p.answers + p.authorities, p.resources);
    var e := at + HEADER_SIZE + |EmitQuestions(p.questions).bytes|;
    AtSplit(b, e, EmitRecords(p.answers).bytes, EmitRecords(p.authorities).bytes);
    AtSplit(b, e, EmitRecords(p.answers + p.authorities).bytes, EmitRecords(p.resources).bytes);
  }

  /**
   * A message that holds a skipped kind counts more records than it writes. With all it does write
   * wire-safe, and nothing after it, it does not parse at all where it was written.
   */
  lemma SkippedMessageLost(b: seq<byte>, at: nat, p: Packet)
    requires |p.questions| < 0x1_0000 && |p.answers| < 0x1_0000
    requires |p.authorities| < 0x1_0000 && |p.resources| < 0x1_0000
    requires WireSafeQuestions(p.questions) && KeptSafe(AllRecords(p)) && !WritablePacket(p)
    requires At(b, at, EmitPacket(p).bytes) && at + |EmitPacket(p).bytes| == |b|
    ensures EmitPacket(p).ok && ParsePacket(b, at) == Err(EndOfBuffer)
  {
    hide EmitPacket, At, EmitQuestions, EmitRecords, HeaderBytes, ParseHeader, ParseQuestions, ParseSections;
    hide KeptSafe, AllWritable, WireSafeQuestions, WireSafeRecords, Kept, WritablePacket, AllRecords;
    KeptPacketOk(p);
    PacketParts(b, at, p);
    HeaderRead(b, at, CountedHeader(p));
    QuestionsRoundTrip(b, at + HEADER_SIZE, p.questions);
    var h := ParseHeader(b, at).value.value;
    RecordsMissing(b, at, p, h);
  }

  lemma RecordsMissing(b: seq<byte>, at: nat, p: Packet, h: DnsHeader)
    requires EmitPacket(p).ok && At(b, at, EmitPacket(p).bytes) && at + |EmitPacket(p).bytes| == |b|
    requires KeptSafe(AllRecords(p)) && !WritablePacket(p)
    requires h.answers == |p.answers| && h.authoritativeEntries == |p.authorities| && h.resourceEntries == |p.resources|
    ensures ParseSections(b, at + HEADER_SIZE + |EmitQuestions(p.questions).bytes|, h, p.questions) == Err(EndOfBuffer)
  {
    hide EmitPacket, At, EmitQuestions, EmitRecords, ParseSections, ParseRecords, KeptSafe, AllWritable, WritablePacket;
    hide WireSafeRecords, Kept;
    RecordsStand(b, at, p);
    var all := AllRecords(p);
    var e := at + HEADER_SIZE + |EmitQuestions(p.questions).bytes|;
    KeptFacts(all);
    AllWritableParts(p);
    TooManyAsked(b, e, Kept(all), |all|);
    SectionsAsOne(b, e, h, p.questions);
  }

  lemma AllWritableParts(p: Packet)
    ensures AllWritable(AllRecords(p)) ==> WritablePacket(p)
  {
    hide Writable;
    var all, m, n := AllRecords(p), |p.answers|, |p.authorities|;
    assert forall i :: 0 <= i < m ==> p.answers[i] == all[i];
    assert forall i :: 0 <= i < n ==> p.authorities[i] == all[m + i];
    assert forall i :: 0 <= i < |p.resources| ==> p.resources[i] == all[m + n + i];
  }

  lemma KeptPacketOk(p: Packet)
    requires WireSafeQuestions(p.questions) && KeptSafe(AllRecords(p))
    ensures EmitPacket(p).ok
  {
    hide EmitQuestions, EmitRecords, HeaderBytes, KeptSafe, WireSafeQuestions, WireSafeRecords, Kept, CountedHeader;
    QuestionsRoundTrip([], 0, p.questions);
    KeptFacts(AllRecords(p));
    RecordsRoundTrip([], 0, Kept(AllRecords(p)));
    EmitRecordsAppend(p.answers, p.authorities);
    EmitRecordsAppend(p.answers + p.authorities, p.resources);
  }
}
