/** Whole messages (section 4.1 of RFC 1035) of lib/protocol/packet.rs. */
module Packets {
  import opened Prelude
  import opened Texts
  import opened Names
  import opened Buffers
  import opened Headers
  import opened Questions
  import opened Records

  /** The value of a `DnsPacket` object. */
  datatype Packet = Packet(
    header: DnsHeader,
    questions: seq<DnsQuestion>,
    answers: seq<DnsRecord>,
    authorities: seq<DnsRecord>,
    resources: seq<DnsRecord>)

  const NEW_HEADER :=
    DnsHeader(0, false, false, false, 0, false, NOERROR, false, false, false, false, 0, 0, 0, 0)

  // ---------------------------------------------------------------- reading

  function ParseQuestions(b: seq<byte>, p: nat, n: nat): Result<Parsed<seq<DnsQuestion>>>
    decreases n
  {
    if n == 0 then Ok(Parsed([], p))
    else
      match ParseQuestion(b, p)
      case Err(e) => Err(e)
      case Ok(q) =>
        match ParseQuestions(b, q.next, n - 1)
        case Err(e) => Err(e)
        case Ok(rest) => Ok(Parsed([q.value] + rest.value, rest.next))
  }

  function ParseRecords(b: seq<byte>, p: nat, n: nat): Result<Parsed<seq<DnsRecord>>>
    decreases n
  {
    if n == 0 then Ok(Parsed([], p))
    else
      match ParseRecord(b, p)
      case Err(e) => Err(e)
      case Ok(r) =>
        match ParseRecords(b, r.next, n - 1)
        case Err(e) => Err(e)
        case Ok(rest) => Ok(Parsed([r.value] + rest.value, rest.next))
  }

  /** The three record sections, from `p`. */
  function ParseSections(b: seq<byte>, p: nat, h: DnsHeader, qs: seq<DnsQuestion>): Result<Parsed<Packet>> {
    match ParseRecords(b, p, h.answers)
    case Err(e) => Err(e)
    case Ok(an) =>
      match ParseRecords(b, an.next, h.authoritativeEntries)
      case Err(e) => Err(e)
      case Ok(ns) =>
        match ParseRecords(b, ns.next, h.resourceEntries)
        case Err(e) => Err(e)
        case Ok(ar) => Ok(Parsed(Packet(h, qs, an.value, ns.value, ar.value), ar.next))
  }

  function ParsePacket(b: seq<byte>, p: nat): Result<Parsed<Packet>> {
    match ParseHeader(b, p)
    case Err(e) => Err(e)
    case Ok(h) =>
      match ParseQuestions(b, h.next, h.value.questions)
      case Err(e) => Err(e)
      case Ok(qs) => ParseSections(b, qs.next, h.value, qs.value)
  }

  // ---------------------------------------------------------------- writing

  function EmitQuestions(qs: seq<DnsQuestion>): Emission {
    if qs == [] then Plain([]) else EmitQuestion(qs[0]).Then(EmitQuestions(qs[1..]))
  }

  function EmitRecords(rs: seq<DnsRecord>): Emission {
    if rs == [] then Plain([]) else EmitRecord(rs[0]).Then(EmitRecords(rs[1..]))
  }

  /** The section sizes as the writer stores them: truncated to sixteen bits. */
  function CountedHeader(p: Packet): DnsHeader {
    p.header.(questions := |p.questions| % 0x1_0000,
              answers := |p.answers| % 0x1_0000,
              authoritativeEntries := |p.authorities| % 0x1_0000,
              resourceEntries := |p.resources| % 0x1_0000)
  }

  function Counted(p: Packet): Packet {
    p.(header := CountedHeader(p))
  }

  function EmitPacket(p: Packet): Emission {
    Plain(HeaderBytes(CountedHeader(p)))
      .Then(EmitQuestions(p.questions))
      .Then(EmitRecords(p.answers))
      .Then(EmitRecords(p.authorities))
      .Then(EmitRecords(p.resources))
  }

  // ---------------------------------------------------------------- the round trip

  predicate WireSafeQuestions(qs: seq<DnsQuestion>) {
    forall i :: 0 <= i < |qs| ==> WireSafeQuestion(qs[i])
  }

  predicate WireSafeRecords(rs: seq<DnsRecord>) {
    forall i :: 0 <= i < |rs| ==> WireSafeRecord(rs[i])
  }

  /** The messages that survive the wire. */
  predicate WireSafePacket(p: Packet) {
    && p.header.opcode < 16
    && |p.questions| < 0x1_0000 && |p.answers| < 0x1_0000
    && |p.authorities| < 0x1_0000 && |p.resources| < 0x1_0000
    && WireSafeQuestions(p.questions)
    && WireSafeRecords(p.answers) && WireSafeRecords(p.authorities) && WireSafeRecords(p.resources)
  }

  lemma SafeNameOk(name: Text)
    requires WireSafe(name)
    ensures IsAscii(name) && EmitName(name).ok
  {
    EmitLabelsOk(Split(name));
  }

  lemma {:induction false} QuestionsRoundTrip(b: seq<byte>, p: nat, qs: seq<DnsQuestion>)
    requires WireSafeQuestions(qs)
    ensures EmitQuestions(qs).ok
    ensures At(b, p, EmitQuestions(qs).bytes) ==>
              ParseQuestions(b, p, |qs|) == Ok(Parsed(qs, p + |EmitQuestions(qs).bytes|))
    decreases |qs|
  {
    hide EmitQuestions, ParseQuestions, At, EmitName, ParseQuestion, WireSafe, Canonical;
    if qs == [] {
      QuestionsNone(b, p);
    } else {
      var e := EmitQuestion(qs[0]);
      SafeNameOk(qs[0].name);
      QuestionsRoundTrip(b, p + |e.bytes|, qs[1..]);
      EmitQuestionsCons(qs);
      AtSplit(b, p, e.bytes, EmitQuestions(qs[1..]).bytes);
      SafeQuestionReads(b, p, qs[0]);
      ParseQuestionsCons(b, p, qs);
    }
  }

  lemma QuestionsNone(b: seq<byte>, p: nat)
    ensures EmitQuestions([]) == Plain([]) && ParseQuestions(b, p, 0) == Ok(Parsed([], p))
  {
  }

  lemma EmitQuestionsCons(qs: seq<DnsQuestion>)
    requires qs != []
    ensures EmitQuestions(qs) == EmitQuestion(qs[0]).Then(EmitQuestions(qs[1..]))
  {
  }

  lemma ParseQuestionsCons(b: seq<byte>, p: nat, qs: seq<DnsQuestion>)
    requires qs != []
    ensures ParseQuestion(b, p).Ok? && ParseQuestion(b, p).value.value == qs[0] ==>
              var m := ParseQuestion(b, p).value.next;
              forall next :: ParseQuestions(b, m, |qs| - 1) == Ok(Parsed(qs[1..], next)) ==>
                               ParseQuestions(b, p, |qs|) == Ok(Parsed(qs, next))
  {
    hide ParseQuestion;
    assert qs == [qs[0]] + qs[1..];
  }

  lemma SafeQuestionReads(b: seq<byte>, p: nat, q: DnsQuestion)
    requires WireSafeQuestion(q)
    ensures At(b, p, EmitQuestion(q).bytes) ==> QuestionReadsBack(b, p, q)
  {
    SafeNameOk(q.name);
    if At(b, p, EmitQuestion(q).bytes) {
      QuestionRoundTrip(b, p, q);
    }
  }

  lemma SafeRecordOk(r: DnsRecord)
    requires WireSafeRecord(r)
    ensures AsciiRecord(r) && EmitRecord(r).ok
  {
    SafeNameOk(r.domain);
    if r.RCNAME? {
      SafeNameOk(r.host);
    }
  }

  lemma {:induction false} RecordsRoundTrip(b: seq<byte>, p: nat, rs: seq<DnsRecord>)
    requires WireSafeRecords(rs)
    ensures EmitRecords(rs).ok
    ensures At(b, p, EmitRecords(rs).bytes) ==>
              ParseRecords(b, p, |rs|) == Ok(Parsed(rs, p + |EmitRecords(rs).bytes|))
    decreases |rs|
  {
    hide EmitRecords, ParseRecords, At, EmitRecord, ParseRecord, WireSafeRecord;
    if rs == [] {
      RecordsNone(b, p);
    } else {
      var e := EmitRecord(rs[0]);
      SafeRecordOk(rs[0]);
      RecordsRoundTrip(b, p + |e.bytes|, rs[1..]);
      EmitRecordsCons(rs);
      AtSplit(b, p, e.bytes, EmitRecords(rs[1..]).bytes);
      SafeRecordReads(b, p, rs[0]);
      ParseRecordsCons(b, p, rs);
    }
  }

  lemma RecordsNone(b: seq<byte>, p: nat)
    ensures EmitRecords([]) == Plain([]) && ParseRecords(b, p, 0) == Ok(Parsed([], p))
  {
  }

  lemma EmitRecordsCons(rs: seq<DnsRecord>)
    requires rs != []
    ensures EmitRecords(rs) == EmitRecord(rs[0]).Then(EmitRecords(rs[1..]))
  {
  }

  lemma ParseRecordsCons(b: seq<byte>, p: nat, rs: seq<DnsRecord>)
    requires rs != []
    ensures ParseRecord(b, p).Ok? && ParseRecord(b, p).value.value == rs[0] ==>
              var m := ParseRecord(b, p).value.next;
              forall next :: ParseRecords(b, m, |rs| - 1) == Ok(Parsed(rs[1..], next)) ==>
                               ParseRecords(b, p, |rs|) == Ok(Parsed(rs, next))
  {
    hide ParseRecord;
    assert rs == [rs[0]] + rs[1..];
  }

  lemma SafeRecordReads(b: seq<byte>, p: nat, r: DnsRecord)
    requires WireSafeRecord(r)
    ensures At(b, p, EmitRecord(r).bytes) ==> RecordReadsBack(b, p, r)
  {
    hide WireSafeRecord, RecordReadsBack;
    SafeRecordOk(r);
    if At(b, p, EmitRecord(r).bytes) {
      RecordRoundTrip(b, p, r);
    }
  }

  /** Where each section of a written packet stands. */
  lemma PacketParts(b: seq<byte>, at: nat, p: Packet)
    requires EmitPacket(p).ok && At(b, at, EmitPacket(p).bytes)
    ensures EmitQuestions(p.questions).ok && EmitRecords(p.answers).ok
    ensures EmitRecords(p.authorities).ok && EmitRecords(p.resources).ok
    ensures var q := at + HEADER_SIZE;
            var an := q + |EmitQuestions(p.questions).bytes|;
            var ns := an + |EmitRecords(p.answers).bytes|;
            var ar := ns + |EmitRecords(p.authorities).bytes|;
            && At(b, at, HeaderBytes(CountedHeader(p)))
            && At(b, q, EmitQuestions(p.questions).bytes)
            && At(b, an, EmitRecords(p.answers).bytes)
            && At(b, ns, EmitRecords(p.authorities).bytes)
            && At(b, ar, EmitRecords(p.resources).bytes)
            && at + |EmitPacket(p).bytes| == ar + |EmitRecords(p.resources).bytes|
  {
    hide At, EmitQuestions, EmitRecords, CountedHeader;
    var h, q := HeaderBytes(CountedHeader(p)), EmitQuestions(p.questions).bytes;
    var an, ns, ar := EmitRecords(p.answers).bytes, EmitRecords(p.authorities).bytes, EmitRecords(p.resources).bytes;
    AtSplit(b, at, h + q + an + ns, ar);
    AtSplit(b, at, h + q + an, ns);
    AtSplit(b, at, h + q, an);
    AtSplit(b, at, h, q);
  }

  lemma SafePacketOk(p: Packet)
    requires WireSafePacket(p)
    ensures EmitPacket(p).ok
  {
    hide EmitQuestions, EmitRecords, WireSafeQuestions, WireSafeRecords, CountedHeader;
    QuestionsRoundTrip([], 0, p.questions);
    RecordsRoundTrip([], 0, p.answers);
    RecordsRoundTrip([], 0, p.authorities);
    RecordsRoundTrip([], 0, p.resources);
  }

  lemma SectionsRoundTrip(b: seq<byte>, p: nat, x: Packet)
    requires WireSafeRecords(x.answers) && WireSafeRecords(x.authorities) && WireSafeRecords(x.resources)
    requires CountsAgree(x)
    requires var ns := p + |EmitRecords(x.answers).bytes|;
             && At(b, p, EmitRecords(x.answers).bytes)
             && At(b, ns, EmitRecords(x.authorities).bytes)
             && At(b, ns + |EmitRecords(x.authorities).bytes|, EmitRecords(x.resources).bytes)
    ensures ParseSections(b, p, x.header, x.questions)
         == Ok(Parsed(x, p + |EmitRecords(x.answers).bytes| + |EmitRecords(x.authorities).bytes|
                           + |EmitRecords(x.resources).bytes|))
  {
    hide At, EmitRecords, ParseRecords, WireSafeRecords;
    var ns := p + |EmitRecords(x.answers).bytes|;
    RecordsRoundTrip(b, p, x.answers);
    RecordsRoundTrip(b, ns, x.authorities);
    RecordsRoundTrip(b, ns + |EmitRecords(x.authorities).bytes|, x.resources);
  }

  /** The header of `p` states the sizes of its sections. */
  predicate CountsAgree(p: Packet) {
    && p.header.questions == |p.questions|
    && p.header.answers == |p.answers|
    && p.header.authoritativeEntries == |p.authorities|
    && p.header.resourceEntries == |p.resources|
  }

  lemma CountedAgrees(p: Packet)
    ensures CountsAgree(p) ==> CountedHeader(p) == p.header
    ensures WireSafePacket(p) ==> CountsAgree(Counted(p)) && WireSafePacket(Counted(p))
    ensures EmitPacket(Counted(p)) == EmitPacket(p)
  {
  }

  lemma CountedRoundTrip(b: seq<byte>, at: nat, x: Packet)
    requires WireSafePacket(x) && CountsAgree(x) && At(b, at, EmitPacket(x).bytes)
    ensures ParsePacket(b, at) == Ok(Parsed(x, at + |EmitPacket(x).bytes|))
  {
    hide EmitPacket, At, EmitQuestions, EmitRecords, ParseHeader, ParseQuestions, ParseSections, HeaderBytes;
    hide WireSafeQuestions, WireSafeRecords, CountedHeader;
    SafePacketOk(x);
    PacketParts(b, at, x);
    CountedAgrees(x);
    HeaderRoundTrip(b, at, x.header);
    var q := at + HEADER_SIZE;
    QuestionsRoundTrip(b, q, x.questions);
    SectionsRoundTrip(b, q + |EmitQuestions(x.questions).bytes|, x);
  }

  /**
   * Writing a wire-safe packet succeeds, and reading where it was written gives it back, with the
   * section sizes in its header and the cursor exactly at the end.
   */
  lemma PacketRoundTrip(b: seq<byte>, at: nat, p: Packet)
    requires WireSafePacket(p) && At(b, at, EmitPacket(p).bytes)
    ensures EmitPacket(p).ok
    ensures ParsePacket(b, at) == Ok(Parsed(Counted(p), at + |EmitPacket(p).bytes|))
  {
    hide EmitPacket, At, ParsePacket, CountsAgree, WireSafePacket, Counted;
    SafePacketOk(p);
    CountedAgrees(p);
    CountedRoundTrip(b, at, Counted(p));
  }

  // ---------------------------------------------------------------- progress and size

  /** Reading a question consumes at least five octets, all of them inside the message. */
  lemma QuestionProgress(b: seq<byte>, p: nat)
    requires ParseQuestion(b, p).Ok?
    ensures p + 5 <= ParseQuestion(b, p).value.next <= |b|
  {
    hide ReadLabels, NameText;
    DecompressionBound(b, p);
  }

  lemma {:induction false} QuestionsProgress(b: seq<byte>, p: nat, n: nat)
    requires ParseQuestions(b, p, n).Ok?
    ensures var r := ParseQuestions(b, p, n).value;
            |r.value| == n && p + 5 * n <= r.next && (p <= |b| ==> r.next <= |b|)
    decreases n
  {
    if n > 0 {
      hide ParseQuestion;
      QuestionProgress(b, p);
      QuestionsProgress(b, ParseQuestion(b, p).value.next, n - 1);
    }
  }

  lemma {:induction false} RecordsProgress(b: seq<byte>, p: nat, n: nat)
    requires ParseRecords(b, p, n).Ok?
    ensures var r := ParseRecords(b, p, n).value;
            |r.value| == n && p + 11 * n <= r.next && (n > 0 ==> p + 11 * n <= |b|)
    decreases n
  {
    if n > 0 {
      hide ParseRecord;
      RecordProgress(b, p, ParseRecord(b, p).value.value, ParseRecord(b, p).value.next);
      RecordsProgress(b, ParseRecord(b, p).value.next, n - 1);
    }
  }

  lemma SectionsSize(b: seq<byte>, p: nat, h: DnsHeader, qs: seq<DnsQuestion>)
    requires p <= |b| && |qs| == h.questions && ParseSections(b, p, h, qs).Ok?
    ensures var r := ParseSections(b, p, h, qs).value;
            var size := 11 * (|r.value.answers| + |r.value.authorities| + |r.value.resources|);
            && r.value.header == h && r.value.questions == qs
            && CountsAgree(r.value) && p + size <= |b| && p + size <= r.next
  {
    hide ParseRecords;
    RecordsProgress(b, p, h.answers);
    var an := ParseRecords(b, p, h.answers).value;
    RecordsProgress(b, an.next, h.authoritativeEntries);
    var ns := ParseRecords(b, an.next, h.authoritativeEntries).value;
    RecordsProgress(b, ns.next, h.resourceEntries);
  }

  lemma ParsedOpcode(b: seq<byte>, p: nat)
    requires ParseHeader(b, p).Ok?
    ensures ParseHeader(b, p).value.next == p + HEADER_SIZE <= |b|
    ensures ParseHeader(b, p).value.value.opcode < 16
  {
  }

  /**
   * A message that parses is at least twelve octets, five more for each question and eleven for
   * each record, though pointers jump backwards and skipped data may run past the end.
   */
  lemma ParsedPacketSize(b: seq<byte>, p: nat, q: Packet, next: nat)
    requires ParsePacket(b, p) == Ok(Parsed(q, next))
    ensures CountsAgree(q) && q.header.opcode < 16
    ensures var size := HEADER_SIZE + 5 * |q.questions| + 11 * (|q.answers| + |q.authorities| + |q.resources|);
            p + size <= |b| && p + size <= next
  {
    hide ParseHeader, ParseQuestions, ParseSections, CountsAgree;
    ParsedOpcode(b, p);
    var h := ParseHeader(b, p).value;
    QuestionsProgress(b, h.next, h.value.questions);
    var qs := ParseQuestions(b, h.next, h.value.questions).value;
    SectionsSize(b, qs.next, h.value, qs.value);
  }

  // ---------------------------------------------------------------- the object

  lemma QuestionsSoFar(got: seq<DnsQuestion>, q: DnsQuestion, rest: seq<DnsQuestion>)
    ensures got + ([q] + rest) == (got + [q]) + rest
  {
  }

  lemma RecordsSoFar(got: seq<DnsRecord>, r: DnsRecord, rest: seq<DnsRecord>)
    ensures got + ([r] + rest) == (got + [r]) + rest
  {
  }

  class DnsPacket {
    var header: DnsHeader
    var questions: seq<DnsQuestion>
    var answers: seq<DnsRecord>
    var authorities: seq<DnsRecord>
    var resources: seq<DnsRecord>

    function Value(): Packet
      reads this
    {
      Packet(header, questions, answers, authorities, resources)
    }

    constructor ()
      ensures Value() == Packet(NEW_HEADER, [], [], [], [])
    {
      header := NEW_HEADER;
      questions, answers, authorities, resources := [], [], [], [];
    }

    /** Parse a message: the count-driven section loops. */
    static method FromBuffer(buffer: BytePacketBuffer) returns (r: Result<DnsPacket>)
      modifies buffer`pos
      ensures r.Ok? ==> fresh(r.value)
      ensures match ParsePacket(buffer.buf, old(buffer.pos))
              case Ok(p) => r.Ok? && r.value.Value() == p.value && buffer.pos == p.next
              case Err(e) => r == Err(e)
    {
      hide ParseHeader, ParseQuestions, ParseRecords;
      ghost var b, p := buffer.buf, buffer.pos;
      var result := new DnsPacket();
      result.header :- ReadHeader(buffer);
      HeaderNext(b, p);
      result.questions :- ReadQuestions(buffer, result.header.questions);
      result.answers :- ReadRecords(buffer, result.header.answers);
      result.authorities :- ReadRecords(buffer, result.header.authoritativeEntries);
      result.resources :- ReadRecords(buffer, result.header.resourceEntries);
      return Ok(result);
    }

    /** Store the section sizes in the header and write every section. */
    method Write(buffer: BytePacketBuffer) returns (r: Result<()>)
      modifies this`header, buffer
      ensures var e := EmitPacket(old(Value()));
              && r == (if e.ok then Ok(()) else Err(LabelTooLong))
              && buffer.buf == Overlay(old(buffer.buf), old(buffer.pos), e.bytes)
              && buffer.pos == old(buffer.pos) + |e.bytes|
      ensures Value() == Counted(old(Value()))
    {
      hide Overlay, EmitQuestions, EmitRecords, HeaderBytes;
      ghost var b, p := buffer.buf, buffer.pos;
      header := header.(questions := |questions| % 0x1_0000,
                        answers := |answers| % 0x1_0000,
                        authoritativeEntries := |authorities| % 0x1_0000,
                        resourceEntries := |resources| % 0x1_0000);
      HeaderLength(header);
      WriteHeader(header, buffer);
      ghost var done := HeaderBytes(header);
      OverlayAppend(b, p, done, EmitQuestions(questions).bytes);
      var _ :- WriteQuestions(questions, buffer);
      done := done + EmitQuestions(questions).bytes;
      OverlayAppend(b, p, done, EmitRecords(answers).bytes);
      var _ :- WriteRecords(answers, buffer);
      done := done + EmitRecords(answers).bytes;
      OverlayAppend(b, p, done, EmitRecords(authorities).bytes);
      var _ :- WriteRecords(authorities, buffer);
      done := done + EmitRecords(authorities).bytes;
      OverlayAppend(b, p, done, EmitRecords(resources).bytes);
      var _ :- WriteRecords(resources, buffer);
      return Ok(());
    }
  }

  lemma HeaderNext(b: seq<byte>, p: nat)
    ensures ParseHeader(b, p).Ok? ==> ParseHeader(b, p).value.next == p + HEADER_SIZE
  {
  }

  lemma HeaderLength(h: DnsHeader)
    ensures |HeaderBytes(h)| == HEADER_SIZE
  {
  }

  method ReadQuestions(buffer: BytePacketBuffer, n: u16) returns (r: Result<seq<DnsQuestion>>)
    modifies buffer`pos
    ensures r == Outcome(ParseQuestions(buffer.buf, old(buffer.pos), n))
    ensures r.Ok? ==> buffer.pos == ParseQuestions(buffer.buf, old(buffer.pos), n).value.next
  {
    hide ParseQuestion;
    ghost var b, p := buffer.buf, buffer.pos;
    ghost var whole := ParseQuestions(b, p, n);
    var got: seq<DnsQuestion> := [];
    var i: nat := 0;
    assert whole.Ok? ==> got + whole.value.value == whole.value.value;
    while i < n
      invariant 0 <= i <= n && buffer.buf == b
      invariant match ParseQuestions(b, buffer.pos, n - i)
                case Err(e) => whole == Err(e)
                case Ok(rest) => whole == Ok(Parsed(got + rest.value, rest.next))
    {
      ghost var here := buffer.pos;
      var q :- ReadQuestion(buffer);
      ghost var rest := ParseQuestions(b, buffer.pos, n - i - 1);
      if rest.Ok? {
        QuestionsSoFar(got, q, rest.value.value);
      }
      got := got + [q];
      i := i + 1;
    }
    assert got + [] == got;
    return Ok(got);
  }

  method ReadRecords(buffer: BytePacketBuffer, n: u16) returns (r: Result<seq<DnsRecord>>)
    modifies buffer`pos
    ensures r == Outcome(ParseRecords(buffer.buf, old(buffer.pos), n))
    ensures r.Ok? ==> buffer.pos == ParseRecords(buffer.buf, old(buffer.pos), n).value.next
  {
    hide ParseRecord;
    ghost var b, p := buffer.buf, buffer.pos;
    ghost var whole := ParseRecords(b, p, n);
    var got: seq<DnsRecord> := [];
    var i: nat := 0;
    assert whole.Ok? ==> got + whole.value.value == whole.value.value;
    while i < n
      invariant 0 <= i <= n && buffer.buf == b
      invariant match ParseRecords(b, buffer.pos, n - i)
                case Err(e) => whole == Err(e)
                case Ok(rest) => whole == Ok(Parsed(got + rest.value, rest.next))
    {
      var rec :- ReadRecord(buffer);
      ghost var rest := ParseRecords(b, buffer.pos, n - i - 1);
      if rest.Ok? {
        RecordsSoFar(got, rec, rest.value.value);
      }
      got := got + [rec];
      i := i + 1;
    }
    assert got + [] == got;
    return Ok(got);
  }

  method WriteQuestions(qs: seq<DnsQuestion>, buffer: BytePacketBuffer) returns (r: Result<()>)
    modifies buffer
    ensures var e := EmitQuestions(qs);
            && r == (if e.ok then Ok(()) else Err(LabelTooLong))
            && buffer.buf == Overlay(old(buffer.buf), old(buffer.pos), e.bytes)
            && buffer.pos == old(buffer.pos) + |e.bytes|
  {
    hide Overlay, EmitQuestion;
    ghost var b, p := buffer.buf, buffer.pos;
    ghost var done: seq<byte> := [];
    OverlayNothing(b, p);
    var i := 0;
    assert qs[0..] == qs && done + EmitQuestions(qs).bytes == EmitQuestions(qs).bytes;
    while i < |qs|
      invariant 0 <= i <= |qs|
      invariant EmitQuestions(qs) == Plain(done).Then(EmitQuestions(qs[i..]))
      invariant buffer.buf == Overlay(b, p, done) && buffer.pos == p + |done|
    {
      ghost var e, rest := EmitQuestion(qs[i]), EmitQuestions(qs[i + 1..]);
      assert qs[i..][1..] == qs[i + 1..];
      assert done + (e.bytes + rest.bytes) == (done + e.bytes) + rest.bytes;
      OverlayAppend(b, p, done, e.bytes);
      var _ :- WriteQuestion(qs[i], buffer);
      done := done + e.bytes;
      i := i + 1;
    }
    assert done + [] == done;
    return Ok(());
  }

  method WriteRecords(rs: seq<DnsRecord>, buffer: BytePacketBuffer) returns (r: Result<()>)
    modifies buffer
    ensures var e := EmitRecords(rs);
            && r == (if e.ok then Ok(()) else Err(LabelTooLong))
            && buffer.buf == Overlay(old(buffer.buf), old(buffer.pos), e.bytes)
            && buffer.pos == old(buffer.pos) + |e.bytes|
  {
    hide Overlay, EmitRecord;
    ghost var b, p := buffer.buf, buffer.pos;
    ghost var done: seq<byte> := [];
    OverlayNothing(b, p);
    var i := 0;
    assert rs[0..] == rs && done + EmitRecords(rs).bytes == EmitRecords(rs).bytes;
    while i < |rs|
      invariant 0 <= i <= |rs|
      invariant EmitRecords(rs) == Plain(done).Then(EmitRecords(rs[i..]))
      invariant buffer.buf == Overlay(b, p, done) && buffer.pos == p + |done|
    {
      ghost var e, rest := EmitRecord(rs[i]), EmitRecords(rs[i + 1..]);
      assert rs[i..][1..] == rs[i + 1..];
      assert done + (e.bytes + rest.bytes) == (done + e.bytes) + rest.bytes;
      OverlayAppend(b, p, done, e.bytes);
      var _ :- WriteRecord(rs[i], buffer);
      done := done + e.bytes;
      i := i + 1;
    }
    assert done + [] == done;
    return Ok(());
  }
}
