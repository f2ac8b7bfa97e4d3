/**
 * The octets that leave the program, spelled out: what lib/protocol/question.rs and lib/protocol/record.rs
 * write after each name, and every octet of a block response of lib/blocking.rs.
 */
module WireOctets {
  import opened Prelude
  import opened Names
  import opened Headers
  import opened Questions
  import opened Records
  import opened Packets
  import opened Blocking

  function TypeOctets(t: QueryType): seq<byte> {
    match t
    case A => [0, 1]
    case NS => [0, 2]
    case CNAME => [0, 5]
    case MX => [0, 15]
    case TXT => [0, 16]
    case AAAA => [0, 28]
    case UNKNOWN(n) => [n / 256, n % 256]
  }

  function TtlOctets(ttl: u32): seq<byte> {
    [ttl / 16777216, ttl / 65536 % 256, ttl / 256 % 256, ttl % 256]
  }

  /** As much of a number as sixteen bits can say. */
  function CountOctets(n: nat): seq<byte> {
    [n / 256 % 256, n % 256]
  }

  /** Two octets of length, and what they count. */
  function Sized(x: seq<byte>): seq<byte> {
    CountOctets(|x|) + x
  }

  /** A question: its name, its type and the class IN. */
  function QuestionOctets(q: DnsQuestion): seq<byte> {
    EmitName(q.name).bytes + TypeOctets(q.qtype) + [0, 1]
  }

  /** A record: its name, its type, the class IN, its ttl and its sized data; the other kinds are nothing. */
  function RecordOctets(r: DnsRecord): seq<byte> {
    match r
    case RA(domain, addr, ttl) => EmitName(domain).bytes + [0, 1, 0, 1] + TtlOctets(ttl) + [0, 4] + addr
    case RAAAA(domain, addr, ttl) => EmitName(domain).bytes + [0, 28, 0, 1] + TtlOctets(ttl) + [0, 16] + addr
    case RCNAME(domain, host, ttl) =>
      EmitName(domain).bytes + [0, 5, 0, 1] + TtlOctets(ttl) + Sized(EmitName(host).bytes)
    case _ => []
  }

  function QuestionsOctets(qs: seq<DnsQuestion>): seq<byte> {
    if qs == [] then [] else QuestionOctets(qs[0]) + QuestionsOctets(qs[1..])
  }

  function RecordsOctets(rs: seq<DnsRecord>): seq<byte> {
    if rs == [] then [] else RecordOctets(rs[0]) + RecordsOctets(rs[1..])
  }

  // ---------------------------------------------------------------- questions and records

  lemma QuestionWritten(q: DnsQuestion)
    requires EmitQuestion(q).ok
    ensures EmitQuestion(q).bytes == QuestionOctets(q)
  {
    hide EmitName;
    var name := EmitName(q.name).bytes;
    assert U16Bytes(q.qtype.ToNum()) == TypeOctets(q.qtype) && U16Bytes(1) == [0, 1];
    assert name + (TypeOctets(q.qtype) + [0, 1]) == name + TypeOctets(q.qtype) + [0, 1];
  }

  lemma FixedWritten(domain: Text, qtype: QueryType, ttl: u32)
    requires EmitFixed(domain, qtype, ttl).ok
    ensures EmitFixed(domain, qtype, ttl).bytes
            == EmitName(domain).bytes + (TypeOctets(qtype) + [0, 1]) + TtlOctets(ttl)
  {
    hide EmitName;
    var name, kind := EmitName(domain).bytes, TypeOctets(qtype) + [0, 1];
    assert U16Bytes(qtype.ToNum()) == TypeOctets(qtype) && U16Bytes(1) == [0, 1] && U32Bytes(ttl) == TtlOctets(ttl);
    assert name + (kind + TtlOctets(ttl)) == name + kind + TtlOctets(ttl);
  }

  lemma SizedWritten(payload: Emission)
    requires payload.ok
    ensures EmitSized(payload) == Plain(Sized(payload.bytes))
  {
    var n := |payload.bytes|;
    SixteenBits(n);
  }

  lemma SixteenBits(n: nat)
    ensures n % 65536 / 256 == n / 256 % 256 && n % 65536 % 256 == n % 256
  {
    var a, c := n / 256, n / 65536;
    assert n == 65536 * c + n % 65536;
    assert a == 256 * c + n % 65536 / 256;
  }

  /** After its name, a written record has the type 1, 28 or 5, the class 1, the ttl, and its data sized. */
  lemma RecordWritten(r: DnsRecord)
    requires EmitRecord(r).ok
    ensures EmitRecord(r).bytes == RecordOctets(r)
  {
    hide EmitName, EmitFixed, EmitSized, TtlOctets;
    match r
    case RA(domain, addr, ttl) =>
      FixedWritten(domain, A, ttl);
      assert [0, 1] + [0, 1] == [0, 1, 0, 1];
      Regroup(EmitFixed(domain, A, ttl).bytes, [0, 4], addr);
    case RAAAA(domain, addr, ttl) =>
      FixedWritten(domain, AAAA, ttl);
      assert [0, 28] + [0, 1] == [0, 28, 0, 1];
      Regroup(EmitFixed(domain, AAAA, ttl).bytes, [0, 16], addr);
    case RCNAME(domain, host, ttl) =>
      FixedWritten(domain, CNAME, ttl);
      assert [0, 5] + [0, 1] == [0, 5, 0, 1];
      HostWritten(r);
    case _ =>
  }

  lemma HostWritten(r: DnsRecord)
    requires r.RCNAME? && EmitRecord(r).ok
    ensures EmitRecord(r).bytes == EmitFixed(r.domain, CNAME, r.ttl).bytes + Sized(EmitName(r.host).bytes)
  {
    hide EmitName, EmitFixed;
    SizedWritten(EmitName(r.host));
  }

  lemma Regroup(x: seq<byte>, y: seq<byte>, z: seq<byte>)
    ensures x + (y + z) == x + y + z
  {
  }

  lemma {:induction false} QuestionsWritten(qs: seq<DnsQuestion>)
    requires EmitQuestions(qs).ok
    ensures EmitQuestions(qs).bytes == QuestionsOctets(qs)
  {
    hide EmitQuestion, QuestionOctets;
    if qs != [] {
      QuestionWritten(qs[0]);
      QuestionsWritten(qs[1..]);
    }
  }

  lemma {:induction false} RecordsWritten(rs: seq<DnsRecord>)
    requires EmitRecords(rs).ok
    ensures EmitRecords(rs).bytes == RecordsOctets(rs)
  {
    hide EmitRecord, RecordOctets;
    if rs != [] {
      RecordWritten(rs[0]);
      RecordsWritten(rs[1..]);
    }
  }

  lemma CountsWritten(p: Packet)
    ensures var h := HeaderBytes(CountedHeader(p));
            && |h| == 12 && h[..2] == CountOctets(p.header.id)
            && h[2] == HighFlags(p.header) && h[3] == LowFlags(p.header)
            && h[4..12] == CountOctets(|p.questions|) + CountOctets(|p.answers|)
                           + CountOctets(|p.authorities|) + CountOctets(|p.resources|)
  {
    hide Flag;
    SixteenBits(|p.questions|);
    SixteenBits(|p.answers|);
    SixteenBits(|p.authorities|);
    SixteenBits(|p.resources|);
  }

  /** A written message is twelve octets of header and its sections, octet for octet. */
  lemma MessageWritten(p: Packet)
    requires EmitPacket(p).ok
    ensures |EmitPacket(p).bytes| >= 12
    ensures EmitPacket(p).bytes[..12] == HeaderBytes(CountedHeader(p))
    ensures EmitPacket(p).bytes[..2] == CountOctets(p.header.id)
    ensures EmitPacket(p).bytes[2] == HighFlags(p.header) && EmitPacket(p).bytes[3] == LowFlags(p.header)
    ensures EmitPacket(p).bytes[4..12] == CountOctets(|p.questions|) + CountOctets(|p.answers|)
                                          + CountOctets(|p.authorities|) + CountOctets(|p.resources|)
    ensures EmitPacket(p).bytes[12..]
            == QuestionsOctets(p.questions) + RecordsOctets(p.answers) + RecordsOctets(p.authorities)
               + RecordsOctets(p.resources)
  {
    hide EmitQuestions, EmitRecords, CountedHeader, QuestionsOctets, RecordsOctets, HeaderBytes, CountOctets,
      HighFlags, LowFlags;
    QuestionsWritten(p.questions);
    RecordsWritten(p.answers);
    RecordsWritten(p.authorities);
    RecordsWritten(p.resources);
    var h := HeaderBytes(CountedHeader(p));
    CountsWritten(p);
    var q, an := QuestionsOctets(p.questions), RecordsOctets(p.answers);
    var ns, ar := RecordsOctets(p.authorities), RecordsOctets(p.resources);
    var bytes := EmitPacket(p).bytes;
    assert bytes == h + (q + an + ns + ar) && bytes[..12] == h;
    assert bytes[..2] == bytes[..12][..2] && bytes[4..12] == bytes[..12][4..12];
    assert bytes[2] == bytes[..12][2] && bytes[3] == bytes[..12][3];
  }

  // ---------------------------------------------------------------- the block response

  /** The answer of a block response for its first question: no more than an address, for a minute. */
  function AnswerOctets(policy: BlockPolicy, qs: seq<DnsQuestion>): seq<byte> {
    if policy.response == Nxdomain || policy.response == Refused || qs == [] then []
    else match qs[0].qtype
      case A =>
        EmitName(qs[0].name).bytes + [0, 1, 0, 1, 0, 0, 0, 60, 0, 4]
        + (if policy.response == Custom then policy.ipv4 else [0, 0, 0, 0])
      case AAAA =>
        EmitName(qs[0].name).bytes + [0, 28, 0, 1, 0, 0, 0, 60, 0, 16]
        + (if policy.response == Custom then policy.ipv6 else [0, 0, 0, 0, 0, 0, 0, 0, 0, 0, 0, 0, 0, 0, 0, 0])
      case _ => []
  }

  lemma AddressWritten(name: seq<byte>, addr: seq<byte>)
    ensures name + [0, 1, 0, 1] + TtlOctets(60) + [0, 4] + addr == name + [0, 1, 0, 1, 0, 0, 0, 60, 0, 4] + addr
    ensures name + [0, 28, 0, 1] + TtlOctets(60) + [0, 16] + addr == name + [0, 28, 0, 1, 0, 0, 0, 60, 0, 16] + addr
  {
    assert name + [0, 1, 0, 1] + TtlOctets(60) + [0, 4] == name + [0, 1, 0, 1, 0, 0, 0, 60, 0, 4];
    assert name + [0, 28, 0, 1] + TtlOctets(60) + [0, 16] == name + [0, 28, 0, 1, 0, 0, 0, 60, 0, 16];
  }

  lemma OneRecord(r: DnsRecord)
    ensures RecordsOctets([r]) == RecordOctets(r)
  {
    hide RecordOctets;
  }

  lemma AnswersWritten(policy: BlockPolicy, qs: seq<DnsQuestion>)
    ensures RecordsOctets(ReplyAnswers(policy, qs)) == AnswerOctets(policy, qs)
    ensures |ReplyAnswers(policy, qs)| == if AnswerOctets(policy, qs) == [] then 0 else 1
  {
    hide EmitName, TtlOctets;
    var rs := ReplyAnswers(policy, qs);
    if rs != [] {
      var r, name := rs[0], EmitName(qs[0].name).bytes;
      OneRecord(r);
      AddressWritten(name, if r.RA? then r.addr else r.addr6);
    }
  }

  /**
   * What a block response says in its header: the query's id, opcode, AA, TC, RD, RA, Z, AD and CD, marked
   * as a response, with the policy's code, the query's questions and nothing but an answer.
   */
  predicate HeaderAnswers(out: seq<byte>, raw: seq<byte>, policy: BlockPolicy, questions: nat, answers: nat)
    requires |out| >= 12 && |raw| >= 12
  {
    && out[0] == raw[0] && out[1] == raw[1]
    && out[2] == 128 + raw[2] % 128
    && out[3] / 16 == raw[3] / 16
    && out[3] % 16 == (match policy.response case Nxdomain => 3 case Refused => 5 case Null => 0 case Custom => 0)
    && out[4] == raw[4] && out[5] == raw[5] && (raw[4] as int) * 256 + raw[5] as int == questions
    && out[6] == 0 && out[7] == answers
    && out[8..12] == [0, 0, 0, 0]
  }

  lemma ResponseFlag(h: DnsHeader)
    requires h.opcode < 16
    ensures HighFlags(h.(response := true)) == 128 + HighFlags(h) % 128
  {
    var op: int := h.opcode;
    assert op / 16 == 0 && op % 16 == op;
    hide Flag;
    SmallFlags(h.recursionDesired, h.truncatedMessage, h.authoritativeAnswer);
    HighestFlag();
    var low := Flag(h.recursionDesired, 1) + Flag(h.truncatedMessage, 2) + Flag(h.authoritativeAnswer, 4) + op * 8;
    assert HighFlags(h) == low + Flag(h.response, 128) && low < 128;
  }

  lemma SmallFlags(x: bool, y: bool, z: bool)
    ensures Flag(x, 1) + Flag(y, 2) + Flag(z, 4) <= 7
  {
  }

  lemma HighestFlag()
    ensures Flag(true, 128) == 128 && Flag(false, 128) == 0
  {
  }

  lemma CodeFlags(id: u16, a: byte, b: byte, qd: u16, an: u16, ns: u16, ar: u16, code: ResultCode)
    ensures var h := Answered(HeaderOf(id, a, b, qd, an, ns, ar), code);
            LowFlags(h) == b / 16 * 16 + code.ToNum()
  {
    hide Flag, HighFlags;
    OctetDigits(b);
    assert b == b / 16 * 16 + b % 16;
  }

  lemma FlagsAnswered(id: u16, a: byte, b: byte, qd: u16, an: u16, ns: u16, ar: u16, code: ResultCode)
    ensures var h := Answered(HeaderOf(id, a, b, qd, an, ns, ar), code);
            HighFlags(h) == 128 + a % 128 && LowFlags(h) == b / 16 * 16 + code.ToNum()
  {
    hide HighFlags, LowFlags;
    var h := HeaderOf(id, a, b, qd, an, ns, ar);
    FlagsPrint(id, a, b, qd, an, ns, ar);
    CodeFlags(id, a, b, qd, an, ns, ar, code);
    assert h.opcode == a / 8 % 16 < 16;
    ResponseFlag(h);
    CodeApart(h.(response := true), code);
  }

  lemma CodeApart(h: DnsHeader, code: ResultCode)
    ensures HighFlags(h.(rescode := code)) == HighFlags(h)
  {
    hide Flag;
  }

  lemma HeaderAnswered(raw: seq<byte>, policy: BlockPolicy, h: DnsHeader, answers: nat)
    requires |raw| >= 12 && ParseHeader(raw, 0).value.value == h && answers <= 1
    ensures var r := Answered(h, ReplyCode(policy));
            var out := HeaderBytes(r.(answers := answers, authoritativeEntries := 0, resourceEntries := 0));
            |out| == 12 && HeaderAnswers(out, raw, policy, h.questions, answers)
  {
    hide HighFlags, LowFlags, HeaderOf;
    var code := ReplyCode(policy);
    FlagsAnswered(U16In(raw, 0), raw[2], raw[3], U16In(raw, 4), U16In(raw, 6), U16In(raw, 8), U16In(raw, 10), code);
    HeaderFields(raw, 0);
    U16Prints(raw, 0);
    U16Prints(raw, 4);
    var r := Answered(h, code).(answers := answers, authoritativeEntries := 0, resourceEntries := 0);
    assert HighFlags(r) == HighFlags(Answered(h, code)) && LowFlags(r) == LowFlags(Answered(h, code)) by {
      SameFlags(Answered(h, code), answers);
    }
  }

  lemma SameFlags(h: DnsHeader, answers: u16)
    ensures var r := h.(answers := answers, authoritativeEntries := 0, resourceEntries := 0);
            HighFlags(r) == HighFlags(h) && LowFlags(r) == LowFlags(h)
  {
    hide Flag;
  }

  /** Every octet of every block response that is written. */
  lemma SynthesisOctets(raw: seq<byte>, policy: BlockPolicy, q: Packet, next: nat)
    requires ParsePacket(raw, 0) == Ok(Parsed(q, next)) && Synthesis(raw, policy).Ok?
    ensures var out, answer := Synthesis(raw, policy).value, AnswerOctets(policy, q.questions);
            && |out| >= 12 && |raw| >= 12
            && HeaderAnswers(out, raw, policy, |q.questions|, if answer == [] then 0 else 1)
            && out[12..] == QuestionsOctets(q.questions) + answer
  {
    hide HeaderBytes, HeaderOf, HeaderAnswers, EmitPacket, QuestionsOctets, RecordsOctets, ReplyAnswers,
      AnswerOctets, ReplyCode, ParseSections, ParseQuestions;
    ParsedQuery(raw, 0, q, next);
    var reply, n := Reply(q, policy), |ReplyAnswers(policy, q.questions)|;
    AnswersWritten(policy, q.questions);
    MessageWritten(reply);
    QueryHeader(raw, q, next);
    HeaderAnswered(raw, policy, q.header, n);
    NoRecords();
    var out := EmitPacket(reply).bytes;
    assert CountedHeader(reply) == Answered(q.header, ReplyCode(policy)).(answers := n, authoritativeEntries := 0,
                                                                          resourceEntries := 0);
    HeaderPrefix(out, raw, policy, |q.questions|, n);
  }

  lemma NoRecords()
    ensures RecordsOctets([]) == []
  {
  }

  lemma QueryHeader(raw: seq<byte>, q: Packet, next: nat)
    requires ParsePacket(raw, 0) == Ok(Parsed(q, next))
    ensures |raw| >= 12 && ParseHeader(raw, 0).value.value == q.header
  {
    hide HeaderOf, ParseRecords, ParseQuestions;
  }

  lemma HeaderPrefix(out: seq<byte>, raw: seq<byte>, policy: BlockPolicy, questions: nat, answers: nat)
    requires |out| >= 12 && |raw| >= 12 && HeaderAnswers(out[..12], raw, policy, questions, answers)
    ensures HeaderAnswers(out, raw, policy, questions, answers)
  {
    assert out[..12][8..12] == out[8..12];
  }
}
