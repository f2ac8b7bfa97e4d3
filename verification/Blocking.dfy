/** The synthesized block and limit responses of lib/blocking.rs: parse, edit, print. */
module Blocking {
  import opened Prelude
  import opened Texts
  import opened Names
  import opened Buffers
  import opened Headers
  import opened Questions
  import opened Records
  import opened Packets
  import opened PacketExactness

  datatype BlockResponse = Nxdomain | Refused | Null | Custom

  datatype BlockPolicy = BlockPolicy(response: BlockResponse, ipv4: Ipv4Addr, ipv6: Ipv6Addr)

  const TTL: u32 := 60
  const UNSPECIFIED4: Ipv4Addr := Zeros(4)
  const UNSPECIFIED6: Ipv6Addr := Zeros(16)

  function ReplyCode(policy: BlockPolicy): ResultCode {
    match policy.response
    case Nxdomain => NXDOMAIN
    case Refused => REFUSED
    case Null => NOERROR
    case Custom => NOERROR
  }

  /** At most one answer: an address for the first question, when the policy gives addresses. */
  function ReplyAnswers(policy: BlockPolicy, qs: seq<DnsQuestion>): seq<DnsRecord> {
    if policy.response.Nxdomain? || policy.response.Refused? || qs == [] then []
    else match qs[0].qtype
      case A => [RA(qs[0].name, if policy.response.Custom? then policy.ipv4 else UNSPECIFIED4, TTL)]
      case AAAA => [RAAAA(qs[0].name, if policy.response.Custom? then policy.ipv6 else UNSPECIFIED6, TTL)]
      case _ => []
  }

  function Answered(h: DnsHeader, code: ResultCode): DnsHeader {
    h.(response := true, rescode := code)
  }

  lemma AnsweredInSteps(h: DnsHeader, code: ResultCode)
    ensures h.(response := true).(rescode := code) == Answered(h, code)
  {
  }

  /** The reply to `p`: its own id, flags and questions, and the policy's code and answers. */
  function Reply(p: Packet, policy: BlockPolicy): Packet {
    Packet(Answered(p.header, ReplyCode(policy)), p.questions,
           ReplyAnswers(policy, p.questions), [], [])
  }

  function Synthesis(raw: seq<byte>, policy: BlockPolicy): Result<seq<byte>> {
    match ParsePacket(raw, 0)
    case Err(e) => Err(e)
    case Ok(p) =>
      var e := EmitPacket(Reply(p.value, policy));
      if e.ok then Ok(e.bytes) else Err(LabelTooLong)
  }

  method Synthesize(raw: seq<byte>, policy: BlockPolicy) returns (r: Result<seq<byte>>)
    ensures r == Synthesis(raw, policy)
  {
    hide ParsePacket, EmitPacket, Reply;
    var buf := new BytePacketBuffer.FromBytes(raw);
    var packet :- DnsPacket.FromBuffer(buf);
    Edit(packet, policy);
    r := Print(packet);
  }

  /** Turn a parsed query into the reply to it, in place. */
  method Edit(packet: DnsPacket, policy: BlockPolicy)
    modifies packet
    ensures packet.Value() == Reply(old(packet.Value()), policy)
  {
    hide Answered;
    AnsweredInSteps(packet.header, ReplyCode(policy));
    packet.header := packet.header.(response := true);
    packet.answers := [];
    packet.authorities := [];
    packet.resources := [];
    match policy.response {
      case Nxdomain =>
        packet.header := packet.header.(rescode := NXDOMAIN);
      case Refused =>
        packet.header := packet.header.(rescode := REFUSED);
      case _ =>
        packet.header := packet.header.(rescode := NOERROR);
        PushAddress(packet, policy);
    }
  }

  method PushAddress(packet: DnsPacket, policy: BlockPolicy)
    requires policy.response.Null? || policy.response.Custom?
    modifies packet`answers
    ensures packet.answers == old(packet.answers) + ReplyAnswers(policy, packet.questions)
  {
    var custom := policy.response == Custom;
    if packet.questions != [] {
      var q := packet.questions[0];
      match q.qtype {
        case A =>
          var addr := if custom then policy.ipv4 else UNSPECIFIED4;
          packet.answers := packet.answers + [RA(q.name, addr, TTL)];
        case AAAA =>
          var addr := if custom then policy.ipv6 else UNSPECIFIED6;
          packet.answers := packet.answers + [RAAAA(q.name, addr, TTL)];
        case _ =>
      }
    }
  }

  /** Write a packet to a fresh buffer and take the bytes written. */
  method Print(packet: DnsPacket) returns (r: Result<seq<byte>>)
    modifies packet`header
    ensures var e := EmitPacket(old(packet.Value()));
            r == if e.ok then Ok(e.bytes) else Err(LabelTooLong)
  {
    hide EmitPacket, Overlay;
    var out := new BytePacketBuffer();
    ghost var e := EmitPacket(packet.Value());
    OverlayWritten(out.buf, 0, e.bytes);
    assert out.buf[..0] + e.bytes == e.bytes;
    var _ :- packet.Write(out);
    var bytes := out.AsBytes();
    return Ok(bytes);
  }

  // ---------------------------------------------------------------- meaning is preserved

  /** What parsing gives a reply to work on. */
  lemma ParsedQuery(raw: seq<byte>, p: nat, q: Packet, next: nat)
    requires ParsePacket(raw, p) == Ok(Parsed(q, next))
    ensures q.header.opcode < 16 && CountsAgree(q) && CanonicalTypes(q.questions)
  {
    hide ReadLabels, ParseHeader, ParseSections, ParseQuestions, CountsAgree, CanonicalTypes;
    ParsedPacketSize(raw, p, q, next);
    var h := ParseHeader(raw, p).value;
    var qs := ParseQuestions(raw, h.next, h.value.questions).value;
    ParsedTypesCanonical(raw, h.next, h.value.questions);
    SectionsKeep(raw, qs.next, h.value, qs.value);
  }

  lemma ReplyWireSafe(p: Packet, policy: BlockPolicy)
    requires p.header.opcode < 16 && CountsAgree(p) && CanonicalTypes(p.questions)
    requires WireSafeNames(p.questions)
    ensures WireSafePacket(Reply(p, policy))
  {
    hide WireSafe, Canonical;
  }

  /** The code and answers a policy calls for, mode by mode. */
  predicate Dictated(policy: BlockPolicy, qs: seq<DnsQuestion>, code: ResultCode, answers: seq<DnsRecord>) {
    && (policy.response == Nxdomain ==> code == NXDOMAIN && answers == [])
    && (policy.response == Refused ==> code == REFUSED && answers == [])
    && (policy.response == Null || policy.response == Custom ==>
          && code == NOERROR
          && (qs == [] || qs[0].qtype !in {A, AAAA} ==> answers == [])
          && (qs != [] && qs[0].qtype == A ==>
                && |answers| == 1 && answers[0].RA? && answers[0].domain == qs[0].name && answers[0].ttl == 60
                && answers[0].addr == (if policy.response == Custom then policy.ipv4 else [0, 0, 0, 0]))
          && (qs != [] && qs[0].qtype == AAAA ==>
                && |answers| == 1 && answers[0].RAAAA? && answers[0].domain == qs[0].name && answers[0].ttl == 60
                && answers[0].addr6 == (if policy.response == Custom then policy.ipv6
                                         else [0, 0, 0, 0, 0, 0, 0, 0, 0, 0, 0, 0, 0, 0, 0, 0])))
  }

  /** The mode leaves no choice: exactly the reply's code and answers are dictated. */
  lemma ReplyDictated(policy: BlockPolicy, qs: seq<DnsQuestion>, code: ResultCode, answers: seq<DnsRecord>)
    ensures Dictated(policy, qs, code, answers) <==> code == ReplyCode(policy) && answers == ReplyAnswers(policy, qs)
  {
    assert UNSPECIFIED4 == [0, 0, 0, 0] && UNSPECIFIED6 == [0, 0, 0, 0, 0, 0, 0, 0, 0, 0, 0, 0, 0, 0, 0, 0];
    if Dictated(policy, qs, code, answers) && answers != [] {
      assert answers == [answers[0]];
      assert answers[0] == ReplyAnswers(policy, qs)[0];
    }
  }

  /**
   * `r` answers the query `q`: the same id, opcode, flags and questions, marked as a response, with
   * the code and answers the policy dictates and nothing else.
   */
  predicate Replies(r: Packet, q: Packet, policy: BlockPolicy) {
    && r.questions == q.questions
    && Dictated(policy, q.questions, r.header.rescode, r.answers)
    && r.authorities == [] && r.resources == []
    && r.header == q.header.(response := true, rescode := r.header.rescode, answers := |r.answers|,
                             authoritativeEntries := 0, resourceEntries := 0)
  }

  /** A message that parses, to its very end, as an answer to `q`. */
  predicate ReadsAsReply(out: seq<byte>, q: Packet, policy: BlockPolicy) {
    match ParsePacket(out, 0)
    case Ok(r) => r.next == |out| && Replies(r.value, q, policy)
    case Err(_) => false
  }

  /** Only the counted reply answers a query whose counts agree. */
  lemma RepliesIsReply(r: Packet, q: Packet, policy: BlockPolicy)
    requires CountsAgree(q)
    ensures Replies(r, q, policy) <==> r == Counted(Reply(q, policy))
  {
    hide Dictated, ReplyAnswers, ReplyCode;
    ReplyDictated(policy, q.questions, r.header.rescode, r.answers);
    AtMostOneAnswer(policy, q.questions);
  }

  lemma AtMostOneAnswer(policy: BlockPolicy, qs: seq<DnsQuestion>)
    ensures |ReplyAnswers(policy, qs)| <= 1
  {
  }

  /**
   * For every query that parses, a reply is printed that reads as an answer to it, to its very end,
   * exactly when all its question names are wire-safe. The root name is the family that fails.
   */
  lemma SynthesisExact(raw: seq<byte>, policy: BlockPolicy, q: Packet, next: nat)
    requires ParsePacket(raw, 0) == Ok(Parsed(q, next)) && AsciiNames(q.questions)
    ensures Synthesis(raw, policy).Ok? && ReadsAsReply(Synthesis(raw, policy).value, q, policy)
            <==> WireSafeNames(q.questions)
  {
    hide ParsePacket, EmitPacket, WireSafeNames, WireSafePacket, CanonicalTypes, AsciiNames, CountsAgree,
      Replies, Reply, Counted;
    ParsedQuery(raw, 0, q, next);
    var reply := Reply(q, policy);
    ReplyWritable(q, policy);
    var out := EmitPacket(reply).bytes;
    assert out[0..|out|] == out;
    PacketRoundTripExact(out, 0, reply);
    ReplySafe(q, policy);
    if ParsePacket(out, 0).Ok? {
      RepliesIsReply(ParsePacket(out, 0).value.value, q, policy);
    }
    RepliesIsReply(Counted(reply), q, policy);
  }

  /** So a query whose question names are wire-safe, root excluded, is always answered as it should be. */
  lemma SynthesisPreserves(raw: seq<byte>, policy: BlockPolicy, q: Packet, next: nat)
    requires ParsePacket(raw, 0) == Ok(Parsed(q, next)) && WireSafeNames(q.questions)
    ensures Synthesis(raw, policy).Ok? && ReadsAsReply(Synthesis(raw, policy).value, q, policy)
  {
    hide ParsePacket, WireSafeNames, Synthesis, ReadsAsReply;
    AsciiOfSafe(q.questions);
    SynthesisExact(raw, policy, q, next);
  }

  /** Replying to one's own reply gives the same bytes. */
  lemma SynthesisIdempotent(raw: seq<byte>, policy: BlockPolicy, q: Packet, next: nat)
    requires ParsePacket(raw, 0) == Ok(Parsed(q, next)) && WireSafeNames(q.questions)
    ensures Synthesis(raw, policy).Ok?
    ensures Synthesis(Synthesis(raw, policy).value, policy) == Synthesis(raw, policy)
  {
    hide ParsePacket, WireSafeNames, WireSafe, EmitQuestions, EmitRecords, HeaderBytes, CountsAgree,
      Replies, EmitPacket;
    ParsedQuery(raw, 0, q, next);
    SynthesisPreserves(raw, policy, q, next);
    var out := Synthesis(raw, policy).value;
    var r := ParsePacket(out, 0).value.value;
    RepliesIsReply(r, q, policy);
    SameReply(q, policy);
  }

  lemma AsciiOfSafe(qs: seq<DnsQuestion>)
    requires WireSafeNames(qs)
    ensures AsciiNames(qs)
  {
  }

  /** The reply to a counted reply is written as that reply is. */
  lemma SameReply(q: Packet, policy: BlockPolicy)
    ensures EmitPacket(Reply(Counted(Reply(q, policy)), policy)) == EmitPacket(Reply(q, policy))
  {
    hide EmitQuestions, EmitRecords, HeaderBytes, ReplyAnswers;
    assert CountedHeader(Reply(Counted(Reply(q, policy)), policy)) == CountedHeader(Reply(q, policy));
  }

  lemma ReplyWritable(p: Packet, policy: BlockPolicy)
    requires AsciiNames(p.questions)
    ensures AsciiPacket(Reply(p, policy)) && WritablePacket(Reply(p, policy))
  {
    hide IsAscii;
  }

  lemma ReplySafe(p: Packet, policy: BlockPolicy)
    requires p.header.opcode < 16 && CountsAgree(p) && CanonicalTypes(p.questions)
    ensures WireSafePacket(Reply(p, policy)) <==> WireSafeNames(p.questions)
  {
    hide WireSafe, Canonical;
    if WireSafeNames(p.questions) {
      ReplyWireSafe(p, policy);
    } else {
      SafeQuestions(p.questions);
    }
  }
}
