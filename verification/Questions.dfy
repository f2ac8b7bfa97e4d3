/** Query types and the question section (section 4.1.2 of RFC 1035) of lib/protocol/question.rs. */
module Questions {
  import opened Prelude
  import opened Texts
  import opened Names
  import opened Buffers
  import opened Headers

  datatype QueryType = UNKNOWN(num: u16) | A | AAAA | CNAME | MX | NS | TXT {
    function ToNum(): u16 {
      match this
      case UNKNOWN(x) => x
      case A => 1
      case AAAA => 28
      case CNAME => 5
      case MX => 15
      case NS => 2
      case TXT => 16
    }
  }

  function QueryTypeFromNum(num: u16): QueryType {
    match num
    case 1 => A
    case 28 => AAAA
    case 5 => CNAME
    case 15 => MX
    case 2 => NS
    case 16 => TXT
    case _ => UNKNOWN(num)
  }

  /** A known type is never spelled as `UNKNOWN` of its number. */
  predicate Canonical(q: QueryType) {
    q.UNKNOWN? ==> q.num !in {1, 2, 5, 15, 16, 28}
  }

  lemma QueryTypeRoundTrip(q: QueryType, num: u16)
    ensures QueryTypeFromNum(q.ToNum()) == q <==> Canonical(q)
    ensures QueryTypeFromNum(num).ToNum() == num && Canonical(QueryTypeFromNum(num))
  {
  }

  /** The numbers of section 3.2.2 of RFC 1035 and section 2.1 of RFC 3596. */
  predicate HasNumber(t: QueryType, num: int) {
    match t
    case A => num == 1
    case NS => num == 2
    case CNAME => num == 5
    case MX => num == 15
    case TXT => num == 16
    case AAAA => num == 28
    case UNKNOWN(n) => num == n && n !in {1, 2, 5, 15, 16, 28}
  }

  lemma TypeNumbers(t: QueryType, num: u16)
    ensures QueryTypeFromNum(num) == t <==> HasNumber(t, num)
    ensures t.ToNum() == num && Canonical(t) <==> HasNumber(t, num)
  {
  }

  datatype DnsQuestion = DnsQuestion(name: Text, qtype: QueryType)

  function ParseQuestion(b: seq<byte>, p: nat): Result<Parsed<DnsQuestion>> {
    match ReadLabels(b, p, MAX_JUMPS)
    case Err(e) => Err(e)
    case Ok(n) =>
      if n.next + 4 > |b| then Err(EndOfBuffer)
      else Ok(Parsed(DnsQuestion(NameText(n.labels), QueryTypeFromNum(U16In(b, n.next))), n.next + 4))
  }

  function EmitQuestion(q: DnsQuestion): Emission {
    EmitName(q.name).Then(Plain(U16Bytes(q.qtype.ToNum()) + U16Bytes(1)))
  }

  /** The question `q` is read at `p`, ending exactly where its encoding does. */
  predicate QuestionReadsBack(b: seq<byte>, p: nat, q: DnsQuestion) {
    EmitQuestion(q).ok && ParseQuestion(b, p) == Ok(Parsed(q, p + |EmitQuestion(q).bytes|))
  }

  predicate WireSafeQuestion(q: DnsQuestion) {
    WireSafe(q.name) && Canonical(q.qtype)
  }

  lemma QuestionParts(b: seq<byte>, p: nat, q: DnsQuestion)
    requires EmitQuestion(q).ok && At(b, p, EmitQuestion(q).bytes)
    ensures EmitName(q.name).ok && At(b, p, EmitName(q.name).bytes)
    ensures var t := p + |EmitName(q.name).bytes|;
            t + 4 <= |b| && U16In(b, t) == q.qtype.ToNum()
    ensures |EmitQuestion(q).bytes| == |EmitName(q.name).bytes| + 4
  {
    var name, tail := EmitName(q.name).bytes, U16Bytes(q.qtype.ToNum()) + U16Bytes(1);
    AtSplit(b, p, name, tail);
    AtSplit(b, p + |name|, U16Bytes(q.qtype.ToNum()), U16Bytes(1));
    U16RoundTrip(b, p + |name|, q.qtype.ToNum());
  }

  /**
   * At any offset, a written question reads back exactly when its name is wire-safe and its type
   * canonical.
   */
  lemma QuestionRoundTrip(b: seq<byte>, p: nat, q: DnsQuestion)
    requires IsAscii(q.name)
    requires EmitQuestion(q).ok ==> At(b, p, EmitQuestion(q).bytes)
    ensures QuestionReadsBack(b, p, q) <==> WireSafeQuestion(q)
  {
    hide ReadLabels, NameText, EmitName, WireSafe, At;
    if EmitQuestion(q).ok {
      QuestionParts(b, p, q);
      QueryTypeRoundTrip(q.qtype, 0);
      assert EmitName(q.name).ok ==> At(b, p, EmitName(q.name).bytes);
      NameRoundTrip(b, p, q.name);
    } else {
      NotOkNotSafe(q.name);
    }
  }

  lemma NotOkNotSafe(name: Text)
    requires !EmitName(name).ok
    ensures !WireSafe(name)
  {
    EmitLabelsOk(Split(name));
  }

  method ReadQuestion(buffer: BytePacketBuffer) returns (r: Result<DnsQuestion>)
    modifies buffer`pos
    ensures r == match ParseQuestion(buffer.buf, old(buffer.pos)) case Ok(q) => Ok(q.value) case Err(e) => Err(e)
    ensures r.Ok? ==> buffer.pos == ParseQuestion(buffer.buf, old(buffer.pos)).value.next
  {
    hide ReadLabels, NameText, QueryTypeFromNum;
    ghost var read := ReadLabels(buffer.buf, buffer.pos, MAX_JUMPS);
    var name :- buffer.ReadQname([]);
    assert name == NameText(read.value.labels);
    var num :- buffer.ReadU16();
    var class_ :- buffer.ReadU16();
    return Ok(DnsQuestion(name, QueryTypeFromNum(num)));
  }

  method WriteQuestion(q: DnsQuestion, buffer: BytePacketBuffer) returns (r: Result<()>)
    modifies buffer
    ensures var e := EmitQuestion(q);
            && r == (if e.ok then Ok(()) else Err(LabelTooLong))
            && buffer.buf == Overlay(old(buffer.buf), old(buffer.pos), e.bytes)
            && buffer.pos == old(buffer.pos) + |e.bytes|
  {
    hide Overlay, EmitName;
    ghost var b, p, name := buffer.buf, buffer.pos, EmitName(q.name).bytes;
    var _ :- buffer.WriteQname(q.name);
    OverlayAppend(b, p, name, U16Bytes(q.qtype.ToNum()));
    buffer.WriteU16(q.qtype.ToNum());
    OverlayAppend(b, p, name + U16Bytes(q.qtype.ToNum()), U16Bytes(1));
    buffer.WriteU16(1);
    assert name + U16Bytes(q.qtype.ToNum()) + U16Bytes(1) == name + (U16Bytes(q.qtype.ToNum()) + U16Bytes(1));
    return Ok(());
  }
}
