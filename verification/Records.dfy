/** Resource records (section 4.1.3 of RFC 1035, section 2.2 of RFC 3596) of lib/protocol/record.rs. */
module Records {
  import opened Prelude
  import opened Texts
  import opened Names
  import opened Buffers
  import opened Headers
  import opened Questions

  type Ipv4Addr = s: seq<byte> | |s| == 4 witness Zeros(4)
  type Ipv6Addr = s: seq<byte> | |s| == 16 witness Zeros(16)

  datatype DnsRecord =
    | RUnknown(domain: Text, qtype: u16, dataLen: u16, ttl: u32)
    | RA(domain: Text, addr: Ipv4Addr, ttl: u32)
    | RAAAA(domain: Text, addr6: Ipv6Addr, ttl: u32)
    | RCNAME(domain: Text, host: Text, ttl: u32)
    | RMX(domain: Text, priority: u16, host: Text, ttl: u32)
    | RNS(domain: Text, host: Text, ttl: u32)
    | RTXT(domain: Text, data: Text, ttl: u32)

  /** The type, class, ttl and length octets that follow every record's name. */
  const FIXED := 10

  // ---------------------------------------------------------------- reading

  /** `octet as char` pushed to a string: octets from 0x80 take two bytes of UTF-8. */
  function CharText(octet: byte): Text {
    if octet < 0x80 then [octet] else [0xC0 + octet / 0x40, 0x80 + octet % 0x40]
  }

  function CharsText(octets: seq<byte>): Text {
    if octets == [] then [] else CharsText(octets[..|octets| - 1]) + CharText(octets[|octets| - 1])
  }

  /** Length-prefixed strings from `p` until `end` is reached or passed. */
  function ParseTxt(b: seq<byte>, p: nat, end: nat): Result<Parsed<Text>>
    decreases |b| - p
  {
    if p >= end then Ok(Parsed([], p))
    else if p >= |b| || p + 1 + b[p] > |b| then Err(EndOfBuffer)
    else
      match ParseTxt(b, p + 1 + b[p], end)
      case Err(e) => Err(e)
      case Ok(rest) => Ok(Parsed(CharsText(b[p + 1..p + 1 + b[p]]) + rest.value, rest.next))
  }

  function ParseHost(b: seq<byte>, p: nat): Result<Parsed<Text>> {
    match ReadLabels(b, p, MAX_JUMPS)
    case Err(e) => Err(e)
    case Ok(n) => Ok(Parsed(NameText(n.labels), n.next))
  }

  /** The data of a record of type `num`; only TXT and unknown types look at `dataLen`. */
  function ParseData(b: seq<byte>, p: nat, domain: Text, num: u16, ttl: u32, dataLen: u16): Result<Parsed<DnsRecord>> {
    match QueryTypeFromNum(num)
    case A =>
      if p + 4 > |b| then Err(EndOfBuffer) else Ok(Parsed(RA(domain, b[p..p + 4], ttl), p + 4))
    case AAAA =>
      if p + 16 > |b| then Err(EndOfBuffer) else Ok(Parsed(RAAAA(domain, b[p..p + 16], ttl), p + 16))
    case CNAME =>
      (match ParseHost(b, p)
       case Err(e) => Err(e)
       case Ok(h) => Ok(Parsed(RCNAME(domain, h.value, ttl), h.next)))
    case NS =>
      (match ParseHost(b, p)
       case Err(e) => Err(e)
       case Ok(h) => Ok(Parsed(RNS(domain, h.value, ttl), h.next)))
    case MX =>
      (if p + 2 > |b| then Err(EndOfBuffer) else
       match ParseHost(b, p + 2)
       case Err(e) => Err(e)
       case Ok(h) => Ok(Parsed(RMX(domain, U16In(b, p), h.value, ttl), h.next)))
    case TXT =>
      (match ParseTxt(b, p, p + dataLen)
       case Err(e) => Err(e)
       case Ok(t) => Ok(Parsed(RTXT(domain, t.value, ttl), t.next)))
    case UNKNOWN(_) =>
      Ok(Parsed(RUnknown(domain, num, dataLen, ttl), p + dataLen))
  }

  function ParseRecord(b: seq<byte>, p: nat): Result<Parsed<DnsRecord>> {
    match ReadLabels(b, p, MAX_JUMPS)
    case Err(e) => Err(e)
    case Ok(n) =>
      var q := n.next;
      if q + FIXED > |b| then Err(EndOfBuffer)
      else ParseData(b, q + FIXED, NameText(n.labels), U16In(b, q),
                     U32In(b, q + 4), U16In(b, q + 8))
  }

  // ---------------------------------------------------------------- writing

  function EmitFixed(domain: Text, qtype: QueryType, ttl: u32): Emission {
    EmitName(domain).Then(Plain(U16Bytes(qtype.ToNum()) + U16Bytes(1) + U32Bytes(ttl)))
  }

  /** A placeholder length, the payload, and the placeholder patched once the payload is through. */
  function EmitSized(payload: Emission): Emission {
    if payload.ok then Plain(U16Bytes(|payload.bytes| % 0x1_0000) + payload.bytes)
    else Emission(U16Bytes(0) + payload.bytes, false)
  }

  /** Only A, AAAA and CNAME records are written; every other kind writes nothing and succeeds. */
  function EmitRecord(r: DnsRecord): Emission {
    match r
    case RA(domain, addr, ttl) => EmitFixed(domain, A, ttl).Then(Plain(U16Bytes(4) + addr))
    case RAAAA(domain, addr, ttl) => EmitFixed(domain, AAAA, ttl).Then(Plain(U16Bytes(16) + addr))
    case RCNAME(domain, host, ttl) => EmitFixed(domain, CNAME, ttl).Then(EmitSized(EmitName(host)))
    case _ => Plain([])
  }

  // ---------------------------------------------------------------- the round trip

  predicate RecordReadsBack(b: seq<byte>, p: nat, r: DnsRecord) {
    EmitRecord(r).ok && ParseRecord(b, p) == Ok(Parsed(r, p + |EmitRecord(r).bytes|))
  }

  /** The records that survive the wire. */
  predicate WireSafeRecord(r: DnsRecord) {
    match r
    case RA(domain, _, _) => WireSafe(domain)
    case RAAAA(domain, _, _) => WireSafe(domain)
    case RCNAME(domain, host, _) => WireSafe(domain) && WireSafe(host)
    case _ => false
  }

  predicate AsciiRecord(r: DnsRecord) {
    IsAscii(r.domain) && (r.RCNAME? ==> IsAscii(r.host))
  }

  function KindOf(r: DnsRecord): QueryType {
    match r
    case RUnknown(_, num, _, _) => UNKNOWN(num)
    case RA(_, _, _) => A
    case RAAAA(_, _, _) => AAAA
    case RCNAME(_, _, _) => CNAME
    case RMX(_, _, _, _) => MX
    case RNS(_, _, _) => NS
    case RTXT(_, _, _) => TXT
  }

  predicate Writable(r: DnsRecord) {
    r.RA? || r.RAAAA? || r.RCNAME?
  }

  /** The two length octets and the data of a writable record. */
  function EmitTail(r: DnsRecord): Emission
    requires Writable(r)
  {
    match r
    case RA(_, addr, _) => Plain(U16Bytes(4) + addr)
    case RAAAA(_, addr, _) => Plain(U16Bytes(16) + addr)
    case RCNAME(_, host, _) => EmitSized(EmitName(host))
  }

  lemma RecordParts(b: seq<byte>, p: nat, r: DnsRecord)
    requires Writable(r) && EmitRecord(r).ok && At(b, p, EmitRecord(r).bytes)
    ensures EmitName(r.domain).ok && At(b, p, EmitName(r.domain).bytes)
    ensures EmitTail(r).ok
    ensures var q := p + |EmitName(r.domain).bytes|;
            && q + FIXED <= |b|
            && |EmitRecord(r).bytes| == |EmitName(r.domain).bytes| + 8 + |EmitTail(r).bytes|
            && U16In(b, q) == KindOf(r).ToNum()
            && U32In(b, q + 4) == r.ttl
            && At(b, q + 8, EmitTail(r).bytes)
  {
    hide At, EmitName;
    var name, kind, ttl, tail := EmitName(r.domain), U16Bytes(KindOf(r).ToNum()), U32Bytes(r.ttl), EmitTail(r);
    assert EmitRecord(r) == name.Then(Plain(kind + U16Bytes(1) + ttl)).Then(tail);
    var q := p + |name.bytes|;
    AtSplit(b, p, name.bytes + (kind + U16Bytes(1) + ttl), tail.bytes);
    AtSplit(b, p, name.bytes, kind + U16Bytes(1) + ttl);
    AtSplit(b, q, kind + U16Bytes(1), ttl);
    AtSplit(b, q, kind, U16Bytes(1));
    AtInBounds(b, q, kind);
    AtInBounds(b, q + 8, tail.bytes);
    U16RoundTrip(b, q, KindOf(r).ToNum());
    U32RoundTrip(b, q + 4, r.ttl);
  }

  lemma AtInBounds(b: seq<byte>, p: nat, x: seq<byte>)
    requires At(b, p, x)
    ensures p + |x| <= |b|
  {
  }

  lemma DataReadsBack(b: seq<byte>, p: nat, domain: Text, r: DnsRecord, dataLen: u16)
    requires Writable(r) && EmitTail(r).ok && AsciiRecord(r) && At(b, p, EmitTail(r).bytes)
    ensures ParseData(b, p + 2, domain, KindOf(r).ToNum(), r.ttl, dataLen)
            == Ok(Parsed(r, p + |EmitTail(r).bytes|))
            <==> domain == r.domain && (r.RCNAME? ==> WireSafe(r.host))
  {
    hide ReadLabels, NameText, EmitName, WireSafe, ParseTxt;
    match r
    case RA(_, addr, _) =>
      AtSplit(b, p, U16Bytes(4), addr);
    case RAAAA(_, addr, _) =>
      AtSplit(b, p, U16Bytes(16), addr);
    case RCNAME(_, host, _) =>
      var e := EmitName(host);
      AtSplit(b, p, U16Bytes(|e.bytes| % 0x1_0000), e.bytes);
      NameRoundTrip(b, p + 2, host);
  }

  /** Kinds that are written as nothing never read back: reading always advances. */
  lemma SkippedRecordLost(b: seq<byte>, p: nat, r: DnsRecord)
    requires !Writable(r)
    ensures EmitRecord(r) == Plain([]) && !RecordReadsBack(b, p, r)
  {
    hide ParseRecord;
    if ParseRecord(b, p).Ok? {
      RecordProgress(b, p, ParseRecord(b, p).value.value, ParseRecord(b, p).value.next);
    }
  }

  lemma {:induction false} TxtProgress(b: seq<byte>, p: nat, end: nat)
    requires ParseTxt(b, p, end).Ok?
    ensures p <= ParseTxt(b, p, end).value.next
    decreases |b| - p
  {
    if p < end {
      TxtProgress(b, p + 1 + b[p], end);
    }
  }

  lemma HostProgress(b: seq<byte>, p: nat)
    requires ParseHost(b, p).Ok?
    ensures p < ParseHost(b, p).value.next
  {
    hide ReadLabels, NameText;
    DecompressionBound(b, p);
  }

  /** Record data never moves the cursor back. */
  lemma DataProgress(b: seq<byte>, p: nat, domain: Text, num: u16, ttl: u32, dataLen: u16, next: nat)
    requires ParseData(b, p, domain, num, ttl, dataLen).Ok?
    requires ParseData(b, p, domain, num, ttl, dataLen).value.next == next
    ensures p <= next
  {
    hide ParseHost, ParseTxt;
    match QueryTypeFromNum(num)
    case CNAME =>
      HostProgress(b, p);
    case NS =>
      HostProgress(b, p);
    case MX =>
      HostProgress(b, p + 2);
    case TXT =>
      TxtProgress(b, p, p + dataLen);
    case _ =>
  }

  /** Reading a record consumes at least eleven octets, all of them inside the message. */
  lemma RecordProgress(b: seq<byte>, p: nat, r: DnsRecord, next: nat)
    requires ParseRecord(b, p) == Ok(Parsed(r, next))
    ensures p + 1 + FIXED <= |b| && p + 1 + FIXED <= next
  {
    hide ReadLabels, NameText, ParseData;
    DecompressionBound(b, p);
    var n := ReadLabels(b, p, MAX_JUMPS).value;
    var q := n.next;
    DataProgress(b, q + FIXED, NameText(n.labels), U16In(b, q),
                 U32In(b, q + 4), U16In(b, q + 8), next);
  }

  /** A root name and two more zero octets are the start of a record of unknown type. */
  lemma ZeroType(b: seq<byte>, p: nat)
    requires p + 2 < |b| && b[p] == 0 && b[p + 1] == 0 && b[p + 2] == 0
    ensures ParseRecord(b, p).Ok? ==> ParseRecord(b, p).value.value.RUnknown?
  {
    hide NameText;
    ReadEnd(b, p, MAX_JUMPS);
  }

  /** The root name shifts everything after it by one octet, so the type is read as zero. */
  lemma RootRecordLost(b: seq<byte>, p: nat, r: DnsRecord)
    requires Writable(r) && r.domain == [] && EmitRecord(r).ok && At(b, p, EmitRecord(r).bytes)
    ensures ParseRecord(b, p).Ok? ==> ParseRecord(b, p).value.value.RUnknown?
  {
    hide ParseRecord;
    RootNameDoesNotRoundTrip();
    RecordParts(b, p, r);
    TwoZeros(b, p);
    ZeroType(b, p);
  }

  /**
   * At any offset, a written record reads back exactly when it is an A, AAAA or CNAME record whose
   * names are wire-safe, whatever its RDLENGTH came to.
   */
  lemma RecordRoundTrip(b: seq<byte>, p: nat, r: DnsRecord)
    requires AsciiRecord(r)
    requires EmitRecord(r).ok ==> At(b, p, EmitRecord(r).bytes)
    ensures RecordReadsBack(b, p, r) <==> WireSafeRecord(r)
  {
    hide ReadLabels, NameText, EmitName, WireSafe, At, ParseRecord, EmitRecord;
    if !Writable(r) {
      SkippedRecordLost(b, p, r);
    } else if !EmitRecord(r).ok {
      UnwrittenNotSafe(r);
    } else if WireSafe(r.domain) {
      SafeDomainReads(b, p, r);
    } else if r.domain == [] {
      RootRecordLost(b, p, r);
    } else {
      UnsafeDomainLost(b, p, r);
    }
  }

  lemma SafeDomainReads(b: seq<byte>, p: nat, r: DnsRecord)
    requires Writable(r) && AsciiRecord(r) && WireSafe(r.domain)
    requires EmitRecord(r).ok && At(b, p, EmitRecord(r).bytes)
    ensures RecordReadsBack(b, p, r) <==> (r.RCNAME? ==> WireSafe(r.host))
  {
    hide ReadLabels, NameText, EmitName, WireSafe, At, ParseData, EmitTail, EmitRecord;
    RecordParts(b, p, r);
    NameRoundTrip(b, p, r.domain);
    var q := ReadLabels(b, p, MAX_JUMPS).value.next;
    DataReadsBack(b, q + 8, r.domain, r, U16In(b, q + 8));
  }

  lemma UnsafeDomainLost(b: seq<byte>, p: nat, r: DnsRecord)
    requires Writable(r) && AsciiRecord(r) && !WireSafe(r.domain) && r.domain != []
    requires EmitRecord(r).ok && At(b, p, EmitRecord(r).bytes)
    ensures ParseRecord(b, p).Ok? ==> ParseRecord(b, p).value.value.domain != r.domain
  {
    hide ReadLabels, NameText, EmitName, WireSafe, At, ParseRecord, EmitRecord;
    RecordParts(b, p, r);
    WrittenNameRead(b, p, r.domain);
    TextSurvives(r.domain);
    ParsedDomain(b, p);
  }

  lemma UnwrittenNotSafe(r: DnsRecord)
    requires !EmitRecord(r).ok
    ensures !WireSafeRecord(r)
  {
    if !EmitName(r.domain).ok {
      NotOkNotSafe(r.domain);
    } else {
      NotOkNotSafe(r.host);
    }
  }

  lemma ParsedDomain(b: seq<byte>, p: nat)
    requires ReadLabels(b, p, MAX_JUMPS).Ok?
    ensures ParseRecord(b, p).Ok? ==>
              ParseRecord(b, p).value.value.domain == NameText(ReadLabels(b, p, MAX_JUMPS).value.labels)
  {
    hide ReadLabels, NameText, ParseTxt;
  }

  /**
   * The patched RDLENGTH of a written CNAME is the number of host octets that follow it, exactly
   * when that many fit in sixteen bits.
   */
  lemma CnameLength(b: seq<byte>, p: nat, r: DnsRecord)
    requires r.RCNAME? && EmitRecord(r).ok && At(b, p, EmitRecord(r).bytes)
    ensures var q := p + |EmitName(r.domain).bytes| + 8;
            && U16At(b, q).Ok?
            && q + 2 + |EmitName(r.host).bytes| == p + |EmitRecord(r).bytes|
            && (U16At(b, q).value == |EmitName(r.host).bytes| <==> |EmitName(r.host).bytes| < 0x1_0000)
  {
    hide EmitName, EmitRecord, EmitTail, At, U16Bytes, U16In, U32In;
    RecordParts(b, p, r);
    CnameTail(r);
    var e := EmitName(r.host);
    var q := p + |EmitName(r.domain).bytes| + 8;
    AtSplit(b, q, U16Bytes(|e.bytes| % 0x1_0000), e.bytes);
    U16RoundTrip(b, q, |e.bytes| % 0x1_0000);
  }

  lemma CnameTail(r: DnsRecord)
    requires r.RCNAME? && EmitTail(r).ok
    ensures var e := EmitName(r.host);
            && EmitTail(r).bytes == U16Bytes(|e.bytes| % 0x1_0000) + e.bytes
            && |EmitTail(r).bytes| == 2 + |e.bytes|
  {
    hide EmitName;
  }

  // ---------------------------------------------------------------- the buffer operations

  /** What a parse at the old cursor says the buffer operation returns. */
  function Outcome<T>(parsed: Result<Parsed<T>>): Result<T> {
    match parsed
    case Ok(x) => Ok(x.value)
    case Err(e) => Err(e)
  }

  lemma U32Octets(b: seq<byte>, p: nat)
    requires p + 4 <= |b|
    ensures var v, b3, b2, b1, b0 := U32In(b, p), b[p], b[p + 1], b[p + 2], b[p + 3];
            v / 0x100_0000 % 0x100 == b3 && v / 0x1_0000 % 0x100 == b2 && v / 0x100 % 0x100 == b1 && v % 0x100 == b0
  {
    var b3, b2, b1, b0 := b[p], b[p + 1], b[p + 2], b[p + 3];
    var v: int := U32In(b, p);
    var v1: int := v / 0x100;
    var v2 := v1 / 0x100;
    assert v1 == (b3 as int) * 0x1_0000 + (b2 as int) * 0x100 + b1 as int && v % 0x100 == b0;
    assert v2 == (b3 as int) * 0x100 + b2 as int && v1 % 0x100 == b1;
    assert v2 / 0x100 == b3 && v2 % 0x100 == b2;
    assert v2 == v / 0x1_0000 && v2 / 0x100 == v / 0x100_0000;
  }

  method ReadIpv4(buffer: BytePacketBuffer) returns (r: Result<Ipv4Addr>)
    modifies buffer`pos
    ensures var p := old(buffer.pos);
            r == if p + 4 <= |buffer.buf| then Ok(buffer.buf[p..p + 4]) else Err(EndOfBuffer)
    ensures r.Ok? ==> buffer.pos == old(buffer.pos) + 4
  {
    ghost var b, p := buffer.buf, buffer.pos;
    var raw :- buffer.ReadU32();
    U32Octets(b, p);
    assert b[p..p + 4] == [b[p], b[p + 1], b[p + 2], b[p + 3]];
    return Ok([raw / 0x100_0000 % 0x100, raw / 0x1_0000 % 0x100, raw / 0x100 % 0x100, raw % 0x100]);
  }

  method ReadOctets(buffer: BytePacketBuffer, n: nat) returns (r: Result<seq<byte>>)
    modifies buffer`pos
    ensures var p := old(buffer.pos);
            r == if n == 0 then Ok([])
                 else if p + n <= |buffer.buf| then Ok(buffer.buf[p..p + n]) else Err(EndOfBuffer)
    ensures r.Ok? ==> buffer.pos == old(buffer.pos) + n
  {
    ghost var b, p := buffer.buf, buffer.pos;
    var octets: seq<byte> := [];
    var i := 0;
    while i < n
      invariant 0 <= i <= n && buffer.buf == b && buffer.pos == p + i
      invariant i > 0 ==> p + i <= |b|
      invariant octets == if i == 0 then [] else b[p..p + i]
    {
      var octet :- buffer.Read();
      octets := octets + [octet];
      i := i + 1;
    }
    return Ok(octets);
  }

  lemma CharsTextSnoc(octets: seq<byte>, octet: byte)
    ensures CharsText(octets + [octet]) == CharsText(octets) + CharText(octet)
  {
    assert (octets + [octet])[..|octets|] == octets;
  }

  lemma NoChars(b: seq<byte>, p: nat)
    requires p <= |b|
    ensures CharsText(b[p..p]) == []
  {
  }

  lemma CharsNext(b: seq<byte>, p: nat, i: nat)
    requires p + i < |b|
    ensures CharsText(b[p..p + i + 1]) == CharsText(b[p..p + i]) + CharText(b[p + i])
  {
    hide CharsText;
    CharsTextSnoc(b[p..p + i], b[p + i]);
    assert b[p..p + i] + [b[p + i]] == b[p..p + i + 1];
  }

  /** One length-prefixed string, character by character. */
  method ReadChars(buffer: BytePacketBuffer, len: byte) returns (r: Result<Text>)
    modifies buffer`pos
    requires buffer.pos <= |buffer.buf|
    ensures var p := old(buffer.pos);
            r == if p + len <= |buffer.buf| then Ok(CharsText(buffer.buf[p..p + len])) else Err(EndOfBuffer)
    ensures r.Ok? ==> buffer.pos == old(buffer.pos) + len
  {
    ghost var b, p := buffer.buf, buffer.pos;
    var data: Text := [];
    var i: nat := 0;
    NoChars(b, p);
    hide CharsText, CharText;
    while i < len
      invariant 0 <= i <= len && buffer.buf == b && buffer.pos == p + i <= |b|
      invariant data == CharsText(b[p..p + i])
    {
      var octet :- buffer.Read();
      CharsNext(b, p, i);
      data := data + CharText(octet);
      i := i + 1;
    }
    return Ok(data);
  }

  method ReadTxt(buffer: BytePacketBuffer, dataLen: u16) returns (r: Result<Text>)
    modifies buffer`pos
    ensures r == Outcome(ParseTxt(buffer.buf, old(buffer.pos), old(buffer.pos) + dataLen))
    ensures r.Ok? ==> buffer.pos == ParseTxt(buffer.buf, old(buffer.pos), old(buffer.pos) + dataLen).value.next
  {
    hide CharsText;
    ghost var b, p := buffer.buf, buffer.pos;
    var data: Text := [];
    var end: nat := buffer.pos + dataLen;
    ghost var whole := ParseTxt(b, p, end);
    assert whole.Ok? ==> data + whole.value.value == whole.value.value;
    while buffer.pos < end
      invariant buffer.buf == b
      invariant match ParseTxt(b, buffer.pos, end)
                case Err(e) => ParseTxt(b, p, end) == Err(e)
                case Ok(rest) => ParseTxt(b, p, end) == Ok(Parsed(data + rest.value, rest.next))
      decreases end - buffer.pos
    {
      var len :- buffer.Read();
      var s :- ReadChars(buffer, len);
      ghost var rest := ParseTxt(b, buffer.pos, end);
      assert rest.Ok? ==> data + (s + rest.value.value) == (data + s) + rest.value.value;
      data := data + s;
    }
    assert data + [] == data;
    return Ok(data);
  }

  method ReadRecord(buffer: BytePacketBuffer) returns (r: Result<DnsRecord>)
    modifies buffer`pos
    ensures r == Outcome(ParseRecord(buffer.buf, old(buffer.pos)))
    ensures r.Ok? ==> buffer.pos == ParseRecord(buffer.buf, old(buffer.pos)).value.next
  {
    hide ReadLabels, NameText, ParseTxt, ParseData, U16In, U32In;
    ghost var b, p := buffer.buf, buffer.pos;
    ghost var n := ReadLabels(b, p, MAX_JUMPS);
    var domain :- buffer.ReadQname([]);
    assert domain == NameText(n.value.labels);
    var num :- buffer.ReadU16();
    var class_ :- buffer.ReadU16();
    var ttl :- buffer.ReadU32();
    var dataLen :- buffer.ReadU16();
    r := ReadData(buffer, domain, num, ttl, dataLen);
  }

  method ReadData(buffer: BytePacketBuffer, domain: Text, num: u16, ttl: u32, dataLen: u16)
    returns (r: Result<DnsRecord>)
    modifies buffer`pos
    ensures var parsed := ParseData(buffer.buf, old(buffer.pos), domain, num, ttl, dataLen);
            r == Outcome(parsed) && (r.Ok? ==> buffer.pos == parsed.value.next)
  {
    hide ReadLabels, NameText, ParseTxt, QueryTypeFromNum;
    match QueryTypeFromNum(num)
    case A =>
      var addr :- ReadIpv4(buffer);
      return Ok(RA(domain, addr, ttl));
    case AAAA =>
      var octets :- ReadOctets(buffer, 16);
      return Ok(RAAAA(domain, octets, ttl));
    case CNAME =>
      var host :- ReadHost(buffer);
      return Ok(RCNAME(domain, host, ttl));
    case NS =>
      var host :- ReadHost(buffer);
      return Ok(RNS(domain, host, ttl));
    case MX =>
      var priority :- buffer.ReadU16();
      var host :- ReadHost(buffer);
      return Ok(RMX(domain, priority, host, ttl));
    case TXT =>
      var data :- ReadTxt(buffer, dataLen);
      return Ok(RTXT(domain, data, ttl));
    case UNKNOWN(_) =>
      buffer.Step(dataLen);
      return Ok(RUnknown(domain, num, dataLen, ttl));
  }

  method ReadHost(buffer: BytePacketBuffer) returns (r: Result<Text>)
    modifies buffer`pos
    ensures r == Outcome(ParseHost(buffer.buf, old(buffer.pos)))
    ensures r.Ok? ==> buffer.pos == ParseHost(buffer.buf, old(buffer.pos)).value.next
  {
    hide ReadLabels, NameText;
    ghost var n := ReadLabels(buffer.buf, buffer.pos, MAX_JUMPS);
    var host :- buffer.ReadQname([]);
    assert host == NameText(n.value.labels);
    return Ok(host);
  }

  method WriteFixed(buffer: BytePacketBuffer, domain: Text, qtype: QueryType, ttl: u32) returns (r: Result<()>)
    modifies buffer
    ensures var e := EmitFixed(domain, qtype, ttl);
            && r == (if e.ok then Ok(()) else Err(LabelTooLong))
            && buffer.buf == Overlay(old(buffer.buf), old(buffer.pos), e.bytes)
            && buffer.pos == old(buffer.pos) + |e.bytes|
  {
    hide Overlay, EmitName;
    ghost var b, p, name, kind := buffer.buf, buffer.pos, EmitName(domain).bytes, U16Bytes(qtype.ToNum());
    var _ :- buffer.WriteQname(domain);
    OverlayAppend(b, p, name, kind);
    buffer.WriteU16(qtype.ToNum());
    OverlayAppend(b, p, name + kind, U16Bytes(1));
    buffer.WriteU16(1);
    OverlayAppend(b, p, name + kind + U16Bytes(1), U32Bytes(ttl));
    buffer.WriteU32(ttl);
    assert name + kind + U16Bytes(1) + U32Bytes(ttl) == name + (kind + U16Bytes(1) + U32Bytes(ttl));
    return Ok(());
  }

  method WriteAddress(buffer: BytePacketBuffer, domain: Text, qtype: QueryType, ttl: u32, addr: seq<byte>)
    returns (r: Result<()>)
    requires |addr| < 0x1_0000
    modifies buffer
    ensures var e := EmitFixed(domain, qtype, ttl).Then(Plain(U16Bytes(|addr|) + addr));
            && r == (if e.ok then Ok(()) else Err(LabelTooLong))
            && buffer.buf == Overlay(old(buffer.buf), old(buffer.pos), e.bytes)
            && buffer.pos == old(buffer.pos) + |e.bytes|
  {
    hide Overlay, EmitFixed;
    ghost var b, p, fixed := buffer.buf, buffer.pos, EmitFixed(domain, qtype, ttl).bytes;
    var _ :- WriteFixed(buffer, domain, qtype, ttl);
    OverlayAppend(b, p, fixed, U16Bytes(|addr|));
    buffer.WriteU16(|addr|);
    OverlayAppend(b, p, fixed + U16Bytes(|addr|), addr);
    buffer.WriteBytes(addr);
    assert fixed + U16Bytes(|addr|) + addr == fixed + (U16Bytes(|addr|) + addr);
    return Ok(());
  }

  /** Write the host behind a zero length, then go back and patch the length in place. */
  method WriteCname(buffer: BytePacketBuffer, domain: Text, host: Text, ttl: u32) returns (r: Result<()>)
    modifies buffer
    ensures var e := EmitFixed(domain, CNAME, ttl).Then(EmitSized(EmitName(host)));
            && r == (if e.ok then Ok(()) else Err(LabelTooLong))
            && buffer.buf == Overlay(old(buffer.buf), old(buffer.pos), e.bytes)
            && buffer.pos == old(buffer.pos) + |e.bytes|
  {
    hide Overlay, EmitFixed, EmitName, U16Bytes;
    ghost var b, p, fixed, e := buffer.buf, buffer.pos, EmitFixed(domain, CNAME, ttl).bytes, EmitName(host);
    var _ :- WriteFixed(buffer, domain, CNAME, ttl);
    var posBefore := buffer.pos;
    U16Size(0);
    OverlayAppend(b, p, fixed, U16Bytes(0));
    buffer.WriteU16(0);
    OverlayAppend(b, p, fixed + U16Bytes(0), e.bytes);
    assert fixed + U16Bytes(0) + e.bytes == fixed + (U16Bytes(0) + e.bytes);
    var _ :- buffer.WriteQname(host);
    var len: u16 := (buffer.pos - posBefore - 2) % 0x1_0000;
    U16Size(len);
    OverlayPatch(b, p, fixed, U16Bytes(0), U16Bytes(len), e.bytes);
    buffer.PatchU16(posBefore, len);
    assert fixed + U16Bytes(len) + e.bytes == fixed + (U16Bytes(len) + e.bytes);
    return Ok(());
  }

  lemma U16Size(v: u16)
    ensures |U16Bytes(v)| == 2
  {
  }

  /** Returns the number of octets written. */
  method WriteRecord(r: DnsRecord, buffer: BytePacketBuffer) returns (n: Result<nat>)
    modifies buffer
    ensures var e := EmitRecord(r);
            && n == (if e.ok then Ok(|e.bytes|) else Err(LabelTooLong))
            && buffer.buf == Overlay(old(buffer.buf), old(buffer.pos), e.bytes)
            && buffer.pos == old(buffer.pos) + |e.bytes|
  {
    hide EmitFixed, EmitName;
    var startPos := buffer.pos;
    match r {
      case RA(domain, addr, ttl) =>
        var _ :- WriteAddress(buffer, domain, A, ttl, addr);
      case RAAAA(domain, addr, ttl) =>
        var _ :- WriteAddress(buffer, domain, AAAA, ttl, addr);
      case RCNAME(domain, host, ttl) =>
        var _ :- WriteCname(buffer, domain, host, ttl);
      case _ =>
    }
    return Ok(buffer.pos - startPos);
  }
}
