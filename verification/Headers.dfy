/** The message header (section 4.1.1 of RFC 1035) of lib/protocol/header.rs. */
module Headers {
  import opened Prelude
  import opened Names
  import opened Buffers

  datatype ResultCode = NOERROR | FORMERR | SERVFAIL | NXDOMAIN | NOTIMP | REFUSED {
    function ToNum(): byte {
      match this
      case NOERROR => 0
      case FORMERR => 1
      case SERVFAIL => 2
      case NXDOMAIN => 3
      case NOTIMP => 4
      case REFUSED => 5
    }
  }

  function ResultCodeFromNum(num: byte): ResultCode {
    match num
    case 1 => FORMERR
    case 2 => SERVFAIL
    case 3 => NXDOMAIN
    case 4 => NOTIMP
    case 5 => REFUSED
    case _ => NOERROR
  }

  /** The response codes of section 4.1.1 of RFC 1035; an unknown one is taken for success. */
  lemma CodeNumbers(code: ResultCode, num: byte)
    ensures code.ToNum() == num <==>
            match code
            case NOERROR => num == 0
            case FORMERR => num == 1
            case SERVFAIL => num == 2
            case NXDOMAIN => num == 3
            case NOTIMP => num == 4
            case REFUSED => num == 5
    ensures ResultCodeFromNum(1) == FORMERR && ResultCodeFromNum(2) == SERVFAIL && ResultCodeFromNum(3) == NXDOMAIN
    ensures ResultCodeFromNum(4) == NOTIMP && ResultCodeFromNum(5) == REFUSED
    ensures num !in {1, 2, 3, 4, 5} ==> ResultCodeFromNum(num) == NOERROR
  {
  }

  datatype DnsHeader = DnsHeader(
    id: u16,
    recursionDesired: bool,
    truncatedMessage: bool,
    authoritativeAnswer: bool,
    opcode: byte,
    response: bool,
    rescode: ResultCode,
    checkingDisabled: bool,
    authedData: bool,
    z: bool,
    recursionAvailable: bool,
    questions: u16,
    answers: u16,
    authoritativeEntries: u16,
    resourceEntries: u16)

  const HEADER_SIZE := 12

  /** A value read, and the cursor just past it. */
  datatype Parsed<+T> = Parsed(value: T, next: nat)

  function Flag(b: bool, weight: byte): byte {
    if b then weight else 0
  }

  /**
   * The first flag octet. The opcode is shifted in an 8-bit word, so its high bits are lost,
   * except that bit 4 lands on the response flag.
   */
  function HighFlags(h: DnsHeader): byte {
    Flag(h.recursionDesired, 1) + Flag(h.truncatedMessage, 2) + Flag(h.authoritativeAnswer, 4)
    + h.opcode % 16 * 8
    + Flag(h.response || h.opcode / 16 % 2 == 1, 128)
  }

  function LowFlags(h: DnsHeader): byte {
    h.rescode.ToNum()
    + Flag(h.checkingDisabled, 16) + Flag(h.authedData, 32) + Flag(h.z, 64) + Flag(h.recursionAvailable, 128)
  }

  // ---------------------------------------------------------------- shifts and masks

  function Bit(b: bool): bv8 {
    if b then 1 else 0
  }

  function Octet(x: bv8): byte {
    x as int
  }

  function Masked(x: bv8, mask: bv8): bool {
    x & mask > 0
  }

  /** The first flag octet as the code composes it, in eight bits. */
  function FirstOctet(rd: bool, tc: bool, aa: bool, opcode: bv8, qr: bool): bv8 {
    Bit(rd) | (Bit(tc) << 1) | (Bit(aa) << 2) | (opcode << 3) | (Bit(qr) << 7)
  }

  function SecondOctet(code: bv8, cd: bool, ad: bool, z: bool, ra: bool): bv8 {
    code | (Bit(cd) << 4) | (Bit(ad) << 5) | (Bit(z) << 6) | (Bit(ra) << 7)
  }

  /** Only four bits of the opcode fit below the response flag, and the fifth lands on it. */
  lemma OpcodeOverflows(rd: bool, tc: bool, aa: bool, opcode: bv8, qr: bool)
    ensures FirstOctet(rd, tc, aa, opcode, qr) == FirstOctet(rd, tc, aa, opcode & 0x0F, qr || Masked(opcode, 16))
    ensures opcode & 0x0F < 16
  {
  }

  lemma FirstOctetSum(rd: bool, tc: bool, aa: bool, opcode: bv8, qr: bool)
    requires opcode < 16
    ensures Octet(FirstOctet(rd, tc, aa, opcode, qr))
            == Flag(rd, 1) + Flag(tc, 2) + Flag(aa, 4) + Octet(opcode) * 8 + Flag(qr, 128)
  {
  }

  lemma SecondOctetSum(code: bv8, cd: bool, ad: bool, z: bool, ra: bool)
    requires code < 16
    ensures Octet(SecondOctet(code, cd, ad, z, ra))
            == Octet(code) + Flag(cd, 16) + Flag(ad, 32) + Flag(z, 64) + Flag(ra, 128)
  {
  }

  lemma LowNibbleMask(x: bv8)
    ensures Octet(x & 0x0F) == Octet(x) % 16
  {
  }

  lemma LowBitMask(x: bv8)
    ensures Masked(x, 1) == (Octet(x) % 2 == 1)
  {
  }

  lemma ShiftsDivide(x: bv8)
    ensures Octet(x >> 1) == Octet(x) / 2 && Octet(x >> 2) == Octet(x) / 4
    ensures Octet(x >> 3) == Octet(x) / 8 && Octet(x >> 4) == Octet(x) / 16
  {
  }

  lemma BigShiftsDivide(x: bv8)
    ensures Octet(x >> 5) == Octet(x) / 32 && Octet(x >> 6) == Octet(x) / 64 && Octet(x >> 7) == Octet(x) / 128
  {
  }

  lemma MasksShift(x: bv8)
    ensures Masked(x, 2) == Masked(x >> 1, 1) && Masked(x, 4) == Masked(x >> 2, 1)
    ensures Masked(x, 16) == Masked(x >> 4, 1) && Masked(x, 32) == Masked(x >> 5, 1)
    ensures Masked(x, 64) == Masked(x >> 6, 1) && Masked(x, 128) == Masked(x >> 7, 1)
  {
  }

  lemma MasksRead(x: bv8)
    ensures Masked(x, 1) == (Octet(x) % 2 == 1)
    ensures Masked(x, 2) == (Octet(x) / 2 % 2 == 1) && Masked(x, 4) == (Octet(x) / 4 % 2 == 1)
    ensures Masked(x, 16) == (Octet(x) / 16 % 2 == 1) && Masked(x, 32) == (Octet(x) / 32 % 2 == 1)
    ensures Masked(x, 64) == (Octet(x) / 64 % 2 == 1) && Masked(x, 128) == (Octet(x) / 128 % 2 == 1)
  {
    hide Masked, Octet;
    MasksShift(x);
    ShiftsDivide(x);
    BigShiftsDivide(x);
    LowBitMask(x);
    LowBitMask(x >> 1);
    LowBitMask(x >> 2);
    LowBitMask(x >> 4);
    LowBitMask(x >> 5);
    LowBitMask(x >> 6);
    LowBitMask(x >> 7);
  }

  /** The flag octets written are the code's shifts and ors in eight bits, lost bits included. */
  lemma WriteOperators(h: DnsHeader, opcode: bv8, code: bv8)
    requires Octet(opcode) == h.opcode && Octet(code) == h.rescode.ToNum() && code < 16
    ensures Octet(FirstOctet(h.recursionDesired, h.truncatedMessage, h.authoritativeAnswer, opcode, h.response))
            == HighFlags(h)
    ensures Octet(SecondOctet(code, h.checkingDisabled, h.authedData, h.z, h.recursionAvailable)) == LowFlags(h)
  {
    hide Octet, FirstOctet, SecondOctet, Masked, Flag;
    OpcodeOverflows(h.recursionDesired, h.truncatedMessage, h.authoritativeAnswer, opcode, h.response);
    FirstOctetSum(h.recursionDesired, h.truncatedMessage, h.authoritativeAnswer, opcode & 0x0F,
                  h.response || Masked(opcode, 16));
    SecondOctetSum(code, h.checkingDisabled, h.authedData, h.z, h.recursionAvailable);
    LowNibbleMask(opcode);
    MasksRead(opcode);
  }

  function HeaderBytes(h: DnsHeader): seq<byte> {
    U16Bytes(h.id) + [HighFlags(h), LowFlags(h)]
    + U16Bytes(h.questions) + U16Bytes(h.answers)
    + U16Bytes(h.authoritativeEntries) + U16Bytes(h.resourceEntries)
  }

  function HeaderOf(id: u16, a: byte, b: byte, qd: u16, an: u16, ns: u16, ar: u16): DnsHeader {
    DnsHeader(id, a % 2 == 1, a / 2 % 2 == 1, a / 4 % 2 == 1, a / 8 % 16, a / 128 % 2 == 1,
              ResultCodeFromNum(b % 16), b / 16 % 2 == 1, b / 32 % 2 == 1, b / 64 % 2 == 1, b / 128 % 2 == 1,
              qd, an, ns, ar)
  }

  /** The fields read are what the code's masks and shifts give on the two flag octets. */
  lemma ReadOperators(id: u16, x: bv8, y: bv8, qd: u16, an: u16, ns: u16, ar: u16)
    ensures var h := HeaderOf(id, Octet(x), Octet(y), qd, an, ns, ar);
            && h.recursionDesired == Masked(x, 1 << 0)
            && h.truncatedMessage == Masked(x, 1 << 1)
            && h.authoritativeAnswer == Masked(x, 1 << 2)
            && h.opcode == Octet((x >> 3) & 0x0F)
            && h.response == Masked(x, 1 << 7)
            && h.rescode == ResultCodeFromNum(Octet(y & 0x0F))
            && h.checkingDisabled == Masked(y, 1 << 4)
            && h.authedData == Masked(y, 1 << 5)
            && h.z == Masked(y, 1 << 6)
            && h.recursionAvailable == Masked(y, 1 << 7)
  {
    hide ResultCodeFromNum, Masked, Octet;
    MasksRead(x);
    MasksRead(y);
    ShiftsDivide(x);
    LowNibbleMask(x >> 3);
    LowNibbleMask(y);
  }

  function ParseHeader(b: seq<byte>, p: nat): Result<Parsed<DnsHeader>> {
    if p + HEADER_SIZE > |b| then Err(EndOfBuffer)
    else Ok(Parsed(HeaderOf(U16In(b, p), b[p + 2], b[p + 3],
                            U16In(b, p + 4), U16In(b, p + 6),
                            U16In(b, p + 8), U16In(b, p + 10)),
                   p + HEADER_SIZE))
  }

  function Num(b: bool): byte {
    if b then 1 else 0
  }

  lemma HighDigits(f0: bool, f1: bool, f2: bool, op: byte, f7: bool, x: byte)
    requires op < 16
    requires x == Flag(f0, 1) + Flag(f1, 2) + Flag(f2, 4) + op * 8 + Flag(f7, 128)
    ensures (x % 2 == 1) == f0 && (x / 2 % 2 == 1) == f1 && (x / 4 % 2 == 1) == f2
    ensures x / 8 % 16 == op && (x / 128 % 2 == 1) == f7
  {
    var x1, x2, x3 := x / 2, x / 4, x / 8;
    assert x1 == Num(f1) + 2 * Num(f2) + 4 * op + 64 * Num(f7);
    assert x2 == Num(f2) + 2 * op + 32 * Num(f7);
    assert x3 == op + 16 * Num(f7);
    assert x / 128 == Num(f7);
  }

  lemma LowDigits(c: byte, f4: bool, f5: bool, f6: bool, f7: bool, x: byte)
    requires c < 16
    requires x == c + Flag(f4, 16) + Flag(f5, 32) + Flag(f6, 64) + Flag(f7, 128)
    ensures x % 16 == c && (x / 16 % 2 == 1) == f4 && (x / 32 % 2 == 1) == f5
    ensures (x / 64 % 2 == 1) == f6 && (x / 128 % 2 == 1) == f7
  {
    assert x / 16 == Num(f4) + 2 * Num(f5) + 4 * Num(f6) + 8 * Num(f7);
    assert x / 32 == Num(f5) + 2 * Num(f6) + 4 * Num(f7);
    assert x / 64 == Num(f6) + 2 * Num(f7);
    assert x / 128 == Num(f7);
  }

  lemma FlagsRoundTrip(h: DnsHeader)
    ensures HeaderOf(h.id, HighFlags(h), LowFlags(h), h.questions, h.answers, h.authoritativeEntries, h.resourceEntries)
         == h.(opcode := h.opcode % 16, response := h.response || h.opcode / 16 % 2 == 1)
  {
    hide Flag;
    HighDigits(h.recursionDesired, h.truncatedMessage, h.authoritativeAnswer, h.opcode % 16,
               h.response || h.opcode / 16 % 2 == 1, HighFlags(h));
    LowDigits(h.rescode.ToNum(), h.checkingDisabled, h.authedData, h.z, h.recursionAvailable, LowFlags(h));
    assert h.rescode == ResultCodeFromNum(h.rescode.ToNum());
  }

  /** What reading makes of any written header: the opcode loses its high bits, one of them to QR. */
  lemma HeaderRead(b: seq<byte>, p: nat, h: DnsHeader)
    requires At(b, p, HeaderBytes(h))
    ensures ParseHeader(b, p)
            == Ok(Parsed(h.(opcode := h.opcode % 16, response := h.response || h.opcode / 16 % 2 == 1),
                         p + HEADER_SIZE))
  {
    hide HeaderOf, HighFlags, LowFlags;
    var w := b[p..p + HEADER_SIZE];
    assert forall i :: 0 <= i < HEADER_SIZE ==> b[p + i] == w[i];
    FlagsRoundTrip(h);
  }

  /** A written header reads back, at any offset, exactly when its opcode fits in four bits. */
  lemma HeaderRoundTrip(b: seq<byte>, p: nat, h: DnsHeader)
    requires At(b, p, HeaderBytes(h))
    ensures ParseHeader(b, p) == Ok(Parsed(h, p + HEADER_SIZE)) <==> h.opcode < 16
  {
    hide ParseHeader;
    HeaderRead(b, p, h);
  }

  lemma FlagDigit(d: byte, weight: byte)
    requires d < 2
    ensures Flag(d == 1, weight) == d * weight
  {
  }

  lemma OctetSum(a: byte)
    ensures a / 2 == a / 2 % 2 + 2 * (a / 4) && a / 4 == a / 4 % 2 + 2 * (a / 8)
    ensures a / 8 == a / 8 % 2 + 2 * (a / 16) && a / 16 == a / 16 % 2 + 2 * (a / 32)
    ensures a / 32 == a / 32 % 2 + 2 * (a / 64) && a / 64 == a / 64 % 2 + 2 * (a / 128)
    ensures a / 128 < 2 && a / 8 == a / 8 % 16 + 16 * (a / 128)
  {
    var a4, a8, a16, a32, a64 := a / 4, a / 8, a / 16, a / 32, a / 64;
    assert a / 2 / 2 == a4 && a4 / 2 == a8 && a8 / 2 == a16 && a16 / 2 == a32 && a32 / 2 == a64;
    assert a64 / 2 == a / 128 && a8 / 16 == a / 128;
  }

  lemma OctetDigits(a: byte)
    ensures a == Flag(a % 2 == 1, 1) + Flag(a / 2 % 2 == 1, 2) + Flag(a / 4 % 2 == 1, 4) + a / 8 % 16 * 8
                 + Flag(a / 128 % 2 == 1, 128)
    ensures a == a % 16 + Flag(a / 16 % 2 == 1, 16) + Flag(a / 32 % 2 == 1, 32) + Flag(a / 64 % 2 == 1, 64)
                 + Flag(a / 128 % 2 == 1, 128)
  {
    hide Flag;
    OctetSum(a);
    FlagDigit(a % 2, 1);
    FlagDigit(a / 2 % 2, 2);
    FlagDigit(a / 4 % 2, 4);
    FlagDigit(a / 16 % 2, 16);
    FlagDigit(a / 32 % 2, 32);
    FlagDigit(a / 64 % 2, 64);
    FlagDigit(a / 128 % 2, 128);
  }

  lemma FlagsPrint(id: u16, a: byte, b: byte, qd: u16, an: u16, ns: u16, ar: u16)
    ensures var h := HeaderOf(id, a, b, qd, an, ns, ar);
            HighFlags(h) == a && (LowFlags(h) == b <==> b % 16 <= 5)
  {
    hide Flag;
    var h := HeaderOf(id, a, b, qd, an, ns, ar);
    assert HighFlags(h) == a by {
      OctetDigits(a);
      var op := a / 8 % 16;
      assert h.opcode == op && op / 16 == 0 && op % 16 == op;
    }
    OctetDigits(b);
    CodePrints(b % 16);
  }

  lemma CodePrints(num: byte)
    requires num < 16
    ensures ResultCodeFromNum(num).ToNum() == num <==> num <= 5
  {
  }

  /**
   * Printing a parsed header restores its twelve octets exactly when the response code is one the
   * program knows: codes 6..15 all collapse to NOERROR.
   */
  lemma HeaderPrintsBack(b: seq<byte>, p: nat)
    requires p + HEADER_SIZE <= |b|
    ensures HeaderBytes(ParseHeader(b, p).value.value) == b[p..p + HEADER_SIZE] <==> b[p + 3] % 16 <= 5
  {
    hide HeaderOf, HighFlags, LowFlags, U16In, U16Bytes;
    HeaderFields(b, p);
    var h := ParseHeader(b, p).value.value;
    U16Prints(b, p);
    U16Prints(b, p + 4);
    U16Prints(b, p + 6);
    U16Prints(b, p + 8);
    U16Prints(b, p + 10);
    var w := b[p..p + HEADER_SIZE];
    assert HeaderBytes(h)[3] == LowFlags(h) && w[3] == b[p + 3];
    assert w == [b[p], b[p + 1], b[p + 2], b[p + 3], b[p + 4], b[p + 5],
                 b[p + 6], b[p + 7], b[p + 8], b[p + 9], b[p + 10], b[p + 11]];
  }

  lemma U16Prints(b: seq<byte>, p: nat)
    requires p + 2 <= |b|
    ensures U16Bytes(U16In(b, p)) == [b[p], b[p + 1]]
  {
  }

  lemma HeaderFields(b: seq<byte>, p: nat)
    requires p + HEADER_SIZE <= |b|
    ensures var h := ParseHeader(b, p).value.value;
            && h.id == U16In(b, p)
            && h.questions == U16In(b, p + 4)
            && h.answers == U16In(b, p + 6)
            && h.authoritativeEntries == U16In(b, p + 8)
            && h.resourceEntries == U16In(b, p + 10)
            && HighFlags(h) == b[p + 2]
            && (LowFlags(h) == b[p + 3] <==> b[p + 3] % 16 <= 5)
  {
    hide U16In, HighFlags, LowFlags;
    FlagsPrint(U16In(b, p), b[p + 2], b[p + 3], U16In(b, p + 4), U16In(b, p + 6),
               U16In(b, p + 8), U16In(b, p + 10));
  }

  // ---------------------------------------------------------------- the layout of section 4.1.1

  const WEIGHTS := [128, 64, 32, 16, 8, 4, 2, 1]

  /** Bit `i` of the second word of a header at `p`, numbered from the most significant as RFC 1035 does. */
  function FlagBit(b: seq<byte>, p: nat, i: nat): int
    requires p + HEADER_SIZE <= |b| && i < 16
  {
    b[p + 2 + i / 8] / WEIGHTS[i % 8] % 2
  }

  function Nibble(b3: int, b2: int, b1: int, b0: int): int {
    8 * b3 + 4 * b2 + 2 * b1 + b0
  }

  function Known(code: int): int {
    if code <= 5 then code else 0
  }

  /**
   * The parsed header is what section 4.1.1 of RFC 1035 draws (with the two bits RFC 2535 took from
   * Z): QR, OPCODE, AA, TC, RD, RA, Z, AD, CD, RCODE, and four counts. Codes above 5 read as 0.
   */
  lemma HeaderLayout(b: seq<byte>, p: nat)
    ensures ParseHeader(b, p).Ok? <==> p + HEADER_SIZE <= |b|
    ensures p + HEADER_SIZE <= |b| ==>
              var h := ParseHeader(b, p).value.value;
              && h.id == U16In(b, p)
              && h.response == (FlagBit(b, p, 0) == 1)
              && h.opcode == Nibble(FlagBit(b, p, 1), FlagBit(b, p, 2), FlagBit(b, p, 3), FlagBit(b, p, 4))
              && h.authoritativeAnswer == (FlagBit(b, p, 5) == 1)
              && h.truncatedMessage == (FlagBit(b, p, 6) == 1)
              && h.recursionDesired == (FlagBit(b, p, 7) == 1)
              && h.recursionAvailable == (FlagBit(b, p, 8) == 1)
              && h.z == (FlagBit(b, p, 9) == 1)
              && h.authedData == (FlagBit(b, p, 10) == 1)
              && h.checkingDisabled == (FlagBit(b, p, 11) == 1)
              && h.rescode.ToNum()
                 == Known(Nibble(FlagBit(b, p, 12), FlagBit(b, p, 13), FlagBit(b, p, 14), FlagBit(b, p, 15)))
              && h.questions == U16In(b, p + 4)
              && h.answers == U16In(b, p + 6)
              && h.authoritativeEntries == U16In(b, p + 8)
              && h.resourceEntries == U16In(b, p + 10)
  {
    hide U16In, Nibble, Known, ResultCodeFromNum;
    if p + HEADER_SIZE <= |b| {
      HighNibble(b[p + 2]);
      LowNibble(b[p + 3]);
      CodeOf(b[p + 3] % 16);
    }
  }

  lemma CodeOf(code: byte)
    requires code < 16
    ensures ResultCodeFromNum(code).ToNum() == Known(code)
  {
  }

  lemma HighNibble(a: byte)
    ensures a / 8 % 16 == Nibble(a / 64 % 2, a / 32 % 2, a / 16 % 2, a / 8 % 2)
  {
    OctetSum(a);
  }

  lemma LowNibble(a: byte)
    ensures a % 16 == Nibble(a / 8 % 2, a / 4 % 2, a / 2 % 2, a % 2)
  {
    OctetSum(a);
    assert a == 16 * (a / 16) + a % 16;
  }

  method ReadHeader(buffer: BytePacketBuffer) returns (r: Result<DnsHeader>)
    modifies buffer`pos
    ensures r == match ParseHeader(buffer.buf, old(buffer.pos)) case Ok(h) => Ok(h.value) case Err(e) => Err(e)
    ensures r.Ok? ==> buffer.pos == old(buffer.pos) + HEADER_SIZE
  {
    hide HeaderOf;
    var id :- buffer.ReadU16();
    var flags :- buffer.ReadU16();
    var a, b := flags / 0x100, flags % 0x100;
    var qd :- buffer.ReadU16();
    var an :- buffer.ReadU16();
    var ns :- buffer.ReadU16();
    var ar :- buffer.ReadU16();
    return Ok(HeaderOf(id, a, b, qd, an, ns, ar));
  }

  method WriteHeader(h: DnsHeader, buffer: BytePacketBuffer)
    modifies buffer
    ensures buffer.buf == Overlay(old(buffer.buf), old(buffer.pos), HeaderBytes(h))
    ensures buffer.pos == old(buffer.pos) + HEADER_SIZE
  {
    hide Overlay, HighFlags, LowFlags;
    ghost var b, p := buffer.buf, buffer.pos;
    buffer.WriteU16(h.id);
    ghost var done := U16Bytes(h.id);
    OverlayAppend(b, p, done, [HighFlags(h)]);
    buffer.Write(HighFlags(h));
    OverlayAppend(b, p, done + [HighFlags(h)], [LowFlags(h)]);
    buffer.Write(LowFlags(h));
    done := done + [HighFlags(h)] + [LowFlags(h)];
    OverlayAppend(b, p, done, U16Bytes(h.questions));
    buffer.WriteU16(h.questions);
    done := done + U16Bytes(h.questions);
    OverlayAppend(b, p, done, U16Bytes(h.answers));
    buffer.WriteU16(h.answers);
    done := done + U16Bytes(h.answers);
    OverlayAppend(b, p, done, U16Bytes(h.authoritativeEntries));
    buffer.WriteU16(h.authoritativeEntries);
    done := done + U16Bytes(h.authoritativeEntries);
    OverlayAppend(b, p, done, U16Bytes(h.resourceEntries));
    buffer.WriteU16(h.resourceEntries);
    assert done + U16Bytes(h.resourceEntries) == HeaderBytes(h);
  }
}
