/** The cursor buffer of lib/buffer.rs, proved against the wire denotation of `Names`. */
module Buffers {
  import opened Prelude
  import opened Texts
  import opened Names

  function Zeros(n: nat): seq<byte> {
    seq(n, _ => 0)
  }

  /** `buf` after writing `data` at `pos`: overwriting in place, and growing with zeros as needed. */
  function Overlay(buf: seq<byte>, pos: nat, data: seq<byte>): seq<byte> {
    if data == [] then buf
    else
      var padded := if pos <= |buf| then buf else buf + Zeros(pos - |buf|);
      padded[..pos] + data + (if pos + |data| <= |buf| then buf[pos + |data|..] else [])
  }

  /** Consecutive writes are one write of the concatenation. */
  lemma OverlayAppend(buf: seq<byte>, pos: nat, x: seq<byte>, y: seq<byte>)
    ensures Overlay(Overlay(buf, pos, x), pos + |x|, y) == Overlay(buf, pos, x + y)
  {
    if x == [] {
      assert x + y == y;
    } else if y == [] {
      assert x + y == x;
    } else {
      var once, twice := Overlay(buf, pos, x + y), Overlay(Overlay(buf, pos, x), pos + |x|, y);
      assert |once| == |twice|;
      assert forall i :: 0 <= i < |once| ==> once[i] == twice[i];
    }
  }

  lemma OverlayNothing(buf: seq<byte>, pos: nat)
    ensures Overlay(buf, pos, []) == buf
  {
  }

  lemma OverlayFour(buf: seq<byte>, pos: nat, b3: byte, b2: byte, b1: byte, b0: byte)
    ensures Overlay(Overlay(Overlay(Overlay(buf, pos, [b3]), pos + 1, [b2]), pos + 2, [b1]), pos + 3, [b0])
         == Overlay(buf, pos, [b3, b2, b1, b0])
  {
    var x, y, z := [b3], [b3, b2], [b3, b2, b1];
    OverlayAppend(buf, pos, x, [b2]);
    assert x + [b2] == y;
    OverlayAppend(buf, pos, y, [b1]);
    assert y + [b1] == z;
    OverlayAppend(buf, pos, z, [b0]);
    assert z + [b0] == [b3, b2, b1, b0];
  }

  /** Writing past a prefix keeps the prefix: what `as_bytes` shows only grows. */
  lemma OverlayWritten(buf: seq<byte>, pos: nat, data: seq<byte>)
    requires pos <= |buf|
    ensures pos + |data| <= |Overlay(buf, pos, data)|
    ensures Overlay(buf, pos, data)[..pos + |data|] == buf[..pos] + data
  {
  }

  /** Back-patching two of the bytes just written is the same as having written them patched. */
  lemma OverlayPatch(buf: seq<byte>, pos: nat, x: seq<byte>, hole: seq<byte>, patch: seq<byte>, y: seq<byte>)
    requires |hole| == 2 == |patch|
    ensures var b := Overlay(buf, pos, x + hole + y);
            var at := pos + |x|;
            && at + 2 <= |b|
            && b[at := patch[0]][at + 1 := patch[1]] == Overlay(buf, pos, x + patch + y)
  {
    var b, c := Overlay(buf, pos, x + hole + y), Overlay(buf, pos, x + patch + y);
    var at := pos + |x|;
    assert |b| == |c|;
    assert forall i :: 0 <= i < |b| ==>
        (b[at := patch[0]][at + 1 := patch[1]])[i] == c[i];
  }

  class BytePacketBuffer {
    var buf: seq<byte>
    var pos: nat

    /** The portion `as_bytes` shows. */
    function Written(): seq<byte>
      requires pos <= |buf|
      reads this
    {
      buf[..pos]
    }

    constructor ()
      ensures buf == Zeros(512) && pos == 0 && Written() == []
    {
      buf := Zeros(512);
      pos := 0;
    }

    constructor WithCapacity(cap: nat)
      ensures buf == Zeros(cap) && pos == 0 && Written() == []
    {
      buf := Zeros(cap);
      pos := 0;
    }

    constructor FromBytes(data: seq<byte>)
      ensures buf == data && pos == 0
    {
      buf := data;
      pos := 0;
    }

    method Step(steps: nat)
      modifies this`pos
      ensures pos == old(pos) + steps
    {
      pos := pos + steps;
    }

    method Seek(to: nat)
      modifies this`pos
      ensures pos == to
    {
      pos := to;
    }

    // ---------------------------------------------------------------- reading

    /** The cursor after a failed fixed-size read: everything in bounds was consumed first. */
    function Exhausted(from: nat): nat
      reads this`buf
    {
      if from < |buf| then |buf| else from
    }

    method Read() returns (r: Result<byte>)
      modifies this`pos
      ensures r == if old(pos) < |buf| then Ok(buf[old(pos)]) else Err(EndOfBuffer)
      ensures pos == if r.Ok? then old(pos) + 1 else old(pos)
    {
      if pos >= |buf| {
        return Err(EndOfBuffer);
      }
      var res := buf[pos];
      pos := pos + 1;
      return Ok(res);
    }

    method Get(at: nat) returns (r: Result<byte>)
      ensures r == if at < |buf| then Ok(buf[at]) else Err(EndOfBuffer)
    {
      if at >= |buf| {
        return Err(EndOfBuffer);
      }
      return Ok(buf[at]);
    }

    method GetRange(start: nat, len: nat) returns (r: Result<seq<byte>>)
      ensures r == if start + len <= |buf| then Ok(buf[start..start + len]) else Err(EndOfBuffer)
    {
      if start + len > |buf| {
        return Err(EndOfBuffer);
      }
      return Ok(buf[start..start + len]);
    }

    method ReadU16() returns (r: Result<u16>)
      modifies this`pos
      ensures r == U16At(buf, old(pos))
      ensures pos == if r.Ok? then old(pos) + 2 else Exhausted(old(pos))
    {
      var hi :- Read();
      var lo :- Read();
      return Ok((hi as int) * 0x100 + lo as int);
    }

    method ReadU32() returns (r: Result<u32>)
      modifies this`pos
      ensures r == U32At(buf, old(pos))
      ensures pos == if r.Ok? then old(pos) + 4 else Exhausted(old(pos))
    {
      var b3 :- Read();
      var b2 :- Read();
      var b1 :- Read();
      var b0 :- Read();
      return Ok((b3 as int) * 0x100_0000 + (b2 as int) * 0x1_0000 + (b1 as int) * 0x100 + b0 as int);
    }

    /**
     * Append the name at the cursor to `outstr`, following compression pointers. The cursor ends just
     * past the name; a read that fails leaves it past the first pointer, or untouched without one.
     */
    method ReadQname(outstr: Text) returns (r: Result<Text>)
      modifies this`pos
      ensures r == match ReadLabels(buf, old(pos), MAX_JUMPS)
                   case Ok(n) => Ok(outstr + NameText(n.labels))
                   case Err(e) => Err(e)
      ensures r.Ok? ==> pos == ReadLabels(buf, old(pos), MAX_JUMPS).value.next
      ensures r.Err? ==> pos == match FirstPointer(buf, old(pos)) case Some(q) => q case None => old(pos)
    {
      hide ReadLabels, Pending, NameText, FirstPointer;
      ghost var b, from := buf, pos;
      ghost var whole := ReadLabels(buf, pos, MAX_JUMPS);
      ghost var got: seq<Text> := [];
      ghost var settled: Option<nat> := None;
      var p: nat := pos;
      var jumped := false;
      var delim: Text := [];
      var out := outstr;
      var jumps := 0;
      PendingStart(b, from);
      while true
        invariant buf == b && 0 <= jumps <= MAX_JUMPS + 1
        invariant settled.Some? == jumped == (jumps > 0) && pos == (if jumped then settled.value else from)
        invariant Pending(b, whole, got, p, jumps, settled)
        invariant FirstPointer(b, from) == if jumped then settled else FirstPointer(b, p)
        invariant out == outstr + NameText(got)
        invariant delim == if got == [] then [] else [DOT]
        decreases MAX_JUMPS + 1 - jumps, |b| - p
      {
        if jumps > MAX_JUMPS {
          PendingTooLong(b, whole, got, p, jumps, settled);
          return Err(TooManyJumps);
        }
        PendingStuck(b, whole, got, p, jumps, settled);
        PointerAhead(b, p);
        var len :- Get(p);
        if len >= 0xC0 {
          if !jumped {
            Seek(p + 2);
          }
          var b2 :- Get(p + 1);
          PendingPointer(b, whole, got, p, jumps, settled);
          settled := Settle(settled, p + 2);
          p := (len as int - 0xC0) * 0x100 + b2 as int;
          jumped := true;
          jumps := jumps + 1;
          continue;
        }
        p := p + 1;
        if len == 0 {
          PendingEnd(b, whole, got, p, jumps, settled);
          break;
        }
        var part :- GetRange(p, len);
        PendingLabel(b, whole, got, p, jumps, settled, part);
        NameTextSnoc(got, part);
        got := got + [part];
        out := out + delim + Lower(part);
        delim := [DOT];
        p := p + len;
      }
      if !jumped {
        Seek(p);
      }
      return Ok(out);
    }

    // ---------------------------------------------------------------- writing

    method Write(val: byte)
      modifies this
      ensures buf == Overlay(old(buf), old(pos), [val]) && pos == old(pos) + 1
    {
      if pos >= |buf| {
        buf := buf + Zeros(pos + 1 - |buf|);
      }
      buf := buf[pos := val];
      pos := pos + 1;
    }

    method WriteBytes(data: seq<byte>)
      modifies this
      ensures buf == Overlay(old(buf), old(pos), data) && pos == old(pos) + |data|
    {
      var i := 0;
      while i < |data|
        invariant 0 <= i <= |data|
        invariant buf == Overlay(old(buf), old(pos), data[..i]) && pos == old(pos) + i
      {
        OverlayAppend(old(buf), old(pos), data[..i], [data[i]]);
        assert data[..i] + [data[i]] == data[..i + 1];
        Write(data[i]);
        i := i + 1;
      }
      assert data[..i] == data;
    }

    method WriteU16(val: u16)
      modifies this
      ensures buf == Overlay(old(buf), old(pos), U16Bytes(val)) && pos == old(pos) + 2
    {
      OverlayAppend(buf, pos, [val / 0x100], [val % 0x100]);
      Write(val / 0x100);
      Write(val % 0x100);
    }

    method WriteU32(val: u32)
      modifies this
      ensures buf == Overlay(old(buf), old(pos), U32Bytes(val)) && pos == old(pos) + 4
    {
      var b3, b2, b1, b0 := val / 0x100_0000, val / 0x1_0000 % 0x100, val / 0x100 % 0x100, val % 0x100;
      OverlayFour(buf, pos, b3, b2, b1, b0);
      Write(b3);
      Write(b2);
      Write(b1);
      Write(b0);
    }

    /** On an over-long label the labels before it have been written, and nothing else. */
    method WriteQname(qname: Text) returns (r: Result<()>)
      modifies this
      ensures var e := EmitName(qname);
              && r == (if e.ok then Ok(()) else Err(LabelTooLong))
              && buf == Overlay(old(buf), old(pos), e.bytes)
              && pos == old(pos) + |e.bytes|
    {
      hide EmitLabels, Overlay, Split;
      var labels := Split(qname);
      ghost var b, p := buf, pos;
      ghost var done: seq<byte> := [];
      OverlayNothing(b, p);
      EmitStart(labels);
      var i := 0;
      while i < |labels|
        invariant 0 <= i <= |labels|
        invariant EmitLabels(labels) == Plain(done).Then(EmitLabels(labels[i..]))
        invariant buf == Overlay(b, p, done) && pos == p + |done|
      {
        var part := labels[i];
        EmitStep(done, labels[i..]);
        assert labels[i..][1..] == labels[i + 1..];
        var len := |part|;
        if len > 0x3F {
          return Err(LabelTooLong);
        }
        OverlayAppend(b, p, done, [len]);
        Write(len);
        OverlayAppend(b, p, done + [len], part);
        WriteBytes(part);
        done := done + [len] + part;
        i := i + 1;
      }
      EmitStop(done, labels[i..]);
      OverlayAppend(b, p, done, [0]);
      Write(0);
      return Ok(());
    }

    /** Overwrite two bytes already in the buffer, leaving the cursor where it is. */
    method PatchU16(at: nat, val: u16)
      requires at + 2 <= |buf|
      modifies this`buf
      ensures buf == old(buf)[at := U16Bytes(val)[0]][at + 1 := U16Bytes(val)[1]]
    {
      buf := buf[at := val / 0x100];
      buf := buf[at + 1 := val % 0x100];
    }

    method AsBytes() returns (r: seq<byte>)
      requires pos <= |buf|
      ensures r == Written()
    {
      return buf[..pos];
    }
  }

  lemma EmitStart(ls: seq<Text>)
    ensures EmitLabels(ls) == Plain([]).Then(EmitLabels(ls[0..]))
  {
    assert [] + EmitLabels(ls).bytes == EmitLabels(ls).bytes && ls[0..] == ls;
  }

  lemma EmitStep(done: seq<byte>, ls: seq<Text>)
    requires ls != []
    ensures |ls[0]| > 0x3F ==> Plain(done).Then(EmitLabels(ls)) == Emission(done, false)
    ensures |ls[0]| <= 0x3F ==>
              Plain(done).Then(EmitLabels(ls)) == Plain(done + [|ls[0]|] + ls[0]).Then(EmitLabels(ls[1..]))
  {
    if |ls[0]| > 0x3F {
      assert done + [] == done;
    } else {
      var rest := EmitLabels(ls[1..]).bytes;
      assert done + ([|ls[0]|] + ls[0] + rest) == (done + [|ls[0]|] + ls[0]) + rest;
    }
  }

  lemma EmitStop(done: seq<byte>, ls: seq<Text>)
    requires ls == []
    ensures Plain(done).Then(EmitLabels(ls)) == Plain(done + [0])
  {
  }

  /**
   * A read that ends in `whole`, in progress: the labels `got` so far, and what is still to be
   * read at `p` after `jumps` pointers, complete it; the final cursor may already be settled.
   */
  ghost predicate Pending(b: seq<byte>, whole: Result<NameRead>, got: seq<Text>, p: nat, jumps: nat,
                          settled: Option<nat>) {
    if jumps > MAX_JUMPS then whole == Err(TooManyJumps)
    else
      var rest := ReadLabels(b, p, MAX_JUMPS - jumps);
      && (rest.Err? ==> whole == rest)
      && (rest.Ok? ==>
            && whole.Ok?
            && whole.value.labels == got + rest.value.labels
            && whole.value.next == if settled.Some? then settled.value else rest.value.next)
  }

  /** Only the first pointer settles where the cursor ends up. */
  function Settle(settled: Option<nat>, next: nat): Option<nat> {
    if settled.Some? then settled else Some(next)
  }

  lemma PendingPointer(b: seq<byte>, whole: Result<NameRead>, got: seq<Text>, p: nat, jumps: nat, settled: Option<nat>)
    requires jumps <= MAX_JUMPS && Pending(b, whole, got, p, jumps, settled)
    requires p + 1 < |b| && b[p] >= 0xC0
    ensures Pending(b, whole, got, U16In(b, p) - 0xC000, jumps + 1, Settle(settled, p + 2))
  {
  }

  /** Where the message ends too early, the whole read fails for that reason. */
  lemma PendingStuck(b: seq<byte>, whole: Result<NameRead>, got: seq<Text>, p: nat, jumps: nat, settled: Option<nat>)
    requires jumps <= MAX_JUMPS && Pending(b, whole, got, p, jumps, settled)
    ensures p >= |b| || (b[p] >= 0xC0 && p + 1 >= |b|) || (0 < b[p] < 0xC0 && p + 1 + b[p] > |b|) ==>
              whole == Err(EndOfBuffer)
  {
  }

  /** The first pointer from `p` is at `p`, or where the next label leads; none follows the end. */
  lemma PointerAhead(b: seq<byte>, p: nat)
    ensures FirstPointer(b, p) ==
            if p >= |b| || b[p] == 0 || (b[p] < 0xC0 && p + 1 + b[p] > |b|) then None
            else if b[p] >= 0xC0 then Some(p + 2)
            else FirstPointer(b, p + 1 + b[p])
  {
  }

  /** `p` is just past the length octet, as in the two lemmas below. */
  lemma PendingLabel(b: seq<byte>, whole: Result<NameRead>, got: seq<Text>, p: nat, jumps: nat,
                     settled: Option<nat>, part: Text)
    requires p > 0 && jumps <= MAX_JUMPS && Pending(b, whole, got, p - 1, jumps, settled)
    requires p <= |b| && 0 < b[p - 1] < 0xC0 && |part| == b[p - 1] && At(b, p, part)
    ensures Pending(b, whole, got + [part], p + |part|, jumps, settled)
  {
    var rest := ReadLabels(b, p + |part|, MAX_JUMPS - jumps);
    if rest.Ok? {
      assert got + ([part] + rest.value.labels) == (got + [part]) + rest.value.labels;
    }
  }

  lemma PendingStart(b: seq<byte>, from: nat)
    ensures Pending(b, ReadLabels(b, from, MAX_JUMPS), [], from, 0, None) && NameText([]) == []
  {
    var rest := ReadLabels(b, from, MAX_JUMPS);
    assert rest.Ok? ==> [] + rest.value.labels == rest.value.labels;
  }

  lemma PendingTooLong(b: seq<byte>, whole: Result<NameRead>, got: seq<Text>, p: nat, jumps: nat, settled: Option<nat>)
    requires jumps > MAX_JUMPS && Pending(b, whole, got, p, jumps, settled)
    ensures whole == Err(TooManyJumps)
  {
  }

  lemma PendingEnd(b: seq<byte>, whole: Result<NameRead>, got: seq<Text>, p: nat, jumps: nat, settled: Option<nat>)
    requires p > 0 && jumps <= MAX_JUMPS && Pending(b, whole, got, p - 1, jumps, settled)
    requires p <= |b| && b[p - 1] == 0
    ensures whole == Ok(NameRead(got, if settled.Some? then settled.value else p))
  {
    assert got + [] == got;
  }

  lemma {:induction false} NameTextSnoc(ls: seq<Text>, l: Text)
    ensures NameText(ls + [l]) == NameText(ls) + (if ls == [] then [] else [DOT]) + Lower(l)
  {
    assert LowerAll(ls + [l]) == LowerAll(ls) + [Lower(l)];
    if ls != [] {
      JoinAppend(LowerAll(ls), [Lower(l)]);
    }
  }
}
