/**
 The incremental pcapng parser behind the live capture tab, and the encoder
 behind "Save .pcapng" (app/src/lib/pcapng.ts).

 `Drain` is the meaning of a buffer: the packets of its complete blocks and the
 bytes that stay behind. The class does the same in place, with a cursor over
 the merged buffer. Timestamps are exact: ticks are integers, seconds are reals.
 */
module Pcapng {
  import opened Wrappers
  import opened Bytes

  const BT_SHB: int := 0x0A0D0D0A
  const BT_IDB: int := 1
  const BT_SPB: int := 3
  const BT_EPB: int := 6
  const BYTE_ORDER_MAGIC: int := 0x1A2B3C4D
  const MAX_BLOCK: int := 8 * 1024 * 1024

  datatype Packet = Packet(index: nat, tRel: real, tsMicros: int, data: seq<byte>, origLen: nat)

  type Positive = n: nat | n >= 1 witness 1

  /** What the parser knows besides its buffer. */
  datatype Decoder = Decoder(little: bool, tsPerSec: Positive, index: nat, t0: Option<real>)

  const Fresh: Decoder := Decoder(true, 1_000_000, 0, None)

  function U16(b: seq<byte>, off: nat, little: bool): (v: nat)
    requires off + 2 <= |b|
  {
    if little then GetLe16(b, off) else GetBe16(b, off)
  }

  function U32(b: seq<byte>, off: nat, little: bool): (v: nat)
    requires off + 4 <= |b|
    ensures v < TWO_32
  {
    if little then GetLe32(b, off) else GetBe32(b, off)
  }

  function Power(base: Positive, e: nat): (p: Positive) {
    if e == 0 then 1 else base * Power(base, e - 1)
  }

  // ----- One block --------------------------------------------------------

  /** The byte order in force for the block at the head of `b`. */
  function PeekOrder(d: Decoder, b: seq<byte>): (little: bool)
    requires |b| >= 12
  {
    if U32(b, 0, d.little) == BT_SHB then U32(b, 8, true) == BYTE_ORDER_MAGIC else d.little
  }

  function Peek(d: Decoder, b: seq<byte>): (d': Decoder)
    requires |b| >= 12
  {
    d.(little := PeekOrder(d, b))
  }

  function BlockLength(d: Decoder, b: seq<byte>): (len: nat)
    requires |b| >= 12
    ensures len < TWO_32
  {
    U32(b, 4, PeekOrder(d, b))
  }

  /** One block's effect; `Threw` is a read outside the buffer (a RangeError). */
  datatype Block = Block(d: Decoder, packets: seq<Packet>) | Threw(d: Decoder)

  /** The tick rate after scanning the options from `p`; the last if_tsresol wins. */
  function OptionsRate(b: seq<byte>, p: nat, end: nat, little: bool, rate: Positive): (r: Positive)
    requires end < |b|
    decreases end - p
  {
    if p + 4 > end then rate
    else
      var code, len := U16(b, p, little), U16(b, p + 2, little);
      if code == 0 then rate
      else
        var rate' := if code == 9 && len >= 1 then RateOf(b[p + 4]) else rate;
        OptionsRate(b, p + 4 + len + (4 - len % 4) % 4, end, little, rate')
  }

  function RateOf(raw: byte): (r: Positive) {
    if raw >= 0x80 then Power(2, raw - 0x80) else Power(10, raw)
  }

  function Max0(r: real): (m: real) {
    if r < 0.0 then 0.0 else r
  }

  function Emit(d: Decoder, tAbs: real, b: seq<byte>, start: nat, capLen: nat, origLen: nat): (r: Block) {
    var d' := d.(t0 := Some(if d.t0.Some? then d.t0.value else tAbs));
    if start + capLen > |b| then Threw(d')
    else
      var d'' := d'.(index := d.index + 1);
      Block(d'', [Packet(d''.index, Max0(tAbs - d'.t0.value), (tAbs * 1_000_000.0 + 0.5).Floor,
                         b[start..start + capLen], origLen)])
  }

  function EnhancedPacket(d: Decoder, b: seq<byte>): (r: Block) {
    if |b| < 28 then Threw(d)
    else
      var ticks := U32(b, 12, d.little) * TWO_32 + U32(b, 16, d.little);
      Emit(d, ticks as real / d.tsPerSec as real, b, 28, U32(b, 20, d.little), U32(b, 24, d.little))
  }

  function SimplePacket(d: Decoder, b: seq<byte>, len: nat): (r: Block)
    requires |b| >= 12
  {
    Emit(d, 0.0, b, 12, if len >= 16 then len - 16 else 0, U32(b, 8, d.little))
  }

  /** The block of length `len` at the head of `b`, byte order already peeked. */
  function ReadBlock(d: Decoder, b: seq<byte>, len: nat): (r: Block)
    requires 12 <= len <= |b|
  {
    var kind := U32(b, 0, d.little);
    if kind == BT_IDB then Block(d.(tsPerSec := OptionsRate(b, 16, len - 4, d.little, d.tsPerSec)), [])
    else if kind == BT_EPB then EnhancedPacket(d, b)
    else if kind == BT_SPB then SimplePacket(d, b, len)
    else Block(d, [])
  }

  // ----- A whole buffer ---------------------------------------------------

  /** How a drain ended: on an incomplete block, on a corrupt length, or on a throw. */
  datatype Status = Waiting | Dropped | Thrown

  datatype Drained = Drained(d: Decoder, packets: seq<Packet>, rest: seq<byte>, status: Status)

  predicate LengthOk(len: nat) {
    12 <= len <= MAX_BLOCK
  }

  function Drain(d: Decoder, b: seq<byte>): (r: Drained)
    decreases |b|
  {
    if |b| < 12 then Drained(d, [], b, Waiting)
    else
      var d1, len := Peek(d, b), BlockLength(d, b);
      if !LengthOk(len) then Drained(d1, [], [], Dropped)
      else if |b| < len then Drained(d1, [], b, Waiting)
      else
        match ReadBlock(d1, b, len)
        case Threw(d2) => Drained(d2, [], b, Thrown)
        case Block(d2, packets) =>
          After(packets, Drain(d2, b[len..]))
  }

  /** What one `push` leaves behind and returns. A throw returns no packets and keeps every byte. */
  function Pushed(d: Decoder, buf: seq<byte>, chunk: seq<byte>): (r: Drained) {
    var r := Drain(d, buf + chunk);
    if r.status == Thrown then r.(packets := [], rest := buf + chunk) else r
  }

  /** Successive pushes: final state, all packets returned, and the worst status met. */
  function PushedAll(d: Decoder, buf: seq<byte>, chunks: seq<seq<byte>>): (r: Drained)
    decreases |chunks|
  {
    if chunks == [] then Drained(d, [], buf, Waiting)
    else
      var first := Pushed(d, buf, chunks[0]);
      var later := PushedAll(first.d, first.rest, chunks[1..]);
      Drained(later.d, first.packets + later.packets, later.rest,
              if first.status == Waiting then later.status else first.status)
  }

  /** `r` with packets already gathered in front. */
  function After(packets: seq<Packet>, r: Drained): Drained {
    r.(packets := packets + r.packets)
  }

  lemma AfterAfter(p: seq<Packet>, q: seq<Packet>, r: Drained)
    ensures After(p, After(q, r)) == After(p + q, r)
  {
    assert p + (q + r.packets) == (p + q) + r.packets;
  }

  /** A section header's type reads the same in both byte orders. */
  lemma Palindrome(b: seq<byte>)
    requires |b| >= 4
    ensures U32(b, 0, true) == BT_SHB <==> U32(b, 0, false) == BT_SHB
  {
    assert U32(b, 0, true) == BT_SHB <==> GetLe16(b, 0) == 0x0D0A && GetLe16(b, 2) == 0x0A0D;
    assert U32(b, 0, false) == BT_SHB <==> GetBe16(b, 0) == 0x0A0D && GetBe16(b, 2) == 0x0D0A;
    assert GetLe16(b, 0) == 0x0D0A <==> b[0] == 0x0A && b[1] == 0x0D;
    assert GetLe16(b, 2) == 0x0A0D <==> b[2] == 0x0D && b[3] == 0x0A;
  }

  /** Peeking a header again, after its byte order was discovered, changes nothing. */
  lemma PeekTwice(d: Decoder, b: seq<byte>)
    requires |b| >= 12
    ensures Peek(Peek(d, b), b) == Peek(d, b) && BlockLength(Peek(d, b), b) == BlockLength(d, b)
  {
    Palindrome(b);
  }

  // ----- The parser as written --------------------------------------------

  class PcapngParser {
    var buf: seq<byte>
    var little: bool
    var tsPerSec: Positive
    var index: nat
    var t0: Option<real>

    function Knows(): (d: Decoder)
      reads this
    {
      Decoder(little, tsPerSec, index, t0)
    }

    constructor ()
      ensures Knows() == Fresh && buf == []
    {
      buf, little, tsPerSec, index, t0 := [], true, 1_000_000, 0, None;
    }

    /** Returns None when a read runs outside the buffer. */
    method Push(chunk: seq<byte>) returns (result: Option<seq<Packet>>)
      modifies this
      ensures var r := Pushed(old(Knows()), old(buf), chunk);
              && Knows() == r.d && buf == r.rest
              && result == if r.status == Thrown then None else Some(r.packets)
    {
      buf := buf + chunk;
      result := DrainBuffer();
    }

    method DrainBuffer() returns (result: Option<seq<Packet>>)
      modifies this
      ensures var r := Drain(old(Knows()), old(buf));
              && Knows() == r.d
              && buf == (if r.status == Thrown then old(buf) else r.rest)
              && result == if r.status == Thrown then None else Some(r.packets)
    {
      hide U32, Emit;
      ghost var whole := Drain(Knows(), buf);
      var out: seq<Packet> := [];
      var off := 0;
      assert buf[0..] == buf;
      while |buf| - off >= 12
        invariant 0 <= off <= |buf| && buf == old(buf)
        invariant whole == After(out, Drain(Knows(), buf[off..]))
        decreases |buf| - off
      {
        ghost var before, b := Knows(), buf[off..];
        var blockType, totalLen := PeekHeader(off);
        assert Knows() == Peek(before, b) && totalLen == BlockLength(before, b);
        if totalLen < 12 || totalLen > 8 * 1024 * 1024 {
          assert out + [] == out;
          assert whole == Drained(Knows(), out, [], Dropped);
          buf := [];
          return Some(out);
        }
        if |buf| - off < totalLen {
          assert Drain(before, b) == Drained(Knows(), [], b, Waiting);
          PeekTwice(before, b);
          assert Drain(Knows(), b) == Drain(before, b);
          break;
        }
        var more := HandleBlock(off, blockType, totalLen);
        if more.None? {
          assert Drain(before, b).status == Thrown;
          return None;
        }
        assert b[totalLen..] == buf[off + totalLen..];
        assert Drain(before, b) == After(more.value, Drain(Knows(), b[totalLen..]));
        AfterAfter(out, more.value, Drain(Knows(), b[totalLen..]));
        out := out + more.value;
        off := off + totalLen;
      }
      assert Drain(Knows(), buf[off..]) == Drained(Knows(), [], buf[off..], Waiting);
      assert out + [] == out;
      assert whole == Drained(Knows(), out, buf[off..], Waiting);
      buf := buf[off..];
      result := Some(out);
    }

    /** Peek the header at `off`, discovering the byte order of a section header. */
    method PeekHeader(off: nat) returns (blockType: nat, totalLen: nat)
      requires off + 12 <= |buf|
      modifies this`little
      ensures Knows() == Peek(old(Knows()), buf[off..])
      ensures blockType == U32(buf[off..], 0, little) && totalLen == BlockLength(old(Knows()), buf[off..])
    {
      ghost var b := buf[off..];
      ShiftedReads(buf, off);
      blockType := U32(buf, off, little);
      Palindrome(b);
      if blockType == BT_SHB {
        var magicLE := U32(buf, off + 8, true);
        little := magicLE == BYTE_ORDER_MAGIC;
      }
      totalLen := U32(buf, off + 4, little);
    }

    /** The body of one complete block; None when it reads outside the buffer. */
    method HandleBlock(off: nat, blockType: nat, totalLen: nat) returns (packets: Option<seq<Packet>>)
      requires 12 <= totalLen && off + totalLen <= |buf| && blockType == U32(buf[off..], 0, little)
      modifies this`tsPerSec, this`t0, this`index
      ensures var r := ReadBlock(old(Knows()), buf[off..], totalLen);
              Knows() == r.d && packets == if r.Threw? then None else Some(r.packets)
    {
      hide GetLe32, GetBe32;
      if blockType == BT_IDB {
        ParseIdb(off + 8, off + totalLen - 4);
        ShiftedOptions(buf, off, 16, totalLen - 4, little, buf[off..]);
        return Some([]);
      } else if blockType == BT_EPB {
        var pkt := ParseEpb(off + 8);
        return if pkt.None? then None else Some([pkt.value]);
      } else if blockType == BT_SPB {
        var pkt := ParseSpb(off + 8, totalLen);
        return Some([pkt.value]);
      } else {
        return Some([]);
      }
    }

    method ParseIdb(bodyStart: nat, optionsEnd: nat)
      requires optionsEnd < |buf|
      modifies this`tsPerSec
      ensures tsPerSec == OptionsRate(buf, bodyStart + 8, optionsEnd, little, old(tsPerSec))
    {
      var p := bodyStart + 8;
      while p + 4 <= optionsEnd
        invariant OptionsRate(buf, p, optionsEnd, little, tsPerSec)
               == OptionsRate(buf, bodyStart + 8, optionsEnd, little, old(tsPerSec))
        decreases optionsEnd - p
      {
        var code, len := U16(buf, p, little), U16(buf, p + 2, little);
        p := p + 4;
        if code == 0 {
          break;
        }
        if code == 9 && len >= 1 {
          var raw := buf[p];
          tsPerSec := if raw >= 0x80 then Power(2, raw - 0x80) else Power(10, raw);
        }
        p := p + len + (4 - len % 4) % 4;
      }
    }

    method ParseEpb(bodyStart: nat) returns (pkt: Option<Packet>)
      requires 8 <= bodyStart <= |buf|
      modifies this`t0, this`index
      ensures Returned(EnhancedPacket(old(Knows()), buf[bodyStart - 8..]), pkt)
    {
      if bodyStart + 20 > |buf| {
        return None;
      }
      ghost var b := buf[bodyStart - 8..];
      ShiftedReads(buf, bodyStart - 8);
      var ticks := U32(buf, bodyStart + 4, little) * 0x1_0000_0000 + U32(buf, bodyStart + 8, little);
      var capLen := U32(buf, bodyStart + 12, little);
      var origLen := U32(buf, bodyStart + 16, little);
      pkt := EmitPacket(ticks as real / tsPerSec as real, bodyStart + 20, capLen, origLen, bodyStart - 8);
    }

    method ParseSpb(bodyStart: nat, totalLen: nat) returns (pkt: Option<Packet>)
      requires 8 <= bodyStart && 12 <= totalLen && bodyStart - 8 + totalLen <= |buf|
      modifies this`t0, this`index
      ensures pkt.Some? && Returned(SimplePacket(old(Knows()), buf[bodyStart - 8..], totalLen), pkt)
    {
      ShiftedReads(buf, bodyStart - 8);
      var origLen := U32(buf, bodyStart, little);
      var capLen := if totalLen >= 16 then totalLen - 16 else 0;
      pkt := EmitPacket(0.0, bodyStart + 4, capLen, origLen, bodyStart - 8);
    }

    /** The new state and result are those of `r`. */
    ghost predicate Returned(r: Block, pkt: Option<Packet>)
      reads this
    {
      Knows() == r.d && if r.Threw? then pkt == None else pkt.Some? && r.packets == [pkt.value]
    }

    method EmitPacket(tAbs: real, dataStart: nat, capLen: nat, origLen: nat, ghost off: nat)
      returns (pkt: Option<Packet>)
      requires off <= dataStart && off <= |buf|
      modifies this`t0, this`index
      ensures Returned(Emit(old(Knows()), tAbs, buf[off..], dataStart - off, capLen, origLen), pkt)
    {
      if t0.None? {
        t0 := Some(tAbs);
      }
      var tRel := Max0(tAbs - t0.value);
      if dataStart + capLen > |buf| {
        return None;
      }
      var data := buf[dataStart..dataStart + capLen];
      SliceOfSuffix(buf, off, dataStart, dataStart + capLen);
      index := index + 1;
      return Some(Packet(index, tRel, (tAbs * 1_000_000.0 + 0.5).Floor, data, origLen));
    }
  }

  lemma SliceOfSuffix(b: seq<byte>, off: nat, i: nat, j: nat)
    requires off <= i <= j <= |b|
    ensures b[off..][i - off..j - off] == b[i..j]
  {
  }

  /** Reading at `off + k` is reading at `k` of the suffix. */
  lemma ShiftedReads(b: seq<byte>, off: nat)
    requires off <= |b|
    ensures forall k: nat, little {:trigger U32(b[off..], k, little)} | off + k + 4 <= |b| ::
              U32(b[off..], k, little) == U32(b, off + k, little)
    ensures forall k: nat, little {:trigger U32(b, off + k, little)} | off + k + 4 <= |b| ::
              U32(b[off..], k, little) == U32(b, off + k, little)
  {
  }

  lemma ShiftedReads16(b: seq<byte>, off: nat)
    requires off <= |b|
    ensures forall k: nat, little {:trigger U16(b[off..], k, little)} | off + k + 2 <= |b| ::
              U16(b[off..], k, little) == U16(b, off + k, little)
  {
  }

  lemma {:induction false} ShiftedOptions(b: seq<byte>, off: nat, p: nat, end: nat, little: bool, s: seq<byte>)
    requires off + end < |b| && s == b[off..]
    ensures forall rate :: OptionsRate(s, p, end, little, rate) == OptionsRate(b, off + p, off + end, little, rate)
    decreases end - p
  {
    hide GetLe16, GetBe16, RateOf;
    ShiftedReads16(b, off);
    forall rate
      ensures OptionsRate(s, p, end, little, rate) == OptionsRate(b, off + p, off + end, little, rate)
    {
      if p + 4 <= end {
        var len := U16(s, p + 2, little);
        ShiftedOptions(b, off, p + 4 + len + (4 - len % 4) % 4, end, little, s);
      }
    }
  }
}
