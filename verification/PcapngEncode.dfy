/**
 The pcapng writer (`encodePcapng`, app/src/lib/pcapng.ts). The block layout
 follows draft-ietf-opsawg-pcapng, sections 4.1 (section header), 4.2 (interface description) and 4.3 (enhanced packet).
 */
module PcapngEncode {
  import opened Bytes
  import opened Pcapng

  datatype Captured = Captured(data: seq<byte>, tsMicros: real)

  function Pad(n: nat): (p: nat) {
    (4 - n % 4) % 4
  }

  function EpbTotal(p: Captured): (n: nat) {
    32 + |p.data| + Pad(|p.data|)
  }

  /** The timestamp written for a packet: whole microseconds, not negative. */
  function Micros(p: Captured): (ts: nat) {
    if p.tsMicros.Floor < 0 then 0 else p.tsMicros.Floor
  }

  // ----- The layout -------------------------------------------------------

  const SectionHeader: seq<byte> :=
    Le32(BT_SHB) + Le32(28) + Le32(BYTE_ORDER_MAGIC) + Le16(1) + Le16(0)
    + Le32(0xFFFFFFFF) + Le32(0xFFFFFFFF) + Le32(28)

  const InterfaceDescription: seq<byte> :=
    Le32(BT_IDB) + Le32(20) + Le16(1) + Le16(0) + Le32(262144) + Le32(20)

  function EpbHead(p: Captured): (b: seq<byte>)
    ensures |b| == 28
  {
    Le32(BT_EPB) + Le32(EpbTotal(p)) + Le32(0) + Le32(Micros(p) / TWO_32) + Le32(Micros(p))
    + Le32(|p.data|) + Le32(|p.data|)
  }

  function EnhancedBlock(p: Captured): (b: seq<byte>)
    ensures |b| == EpbTotal(p)
  {
    EpbHead(p) + p.data + Zeros(Pad(|p.data|)) + Le32(EpbTotal(p))
  }

  function EnhancedBlocks(ps: seq<Captured>): (b: seq<byte>) {
    if ps == [] then [] else EnhancedBlocks(ps[..|ps| - 1]) + EnhancedBlock(ps[|ps| - 1])
  }

  function File(ps: seq<Captured>): (b: seq<byte>) {
    SectionHeader + InterfaceDescription + EnhancedBlocks(ps)
  }

  // ----- The writer as written --------------------------------------------

  /** A write cursor over a buffer whose unwritten part is zero. */
  class Writer {
    const out: array<byte>
    var o: nat
    ghost var done: seq<byte>

    ghost predicate Valid()
      reads this, out
    {
      && o <= out.Length && done == out[..o]
      && forall i | o <= i < out.Length :: out[i] == 0
    }

    constructor (total: nat)
      ensures Valid() && fresh(out) && out.Length == total && done == []
    {
      out := new byte[total](_ => 0);
      o, done := 0, [];
    }

    method Put(bytes: seq<byte>)
      requires Valid() && |done| + |bytes| <= out.Length
      modifies this, out
      ensures Valid() && done == old(done) + bytes
    {
      forall i | 0 <= i < |bytes| {
        out[o + i] := bytes[i];
      }
      o := o + |bytes|;
      done := done + bytes;
    }

    method U32(v: nat)
      requires Valid() && |done| + 4 <= out.Length
      modifies this, out
      ensures Valid() && done == old(done) + Le32(v)
    {
      Put(Le32(v));
    }

    method U16(v: nat)
      requires Valid() && |done| + 2 <= out.Length
      modifies this, out
      ensures Valid() && done == old(done) + Le16(v)
    {
      Put(Le16(v));
    }

    /** Step over bytes that were zero from the start. */
    method Skip(n: nat)
      requires Valid() && |done| + n <= out.Length
      modifies this
      ensures Valid() && done == old(done) + Zeros(n)
    {
      o := o + n;
      done := done + Zeros(n);
    }
  }

  lemma {:induction false} BlocksSize(ps: seq<Captured>, k: nat)
    requires k < |ps|
    ensures |EnhancedBlocks(ps[..k + 1])| == |EnhancedBlocks(ps[..k])| + EpbTotal(ps[k]) <= |EnhancedBlocks(ps)|
    ensures EnhancedBlocks(ps[..k + 1]) == EnhancedBlocks(ps[..k]) + EnhancedBlock(ps[k])
    decreases |ps| - k
  {
    assert ps[..k + 1][..k] == ps[..k];
    if k + 1 < |ps| {
      BlocksSize(ps, k + 1);
    } else {
      assert ps[..k + 1] == ps;
    }
  }

  /** The buffer is sized up front, written by a cursor, and ends exactly full. */
  method EncodePcapng(packets: seq<Captured>) returns (out: array<byte>)
    ensures fresh(out) && out[..] == File(packets)
  {
    var total := TotalSize(packets);
    var w := new Writer(total);
    WriteSectionHeader(w);
    WriteInterface(w);
    WritePackets(w, packets);
    assert w.out[..] == w.done;
    out := w.out;
  }

  lemma Assoc(a: seq<byte>, b: seq<byte>, c: seq<byte>)
    ensures a + b + c == a + (b + c)
  {
  }

  method TotalSize(packets: seq<Captured>) returns (total: nat)
    ensures total == 48 + |EnhancedBlocks(packets)|
  {
    hide EnhancedBlock;
    total := 28 + 20;
    for i := 0 to |packets|
      invariant total == 48 + |EnhancedBlocks(packets[..i])|
    {
      BlocksSize(packets, i);
      var len := |packets[i].data|;
      var pad := (4 - len % 4) % 4;
      total := total + 32 + len + pad;
    }
    assert packets[..|packets|] == packets;
  }

  method WritePackets(w: Writer, packets: seq<Captured>)
    requires w.Valid() && |w.done| + |EnhancedBlocks(packets)| == w.out.Length
    modifies w, w.out
    ensures w.Valid() && w.done == old(w.done) + EnhancedBlocks(packets)
  {
    ghost var head := w.done;
    assert head + [] == head;
    for i := 0 to |packets|
      invariant w.Valid() && w.done == head + EnhancedBlocks(packets[..i])
    {
      BlocksSize(packets, i);
      WritePacket(w, packets[i]);
      Assoc(head, EnhancedBlocks(packets[..i]), EnhancedBlock(packets[i]));
    }
    assert packets[..|packets|] == packets;
  }

  method WriteSectionHeader(w: Writer)
    requires w.Valid() && w.done == [] && w.out.Length >= 28
    modifies w, w.out
    ensures w.Valid() && w.done == SectionHeader
  {
    w.U32(0x0A0D0D0A);
    w.U32(28);
    w.U32(0x1A2B3C4D);
    w.U16(1);
    w.U16(0);
    w.U32(0xFFFFFFFF);
    w.U32(0xFFFFFFFF);
    w.U32(28);
    assert [] + Le32(BT_SHB) == Le32(BT_SHB);
  }

  method WriteInterface(w: Writer)
    requires w.Valid() && |w.done| + 20 <= w.out.Length
    modifies w, w.out
    ensures w.Valid() && w.done == old(w.done) + InterfaceDescription
  {
    w.U32(0x00000001);
    w.U32(20);
    w.U16(1);
    w.U16(0);
    w.U32(262144);
    w.U32(20);
  }

  method WritePacket(w: Writer, p: Captured)
    requires w.Valid() && |w.done| + EpbTotal(p) <= w.out.Length
    modifies w, w.out
    ensures w.Valid() && w.done == old(w.done) + EnhancedBlock(p)
  {
    var capLen := |p.data|;
    var pad := (4 - capLen % 4) % 4;
    var epbTotal := 32 + capLen + pad;
    WriteEpbHead(w, p, epbTotal);
    w.Put(p.data);
    w.Skip(pad);
    w.U32(epbTotal);
  }

  method WriteEpbHead(w: Writer, p: Captured, epbTotal: nat)
    requires w.Valid() && |w.done| + 28 <= w.out.Length && epbTotal == EpbTotal(p)
    modifies w, w.out
    ensures w.Valid() && w.done == old(w.done) + EpbHead(p)
  {
    hide Le32;
    var capLen := |p.data|;
    var ts: nat := if p.tsMicros.Floor < 0 then 0 else p.tsMicros.Floor;
    w.U32(0x00000006);
    w.U32(epbTotal);
    w.U32(0);
    w.U32(ts / 0x1_0000_0000);
    w.U32(ts);
    w.U32(capLen);
    w.U32(capLen);
  }
}
