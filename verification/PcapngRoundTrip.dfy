/**
 What the parser makes of encoded files: the same frames in order, numbered
 from 1, with one time origin, however many files follow each other and however
 the bytes are cut. It works exactly for packets whose block is at most 8 MiB.
 */
module PcapngRoundTrip {
  import opened Wrappers
  import opened Bytes
  import opened Pcapng
  import opened PcapngChunks
  import opened PcapngEncode

  // ----- What the reader of a file should see -------------------------------

  /** The timestamp field holds 64 bits. */
  function Stamp(p: Captured): (ts: nat) {
    Micros(p) % TWO_64
  }

  /** The time a decoder reads: the stamp in its tick rate, which no section header resets. */
  function Seconds(d: Decoder, p: Captured): (t: real) {
    Stamp(p) as real / d.tsPerSec as real
  }

  function Origin(d: Decoder, ps: seq<Captured>): (t0: Option<real>) {
    if d.t0.None? && ps != [] then Some(Seconds(d, ps[0])) else d.t0
  }

  /** The packets a decoder returns for `ps`, the k-th numbered `d.index + k`. */
  function Expected(d: Decoder, ps: seq<Captured>): (out: seq<Packet>)
    ensures |out| == |ps|
  {
    seq(|ps|, i requires 0 <= i < |ps| =>
      Packet(d.index + i + 1, Max0(Seconds(d, ps[i]) - Origin(d, ps).value),
             (Seconds(d, ps[i]) * 1_000_000.0 + 0.5).Floor, ps[i].data, |ps[i].data|))
  }

  function Later(d: Decoder, ps: seq<Captured>): (d': Decoder) {
    d.(index := d.index + |ps|, t0 := Origin(d, ps))
  }

  predicate Fits(ps: seq<Captured>) {
    forall i | 0 <= i < |ps| :: EpbTotal(ps[i]) <= MAX_BLOCK
  }

  // ----- One block ----------------------------------------------------------

  lemma Field(b: seq<byte>, off: nat, v: nat)
    requires off + 4 <= |b| && b[off..off + 4] == Le32(v)
    ensures U32(b, off, true) == v % TWO_32
  {
    ReadLe32(b, off, v);
  }

  lemma HeadFields(p: Captured, b: seq<byte>)
    requires |b| >= 28 && b[..28] == EpbHead(p)
    ensures U32(b, 0, true) == BT_EPB && U32(b, 4, true) == EpbTotal(p) % TWO_32
    ensures U32(b, 12, true) * TWO_32 + U32(b, 16, true) == Stamp(p)
    ensures U32(b, 20, true) == |p.data| % TWO_32 && U32(b, 24, true) == |p.data| % TWO_32
  {
    var h, m, n := EpbHead(p), Micros(p), |p.data|;
    assert b[0..4] == h[0..4] == Le32(BT_EPB);
    assert b[4..8] == h[4..8] == Le32(EpbTotal(p));
    assert b[12..16] == h[12..16] == Le32(m / TWO_32);
    assert b[16..20] == h[16..20] == Le32(m);
    assert b[20..24] == h[20..24] == Le32(n);
    assert b[24..28] == h[24..28] == Le32(n);
    Field(b, 0, BT_EPB);
    Field(b, 4, EpbTotal(p));
    Field(b, 12, m / TWO_32);
    Field(b, 16, m);
    Field(b, 20, n);
    Field(b, 24, n);
    SplitMod(m, TWO_32, TWO_32);
  }

  lemma BlockParts(p: Captured, rest: seq<byte>)
    ensures var b := EnhancedBlock(p) + rest;
            b[..28] == EpbHead(p) && b[28..28 + |p.data|] == p.data && b[EpbTotal(p)..] == rest
  {
  }

  /** At the encoder's rate of a million ticks the time read is the stamp written, if that fits its field. */
  lemma StampsRead(d: Decoder, ps: seq<Captured>)
    requires d.tsPerSec == 1_000_000
    ensures forall i | 0 <= i < |ps| :: Expected(d, ps)[i].tsMicros == Micros(ps[i]) <==> Micros(ps[i]) < TWO_64
  {
    forall i | 0 <= i < |ps| ensures Expected(d, ps)[i].tsMicros == Stamp(ps[i]) {
      var ticks := Stamp(ps[i]) as real;
      assert ticks / 1_000_000.0 * 1_000_000.0 == ticks;
    }
    hide Expected, Micros;
  }

  /** Any buffer with the head and data of `p` reads as that packet. */
  lemma PacketFields(d: Decoder, p: Captured, b: seq<byte>)
    requires d.little && |p.data| < TWO_32 && 28 + |p.data| <= |b| && b[28..28 + |p.data|] == p.data
    requires U32(b, 12, true) * TWO_32 + U32(b, 16, true) == Stamp(p)
    requires U32(b, 20, true) == |p.data| && U32(b, 24, true) == |p.data|
    ensures EnhancedPacket(d, b) == Block(Later(d, [p]), Expected(d, [p]))
  {
    var t := Seconds(d, p);
    assert EnhancedPacket(d, b) == Emit(d, t, b, 28, |p.data|, |p.data|);
    assert Origin(d, [p]) == Some(if d.t0.Some? then d.t0.value else t);
  }

  lemma BlockHeader(d: Decoder, p: Captured, b: seq<byte>)
    requires d.little && |b| >= 28 && b[..28] == EpbHead(p)
    ensures Peek(d, b) == d && (EpbTotal(p) < TWO_32 ==> BlockLength(d, b) == EpbTotal(p))
  {
    hide EpbHead, GetLe32, GetBe32;
    HeadFields(p, b);
  }

  lemma OneHeader(d: Decoder, p: Captured, rest: seq<byte>)
    requires d.little && EpbTotal(p) <= MAX_BLOCK
    ensures var b := EnhancedBlock(p) + rest;
            && Peek(d, b) == d && BlockLength(d, b) == EpbTotal(p)
            && U32(b, 0, true) == BT_EPB && U32(b, 20, true) == |p.data|
  {
    hide EpbHead, EnhancedBlock, GetLe32, GetBe32;
    var b := EnhancedBlock(p) + rest;
    BlockHeader(d, p, b) by { BlockParts(p, rest); }
    assert U32(b, 0, true) == BT_EPB && U32(b, 20, true) == |p.data| by {
      BlockParts(p, rest);
      HeadFields(p, b);
    }
  }

  lemma OneBlock(d: Decoder, p: Captured, rest: seq<byte>)
    requires d.little && EpbTotal(p) <= MAX_BLOCK
    ensures var b := EnhancedBlock(p) + rest;
            && Peek(d, b) == d && BlockLength(d, b) == EpbTotal(p) && SelfContained(d, b, EpbTotal(p))
            && ReadBlock(d, b, EpbTotal(p)) == Block(Later(d, [p]), Expected(d, [p]))
  {
    var b := EnhancedBlock(p) + rest;
    OneHeader(d, p, rest);
    assert EnhancedPacket(d, b) == Block(Later(d, [p]), Expected(d, [p])) by {
      BlockParts(p, rest);
      HeadFields(p, b);
      PacketFields(d, p, b);
    }
  }

  // ----- Whole files --------------------------------------------------------

  lemma {:induction false} ConsBlocks(ps: seq<Captured>)
    requires ps != []
    ensures EnhancedBlocks(ps) == EnhancedBlock(ps[0]) + EnhancedBlocks(ps[1..])
    decreases |ps|
  {
    hide EnhancedBlock;
    var n := |ps| - 1;
    if n == 0 {
      assert ps[..n] == [] && ps[1..] == [];
      assert EnhancedBlock(ps[0]) + [] == EnhancedBlock(ps[0]) == [] + EnhancedBlock(ps[0]);
    } else {
      ConsBlocks(ps[..n]);
      assert ps[..n][1..] == ps[1..][..n - 1];
      Assoc(EnhancedBlock(ps[0]), EnhancedBlocks(ps[..n][1..]), EnhancedBlock(ps[n]));
    }
  }

  lemma ExpectedAppend(d: Decoder, a: seq<Captured>, b: seq<Captured>)
    ensures Expected(d, a + b) == Expected(d, a) + Expected(Later(d, a), b)
    ensures Later(d, a + b) == Later(Later(d, a), b)
  {
  }

  lemma {:induction false} DrainBlocks(d: Decoder, ps: seq<Captured>, rest: seq<byte>)
    requires d.little && Fits(ps)
    ensures Drain(d, EnhancedBlocks(ps) + rest) == After(Expected(d, ps), Drain(Later(d, ps), rest))
    ensures Sound(d, EnhancedBlocks(ps) + rest) == Sound(Later(d, ps), rest)
    decreases |ps|
  {
    hide EnhancedBlock, BlockLength, PeekOrder, ReadBlock, Expected;
    if ps == [] {
      assert [] + rest == rest;
      AfterNothing(Drain(d, rest));
    } else {
      var p, more := ps[0], ps[1..];
      var tail := EnhancedBlocks(more) + rest;
      ConsBlocks(ps);
      Assoc(EnhancedBlock(p), EnhancedBlocks(more), rest);
      OneBlock(d, p, tail);
      BlockParts(p, tail);
      DrainBlocks(Later(d, [p]), more, rest);
      assert [p] + more == ps;
      ExpectedAppend(d, [p], more);
      AfterAfter(Expected(d, [p]), Expected(Later(d, [p]), more), Drain(Later(d, ps), rest));
    }
  }

  /** Both headers pass without packets and leave the decoder reading little-endian. */
  lemma DrainHeaders(d: Decoder, rest: seq<byte>)
    ensures Drain(d, SectionHeader + InterfaceDescription + rest) == Drain(d.(little := true), rest)
    ensures Sound(d, SectionHeader + InterfaceDescription + rest) == Sound(d.(little := true), rest)
  {
    DrainSection(d, InterfaceDescription + rest);
    Assoc(SectionHeader, InterfaceDescription, rest);
    DrainInterface(d.(little := true), rest);
  }

  lemma DrainSection(d: Decoder, rest: seq<byte>)
    ensures Drain(d, SectionHeader + rest) == Drain(d.(little := true), rest)
    ensures Sound(d, SectionHeader + rest) == Sound(d.(little := true), rest)
  {
    var b := SectionHeader + rest;
    SectionFields(d, b);
    assert b[28..] == rest;
    AfterNothing(Drain(d.(little := true), rest));
  }

  lemma SectionFields(d: Decoder, b: seq<byte>)
    requires |b| >= 28 && b[..28] == SectionHeader
    ensures Peek(d, b) == d.(little := true) && BlockLength(d, b) == 28 && U32(b, 0, true) == BT_SHB
  {
    assert b[0..4] == SectionHeader[0..4] == Le32(BT_SHB);
    assert b[4..8] == SectionHeader[4..8] == Le32(28);
    assert b[8..12] == SectionHeader[8..12] == Le32(BYTE_ORDER_MAGIC);
    Field(b, 0, BT_SHB);
    Field(b, 4, 28);
    Field(b, 8, BYTE_ORDER_MAGIC);
    Palindrome(b);
  }

  lemma DrainInterface(d: Decoder, rest: seq<byte>)
    requires d.little
    ensures Drain(d, InterfaceDescription + rest) == Drain(d, rest)
    ensures Sound(d, InterfaceDescription + rest) == Sound(d, rest)
  {
    var b := InterfaceDescription + rest;
    assert b[0..4] == InterfaceDescription[0..4] == Le32(BT_IDB);
    assert b[4..8] == InterfaceDescription[4..8] == Le32(20);
    Field(b, 0, BT_IDB);
    Field(b, 4, 20);
    assert b[20..] == rest;
    AfterNothing(Drain(d, rest));
  }

  function Files(fs: seq<seq<Captured>>): (b: seq<byte>) {
    if fs == [] then [] else File(fs[0]) + Files(fs[1..])
  }

  function Together(fs: seq<seq<Captured>>): (ps: seq<Captured>) {
    if fs == [] then [] else fs[0] + Together(fs[1..])
  }

  /**
   Encoded files back to back drain to all their packets, whatever the decoder knew:
   the first header sets the byte order; the tick rate and time origin stay its own.
   */
  lemma {:induction false} DrainFiles(d: Decoder, fs: seq<seq<Captured>>)
    requires Fits(Together(fs))
    ensures var d' := if fs == [] then d else d.(little := true);
            Drain(d, Files(fs)) == Drained(Later(d', Together(fs)), Expected(d, Together(fs)), [], Waiting)
    ensures Sound(d, Files(fs))
    decreases |fs|
  {
    hide Expected, EnhancedBlocks, SectionHeader, InterfaceDescription;
    if fs == [] {
      assert Expected(d, []) == [];
    } else {
      var f, more, d' := fs[0], fs[1..], d.(little := true);
      FitsParts(f, Together(more));
      Assoc(SectionHeader + InterfaceDescription, EnhancedBlocks(f), Files(more));
      DrainHeaders(d, EnhancedBlocks(f) + Files(more));
      DrainBlocks(d', f, Files(more));
      DrainFiles(Later(d', f), more);
      ExpectedAppend(d', f, Together(more));
      SameExpected(d, f + Together(more));
    }
  }

  lemma FitsParts(a: seq<Captured>, b: seq<Captured>)
    requires Fits(a + b)
    ensures Fits(a) && Fits(b)
  {
    assert forall i | 0 <= i < |a| :: (a + b)[i] == a[i];
    assert forall i | 0 <= i < |b| :: (a + b)[|a| + i] == b[i];
  }

  lemma SameExpected(d: Decoder, ps: seq<Captured>)
    ensures Expected(d.(little := true), ps) == Expected(d, ps)
  {
  }

  /**
   Encoded files fed back to back to a fresh parser, in any chunks, come back as
   one packet list: same frames in order, indices 1..n, one time origin, and a time
   stamp is what was written exactly when that fits the 64-bit field.
   */
  lemma RoundTrip(fs: seq<seq<Captured>>, chunks: seq<seq<byte>>)
    requires Fits(Together(fs)) && Flatten(chunks) == Files(fs)
    ensures var r := PushedAll(Fresh, [], chunks);
            && r.packets == Expected(Fresh, Together(fs)) && r.rest == []
            && forall i | 0 <= i < |r.packets| ::
                 (r.packets[i].tsMicros == Micros(Together(fs)[i]) <==> Micros(Together(fs)[i]) < TWO_64)
  {
    hide Expected, Micros, PushedAll, Drain, Files, Flatten, Fits, Sound;
    DrainFiles(Fresh, fs);
    assert [] + Files(fs) == Files(fs);
    NothingBuffered();
    ChunksAsOne(Fresh, [], chunks);
    StampsRead(Fresh, Together(fs));
  }

  lemma NothingBuffered()
    ensures Drain(Fresh, []) == Drained(Fresh, [], [], Waiting) && Settled(Fresh, [])
  {
  }

  // ----- Exactly when ---------------------------------------------------------

  /** A block over 8 MiB empties the buffer, together with everything behind it. */
  lemma TooBig(d: Decoder, p: Captured, rest: seq<byte>)
    requires d.little && MAX_BLOCK < EpbTotal(p) < TWO_32
    ensures Drain(d, EnhancedBlock(p) + rest) == Drained(d, [], [], Dropped)
  {
    var b := EnhancedBlock(p) + rest;
    BlockHeader(d, p, b) by { BlockParts(p, rest); }
    Refused(d, b);
  }

  lemma Refused(d: Decoder, b: seq<byte>)
    requires |b| >= 12 && !LengthOk(BlockLength(d, b))
    ensures Drain(d, b) == Drained(Peek(d, b), [], [], Dropped)
  {
  }

  lemma {:induction false} FewerPackets(d: Decoder, ps: seq<Captured>)
    requires d.little && !Fits(ps) && forall i | 0 <= i < |ps| :: EpbTotal(ps[i]) < TWO_32
    ensures |Drain(d, EnhancedBlocks(ps)).packets| < |ps|
    decreases |ps|
  {
    hide EnhancedBlock, BlockLength, PeekOrder, ReadBlock;
    var p, more := ps[0], ps[1..];
    ConsBlocks(ps);
    if EpbTotal(p) > MAX_BLOCK {
      TooBig(d, p, EnhancedBlocks(more));
    } else {
      OneBlock(d, p, EnhancedBlocks(more));
      BlockParts(p, EnhancedBlocks(more));
      assert !Fits(more) by {
        var i :| 0 <= i < |ps| && EpbTotal(ps[i]) > MAX_BLOCK;
        assert more[i - 1] == ps[i];
      }
      FewerPackets(Later(d, [p]), more);
    }
  }

  /** A saved file reads back as what was saved if and only if no packet's block exceeds 8 MiB. */
  lemma RoundTripExactly(ps: seq<Captured>)
    requires forall i | 0 <= i < |ps| :: EpbTotal(ps[i]) < TWO_32
    ensures Pushed(Fresh, [], File(ps)).packets == Expected(Fresh, ps) <==> Fits(ps)
  {
    var blocks := EnhancedBlocks(ps);
    assert [] + File(ps) == File(ps) && blocks + [] == blocks;
    DrainHeaders(Fresh, blocks);
    if Fits(ps) {
      DrainBlocks(Fresh, ps, []);
      assert Expected(Fresh, ps) + [] == Expected(Fresh, ps);
    } else {
      FewerPackets(Fresh, ps);
    }
  }
}
