/**
 Chunk boundaries do not matter to the pcapng parser, and exactly when they do.

 A packet block whose captured length reaches outside its own block is read from
 whatever follows it, so every statement is about streams without such blocks
 (`Sound`). Nothing is assumed of the lengths: a corrupt one empties the buffer.
 */
module PcapngChunks {
  import opened Bytes
  import opened Pcapng

  function Flatten(chunks: seq<seq<byte>>): (b: seq<byte>) {
    if chunks == [] then [] else chunks[0] + Flatten(chunks[1..])
  }

  /** A packet block holds its own data. */
  predicate SelfContained(d: Decoder, b: seq<byte>, len: nat)
    requires 12 <= len <= |b|
  {
    U32(b, 0, d.little) == BT_EPB ==> len >= 28 && 28 + U32(b, 20, d.little) <= len
  }

  /** Every complete block the drain reaches is self-contained. */
  ghost predicate Sound(d: Decoder, b: seq<byte>)
    decreases |b|
  {
    |b| >= 12 ==>
      var d1, len := Peek(d, b), BlockLength(d, b);
      LengthOk(len) && |b| >= len ==>
        SelfContained(d1, b, len) && Sound(ReadBlock(d1, b, len).d, b[len..])
  }

  /** How many bytes are thrown away when the drain meets a corrupt length; 0 if it meets none. */
  ghost function LostAtDrop(d: Decoder, b: seq<byte>): nat
    decreases |b|
  {
    if |b| < 12 then 0
    else
      var d1, len := Peek(d, b), BlockLength(d, b);
      if !LengthOk(len) then |b|
      else if |b| < len then 0
      else LostAtDrop(ReadBlock(d1, b, len).d, b[len..])
  }

  /** The header and block at the head of a buffer do not depend on what follows. */
  lemma HeaderLocal(d: Decoder, a: seq<byte>, b: seq<byte>)
    requires |a| >= 12
    ensures Peek(d, a + b) == Peek(d, a) && BlockLength(d, a + b) == BlockLength(d, a)
  {
  }

  lemma {:induction false} OptionsLocal(a: seq<byte>, b: seq<byte>, p: nat, end: nat, little: bool, rate: Positive)
    requires end < |a|
    ensures OptionsRate(a + b, p, end, little, rate) == OptionsRate(a, p, end, little, rate)
    decreases end - p
  {
    hide U16, RateOf, OptionsRate;
    RateUnfolds(a, p, end, little, rate);
    RateUnfolds(a + b, p, end, little, rate);
    if p + 4 <= end {
      var code, len := U16(a, p, little), U16(a, p + 2, little);
      SameU16(a, b, p, little);
      SameU16(a, b, p + 2, little);
      assert (a + b)[p + 4] == a[p + 4];
      OptionsLocal(a, b, p + 4 + len + (4 - len % 4) % 4, end, little,
                   if code == 9 && len >= 1 then RateOf(a[p + 4]) else rate);
    }
  }

  lemma RateUnfolds(b: seq<byte>, p: nat, end: nat, little: bool, rate: Positive)
    requires end < |b|
    ensures OptionsRate(b, p, end, little, rate) ==
            if p + 4 > end then rate
            else
              var code, len := U16(b, p, little), U16(b, p + 2, little);
              if code == 0 then rate
              else OptionsRate(b, p + 4 + len + (4 - len % 4) % 4, end, little,
                               if code == 9 && len >= 1 then RateOf(b[p + 4]) else rate)
  {
    hide U16, RateOf;
  }

  lemma SameU16(a: seq<byte>, b: seq<byte>, off: nat, little: bool)
    requires off + 2 <= |a|
    ensures U16(a + b, off, little) == U16(a, off, little)
  {
  }

  lemma SameU32(a: seq<byte>, b: seq<byte>, little: bool)
    ensures forall off: nat {:trigger U32(a + b, off, little)} | off + 4 <= |a| ::
              U32(a + b, off, little) == U32(a, off, little)
  {
  }

  lemma BlockLocal(d: Decoder, a: seq<byte>, b: seq<byte>, len: nat)
    requires 12 <= len <= |a| && SelfContained(d, a, len)
    ensures SelfContained(d, a + b, len)
    ensures ReadBlock(d, a, len).Block? && ReadBlock(d, a + b, len) == ReadBlock(d, a, len)
  {
    hide GetLe16, GetBe16, OptionsRate;
    var kind := U32(a, 0, d.little);
    SameU32(a, b, d.little);
    if kind == BT_IDB {
      OptionsLocal(a, b, 16, len - 4, d.little, d.tsPerSec);
    } else if kind == BT_EPB {
      var capLen := U32(a, 20, d.little);
      assert (a + b)[28..28 + capLen] == a[28..28 + capLen];
    } else if kind == BT_SPB {
      var capLen := if len >= 16 then len - 16 else 0;
      assert (a + b)[12..12 + capLen] == a[12..12 + capLen];
    }
  }

  /** A sound stream never makes the parser throw. */
  lemma {:induction false} SoundNeverThrows(d: Decoder, b: seq<byte>)
    requires Sound(d, b)
    ensures Drain(d, b).status != Thrown
    decreases |b|
  {
    if |b| >= 12 {
      var d1, len := Peek(d, b), BlockLength(d, b);
      if LengthOk(len) && |b| >= len {
        BlockLocal(d1, b, [], len);
        SoundNeverThrows(ReadBlock(d1, b, len).d, b[len..]);
      }
    }
  }

  /** Draining `a` and then the leftover with `b` behind it is draining `a + b`. */
  lemma {:induction false} DrainAppend(d: Decoder, a: seq<byte>, b: seq<byte>)
    requires Sound(d, a + b)
    ensures Sound(d, a)
    ensures var r := Drain(d, a);
            && (r.status == Waiting ==>
                  && Sound(r.d, r.rest + b)
                  && Drain(d, a + b) == After(r.packets, Drain(r.d, r.rest + b))
                  && LostAtDrop(d, a + b) == LostAtDrop(r.d, r.rest + b))
            && (r.status == Dropped ==>
                  Drain(d, a + b) == r && LostAtDrop(d, a + b) == LostAtDrop(d, a) + |b| >= 12 + |b|)
            && (r.status == Waiting ==> Drain(r.d, r.rest) == Drained(r.d, [], r.rest, Waiting))
    decreases |a|
  {
    if |a| < 12 {
      AfterNothing(Drain(d, a + b));
    } else {
      HeaderLocal(d, a, b);
      var d1, len := Peek(d, a), BlockLength(d, a);
      if !LengthOk(len) {
      } else if |a| < len {
        PeekTwice(d, a + b);
        PeekTwice(d, a);
        AfterNothing(Drain(d, a + b));
        AgainLocal(d, a + b);
      } else {
        assert SelfContained(d1, a, len) by { SelfContainedPrefix(d1, a, b, len); }
        BlockLocal(d1, a, b, len);
        var block := ReadBlock(d1, a, len);
        assert (a + b)[len..] == a[len..] + b;
        DrainAppend(block.d, a[len..], b);
        var r := Drain(block.d, a[len..]);
        AfterAfter(block.packets, r.packets, Drain(r.d, r.rest + b));
      }
    }
  }

  lemma SelfContainedPrefix(d: Decoder, a: seq<byte>, b: seq<byte>, len: nat)
    requires 12 <= len <= |a| && SelfContained(d, a + b, len)
    ensures SelfContained(d, a, len)
  {
    assert U32(a + b, 0, d.little) == U32(a, 0, d.little);
    if len >= 28 {
      assert U32(a + b, 20, d.little) == U32(a, 20, d.little);
    }
  }

  lemma AfterNothing(r: Drained)
    ensures After([], r) == r
  {
    assert [] + r.packets == r.packets;
  }

  /** Starting from the peeked byte order gives the same drain as starting before the peek. */
  lemma AgainLocal(d: Decoder, b: seq<byte>)
    requires |b| >= 12
    ensures Drain(Peek(d, b), b) == Drain(d, b)
    ensures LostAtDrop(Peek(d, b), b) == LostAtDrop(d, b)
    ensures Sound(Peek(d, b), b) == Sound(d, b)
  {
    PeekTwice(d, b);
  }

  /** Same packets, same leftover bytes, same decoder. */
  predicate SameOutcome(r: Drained, s: Drained) {
    r.d == s.d && r.packets == s.packets && r.rest == s.rest
  }

  predicate Settled(d: Decoder, buf: seq<byte>) {
    Drain(d, buf) == Drained(d, [], buf, Waiting)
  }

  /** While no corrupt length is met, pushing chunk by chunk is draining the whole. */
  lemma {:induction false} ChunksAsOne(d: Decoder, buf: seq<byte>, chunks: seq<seq<byte>>)
    requires Settled(d, buf) && Sound(d, buf + Flatten(chunks))
    requires Drain(d, buf + Flatten(chunks)).status == Waiting || LostAtDrop(d, buf + Flatten(chunks)) == 12
    ensures SameOutcome(PushedAll(d, buf, chunks), Drain(d, buf + Flatten(chunks)))
    decreases |chunks|
  {
    if chunks == [] {
      assert buf + [] == buf;
    } else {
      var a, b := buf + chunks[0], Flatten(chunks[1..]);
      assert buf + Flatten(chunks) == a + b;
      DrainAppend(d, a, b);
      SoundNeverThrows(d, a);
      PushedStep(d, buf, chunks);
      var r := Drain(d, a);
      if r.status == Waiting {
        ChunksAsOne(r.d, r.rest, chunks[1..]);
        var whole, later := Drain(r.d, r.rest + b), PushedAll(r.d, r.rest, chunks[1..]);
        assert SameOutcome(later, whole);
        assert SameOutcome(After(r.packets, later), After(r.packets, whole));
      } else {
        DroppedLoses(d, a);
        assert b == [];
        NothingMore(r.d, chunks[1..]);
        assert r.packets + [] == r.packets;
      }
    }
  }

  lemma PushedStep(d: Decoder, buf: seq<byte>, chunks: seq<seq<byte>>)
    requires chunks != [] && Drain(d, buf + chunks[0]).status != Thrown
    ensures var r := Drain(d, buf + chunks[0]);
            SameOutcome(PushedAll(d, buf, chunks), After(r.packets, PushedAll(r.d, r.rest, chunks[1..])))
  {
  }

  lemma {:induction false} NothingMore(d: Decoder, chunks: seq<seq<byte>>)
    requires Flatten(chunks) == []
    ensures SameOutcome(PushedAll(d, [], chunks), Drained(d, [], [], Waiting))
    decreases |chunks|
  {
    if chunks != [] {
      assert chunks[0] == [] && [] + chunks[0] == [];
      NothingMore(d, chunks[1..]);
    }
  }

  /** A corrupt length with bytes behind it is noticed one byte earlier too. */
  lemma {:induction false} DropSeenEarlier(d: Decoder, a: seq<byte>, b: seq<byte>)
    requires Sound(d, a + b) && Drain(d, a + b).status == Dropped && LostAtDrop(d, a + b) >= 12 + |b|
    ensures Drain(d, a).status == Dropped && Drain(d, a).rest == []
    decreases |a|
  {
    LostBound(d, a + b);
    HeaderLocal(d, a, b);
    var d1, len := Peek(d, a), BlockLength(d, a);
    if LengthOk(len) {
      if |a| < len {
        LostBehind(d, a + b);
        assert false;
      } else {
        SelfContainedPrefix(d1, a, b, len);
        BlockLocal(d1, a, b, len);
        assert (a + b)[len..] == a[len..] + b;
        DropSeenEarlier(ReadBlock(d1, a, len).d, a[len..], b);
      }
    }
  }

  lemma LostBound(d: Decoder, b: seq<byte>)
    ensures LostAtDrop(d, b) <= |b|
    decreases |b|
  {
  }

  lemma LostBehind(d: Decoder, b: seq<byte>)
    requires |b| >= 12 && LengthOk(BlockLength(d, b)) && |b| >= BlockLength(d, b)
    ensures LostAtDrop(d, b) <= |b| - BlockLength(d, b)
  {
    LostBound(ReadBlock(Peek(d, b), b, BlockLength(d, b)).d, b[BlockLength(d, b)..]);
  }

  lemma FlattenPair(a: seq<byte>, b: seq<byte>)
    ensures Flatten([a, b]) == a + b
  {
    assert [a, b][1..] == [b];
    assert Flatten([b]) == b + Flatten([]) == b;
  }

  /**
   Every way of cutting a stream yields the same packets, leftover and decoder as
   one push of the whole, if and only if no block length is corrupt or the corrupt
   header is the very end of the stream.
   */
  lemma {:induction false} ChunkInvariance(d: Decoder, w: seq<byte>)
    requires Sound(d, w)
    ensures (forall chunks | Flatten(chunks) == w :: SameOutcome(PushedAll(d, [], chunks), Pushed(d, [], w)))
       <==> (LostAtDrop(d, w) == 0 || LostAtDrop(d, w) == 12)
  {
    hide Drain, LostAtDrop, Sound, PushedAll, SameOutcome, Flatten, Pushed;
    LossMeansDrop(d, w);
    if LostAtDrop(d, w) == 0 || LostAtDrop(d, w) == 12 {
      forall chunks | Flatten(chunks) == w
        ensures SameOutcome(PushedAll(d, [], chunks), Pushed(d, [], w))
      {
        AsOnePush(d, chunks);
      }
    } else {
      var chunks := OneByteLate(d, w);
    }
  }

  lemma AsOnePush(d: Decoder, chunks: seq<seq<byte>>)
    requires Sound(d, Flatten(chunks)) && (LostAtDrop(d, Flatten(chunks)) == 0 || LostAtDrop(d, Flatten(chunks)) == 12)
    ensures SameOutcome(PushedAll(d, [], chunks), Pushed(d, [], Flatten(chunks)))
  {
    var w := Flatten(chunks);
    assert [] + w == w && Settled(d, []);
    hide Drain, LostAtDrop, Sound, PushedAll, Flatten;
    LossMeansDrop(d, w);
    ChunksAsOne(d, [], chunks);
  }

  /** A sound stream loses bytes exactly when its drain ends on a corrupt length. */
  lemma {:induction false} LossMeansDrop(d: Decoder, b: seq<byte>)
    requires Sound(d, b)
    ensures Drain(d, b).status == if LostAtDrop(d, b) == 0 then Waiting else Dropped
    decreases |b|
  {
    hide BlockLength, PeekOrder, ReadBlock;
    if |b| >= 12 {
      var d1, len := Peek(d, b), BlockLength(d, b);
      if LengthOk(len) && |b| >= len {
        BlockLocal(d1, b, [], len);
        LossMeansDrop(ReadBlock(d1, b, len).d, b[len..]);
      }
    }
  }

  /** Such a stream: thirteen zero bytes, a length of 0 and one byte behind that header. */
  lemma ZerosLose(w: seq<byte>)
    requires w == Zeros(13)
    ensures Sound(Fresh, w) && LostAtDrop(Fresh, w) == 13
    ensures exists chunks :: Flatten(chunks) == w && !SameOutcome(PushedAll(Fresh, [], chunks), Pushed(Fresh, [], w))
  {
    assert U32(w, 0, true) == 0 && U32(w, 4, true) == 0;
    assert BlockLength(Fresh, w) == 0;
    hide PushedAll, Pushed, Flatten;
    ChunkInvariance(Fresh, w);
  }

  /** A cutting of a stream with bytes behind its corrupt header that keeps one byte the whole push loses. */
  lemma {:induction false} OneByteLate(d: Decoder, w: seq<byte>) returns (chunks: seq<seq<byte>>)
    requires Sound(d, w) && Drain(d, w).status == Dropped && LostAtDrop(d, w) != 12
    ensures Flatten(chunks) == w && !SameOutcome(PushedAll(d, [], chunks), Pushed(d, [], w))
  {
    hide BlockLength, PeekOrder, ReadBlock;
    assert [] + w == w;
    DroppedLoses(d, w);
    LostBound(d, w);
    var a, b := w[..|w| - 1], w[|w| - 1..];
    assert a + b == w && [] + a == a && [] + b == b;
    DropSeenEarlier(d, a, b);
    FlattenPair(a, b);
    chunks := [a, b];
    var r := Drain(d, a);
    PushedStep(d, [], chunks);
    assert chunks[1..] == [b];
    PushedStep(r.d, [], [b]);
    assert PushedAll(d, [], chunks).rest == b;
  }

  lemma {:induction false} DroppedLoses(d: Decoder, b: seq<byte>)
    requires Drain(d, b).status == Dropped
    ensures LostAtDrop(d, b) >= 12 && Drain(d, b).rest == []
    decreases |b|
  {
    var d1, len := Peek(d, b), BlockLength(d, b);
    if LengthOk(len) {
      DroppedLoses(ReadBlock(d1, b, len).d, b[len..]);
    }
  }
}
