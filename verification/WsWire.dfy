/**
 What stands on the wire, byte by byte and bit by bit, as RFC 6455 section 5 lays
 it out: what a peer that shares no code with the launcher reads.
 */
module WsWire {
  import opened Wrappers
  import opened Bytes
  import opened WsFrames
  import opened WsRequest

  /** Bit j of a byte. */
  function Bit(n: nat, j: nat): (b: nat)
    requires j < 8
  {
    n / [1, 2, 4, 8, 16, 32, 64, 128][j] % 2
  }

  // ----- Masking -------------------------------------------------------------------------

  function Nth(n: nat, j: nat): (b: nat) {
    if j == 0 then n % 2 else Nth(n / 2, j - 1)
  }

  lemma {:induction false} NthOfXor(a: nat, k: nat, bits: nat, j: nat)
    requires j < bits
    ensures Nth(XorBits(a, k, bits), j) == (Nth(a, j) + Nth(k, j)) % 2
  {
    var x, d := XorBits(a / 2, k / 2, bits - 1), (a % 2 + k % 2) % 2;
    Halves(x, d);
    if j > 0 {
      NthOfXor(a / 2, k / 2, bits - 1, j - 1);
    }
  }

  lemma BitIsNth(n: nat, j: nat)
    requires j < 8
    ensures Bit(n, j) == Nth(n, j)
  {
    if j >= 4 {
      NthUnfolds(n, j);
      NthUnfolds(n / 2, j - 1);
      NthUnfolds(n / 4, j - 2);
      NthUnfolds(n / 8, j - 3);
      BitIsNth4(n / 16, j - 4);
      hide Nth;
      assert n / 2 / 2 == n / 4 && n / 4 / 2 == n / 8 && n / 8 / 2 == n / 16;
      assert n / 16 / 2 == n / 32 && n / 16 / 4 == n / 64 && n / 16 / 8 == n / 128;
    } else {
      BitIsNth4(n, j);
    }
  }

  lemma BitIsNth4(n: nat, j: nat)
    requires j < 4
    ensures n / [1, 2, 4, 8][j] % 2 == Nth(n, j)
  {
    NthUnfolds(n, j);
    NthUnfolds(n / 2, j - 1);
    NthUnfolds(n / 4, j - 2);
    NthUnfolds(n / 8, 0);
    assert n / 2 / 2 == n / 4 && n / 4 / 2 == n / 8;
    hide Nth;
  }

  lemma NthUnfolds(n: nat, j: int)
    ensures j == 0 ==> Nth(n, 0) == n % 2
    ensures j > 0 ==> Nth(n, j) == Nth(n / 2, j - 1)
  {
  }

  lemma NthIsBit(n: nat, j: nat)
    ensures Nth(n, j) < 2
  {
  }

  /** A masked byte differs from the byte in exactly the bits set in the key. */
  lemma XorBit(a: byte, k: byte, j: nat)
    requires j < 8
    ensures Bit(Xor(a, k), j) == 1 <==> Bit(a, j) != Bit(k, j)
  {
    NthOfXor(a, k, 8, j);
    BitIsNth(Xor(a, k), j);
    BitIsNth(a, j);
    BitIsNth(k, j);
    NthIsBit(a, j);
    NthIsBit(k, j);
    hide Bit, Nth, XorBits;
  }

  // ----- The frame -----------------------------------------------------------------------

  /** The big-endian number in `b`. */
  function BigEndian(b: seq<byte>): (n: nat) {
    if b == [] then 0 else 256 * BigEndian(b[..|b| - 1]) + b[|b| - 1]
  }

  /** Byte i differs from payload[i] in exactly the bits set in key[i % 4]. */
  ghost predicate Under(body: seq<byte>, payload: seq<byte>, key: Key) {
    && |body| == |payload|
    && forall i, j | 0 <= i < |payload| && 0 <= j < 8 :: DiffersAs(body[i], payload[i], key[i % 4], j)
  }

  predicate DiffersAs(a: byte, b: byte, k: byte, j: nat)
    requires j < 8
  {
    Bit(a, j) == 1 <==> Bit(b, j) != Bit(k, j)
  }

  lemma {:induction false} Be16Reads(v: nat)
    requires v < TWO_16
    ensures BigEndian(Be16(v)) == v
  {
    var b := Be16(v);
    assert b[..1] == [b[0]] && b[..1][..0] == [];
    assert BigEndian(b[..1]) == b[0];
  }

  lemma {:induction false} BigEndianPair(a: seq<byte>, b: seq<byte>, w: nat)
    requires w == Pow256(|b|)
    ensures BigEndian(a + b) == BigEndian(a) * w + BigEndian(b)
  {
    if b == [] {
      assert a + b == a;
    } else {
      var c := b[..|b| - 1];
      assert (a + b)[..|a + b| - 1] == a + c;
      BigEndianPair(a, c, Pow256(|c|));
      assert 256 * (BigEndian(a) * Pow256(|c|)) == BigEndian(a) * w;
    }
  }

  function Pow256(n: nat): (p: nat) {
    if n == 0 then 1 else 256 * Pow256(n - 1)
  }

  lemma Be32Reads(v: nat)
    requires v < TWO_32
    ensures BigEndian(Be32(v)) == v
  {
    assert Be32(v) == Be16(v / TWO_16) + Be16(v);
    assert Pow256(2) == TWO_16;
    BigEndianPair(Be16(v / TWO_16), Be16(v), TWO_16);
    SameBe16(v);
    Be16Reads(v / TWO_16);
    Be16Reads(v % TWO_16);
  }

  lemma SameBe16(v: nat)
    ensures Be16(v) == Be16(v % TWO_16)
  {
    assert v % TWO_16 % 0x100 == v % 0x100;
    assert v % TWO_16 / 0x100 % 0x100 == v / 0x100 % 0x100;
  }

  lemma SameBe32(v: nat)
    ensures Be32(v) == Be32(v % TWO_32)
  {
    hide Be16;
    var high, low := v / TWO_16, v % TWO_16;
    SplitMod(v, TWO_16, TWO_16);
    ModUnique(v % TWO_32, TWO_16, high % TWO_16, low);
    SameBe16(v);
    SameBe16(v % TWO_32);
    SameBe16(high);
  }

  lemma Be64Reads(v: nat)
    requires v < TWO_64
    ensures BigEndian(Be64(v)) == v
  {
    assert Be64(v) == Be32(v / TWO_32) + Be32(v);
    Powers();
    BigEndianPair(Be32(v / TWO_32), Be32(v), TWO_32);
    SameBe32(v);
    Be32Reads(v / TWO_32);
    Be32Reads(v % TWO_32);
    hide Be32, BigEndian;
  }

  lemma Powers()
    ensures Pow256(4) == TWO_32
  {
    assert Pow256(1) == 256 && Pow256(2) == 0x1_0000 && Pow256(3) == 0x100_0000;
  }

  /** The number of bytes of the extended length. */
  function ExtSize(n: nat): (size: nat) {
    if n <= 125 then 0 else if n <= 65535 then 2 else 8
  }

  /**
   What `writeFrame` writes: the final bit and the opcode, the mask bit and a length in
   the shortest of three forms, the key, and the payload under the key.
   */
  lemma WireFormat(opcode: byte, payload: seq<byte>, mask: Option<Key>)
    returns (length: byte, ext: seq<byte>, body: seq<byte>)
    requires opcode < 16 && |payload| < TWO_64
    ensures var n := |payload|;
            && FrameBytes(opcode, payload, mask)
               == [128 + opcode, length] + ext + (if mask.Some? then mask.value else []) + body
            && length == (if mask.Some? then 128 else 0) + (if n <= 125 then n else if n <= 65535 then 126 else 127)
            && |ext| == ExtSize(n) && (n > 125 ==> BigEndian(ext) == n)
            && if mask.Some? then Under(body, payload, mask.value) else body == payload
  {
    hide BigEndian, Under, Be16, Be64, Masked, Xor;
    length, ext := LengthParts(|payload|, mask);
    body := Body(payload, mask);
    if mask.Some? {
      MaskedBits(body, payload, mask.value);
    }
    var first: byte := 128 + opcode;
    assert [first] + ([length] + ext) == [first, length] + ext;
  }

  lemma LengthParts(n: nat, mask: Option<Key>) returns (length: byte, ext: seq<byte>)
    requires n < TWO_64
    ensures LengthField(n, mask) == [length] + ext
    ensures length == (if mask.Some? then 128 else 0) + (if n <= 125 then n else if n <= 65535 then 126 else 127)
    ensures |ext| == ExtSize(n) && (n > 125 ==> BigEndian(ext) == n)
  {
    hide BigEndian, Be16, Be64;
    length := MaskBit(mask) + if n <= 125 then n else if n <= 65535 then 126 else 127;
    ext := if n <= 125 then [] else if n <= 65535 then Be16(n) else Be64(n);
    if n > 65535 {
      Be64Reads(n);
    } else if n > 125 {
      Be16Reads(n);
    }
  }

  lemma MaskedBits(body: seq<byte>, payload: seq<byte>, key: Key)
    requires body == Masked(payload, key)
    ensures Under(body, payload, key)
  {
    hide Bit, Xor;
    forall i, j | 0 <= i < |payload| && 0 <= j < 8 ensures DiffersAs(body[i], payload[i], key[i % 4], j) {
      XorBit(payload[i], key[i % 4], j);
    }
  }

  /** A frame without the final bit is refused, and a length need not be in its shortest form to be read. */
  lemma ReadsForeign(opcode: byte, payload: seq<byte>, rest: seq<byte>, b: seq<byte>)
    requires opcode < 16 && |payload| < TWO_16
    ensures |b| >= 2 && b[0] < 128 ==> ReadOne(b).Fragment?
    ensures ReadOne([128 + opcode, 126] + Be16(|payload|) + payload + rest) == Frame(opcode, payload, rest)
  {
    var first: byte := 128 + opcode;
    var w := [first, 126] + Be16(|payload|) + payload + rest;
    assert w[2..4] == Be16(|payload|) && w[4..] == payload + rest;
    assert (payload + rest)[0..|payload|] == payload && (payload + rest)[|payload|..] == rest;
    ReadBe16(w, 2, |payload|);
    hide Be16, GetBe16;
  }

  // ----- The request loop --------------------------------------------------------------------

  /** What one incoming frame does, by its opcode and what its text says. */
  lemma AwaitByOpcode(c: Codec, id: string, m: Message, rest: seq<byte>)
    requires m.opcode < 16 && |m.payload| < TWO_64
    ensures var o, more := Await(c, id, FrameBytes(m.opcode, m.payload, m.mask) + rest), Await(c, id, rest);
            match m.opcode
            case 1 =>
              (match c.parse(m.payload)
               case None => o == more
               case Some(Envelope(from, event, ok, result, error)) =>
                 if event != "" || from != id then o == more
                 else
                   o == Outcome(if ok == Some(false) then Err(Refused(error)) else Ok(result), [], rest))
            case 8 => o == Outcome(Err(ServerClosed), [], rest)
            case 9 => o == more.(pings := [m.payload] + more.pings)
            case _ => o == more
  {
    AwaitFirst(c, id, m, rest);
    hide FrameBytes, Await;
  }

  /** A ping is answered by one masked pong with its payload, or by none when no key can be drawn. */
  lemma PongFor(payload: seq<byte>, key: Option<Key>)
    ensures Pongs([payload], [key]) == if key.Some? then FrameBytes(10, payload, key) else []
  {
    hide FrameBytes;
    assert Pongs([], []) == [];
  }
}
