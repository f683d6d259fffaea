/**
 The launcher's WebSocket framing (tools/iolab-launcher/wsclient.go), after
 RFC 6455 sections 5.2 (base framing) and 5.3 (masking).
 */
module WsFrames {
  import opened Wrappers
  import opened Bytes

  type Key = k: seq<byte> | |k| == 4 witness [0, 0, 0, 0]

  function Pow2(n: nat): (p: nat) {
    if n == 0 then 1 else 2 * Pow2(n - 1)
  }

  /** Exclusive or of the low `bits` bits. */
  function XorBits(a: nat, k: nat, bits: nat): (r: nat)
    ensures r < Pow2(bits)
  {
    if bits == 0 then 0 else 2 * XorBits(a / 2, k / 2, bits - 1) + (a % 2 + k % 2) % 2
  }

  function Xor(a: byte, k: byte): (r: byte) {
    assert Pow2(8) == 256;
    XorBits(a, k, 8)
  }

  lemma {:induction false} XorBitsTwice(a: nat, k: nat, bits: nat)
    requires a < Pow2(bits)
    ensures XorBits(XorBits(a, k, bits), k, bits) == a
  {
    hide XorBits, Pow2;
    XorUnfolds(a, k, bits);
    XorUnfolds(XorBits(a, k, bits), k, bits);
    if bits > 0 {
      HalfBelow(a, bits);
      Halves(XorBits(a / 2, k / 2, bits - 1), (a % 2 + k % 2) % 2);
      XorBitsTwice(a / 2, k / 2, bits - 1);
      BitTwice(a % 2, k % 2);
    }
  }

  lemma XorUnfolds(a: nat, k: nat, bits: nat)
    ensures XorBits(a, k, bits) ==
            if bits == 0 then 0 else 2 * XorBits(a / 2, k / 2, bits - 1) + (a % 2 + k % 2) % 2
    ensures Pow2(0) == 1
  {
  }

  lemma HalfBelow(a: nat, bits: nat)
    requires bits > 0 && a < Pow2(bits)
    ensures a / 2 < Pow2(bits - 1)
  {
  }

  lemma BitTwice(a: nat, k: nat)
    requires a < 2 && k < 2
    ensures ((a + k) % 2 + k) % 2 == a
  {
  }

  lemma Halves(x: nat, d: nat)
    requires d < 2
    ensures (2 * x + d) / 2 == x && (2 * x + d) % 2 == d
  {
  }

  lemma XorTwice(a: byte, k: byte)
    ensures Xor(Xor(a, k), k) == a
  {
    assert Pow2(8) == 256;
    XorBitsTwice(a, k, 8);
  }

  function Masked(payload: seq<byte>, key: Key): (m: seq<byte>)
    ensures |m| == |payload|
  {
    seq(|payload|, i requires 0 <= i < |payload| => Xor(payload[i], key[i % 4]))
  }

  /** Masking is its own inverse. */
  lemma MaskedTwice(payload: seq<byte>, key: Key)
    ensures Masked(Masked(payload, key), key) == payload
  {
    forall i | 0 <= i < |payload|
      ensures Masked(Masked(payload, key), key)[i] == payload[i]
    {
      XorTwice(payload[i], key[i % 4]);
    }
  }

  // ----- The layout -------------------------------------------------------------------

  function MaskBit(mask: Option<Key>): (b: nat) {
    if mask.Some? then 0x80 else 0
  }

  /** The length in 7, 7+16 or 7+64 bits. */
  function LengthField(n: nat, mask: Option<Key>): (b: seq<byte>)
    ensures |b| == if n <= 125 then 1 else if n <= 0xFFFF then 3 else 9
  {
    var m := MaskBit(mask);
    if n <= 125 then [m + n] else if n <= 0xFFFF then [m + 126] + Be16(n) else [m + 127] + Be64(n)
  }

  function KeyField(mask: Option<Key>): (b: seq<byte>) {
    if mask.Some? then mask.value else []
  }

  function Header(opcode: byte, n: nat, mask: Option<Key>): (h: seq<byte>) {
    var first: byte := 0x80 + opcode % 16;
    [first] + LengthField(n, mask) + KeyField(mask)
  }

  function Body(payload: seq<byte>, mask: Option<Key>): (b: seq<byte>)
    ensures |b| == |payload|
  {
    if mask.Some? then Masked(payload, mask.value) else payload
  }

  function FrameBytes(opcode: byte, payload: seq<byte>, mask: Option<Key>): (f: seq<byte>) {
    Header(opcode, |payload|, mask) + Body(payload, mask)
  }

  // ----- Writing ------------------------------------------------------------------------

  /** Everything written to a connection. */
  class Sink {
    var written: seq<byte>

    constructor ()
      ensures written == []
    {
      written := [];
    }

    method Write(bytes: seq<byte>)
      modifies this
      ensures written == old(written) + bytes
    {
      written := written + bytes;
    }
  }

  method WriteFrame(w: Sink, opcode: byte, payload: seq<byte>, maskKey: Option<Key>)
    modifies w
    ensures w.written == old(w.written) + FrameBytes(opcode, payload, maskKey)
  {
    hide Header, Masked;
    ghost var before, h := w.written, Header(opcode, |payload|, maskKey);
    var hdr, hdrLen := BuildHeader(opcode, |payload|, maskKey);
    w.Write(hdr[..hdrLen]);
    var n := |payload|;
    ThreeParts(before, h, Body(payload, maskKey));
    if n == 0 {
      assert Body(payload, maskKey) == [];
      return;
    }
    if maskKey.None? {
      w.Write(payload);
      return;
    }
    var masked := XorMask(payload, maskKey.value);
    w.Write(masked);
  }

  /** The masking loop, in both directions. */
  method XorMask(payload: seq<byte>, maskKey: Key) returns (result: seq<byte>)
    ensures result == Masked(payload, maskKey)
  {
    var n := |payload|;
    var masked := new byte[n](_ => 0);
    for i := 0 to n
      invariant forall j | 0 <= j < i :: masked[j] == Xor(payload[j], maskKey[j % 4])
    {
      masked[i] := Xor(payload[i], maskKey[i % 4]);
    }
    return masked[..];
  }

  lemma ThreeParts(a: seq<byte>, b: seq<byte>, c: seq<byte>)
    ensures a + b + c == a + (b + c) && a + b + [] == a + b
  {
  }

  lemma LengthForms(n: nat, mask: Option<Key>)
    ensures LengthField(n, mask) ==
            if n <= 125 then [MaskBit(mask) + n]
            else if n <= 0xFFFF then [MaskBit(mask) + 126] + Be16(n)
            else [MaskBit(mask) + 127] + Be64(n)
    ensures KeyField(mask) == if mask.Some? then mask.value else []
  {
    hide Be16, Be64;
  }

  method BuildHeader(opcode: byte, n: nat, maskKey: Option<Key>) returns (hdr: array<byte>, hdrLen: nat)
    ensures fresh(hdr) && hdrLen <= hdr.Length && hdr[..hdrLen] == Header(opcode, n, maskKey)
  {
    hide LengthField, KeyField;
    LengthForms(n, maskKey);
    hdr := new byte[14](_ => 0);
    hdr[0] := 0x80 + opcode % 16;
    hdrLen := StoreLength(hdr, n, maskKey);
    if maskKey.Some? {
      Store(hdr, hdrLen, maskKey.value);
      hdrLen := hdrLen + 4;
    }
  }

  /** The mask bit and the length in its shortest form, behind the first byte. */
  method StoreLength(hdr: array<byte>, n: nat, maskKey: Option<Key>) returns (hdrLen: nat)
    requires hdr.Length == 14
    modifies hdr
    ensures 2 <= hdrLen <= 10 && hdr[..hdrLen] == [old(hdr[0])] + LengthField(n, maskKey)
  {
    hide Be16, Be64, LengthField, KeyField;
    LengthForms(n, maskKey);
    var maskBit := if maskKey.Some? then 0x80 else 0;
    if n <= 125 {
      hdr[1] := maskBit + n;
      hdrLen := 2;
    } else if n <= 0xFFFF {
      hdr[1] := maskBit + 126;
      Store(hdr, 2, Be16(n));
      hdrLen := 4;
    } else {
      hdr[1] := maskBit + 127;
      Store(hdr, 2, Be64(n));
      hdrLen := 10;
    }
  }

  method Store(a: array<byte>, at: nat, bytes: seq<byte>)
    requires at + |bytes| <= a.Length
    modifies a
    ensures a[..at] == old(a[..at]) && a[at..at + |bytes|] == bytes && a[at + |bytes|..] == old(a[at + |bytes|..])
    ensures a[..at + |bytes|] == old(a[..at]) + bytes
  {
    forall i | 0 <= i < |bytes| {
      a[at + i] := bytes[i];
    }
  }

  // ----- Reading --------------------------------------------------------------------------

  /** One read: a frame and what follows it, a refused fragment, or an end of input inside a frame. */
  datatype Read = Frame(opcode: byte, payload: seq<byte>, rest: seq<byte>) | Fragment(rest: seq<byte>) | Eof

  function ReadBody(opcode: byte, masked: bool, length: nat, b: seq<byte>): (r: Read) {
    var k := if masked then 4 else 0;
    if |b| < k + length then Eof
    else
      var body := b[k..k + length];
      Frame(opcode, if masked then Masked(body, b[..4]) else body, b[k + length..])
  }

  function ReadOne(b: seq<byte>): (r: Read) {
    if |b| < 2 then Eof
    else
      var opcode, masked, length := b[0] % 16, b[1] >= 0x80, b[1] % 0x80;
      if b[0] < 0x80 then Fragment(b[2..])
      else if length == 126 then
        if |b| < 4 then Eof else ReadBody(opcode, masked, GetBe16(b, 2), b[4..])
      else if length == 127 then
        if |b| < 10 then Eof else ReadBody(opcode, masked, GetBe64(b, 2), b[10..])
      else ReadBody(opcode, masked, length, b[2..])
  }

  /** What is left after a read; a failed io.ReadFull has taken everything. */
  function Rest(r: Read): (rest: seq<byte>) {
    if r.Eof? then [] else r.rest
  }

  /** Everything still to be read from a connection. */
  class Source {
    var pending: seq<byte>

    constructor (bytes: seq<byte>)
      ensures pending == bytes
    {
      pending := bytes;
    }

    method ReadFull(n: nat) returns (bytes: Option<seq<byte>>)
      modifies this
      ensures if n <= |old(pending)| then bytes == Some(old(pending)[..n]) && pending == old(pending)[n..]
              else bytes == None && pending == []
    {
      if n <= |pending| {
        bytes := Some(pending[..n]);
        pending := pending[n..];
      } else {
        bytes := None;
        pending := [];
      }
    }
  }

  method ReadFrame(r: Source) returns (read: Read)
    modifies r
    ensures read == ReadOne(old(r.pending)) && r.pending == Rest(read)
  {
    ghost var b := r.pending;
    var hdr := r.ReadFull(2);
    if hdr.None? {
      return Eof;
    }
    var fin := hdr.value[0] >= 0x80;
    var opcode := hdr.value[0] % 16;
    if !fin {
      return Fragment(r.pending);
    }
    var masked := hdr.value[1] >= 0x80;
    var length: nat := hdr.value[1] % 0x80;
    if length == 126 {
      var ext := r.ReadFull(2);
      if ext.None? {
        return Eof;
      }
      assert ext.value == b[2..4] && b[2..][2..] == b[4..];
      length := GetBe16(ext.value, 0);
      assert length == GetBe16(b, 2);
      read := ReadPayload(r, opcode, masked, length);
    } else if length == 127 {
      var ext := r.ReadFull(8);
      if ext.None? {
        return Eof;
      }
      assert b[2..][8..] == b[10..];
      length := GetBe64(ext.value, 0);
      SameBe64(b);
      read := ReadPayload(r, opcode, masked, length);
    } else {
      read := ReadPayload(r, opcode, masked, length);
    }
  }

  lemma SameBe64(b: seq<byte>)
    requires |b| >= 10
    ensures GetBe64(b[2..][..8], 0) == GetBe64(b, 2)
  {
    var s := b[2..][..8];
    assert forall i | 0 <= i < 8 :: s[i] == b[i + 2];
  }

  method ReadPayload(r: Source, opcode: byte, masked: bool, length: nat) returns (read: Read)
    modifies r
    ensures read == ReadBody(opcode, masked, length, old(r.pending)) && r.pending == Rest(read)
  {
    ghost var b := r.pending;
    var maskKey: Key := [0, 0, 0, 0];
    if masked {
      var key := r.ReadFull(4);
      if key.None? {
        return Eof;
      }
      maskKey := key.value;
    }
    ghost var k := if masked then 4 else 0;
    var payload := r.ReadFull(length);
    if payload.None? {
      return Eof;
    }
    assert payload.value == b[k..k + length] && r.pending == b[k + length..];
    var plain := payload.value;
    if masked {
      assert maskKey == b[..4];
      plain := XorMask(payload.value, maskKey);
    }
    return Frame(opcode, plain, r.pending);
  }

  // ----- Round trip ---------------------------------------------------------------------------

  lemma LengthParts(n: nat, mask: Option<Key>, rest: seq<byte>, first: byte)
    requires n < TWO_64 && first >= 0x80
    ensures ReadOne([first] + LengthField(n, mask) + rest) == ReadBody(first % 16, mask.Some?, n, rest)
  {
    hide ReadBody, Be16, Be64, GetBe16, GetBe64;
    var b := [first] + LengthField(n, mask) + rest;
    assert b[0] == first;
    if n <= 125 {
      assert b[1] == MaskBit(mask) + n && b[2..] == rest;
    } else if n <= 0xFFFF {
      assert b[1] == MaskBit(mask) + 126 && b[2..4] == Be16(n) && b[4..] == rest;
      ReadBe16(b, 2, n);
    } else {
      assert b[1] == MaskBit(mask) + 127 && b[2..10] == Be64(n) && b[10..] == rest;
      ReadBe64(b, 2, n);
    }
  }

  lemma BodyReads(opcode: byte, payload: seq<byte>, mask: Option<Key>, rest: seq<byte>)
    ensures ReadBody(opcode, mask.Some?, |payload|, KeyField(mask) + (Body(payload, mask) + rest))
         == Frame(opcode, payload, rest)
  {
    var n, body := |payload|, Body(payload, mask);
    var b := KeyField(mask) + (body + rest);
    if mask.Some? {
      MaskedTwice(payload, mask.value);
      hide Masked;
      assert b[..4] == mask.value && b[4..4 + n] == body && b[4 + n..] == rest;
    } else {
      assert b[0..n] == body && b[n..] == rest;
    }
  }

  lemma Unfold(opcode: byte, payload: seq<byte>, mask: Option<Key>, rest: seq<byte>, first: byte)
    requires first == 0x80 + opcode % 16
    ensures FrameBytes(opcode, payload, mask) + rest
         == [first] + LengthField(|payload|, mask) + (KeyField(mask) + (Body(payload, mask) + rest))
  {
    hide LengthField, KeyField, Body;
  }

  /** Reading a written frame returns its opcode and payload, and leaves what followed it. */
  lemma ReadWritten(opcode: byte, payload: seq<byte>, mask: Option<Key>, rest: seq<byte>)
    requires opcode < 16 && |payload| < TWO_64
    ensures ReadOne(FrameBytes(opcode, payload, mask) + rest) == Frame(opcode, payload, rest)
  {
    hide ReadOne, ReadBody, LengthField, KeyField, Body, FrameBytes;
    var first: byte := 0x80 + opcode % 16;
    var after := KeyField(mask) + (Body(payload, mask) + rest);
    LengthParts(|payload|, mask, after, first);
    BodyReads(opcode, payload, mask, rest);
    Unfold(opcode, payload, mask, rest, first);
  }

  datatype Message = Message(opcode: byte, payload: seq<byte>, mask: Option<Key>)

  predicate Writable(ms: seq<Message>) {
    forall i | 0 <= i < |ms| :: ms[i].opcode < 16 && |ms[i].payload| < TWO_64
  }

  function Stream(ms: seq<Message>): (b: seq<byte>) {
    if ms == [] then [] else FrameBytes(ms[0].opcode, ms[0].payload, ms[0].mask) + Stream(ms[1..])
  }

  /** Read frames until the input ends; None if it ends inside a frame or a fragment comes. */
  function ReadAll(b: seq<byte>): (r: Option<seq<(byte, seq<byte>)>>)
    decreases |b|
  {
    if b == [] then Some([])
    else
      match ReadOne(b)
      case Frame(opcode, payload, rest) =>
        ReadShrinks(b);
        var more := ReadAll(rest);
        if more.Some? then Some([(opcode, payload)] + more.value) else None
      case _ => None
  }

  lemma ReadShrinks(b: seq<byte>)
    requires ReadOne(b).Frame?
    ensures |ReadOne(b).rest| < |b|
  {
  }

  function Contents(ms: seq<Message>): (c: seq<(byte, seq<byte>)>)
    ensures |c| == |ms|
  {
    seq(|ms|, i requires 0 <= i < |ms| => (ms[i].opcode, ms[i].payload))
  }

  /** Any list of frames, written one after the other, reads back as exactly that list. */
  lemma {:induction false} StreamReadsBack(ms: seq<Message>)
    requires Writable(ms)
    ensures ReadAll(Stream(ms)) == Some(Contents(ms))
  {
    if ms != [] {
      hide FrameBytes, ReadOne, Writable;
      var m := ms[0];
      assert Writable(ms[1..]) && m.opcode < 16 && |m.payload| < TWO_64 by { FirstWritable(ms); }
      StreamReadsBack(ms[1..]);
      ReadWritten(m.opcode, m.payload, m.mask, Stream(ms[1..]));
      FrameNotEmpty(m);
      AllOfCons(m, Stream(ms[1..]));
      ContentsCons(ms);
      assert Stream(ms) == FrameBytes(m.opcode, m.payload, m.mask) + Stream(ms[1..]);
      hide ReadAll, Contents, Stream;
    }
  }

  lemma ContentsCons(ms: seq<Message>)
    requires ms != []
    ensures Contents(ms) == [(ms[0].opcode, ms[0].payload)] + Contents(ms[1..])
  {
  }

  lemma AllOfCons(m: Message, rest: seq<byte>)
    requires ReadOne(FrameBytes(m.opcode, m.payload, m.mask) + rest) == Frame(m.opcode, m.payload, rest)
    requires FrameBytes(m.opcode, m.payload, m.mask) != []
    ensures var more := ReadAll(rest);
            ReadAll(FrameBytes(m.opcode, m.payload, m.mask) + rest)
            == if more.Some? then Some([(m.opcode, m.payload)] + more.value) else None
  {
    hide FrameBytes, ReadOne;
  }

  lemma FirstWritable(ms: seq<Message>)
    requires ms != [] && Writable(ms)
    ensures Writable(ms[1..]) && ms[0].opcode < 16 && |ms[0].payload| < TWO_64
  {
  }

  lemma FrameNotEmpty(m: Message)
    ensures FrameBytes(m.opcode, m.payload, m.mask) != []
  {
  }

  /**
   Length encodings are minimal: whatever bytes are read as a frame with this
   payload, the written frame with the same masking is no longer.
   */
  lemma MinimalLength(b: seq<byte>, mask: Option<Key>)
    requires ReadOne(b).Frame? && (mask.Some? <==> b[1] >= 0x80)
    ensures var r := ReadOne(b);
            |FrameBytes(r.opcode, r.payload, mask)| <= |b| - |r.rest|
  {
    hide Masked, Be16, Be64;
    var k, r := |KeyField(mask)|, ReadOne(b);
    var n := |r.payload|;
    assert |FrameBytes(r.opcode, r.payload, mask)| == 1 + |LengthField(n, mask)| + k + n;
    var length := b[1] % 0x80;
    if length == 126 {
      BodySize(r.opcode, mask.Some?, GetBe16(b, 2), b[4..]);
    } else if length == 127 {
      BodySize(r.opcode, mask.Some?, GetBe64(b, 2), b[10..]);
    } else {
      BodySize(r.opcode, mask.Some?, length, b[2..]);
    }
  }

  lemma BodySize(opcode: byte, masked: bool, length: nat, b: seq<byte>)
    ensures var r := ReadBody(opcode, masked, length, b);
            r.Frame? ==> |r.payload| == length && |b| - |r.rest| == length + if masked then 4 else 0
  {
  }
}
