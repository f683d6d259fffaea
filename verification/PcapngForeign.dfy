/**
 Files that other tools write: any byte order and changes of it, options, block
 types the parser skips. `Bytes of a record` and `what is shown of a list of
 records` are told without the parser's own reading functions.
 */
module PcapngForeign {
  import opened Wrappers
  import opened Bytes
  import opened Pcapng
  import opened PcapngChunks
  import opened PcapngEncode
  import opened PcapngRoundTrip

  // ----- Records and their bytes --------------------------------------------------------

  datatype Opt = Opt(code: nat, val: seq<byte>)

  datatype Record =
    | Section(little: bool, more: seq<byte>)
    | Interface(link: seq<byte>, opts: seq<Opt>)
    | Enhanced(iface: nat, high: nat, low: nat, data: seq<byte>, origLen: nat, more: seq<byte>)
    | Simple(origLen: nat, data: seq<byte>)
    | Other(kind: nat, body: seq<byte>)

  function W16(v: nat, little: bool): (b: seq<byte>)
    ensures |b| == 2
  {
    if little then [v % 256, v / 256 % 256] else [v / 256 % 256, v % 256]
  }

  function W32(v: nat, little: bool): (b: seq<byte>)
    ensures |b| == 4
  {
    if little then [v % 256, v / 256 % 256, v / 65536 % 256, v / 16777216 % 256]
    else [v / 16777216 % 256, v / 65536 % 256, v / 256 % 256, v % 256]
  }

  function OptBytes(o: Opt, little: bool): (b: seq<byte>)
    ensures |b| == 4 + |o.val| + (4 - |o.val| % 4) % 4
  {
    W16(o.code, little) + W16(|o.val|, little) + o.val + Zeros((4 - |o.val| % 4) % 4)
  }

  function OptsBytes(os: seq<Opt>, little: bool): (b: seq<byte>) {
    if os == [] then [] else OptBytes(os[0], little) + OptsBytes(os[1..], little)
  }

  function Kind(r: Record): (k: nat) {
    match r
    case Section(_, _) => 0x0A0D0D0A
    case Interface(_, _) => 1
    case Enhanced(_, _, _, _, _, _) => 6
    case Simple(_, _) => 3
    case Other(kind, _) => kind
  }

  function Body(r: Record, little: bool): (b: seq<byte>) {
    match r
    case Section(_, more) => W32(0x1A2B3C4D, little) + more
    case Interface(link, opts) => link + OptsBytes(opts, little)
    case Enhanced(iface, high, low, data, origLen, more) =>
      EpbFields(iface, high, low, |data|, origLen, little) + data + more
    case Simple(origLen, data) => W32(origLen, little) + data
    case Other(_, body) => body
  }

  function EpbFields(iface: nat, high: nat, low: nat, n: nat, origLen: nat, little: bool): (b: seq<byte>)
    ensures |b| == 20
  {
    W32(iface, little) + W32(high, little) + W32(low, little) + W32(n, little) + W32(origLen, little)
  }

  /** The order a record is written in: a section header announces its own. */
  function OrderOf(r: Record, little: bool): (l: bool) {
    if r.Section? then r.little else little
  }

  function RecordBytes(r: Record, little: bool): (b: seq<byte>) {
    var body := Body(r, little);
    W32(Kind(r), little) + W32(12 + |body|, little) + body + W32(12 + |body|, little)
  }

  function FileBytes(rs: seq<Record>, little: bool): (b: seq<byte>) {
    if rs == [] then []
    else
      var l := OrderOf(rs[0], little);
      RecordBytes(rs[0], l) + FileBytes(rs[1..], l)
  }

  /** Numbers fit their fields, a block is at most 8 MiB, a link description has eight bytes. */
  predicate Written(r: Record) {
    && |Body(r, true)| + 12 <= 8388608
    && match r
       case Section(_, _) => true
       case Interface(link, opts) =>
         |link| == 8 && forall i | 0 <= i < |opts| :: opts[i].code < 65536 && |opts[i].val| < 65536
       case Enhanced(_, high, low, _, origLen, _) =>
         high < 4294967296 && low < 4294967296 && origLen < 4294967296
       case Simple(origLen, _) => origLen < 4294967296
       case Other(kind, _) => kind < 4294967296 && kind != 1 && kind != 3 && kind != 6 && kind != 0x0A0D0D0A
  }

  // ----- What is shown of them -------------------------------------------------------------

  /** if_tsresol: 10^n ticks a second, or 2^(n - 128) when its high bit is set. */
  function TicksOf(n: byte): (t: Positive) {
    if n == 0 || n == 128 then 1 else (if n < 128 then 10 else 2) * TicksOf(n - 1)
  }

  /** The last non-empty option 9 in front of the end-of-options decides. */
  function TickRate(os: seq<Opt>, ticks: Positive): (t: Positive) {
    if os == [] || os[0].code == 0 then ticks
    else TickRate(os[1..], if os[0].code == 9 && os[0].val != [] then TicksOf(os[0].val[0]) else ticks)
  }

  /** The packets shown for `rs` behind `n` others, the first of which was captured at `first`. */
  function Shown(rs: seq<Record>, ticks: Positive, n: nat, first: Option<real>): (ps: seq<Packet>) {
    if rs == [] then []
    else
      match rs[0]
      case Interface(_, opts) => Shown(rs[1..], TickRate(opts, ticks), n, first)
      case Enhanced(_, high, low, data, origLen, _) =>
        var t := (high * 4294967296 + low) as real / ticks as real;
        [ShownPacket(n, t, first, data, origLen)] + Shown(rs[1..], ticks, n + 1, Some(FirstOr(first, t)))
      case Simple(origLen, data) =>
        [ShownPacket(n, 0.0, first, data, origLen)] + Shown(rs[1..], ticks, n + 1, Some(FirstOr(first, 0.0)))
      case _ => Shown(rs[1..], ticks, n, first)
  }

  function FirstOr(first: Option<real>, t: real): (t0: real) {
    if first.Some? then first.value else t
  }

  /** Numbered from one, relative to the first packet but never before it, microseconds rounded. */
  function ShownPacket(n: nat, t: real, first: Option<real>, data: seq<byte>, origLen: nat): (p: Packet) {
    Packet(n + 1, if first.None? || t < first.value then 0.0 else t - first.value,
           (t * 1_000_000.0 + 0.5).Floor, data, origLen)
  }

  // ----- Reading numbers ----------------------------------------------------------------------

  lemma ReadW16(b: seq<byte>, off: nat, v: nat, little: bool)
    requires off + 2 <= |b| && b[off..off + 2] == W16(v, little) && v < 65536
    ensures U16(b, off, little) == v
  {
    var w := b[off..off + 2];
    assert b[off] == w[0] && b[off + 1] == w[1];
  }

  lemma ReadW32(b: seq<byte>, off: nat, v: nat, little: bool)
    requires off + 4 <= |b| && b[off..off + 4] == W32(v, little) && v < 4294967296
    ensures U32(b, off, little) == v
  {
    LaidOut(v, little);
    hide W32, Le32, GetLe32, Be32, GetBe32;
    if little {
      ReadLe32(b, off, v);
    } else {
      ReadBe32(b, off, v);
    }
  }

  lemma LaidOut(v: nat, little: bool)
    ensures W32(v, little) == if little then Le32(v) else Be32(v)
  {
    var q, r := v / 65536 / 256, v / 65536 % 256;
    ModUnique(v, 16777216, q, 65536 * r + v % 65536);
  }

  lemma Part(f: seq<byte>, lo: nat, hi: nat, i: nat, j: nat)
    requires i <= j && lo + j <= hi <= |f|
    ensures f[lo..hi][i..j] == f[lo + i..lo + j]
  {
    var s := f[lo..hi];
    assert forall k | 0 <= k < j - i :: s[i..j][k] == s[i + k] == f[lo + i + k];
  }

  // ----- One record -----------------------------------------------------------------------------

  lemma {:induction false} SameSize(os: seq<Opt>)
    ensures |OptsBytes(os, true)| == |OptsBytes(os, false)|
  {
    if os != [] {
      SameSize(os[1..]);
    }
  }

  lemma BodySize(r: Record, little: bool)
    ensures |Body(r, little)| == |Body(r, true)|
  {
    hide OptsBytes;
    if r.Interface? {
      SameSize(r.opts);
    }
  }

  lemma RecordParts(r: Record, little: bool, rest: seq<byte>)
    requires Written(r)
    ensures var b, n := RecordBytes(r, little) + rest, 12 + |Body(r, little)|;
            && n <= |b| && n <= 8388608 && U32(b, 0, little) == Kind(r) && U32(b, 4, little) == n
            && b[8..n - 4] == Body(r, little) && b[n..] == rest
  {
    BodySize(r, little);
    var body := Body(r, little);
    hide Body, W32;
    var b, n := RecordBytes(r, little) + rest, 12 + |body|;
    assert b[0..4] == W32(Kind(r), little) && b[4..8] == W32(n, little) && b[8..n - 4] == body && b[n..] == rest;
    ReadW32(b, 0, Kind(r), little);
    ReadW32(b, 4, n, little);
  }

  lemma Header(d: Decoder, r: Record, rest: seq<byte>)
    requires Written(r)
    ensures var l := OrderOf(r, d.little);
            var b := RecordBytes(r, l) + rest;
            |b| >= 12 && Peek(d, b) == d.(little := l) && BlockLength(d, b) == 12 + |Body(r, l)|
  {
    var l := OrderOf(r, d.little);
    var b := RecordBytes(r, l) + rest;
    RecordParts(r, l, rest);
    hide RecordBytes, GetLe32, GetBe32, W32;
    Palindrome(b);
    if r.Section? {
      Part(b, 8, 12 + |Body(r, l)| - 4, 0, 4);
      Magic(b, l);
    }
  }

  lemma Magic(b: seq<byte>, l: bool)
    requires |b| >= 12 && b[8..12] == W32(0x1A2B3C4D, l)
    ensures U32(b, 8, true) == 0x1A2B3C4D <==> l
  {
    assert b[8] == b[8..12][0];
    assert U32(b, 8, true) % 256 == b[8];
  }

  lemma EnhancedRead(d: Decoder, r: Record, b: seq<byte>)
    requires r.Enhanced? && Written(r) && |b| >= 12 + |Body(r, d.little)|
    requires b[8..8 + |Body(r, d.little)|] == Body(r, d.little)
    ensures 28 + U32(b, 20, d.little) <= 8 + |Body(r, d.little)|
    ensures var t := (r.high * 4294967296 + r.low) as real / d.tsPerSec as real;
            EnhancedPacket(d, b) == Block(d.(index := d.index + 1, t0 := Some(FirstOr(d.t0, t))),
                                          [ShownPacket(d.index, t, d.t0, r.data, r.origLen)])
  {
    var l, body, n := d.little, Body(r, d.little), |r.data|;
    BodySize(r, l);
    EpbParts(W32(r.iface, l), W32(r.high, l), W32(r.low, l), W32(n, l), W32(r.origLen, l), r.data, r.more, body);
    hide W32, U32, Body;
    Part(b, 8, 8 + |body|, 4, 8);
    Part(b, 8, 8 + |body|, 8, 12);
    Part(b, 8, 8 + |body|, 12, 16);
    Part(b, 8, 8 + |body|, 16, 20);
    Part(b, 8, 8 + |body|, 20, 20 + n);
    assert n < 4294967296 && |b| >= 28 + n;
    EnhancedFields(b, r, l);
    hide Written;
    EmitShows(d, b, r);
  }

  lemma EpbParts(i: seq<byte>, h: seq<byte>, w: seq<byte>, n: seq<byte>, o: seq<byte>, data: seq<byte>, more: seq<byte>,
                 body: seq<byte>)
    requires |i| == |h| == |w| == |n| == |o| == 4 && body == i + h + w + n + o + data + more
    ensures |body| == 20 + |data| + |more| && body[20..20 + |data|] == data
    ensures body[4..8] == h && body[8..12] == w && body[12..16] == n && body[16..20] == o
  {
  }

  lemma EmitShows(d: Decoder, b: seq<byte>, r: Record)
    requires r.Enhanced? && |b| >= 28 + |r.data| && b[28..28 + |r.data|] == r.data
    requires U32(b, 12, d.little) == r.high && U32(b, 16, d.little) == r.low
    requires U32(b, 20, d.little) == |r.data| && U32(b, 24, d.little) == r.origLen
    ensures var t := (r.high * 4294967296 + r.low) as real / d.tsPerSec as real;
            EnhancedPacket(d, b) == Block(d.(index := d.index + 1, t0 := Some(FirstOr(d.t0, t))),
                                          [ShownPacket(d.index, t, d.t0, r.data, r.origLen)])
  {
    hide U32;
  }

  lemma EnhancedFields(b: seq<byte>, r: Record, l: bool)
    requires r.Enhanced? && |b| >= 28 && |r.data| < 4294967296
    requires r.high < 4294967296 && r.low < 4294967296 && r.origLen < 4294967296
    requires b[12..16] == W32(r.high, l) && b[16..20] == W32(r.low, l)
    requires b[20..24] == W32(|r.data|, l) && b[24..28] == W32(r.origLen, l)
    ensures U32(b, 12, l) == r.high && U32(b, 16, l) == r.low
    ensures U32(b, 20, l) == |r.data| && U32(b, 24, l) == r.origLen
  {
    hide W32, U32;
    ReadW32(b, 12, r.high, l);
    ReadW32(b, 16, r.low, l);
    ReadW32(b, 20, |r.data|, l);
    ReadW32(b, 24, r.origLen, l);
  }

  lemma SimpleRead(d: Decoder, r: Record, b: seq<byte>)
    requires r.Simple? && Written(r) && |b| >= 12 + |Body(r, d.little)|
    requires b[8..8 + |Body(r, d.little)|] == Body(r, d.little)
    ensures SimplePacket(d, b, 12 + |Body(r, d.little)|)
         == Block(d.(index := d.index + 1, t0 := Some(FirstOr(d.t0, 0.0))),
                  [ShownPacket(d.index, 0.0, d.t0, r.data, r.origLen)])
  {
    var l, body := d.little, Body(r, d.little);
    assert body[0..4] == W32(r.origLen, l) && body[4..4 + |r.data|] == r.data;
    hide W32, U32;
    Part(b, 8, 8 + |body|, 0, 4);
    Part(b, 8, 8 + |body|, 4, 4 + |r.data|);
    ReadW32(b, 8, r.origLen, l);
  }

  // ----- Options ----------------------------------------------------------------------------------

  lemma RateIs(raw: byte)
    ensures RateOf(raw) == TicksOf(raw)
  {
    if raw < 128 {
      Tens(raw);
    } else {
      Twos(raw - 128);
    }
  }

  lemma {:induction false} Tens(n: nat)
    requires n < 128
    ensures Power(10, n) == TicksOf(n)
  {
    if n > 0 {
      Tens(n - 1);
    }
  }

  lemma {:induction false} Twos(n: nat)
    requires n < 128
    ensures Power(2, n) == TicksOf(128 + n)
  {
    if n > 0 {
      Twos(n - 1);
    }
  }

  lemma OptionAt(b: seq<byte>, p: nat, o: Opt, l: bool)
    requires o.code < 65536 && |o.val| < 65536 && p + |OptBytes(o, l)| <= |b|
    requires b[p..p + |OptBytes(o, l)|] == OptBytes(o, l)
    ensures U16(b, p, l) == o.code && U16(b, p + 2, l) == |o.val| && (o.val != [] ==> b[p + 4] == o.val[0])
  {
    var w := OptBytes(o, l);
    assert w[0..2] == W16(o.code, l) && w[2..4] == W16(|o.val|, l) && (o.val != [] ==> w[4] == o.val[0]);
    hide OptBytes, W16;
    Part(b, p, p + |w|, 0, 2);
    Part(b, p, p + |w|, 2, 4);
    assert o.val != [] ==> b[p..p + |w|][4] == b[p + 4];
    ReadW16(b, p, o.code, l);
    ReadW16(b, p + 2, |o.val|, l);
  }

  lemma Split(b: seq<byte>, p: nat, end: nat, w: seq<byte>, rest: seq<byte>)
    requires p <= end <= |b| && b[p..end] == w + rest
    ensures p + |w| <= end && b[p..p + |w|] == w && b[p + |w|..end] == rest
  {
    var s := w + rest;
    assert |s| == end - p && s[..|w|] == w && s[|w|..|s|] == rest;
    Part(b, p, end, 0, |w|);
    Part(b, p, end, |w|, |s|);
  }

  lemma {:induction false} OptionsRead(b: seq<byte>, p: nat, end: nat, os: seq<Opt>, l: bool, ticks: Positive)
    requires p <= end < |b| && b[p..end] == OptsBytes(os, l)
    requires forall i | 0 <= i < |os| :: os[i].code < 65536 && |os[i].val| < 65536
    ensures OptionsRate(b, p, end, l, ticks) == TickRate(os, ticks)
    decreases |os|
  {
    hide U16, RateOf, TicksOf, OptionsRate, OptBytes;
    RateUnfolds(b, p, end, l, ticks);
    if os != [] {
      var o, w := os[0], OptBytes(os[0], l);
      var next := p + |w|;
      Split(b, p, end, w, OptsBytes(os[1..], l));
      OptionAt(b, p, o, l);
      if o.code != 0 {
        if o.code == 9 && o.val != [] {
          RateIs(o.val[0]);
        }
        OptionsRead(b, next, end, os[1..], l, if o.code == 9 && o.val != [] then TicksOf(o.val[0]) else ticks);
      }
    }
  }

  lemma InterfaceRead(d: Decoder, r: Record, b: seq<byte>)
    requires r.Interface? && Written(r) && |b| >= 12 + |Body(r, d.little)|
    requires b[8..8 + |Body(r, d.little)|] == Body(r, d.little)
    ensures OptionsRate(b, 16, 8 + |Body(r, d.little)|, d.little, d.tsPerSec) == TickRate(r.opts, d.tsPerSec)
  {
    hide *;
    var os := OptsBytes(r.opts, d.little);
    LinkAndOptions(r, d.little);
    Behind(b, r.link, os);
    OptionsRead(b, 16, 16 + |os|, r.opts, d.little, d.tsPerSec);
  }

  lemma LinkAndOptions(r: Record, l: bool)
    requires r.Interface? && Written(r)
    ensures Body(r, l) == r.link + OptsBytes(r.opts, l) && |r.link| == 8
    ensures forall i | 0 <= i < |r.opts| :: r.opts[i].code < 65536 && |r.opts[i].val| < 65536
  {
    hide OptsBytes;
  }

  lemma Behind(b: seq<byte>, link: seq<byte>, os: seq<byte>)
    requires |link| == 8 && |b| >= 16 + |os| && b[8..16 + |os|] == link + os
    ensures b[16..16 + |os|] == os
  {
    assert (link + os)[8..8 + |os|] == os;
    Part(b, 8, 16 + |os|, 8, 8 + |os|);
  }

  // ----- Whole files --------------------------------------------------------------------------------

  /** What the decoder knows after record `r`. */
  function Knowing(d: Decoder, r: Record): (d': Decoder) {
    match r
    case Section(little, _) => d.(little := little)
    case Interface(_, opts) => d.(tsPerSec := TickRate(opts, d.tsPerSec))
    case Enhanced(_, high, low, _, _, _) =>
      d.(index := d.index + 1, t0 := Some(FirstOr(d.t0, (high * 4294967296 + low) as real / d.tsPerSec as real)))
    case Simple(_, _) => d.(index := d.index + 1, t0 := Some(FirstOr(d.t0, 0.0)))
    case Other(_, _) => d
  }

  function Showing(d: Decoder, r: Record): (ps: seq<Packet>) {
    match r
    case Enhanced(_, high, low, data, origLen, _) =>
      [ShownPacket(d.index, (high * 4294967296 + low) as real / d.tsPerSec as real, d.t0, data, origLen)]
    case Simple(origLen, data) => [ShownPacket(d.index, 0.0, d.t0, data, origLen)]
    case _ => []
  }

  lemma OneRecord(d: Decoder, r: Record, rest: seq<byte>)
    requires Written(r)
    ensures var l := OrderOf(r, d.little);
            var b, n, d1 := RecordBytes(r, l) + rest, 12 + |Body(r, l)|, d.(little := l);
            && n <= |b| && SelfContained(d1, b, n) && ReadBlock(d1, b, n) == Block(Knowing(d, r), Showing(d, r))
  {
    var l := OrderOf(r, d.little);
    RecordParts(r, l, rest);
    hide RecordBytes, U32, Body, ReadBlock, SelfContained, Written;
    BlockIs(d.(little := l), r, RecordBytes(r, l) + rest, |Body(r, l)|);
  }

  lemma BlockIs(d: Decoder, r: Record, b: seq<byte>, n: nat)
    requires Written(r) && |b| >= 12 + n && n == |Body(r, d.little)| && (r.Section? ==> r.little == d.little)
    requires U32(b, 0, d.little) == Kind(r) && b[8..8 + n] == Body(r, d.little)
    ensures SelfContained(d, b, 12 + n) && ReadBlock(d, b, 12 + n) == Block(Knowing(d, r), Showing(d, r))
  {
    hide U32, Body, EnhancedPacket, SimplePacket, ShownPacket, OptionsRate, TickRate, Power;
    match r
    case Section(_, _) =>
    case Interface(_, _) => InterfaceRead(d, r, b);
    case Enhanced(_, _, _, _, _, _) => EnhancedRead(d, r, b);
    case Simple(_, _) => SimpleRead(d, r, b);
    case Other(_, _) => assert Written(r);
  }

  lemma DrainRecord(d: Decoder, r: Record, rest: seq<byte>)
    requires Written(r)
    ensures var b := RecordBytes(r, OrderOf(r, d.little)) + rest;
            && Drain(d, b) == After(Showing(d, r), Drain(Knowing(d, r), rest))
            && Sound(d, b) == Sound(Knowing(d, r), rest)
  {
    RecordParts(r, OrderOf(r, d.little), rest);
    Header(d, r, rest);
    OneRecord(d, r, rest);
    hide RecordBytes, Knowing, Showing, U32, ReadBlock, BlockLength, PeekOrder, Body, Written, SelfContained, OrderOf;
  }

  lemma ShownFirst(d: Decoder, rs: seq<Record>)
    requires rs != []
    ensures var k := Knowing(d, rs[0]);
            Shown(rs, d.tsPerSec, d.index, d.t0) == Showing(d, rs[0]) + Shown(rs[1..], k.tsPerSec, k.index, k.t0)
  {
    hide ShownPacket, TickRate;
    var k := Knowing(d, rs[0]);
    assert [] + Shown(rs[1..], k.tsPerSec, k.index, k.t0) == Shown(rs[1..], k.tsPerSec, k.index, k.t0);
  }

  lemma {:induction false} DrainRecords(d: Decoder, rs: seq<Record>)
    requires forall i | 0 <= i < |rs| :: Written(rs[i])
    ensures var r := Drain(d, FileBytes(rs, d.little));
            r.packets == Shown(rs, d.tsPerSec, d.index, d.t0) && r.rest == [] && r.status == Waiting
    ensures Sound(d, FileBytes(rs, d.little))
    decreases |rs|
  {
    if rs == [] {
      hide Written;
    } else {
      var r := rs[0];
      var l, k := OrderOf(r, d.little), Knowing(d, r);
      assert k.little == l;
      assert FileBytes(rs, d.little) == RecordBytes(r, l) + FileBytes(rs[1..], l);
      hide Shown, Drain, Sound, FileBytes, RecordBytes, Written, Knowing, Showing, OrderOf;
      DrainRecord(d, r, FileBytes(rs[1..], l));
      ShownFirst(d, rs);
      DrainRecords(k, rs[1..]);
    }
  }

  /**
   Any file of such records, cut anywhere, gives a fresh parser exactly the packets
   of its packet records, in order, each timed in the rate its last interface set.
   */
  lemma ForeignFile(rs: seq<Record>, chunks: seq<seq<byte>>)
    requires (forall i | 0 <= i < |rs| :: Written(rs[i])) && Flatten(chunks) == FileBytes(rs, true)
    ensures var r := PushedAll(Fresh, [], chunks);
            r.packets == Shown(rs, 1_000_000, 0, None) && r.rest == []
  {
    hide Shown, PushedAll, Drain, FileBytes, Flatten, Sound, Written;
    DrainRecords(Fresh, rs);
    assert [] + FileBytes(rs, true) == FileBytes(rs, true);
    StartsSettled();
    ChunksAsOne(Fresh, [], chunks);
  }

  lemma StartsSettled()
    ensures Settled(Fresh, [])
  {
  }

  /**
   A header whose length is under 12 or over 8 MiB throws away all that is buffered;
   one that announces more than is there is waited for.
   */
  lemma LengthDecides(d: Decoder, kind: nat, n: nat, more: seq<byte>)
    requires kind < 4294967296 && kind != 0x0A0D0D0A && n < 4294967296 && |more| >= 4
    ensures var b := W32(kind, d.little) + W32(n, d.little) + more;
            && (n < 12 || n > 8388608 ==> Drain(d, b) == Drained(d, [], [], Dropped))
            && (8 + |more| < n <= 8388608 ==> Drain(d, b) == Drained(d, [], b, Waiting))
  {
    var l := d.little;
    hide W32, U32, ReadBlock;
    var b := W32(kind, l) + W32(n, l) + more;
    assert b[0..4] == W32(kind, l) && b[4..8] == W32(n, l);
    ReadW32(b, 0, kind, l);
    ReadW32(b, 4, n, l);
  }

  // ----- The encoder's own files ----------------------------------------------------------------------

  /** Version 1.0, section length unknown; Ethernet, 262144 bytes at most; one enhanced block per packet. */
  function Saved(ps: seq<Captured>): (rs: seq<Record>) {
    [ Section(true, [1, 0, 0, 0, 255, 255, 255, 255, 255, 255, 255, 255]),
      Interface([1, 0, 0, 0, 0, 0, 4, 0], []) ]
    + seq(|ps|, i requires 0 <= i < |ps| => SavedPacket(ps[i]))
  }

  function SavedPacket(p: Captured): (r: Record) {
    var ts: nat := if p.tsMicros < 0.0 then 0 else p.tsMicros.Floor;
    Enhanced(0, ts / 4294967296, ts % 4294967296, p.data, |p.data|, Zeros((4 - |p.data| % 4) % 4))
  }

  lemma LaidLow(v: nat)
    ensures W32(v % 4294967296, true) == Le32(v) && W32(v, true) == Le32(v)
  {
    hide W32, Le32, Be32, GetLe32, GetLe16;
    LaidOut(v, true);
    LaidOut(v % 4294967296, true);
    assert Le32(v)[0..4] == Le32(v) && Le32(v % 4294967296)[0..4] == Le32(v % 4294967296);
    ReadLe32(Le32(v), 0, v);
    ReadLe32(Le32(v % 4294967296), 0, v % 4294967296);
    SameLe(Le32(v), Le32(v % 4294967296));
  }

  lemma SameLe(a: seq<byte>, b: seq<byte>)
    requires |a| == |b| == 4 && GetLe32(a, 0) == GetLe32(b, 0)
    ensures a == b
  {
    assert GetLe16(a, 0) == GetLe16(b, 0) && GetLe16(a, 2) == GetLe16(b, 2) by { hide GetLe16; }
    hide GetLe32;
    SameLe16(a, b, 0);
    SameLe16(a, b, 2);
  }

  lemma SameLe16(a: seq<byte>, b: seq<byte>, i: nat)
    requires i + 2 <= |a| && i + 2 <= |b| && GetLe16(a, i) == GetLe16(b, i)
    ensures a[i] == b[i] && a[i + 1] == b[i + 1]
  {
  }

  lemma HeadSaved(p: Captured, high: nat, low: nat)
    requires low == Micros(p) % 4294967296 && high == Micros(p) / 4294967296
    ensures EpbHead(p) == W32(6, true) + W32(EpbTotal(p), true) + EpbFields(0, high, low, |p.data|, |p.data|, true)
  {
    hide W32, Le32, Micros, EpbTotal;
    LaidLow(Micros(p));
    LaidLow(high);
    LaidLow(0);
    LaidLow(6);
    LaidLow(|p.data|);
    LaidLow(EpbTotal(p));
  }

  lemma PacketSaved(p: Captured)
    ensures RecordBytes(SavedPacket(p), true) == EnhancedBlock(p)
  {
    var r := SavedPacket(p);
    assert r.low == Micros(p) % 4294967296 && r.high == Micros(p) / 4294967296;
    HeadSaved(p, r.high, r.low);
    LaidLow(EpbTotal(p));
    hide W32, Le32, EpbHead, EpbFields, Micros;
    var f, pad := EpbFields(0, r.high, r.low, |p.data|, |p.data|, true), Zeros(Pad(|p.data|));
    assert Body(r, true) == f + p.data + pad && |Body(r, true)| + 12 == EpbTotal(p);
    Joined(W32(6, true) + W32(EpbTotal(p), true), f, p.data, pad, Le32(EpbTotal(p)));
  }

  lemma Joined(a: seq<byte>, f: seq<byte>, data: seq<byte>, pad: seq<byte>, z: seq<byte>)
    ensures a + (f + data + pad) + z == (a + f) + data + pad + z
  {
  }

  lemma {:induction false} PacketsSaved(ps: seq<Captured>)
    ensures FileBytes(seq(|ps|, i requires 0 <= i < |ps| => SavedPacket(ps[i])), true) == EnhancedBlocks(ps)
    decreases |ps|
  {
    hide RecordBytes, EnhancedBlock;
    if ps != [] {
      var first := SavedPacket(ps[0]);
      assert first.Enhanced?;
      hide SavedPacket;
      var rs := seq(|ps|, i requires 0 <= i < |ps| => SavedPacket(ps[i]));
      var more := ps[1..];
      assert rs[1..] == seq(|more|, i requires 0 <= i < |more| => SavedPacket(more[i]));
      PacketsSaved(more);
      ConsBlocks(ps);
      PacketSaved(ps[0]);
      assert rs[0] == first;
    }
  }

  /** What is saved is such a file: section, interface, and the packets in order, padded with zeros. */
  lemma SavedIs(ps: seq<Captured>)
    ensures File(ps) == FileBytes(Saved(ps), true)
  {
    var rs, blocks := Saved(ps), seq(|ps|, i requires 0 <= i < |ps| => SavedPacket(ps[i]));
    HeadersSaved(rs[0], rs[1]);
    PacketsSaved(ps);
    hide RecordBytes, SavedPacket, SectionHeader, InterfaceDescription, EnhancedBlocks;
    var more := rs[1..];
    assert more[0] == rs[1] && more[1..] == blocks;
    assert FileBytes(more, true) == RecordBytes(rs[1], true) + FileBytes(blocks, true);
    assert FileBytes(rs, true) == RecordBytes(rs[0], true) + FileBytes(more, true);
    Assoc(SectionHeader, InterfaceDescription, EnhancedBlocks(ps));
  }

  lemma HeadersSaved(section: Record, interface: Record)
    requires section == Section(true, [1, 0, 0, 0, 255, 255, 255, 255, 255, 255, 255, 255])
    requires interface == Interface([1, 0, 0, 0, 0, 0, 4, 0], [])
    ensures RecordBytes(section, true) == SectionHeader && RecordBytes(interface, true) == InterfaceDescription
  {
    LaidLow(28);
    LaidLow(20);
    LaidLow(1);
    LaidLow(BT_SHB);
    LaidLow(BYTE_ORDER_MAGIC);
    assert Le32(0xFFFFFFFF) == [255, 255, 255, 255] && Le32(262144) == [0, 0, 4, 0];
    assert Le16(1) == [1, 0] && Le16(0) == [0, 0];
    hide W32, Le32, Le16;
    assert |Body(section, true)| == 16 && |Body(interface, true)| == 8;
    assert RecordBytes(section, true) == SectionHeader;
    assert RecordBytes(interface, true) == InterfaceDescription;
  }
}
