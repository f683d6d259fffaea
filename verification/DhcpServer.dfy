/**
 The DHCP exchange on the relay pump (supervisor/internal/extnet/dhcp_linux.go):
 recognising requests, answering them in a full Ethernet/IPv4/UDP frame (RFC 791
 section 3.1), and the Internet checksum (RFC 1071 section 1).
 */
module DhcpServer {
  import opened Wrappers
  import opened Bytes
  import opened Dhcp
  import opened DhcpLeases

  const ETHER_TYPE_IPV4: nat := 0x0800
  const IP_PROTO_UDP: nat := 17
  const FLAG_BROADCAST: nat := 0x8000

  // ----- The checksum ---------------------------------------------------------------

  /** The first `k` 16-bit words of `b` added up. */
  function Words(b: seq<byte>, k: nat): (n: nat)
    requires 2 * k <= |b|
    ensures n <= 65535 * k
  {
    if k == 0 then 0 else Words(b, k - 1) + GetBe16(b, 2 * k - 2)
  }

  /** All of them; an odd last byte is not looked at. */
  function WordSum(b: seq<byte>): (n: nat)
    ensures n <= 65535 * (|b| / 2)
  {
    Words(b, |b| / 2)
  }

  /** Add the carries back in until none is left. */
  function Folded(sum: nat): (r: nat)
    ensures r <= 0xFFFF && (r == 0 <==> sum == 0) && r % 0xFFFF == sum % 0xFFFF
  {
    if sum / 0x10000 == 0 then sum
    else
      CarryKeepsResidue(sum);
      Folded(sum % 0x10000 + sum / 0x10000)
  }

  lemma CarryKeepsResidue(sum: nat)
    ensures sum >= 0x10000 ==> 0 < sum % 0x10000 + sum / 0x10000 < sum
    ensures (sum % 0x10000 + sum / 0x10000) % 0xFFFF == sum % 0xFFFF
  {
    var q, r := sum / 0x10000, sum % 0x10000;
    assert sum == 0x10000 * q + r == 0xFFFF * q + (r + q);
    var d, e := (r + q) / 0xFFFF, (r + q) % 0xFFFF;
    assert sum == 0xFFFF * (q + d) + e;
    ModUnique(sum, 0xFFFF, q + d, e);
  }

  /** The sum is a uint32: additions wrap. */
  function Checksum(hdr: seq<byte>): (c: nat)
    ensures c <= 0xFFFF
  {
    0xFFFF - Folded(WordSum(hdr) % TWO_32)
  }

  method IpChecksum(hdr: seq<byte>) returns (c: nat)
    ensures c == Checksum(hdr)
  {
    var sum := 0;
    var i := 0;
    while i + 1 < |hdr|
      invariant 0 <= i <= |hdr| && i % 2 == 0
      invariant sum == Words(hdr, i / 2) % TWO_32
    {
      WrapAdd(Words(hdr, i / 2), GetBe16(hdr, i));
      sum := (sum + GetBe16(hdr, i)) % TWO_32;
      i := i + 2;
    }
    while sum / 0x10000 != 0
      invariant sum >= 0 && Folded(sum) == Folded(WordSum(hdr) % TWO_32)
      decreases sum
    {
      CarryKeepsResidue(sum);
      sum := sum % 0x10000 + sum / 0x10000;
    }
    return 0xFFFF - sum;
  }

  lemma WrapAdd(a: nat, b: nat)
    ensures (a % TWO_32 + b) % TWO_32 == (a + b) % TWO_32
  {
    var q, r := a / TWO_32, a % TWO_32;
    var d, e := (r + b) / TWO_32, (r + b) % TWO_32;
    ModUnique(a + b, TWO_32, q + d, e);
  }

  /** `hdr` with the word at byte `at` replaced by `v`. */
  function WithWord(hdr: seq<byte>, at: nat, v: nat): (h: seq<byte>)
    requires at + 2 <= |hdr|
    ensures |h| == |hdr|
  {
    hdr[..at] + Be16(v) + hdr[at + 2..]
  }

  lemma {:induction false} WordsWithWord(hdr: seq<byte>, at: nat, v: nat, k: nat)
    requires at % 2 == 0 && at + 2 <= |hdr| && GetBe16(hdr, at) == 0 && v < 0x10000 && 2 * k <= |hdr|
    ensures Words(WithWord(hdr, at, v), k) == Words(hdr, k) + if at < 2 * k then v else 0
  {
    if k > 0 {
      WordsWithWord(hdr, at, v, k - 1);
      WordAt(hdr, at, v, 2 * k - 2);
    }
  }

  lemma WordAt(hdr: seq<byte>, at: nat, v: nat, i: nat)
    requires at % 2 == 0 && i % 2 == 0 && at + 2 <= |hdr| && i + 2 <= |hdr| && v < 0x10000
    ensures GetBe16(WithWord(hdr, at, v), i) == if i == at then v else GetBe16(hdr, i)
  {
    var h := WithWord(hdr, at, v);
    if i == at {
      assert h[at..at + 2] == Be16(v);
      ReadBe16(h, at, v);
    }
  }

  /**
   Storing the checksum of a header in its zeroed checksum word makes the checksum
   of the header zero, for every even-length header of at most 65536 words.
   */
  lemma ChecksumVerifies(hdr: seq<byte>, at: nat)
    requires |hdr| % 2 == 0 && |hdr| <= 2 * 65536
    requires at % 2 == 0 && at + 2 <= |hdr| && GetBe16(hdr, at) == 0
    ensures Checksum(WithWord(hdr, at, Checksum(hdr))) == 0
  {
    var s, c := WordSum(hdr), Checksum(hdr);
    var stored := WithWord(hdr, at, c);
    assert WordSum(stored) == s + c by { WordsWithWord(hdr, at, c, |hdr| / 2); }
    hide Words, WithWord, Folded, GetBe16;
    assert s + c <= 65535 * (|hdr| / 2);
    StoredChecksum(s, s + c, c);
  }

  lemma StoredChecksum(s: nat, total: nat, c: nat)
    requires total == s + c < TWO_32 && c == 0xFFFF - Folded(s % TWO_32)
    ensures Folded(total % TWO_32) == 0xFFFF
  {
    hide Folded;
    ModUnique(s, TWO_32, 0, s);
    ModUnique(total, TWO_32, 0, total);
    StoredFold(s);
    assert s + 0xFFFF - Folded(s) == total;
  }

  lemma StoredFold(s: nat)
    ensures Folded(s + 0xFFFF - Folded(s)) == 0xFFFF
  {
    var f := Folded(s);
    hide Folded;
    SumIsMultiple(s, f);
    var g := Folded(s + 0xFFFF - f);
    assert g % 0xFFFF == 0 && 0 < g <= 0xFFFF;
  }

  lemma SumIsMultiple(s: nat, f: nat)
    requires f <= 0xFFFF && f % 0xFFFF == s % 0xFFFF
    ensures (s + 0xFFFF - f) % 0xFFFF == 0
  {
    var a, b, r := s / 0xFFFF, f / 0xFFFF, s % 0xFFFF;
    assert s + 0xFFFF - f == 0xFFFF * (a + 1 - b);
    ModUnique(s + 0xFFFF - f, 0xFFFF, a + 1 - b, 0);
  }

  // ----- Requests ----------------------------------------------------------------------

  datatype Request = Request(packet: Packet, srcMac: Mac)

  /** The DHCP request in a frame, if it is one. */
  function ParseDhcp(frame: seq<byte>): (r: Option<Request>) {
    if |frame| < 14 + 20 + 8 then None
    else if GetBe16(frame, 12) != ETHER_TYPE_IPV4 then None
    else
      var ip := frame[14..];
      var ihl := ip[0] % 16 * 4;
      if ihl < 20 || |ip| < ihl + 8 then None
      else if ip[9] != IP_PROTO_UDP then None
      else
        var udp := ip[ihl..];
        if GetBe16(udp, 2) != 67 then None
        else
          var ulen := GetBe16(udp, 4);
          if ulen < 8 || |udp| < ulen then None
          else
            match Decode(udp[8..ulen])
            case Err(_) => None
            case Ok(p) => if p.op != 1 then None else Some(Request(p, frame[6..12]))
  }

  // ----- Frames --------------------------------------------------------------------------

  datatype Server = Server(serverIp: Ip, mask: Ip, serverMac: Mac)

  const BROADCAST_MAC: Mac := [0xFF, 0xFF, 0xFF, 0xFF, 0xFF, 0xFF]
  const BROADCAST_IP: Ip := [0xFF, 0xFF, 0xFF, 0xFF]

  function GatewayMac(ip: Ip): (m: Mac) {
    [0x02, 0x00] + Four(ip)
  }

  predicate ToAll(yiaddr: Ip, broadcast: bool) {
    broadcast || To4(yiaddr).None? || To4(yiaddr) == Some(ZERO4)
  }

  /** The IPv4 header with a zero checksum word. */
  function BareIpHeader(s: Server, dstIp: Ip, payloadLen: nat): (h: seq<byte>)
    requires |dstIp| == 4
    ensures |h| == 20 && GetBe16(h, 10) == 0
  {
    [0x45, 0] + Be16(28 + payloadLen) + [0, 0, 0, 0, 64, 17, 0, 0] + Four(s.serverIp) + dstIp
  }

  function IpHeader(s: Server, dstIp: Ip, payloadLen: nat): (h: seq<byte>)
    requires |dstIp| == 4
    ensures |h| == 20
  {
    WithWord(BareIpHeader(s, dstIp, payloadLen), 10, Checksum(BareIpHeader(s, dstIp, payloadLen)))
  }

  function UdpHeader(payloadLen: nat): (h: seq<byte>)
    ensures |h| == 8
  {
    Be16(67) + Be16(68) + Be16(8 + payloadLen) + [0, 0]
  }

  function Frame(s: Server, clientMac: Mac, yiaddr: Ip, payload: seq<byte>, broadcast: bool): (f: seq<byte>) {
    var toAll := ToAll(yiaddr, broadcast);
    (if toAll then BROADCAST_MAC else clientMac) + s.serverMac + Be16(ETHER_TYPE_IPV4)
    + IpHeader(s, if toAll then BROADCAST_IP else Four(yiaddr), |payload|)
    + UdpHeader(|payload|) + payload
  }

  method BuildFrame(s: Server, clientMac: Mac, yiaddr: Ip, payload: seq<byte>, broadcast: bool)
    returns (frame: array<byte>)
    ensures fresh(frame) && frame[..] == Frame(s, clientMac, yiaddr, payload, broadcast)
  {
    var dstMac: Mac := clientMac;
    var dstIp := To4(yiaddr);
    if broadcast || dstIp.None? || dstIp == Some(ZERO4) {
      dstMac := BROADCAST_MAC;
      dstIp := Some(BROADCAST_IP);
    }
    frame := new byte[14 + 20 + 8 + |payload|](_ => 0);
    ghost var b := ZeroBuffer(frame);
    b := WriteEthernetHeader(frame, dstMac, s.serverMac, b);
    b := WriteIpHeader(frame, s, dstIp.value, |payload|, b);
    hide IpHeader, Be16;
    b := WriteUdp(frame, payload, b);
    assert frame[..] == b;
  }

  method WriteEthernetHeader(frame: array<byte>, dst: Mac, src: Mac, ghost done: seq<byte>)
    returns (ghost now: seq<byte>)
    requires done == [] && 14 <= frame.Length && frame[..] == done + Zeros(frame.Length - |done|)
    modifies frame
    ensures now == dst + src + Be16(ETHER_TYPE_IPV4) && frame[..] == now + Zeros(frame.Length - |now|)
  {
    hide Be16;
    now := CopyTo(frame, 0, dst, done);
    now := CopyTo(frame, 6, src, now);
    now := CopyTo(frame, 12, Be16(ETHER_TYPE_IPV4), now);
  }

  method WriteUdp(frame: array<byte>, payload: seq<byte>, ghost done: seq<byte>) returns (ghost now: seq<byte>)
    requires |done| == 34 && 42 + |payload| == frame.Length && frame[..] == done + Zeros(frame.Length - |done|)
    modifies frame
    ensures now == done + UdpHeader(|payload|) + payload && frame[..] == now
  {
    hide Be16;
    now := CopyTo(frame, 34, Be16(67), done);
    now := CopyTo(frame, 36, Be16(68), now);
    now := CopyTo(frame, 38, Be16(8 + |payload|), now);
    now := CopyTo(frame, 42, payload, now);
  }

  method WriteIpHeader(frame: array<byte>, s: Server, dstIp: Ip, payloadLen: nat, ghost done: seq<byte>)
    returns (ghost now: seq<byte>)
    requires |done| == 14 && 34 <= frame.Length && frame[..] == done + Zeros(frame.Length - |done|) && |dstIp| == 4
    modifies frame
    ensures now == done + IpHeader(s, dstIp, payloadLen) && frame[..] == now + Zeros(frame.Length - |now|)
  {
    var b := WriteBareIpHeader(frame, s, dstIp, payloadLen, done);
    ghost var bare := BareIpHeader(s, dstIp, payloadLen);
    assert frame[14..34] == bare;
    var c := IpChecksum(frame[14..34]);
    hide BareIpHeader, Checksum;
    now := StoreWord(frame, 24, c, done, bare);
  }

  /** Overwrite the word at `at` of a header that follows `done`. */
  method StoreWord(frame: array<byte>, at: nat, v: nat, ghost done: seq<byte>, ghost hdr: seq<byte>)
    returns (ghost now: seq<byte>)
    requires v < 0x10000 && |done| <= at && at + 2 <= |done| + |hdr| <= frame.Length
    requires frame[..] == done + hdr + Zeros(frame.Length - |done| - |hdr|)
    modifies frame
    ensures now == done + WithWord(hdr, at - |done|, v) && frame[..] == now + Zeros(frame.Length - |now|)
  {
    frame[at], frame[at + 1] := v / 0x100, v % 0x100;
    now := done + WithWord(hdr, at - |done|, v);
  }

  method WriteBareIpHeader(frame: array<byte>, s: Server, dstIp: Ip, payloadLen: nat, ghost done: seq<byte>)
    returns (ghost now: seq<byte>)
    requires |done| == 14 && 34 <= frame.Length && frame[..] == done + Zeros(frame.Length - |done|) && |dstIp| == 4
    modifies frame
    ensures now == done + BareIpHeader(s, dstIp, payloadLen) && frame[..] == now + Zeros(frame.Length - |now|)
  {
    hide Be16, Four;
    now := CopyTo(frame, 14, [0x45], done);
    now := CopyTo(frame, 16, Be16(28 + payloadLen), now);
    now := CopyTo(frame, 22, [64, 17], now);
    now := CopyIp(frame, 26, s.serverIp, now);
    now := CopyTo(frame, 30, dstIp, now);
  }

  // ----- What every built frame satisfies ---------------------------------------------------

  /** The header checksum verifies and the payload sits behind the three headers. */
  lemma FrameSound(s: Server, clientMac: Mac, yiaddr: Ip, payload: seq<byte>, broadcast: bool)
    ensures var f := Frame(s, clientMac, yiaddr, payload, broadcast);
            && |f| == 42 + |payload| && f[42..] == payload && Checksum(f[14..34]) == 0
            && f[..6] == (if ToAll(yiaddr, broadcast) then BROADCAST_MAC else clientMac)
            && f[30..34] == (if ToAll(yiaddr, broadcast) then BROADCAST_IP else Four(yiaddr))
  {
    var f := Frame(s, clientMac, yiaddr, payload, broadcast);
    var dst := if ToAll(yiaddr, broadcast) then BROADCAST_IP else Four(yiaddr);
    var bare := BareIpHeader(s, dst, |payload|);
    ChecksumVerifies(bare, 10);
    assert IpHeader(s, dst, |payload|)[16..] == dst by { assert bare[16..] == dst; }
    hide BareIpHeader, Checksum, Four, UdpHeader, IpHeader, Be16;
    assert f[14..34] == IpHeader(s, dst, |payload|);
    assert f[30..34] == f[14..34][16..];
  }

  /** The IP and UDP length fields agree with the frame's size exactly when the payload fits a datagram. */
  lemma LengthFields(s: Server, clientMac: Mac, yiaddr: Ip, payload: seq<byte>, broadcast: bool)
    ensures var f := Frame(s, clientMac, yiaddr, payload, broadcast);
            |f| == 42 + |payload| && (GetBe16(f, 16) == |f| - 14 && GetBe16(f, 38) == |f| - 34 <==> |payload| <= 65507)
  {
    var f := Frame(s, clientMac, yiaddr, payload, broadcast);
    var dst := if ToAll(yiaddr, broadcast) then BROADCAST_IP else Four(yiaddr);
    var n := |payload|;
    hide Four, Checksum, Be16;
    assert BareIpHeader(s, dst, n)[2..4] == Be16(28 + n);
    assert IpHeader(s, dst, n)[2..4] == Be16(28 + n);
    assert UdpHeader(n)[4..6] == Be16(8 + n);
    hide BareIpHeader, IpHeader, UdpHeader, GetBe16;
    assert f[16..18] == IpHeader(s, dst, n)[2..4];
    assert f[38..40] == UdpHeader(n)[4..6];
    ReadBe16(f, 16, 28 + n);
    ReadBe16(f, 38, 8 + n);
    FieldFits(28 + n);
    FieldFits(8 + n);
  }

  lemma FieldFits(n: nat)
    ensures n % TWO_16 == n <==> n < TWO_16
  {
  }

  // ----- The server -----------------------------------------------------------------------------

  datatype Outcome = Outcome(leases: Leases, reply: Option<seq<byte>>, consumed: bool)

  /** The address bound to `mac` once it has asked. */
  function Bound(l: Leases, mac: Mac): (ip: Ip) {
    var l' := Leased(l, MacString(mac));
    U32ToIp(l'.byMac[MacString(mac)])
  }

  /** A parsed request binds an address before its message type is looked at. */
  function Consumed(s: Server, l: Leases, frame: seq<byte>): (o: Outcome) {
    match ParseDhcp(frame)
    case None => Outcome(l, None, false)
    case Some(req) =>
      var l' := Leased(l, MacString(req.srcMac));
      match Handle(req.packet, Bound(l, req.srcMac))
      case None => Outcome(l', None, true)
      case Some((kind, reply)) =>
        Outcome(l', Some(Frame(s, req.srcMac, reply.yiaddr, Encoded(reply, kind, s.serverIp, s.mask),
                               req.packet.flags >= FLAG_BROADCAST)), true)
  }

  class DhcpServer {
    const server: Server
    const leaser: Leaser

    constructor (gateway: Ip, poolStart: Ip, poolEnd: Ip)
      ensures fresh(leaser) && leaser.Now() == Empty(IpToU32(poolStart), IpToU32(poolEnd))
      ensures server == Server(if To4(gateway).Some? then To4(gateway).value else [], [255, 255, 255, 0],
                               GatewayMac(gateway))
    {
      server := Server(if To4(gateway).Some? then To4(gateway).value else [], [255, 255, 255, 0], GatewayMac(gateway));
      leaser := new Leaser(poolStart, poolEnd);
    }

    method Consume(frame: seq<byte>) returns (reply: Option<seq<byte>>, consumed: bool)
      modifies leaser
      ensures Outcome(leaser.Now(), reply, consumed) == Consumed(server, old(leaser.Now()), frame)
    {
      hide ParseDhcp, Frame, Encoded, MacString;
      var parsed := ParseDhcp(frame);
      if parsed.None? {
        return None, false;
      }
      var req := parsed.value;
      var offer := leaser.Lease(req.srcMac);
      var handled := Handle(req.packet, offer);
      if handled.None? {
        return None, true;
      }
      var (kind, r) := handled.value;
      var payload := Encode(r, kind, server.serverIp, server.mask);
      var f := BuildFrame(server, req.srcMac, r.yiaddr, payload, req.packet.flags / FLAG_BROADCAST % 2 == 1);
      return Some(f[..]), true;
    }
  }

  // ----- What a reply says -------------------------------------------------------------------------

  /** The address a request is answered with: the bound one, or 0.0.0.0 in a refusal. */
  function Answer(p: Packet, bound: Ip): (r: Option<(byte, Ip)>) {
    if p.msgType == MSG_DISCOVER then Some((MSG_OFFER, bound))
    else if p.msgType != MSG_REQUEST then None
    else if p.reqIp == [] || p.reqIp == bound || p.ciaddr == bound then Some((MSG_ACK, bound))
    else Some((MSG_NAK, ZERO4))
  }

  lemma ParsedFields(frame: seq<byte>)
    requires ParseDhcp(frame).Some?
    ensures var p := ParseDhcp(frame).value.packet;
            |p.ciaddr| == 4 && |p.giaddr| == 4 && |p.chaddr| == 6 && (p.reqIp == [] || |p.reqIp| == 4)
  {
    var ip := frame[14..];
    var udp := ip[ip[0] % 16 * 4..];
    var b := udp[8..GetBe16(udp, 4)];
    ScannedIp(b[240..], Scan(0, []));
  }

  lemma {:induction false} ScannedIp(opts: seq<byte>, s: Scan)
    requires s.reqIp == [] || |s.reqIp| == 4
    ensures var r := ScanOptions(opts, s).reqIp; r == [] || |r| == 4
    decreases |opts|
  {
    if opts == [] || opts[0] == OPT_END {
    } else if opts[0] == OPT_PAD {
      ScannedIp(opts[1..], s);
    } else if |opts| >= 2 && 2 + opts[1] <= |opts| {
      ScannedIp(opts[2 + opts[1]..], Keep(s, opts[0], opts[2..2 + opts[1]]));
    }
  }

  /** Decoding the payload of the reply gives the answer, with the request's xid, flags, giaddr and chaddr. */
  lemma ReplyDecodes(s: Server, l: Leases, frame: seq<byte>)
    requires ParseDhcp(frame).Some?
    ensures var req, o := ParseDhcp(frame).value, Consumed(s, l, frame);
            var p, a := req.packet, Answer(req.packet, Bound(l, req.srcMac));
            && o.consumed && (o.reply.Some? <==> a.Some?)
            && (a.Some? ==>
                  && |o.reply.value| >= 42
                  && Decode(o.reply.value[42..])
                     == Ok(Packet(2, p.xid, p.flags, ZERO4, a.value.1, p.giaddr, p.chaddr, a.value.0, [])))
  {
    ParsedFields(frame);
    var req := ParseDhcp(frame).value;
    var p, bound := req.packet, Bound(l, req.srcMac);
    HandleAnswers(p, bound);
    hide ParseDhcp, Frame, Encoded, Decode, Checksum, MacString, Answer, Handle, Bound, ToAll;
    var h := Handle(p, bound);
    if h.Some? {
      var (kind, r) := h.value;
      FrameSound(s, req.srcMac, r.yiaddr, Encoded(r, kind, s.serverIp, s.mask), p.flags >= FLAG_BROADCAST);
      DecodeEncoded(r, kind, s.serverIp, s.mask);
    }
  }

  /** The reply handled for a request decodes to its answer. */
  lemma HandleAnswers(p: Packet, bound: Ip)
    requires |p.ciaddr| == 4 && |p.giaddr| == 4 && |p.chaddr| == 6 && (p.reqIp == [] || |p.reqIp| == 4) && |bound| == 4
    ensures var h, a := Handle(p, bound), Answer(p, bound);
            && (h.Some? <==> a.Some?)
            && (h.Some? ==>
                  && h.value.0 == a.value.0
                  && AsDecoded(h.value.1, h.value.0)
                     == Packet(2, p.xid, p.flags, ZERO4, a.value.1, p.giaddr, p.chaddr, a.value.0, []))
  {
    assert p.chaddr[..6] == p.chaddr;
  }

  // ----- How long a reply is ---------------------------------------------------------------------

  lemma {:induction false} OptionsSize(ts: seq<Tlv>, n: nat)
    requires (forall i | 0 <= i < |ts| :: Regular(ts[i])) && n == SizeOf(ts)
    ensures |Tlvs(ts)| == n
  {
    if ts != [] {
      OptionsSize(ts[1..], SizeOf(ts[1..]));
    }
  }

  function SizeOf(ts: seq<Tlv>): (n: nat) {
    if ts == [] then 0 else 2 + |ts[0].val| + SizeOf(ts[1..])
  }

  lemma ReplySize(msgType: byte, serverIp: Ip, mask: Ip)
    ensures SizeOf(ReplyOptions(msgType, serverIp, mask)) == 49
  {
    var ts := ReplyOptions(msgType, serverIp, mask);
    assert SizeOf(ts[8..]) == 0;
    assert SizeOf(ts[7..]) == 10 by { assert ts[7..][1..] == ts[8..]; }
    assert SizeOf(ts[6..]) == 16 by { assert ts[6..][1..] == ts[7..]; }
    assert SizeOf(ts[5..]) == 22 by { assert ts[5..][1..] == ts[6..]; }
    assert SizeOf(ts[4..]) == 28 by { assert ts[4..][1..] == ts[5..]; }
    assert SizeOf(ts[3..]) == 34 by { assert ts[3..][1..] == ts[4..]; }
    assert SizeOf(ts[2..]) == 40 by { assert ts[2..][1..] == ts[3..]; }
    assert SizeOf(ts[1..]) == 46 by { assert ts[1..][1..] == ts[2..]; }
    assert ts[0..] == ts;
  }

  /** Every reply is one frame of 332 bytes, and its length fields agree with that. */
  lemma ReplyLengths(s: Server, l: Leases, frame: seq<byte>)
    requires Consumed(s, l, frame).reply.Some?
    ensures var f := Consumed(s, l, frame).reply.value;
            |f| == 332 && GetBe16(f, 16) == |f| - 14 && GetBe16(f, 38) == |f| - 34
  {
    hide ParseDhcp, Frame, Handle, Bound, Tlvs, SizeOf, ReplyOptions, ReplyHeader, MacString, Leased, GetBe16;
    var req := ParseDhcp(frame).value;
    var (kind, r) := Handle(req.packet, Bound(l, req.srcMac)).value;
    ReplySize(kind, s.serverIp, s.mask);
    OptionsSize(ReplyOptions(kind, s.serverIp, s.mask), 49);
    LengthFields(s, req.srcMac, r.yiaddr, Encoded(r, kind, s.serverIp, s.mask), req.packet.flags >= FLAG_BROADCAST);
  }

  // ----- Every run -------------------------------------------------------------------------------

  /** The hardware addresses whose frames were requests, in order. */
  function Sources(frames: seq<seq<byte>>): (macs: seq<Mac>) {
    if frames == [] then []
    else
      var last := ParseDhcp(frames[|frames| - 1]);
      Sources(frames[..|frames| - 1]) + if last.Some? then [last.value.srcMac] else []
  }

  function Served(s: Server, base: u32, end: u32, frames: seq<seq<byte>>): (l: Leases) {
    if frames == [] then Empty(base, end)
    else Consumed(s, Served(s, base, end, frames[..|frames| - 1]), frames[|frames| - 1]).leases
  }

  lemma {:induction false} ServedLeases(s: Server, base: u32, end: u32, frames: seq<seq<byte>>)
    ensures Served(s, base, end, frames) == LeasedAll(Empty(base, end), Sources(frames))
    decreases |frames|
  {
    hide ParseDhcp, Frame, Encoded, MacString, Handle;
    if frames != [] {
      var n := |frames| - 1;
      ServedLeases(s, base, end, frames[..n]);
      var macs := Sources(frames);
      if ParseDhcp(frames[n]).Some? {
        assert macs[..|macs| - 1] == Sources(frames[..n]);
      } else {
        assert macs == Sources(frames[..n]);
      }
    }
  }

  lemma {:induction false} SourcesPrefix(frames: seq<seq<byte>>, k: nat)
    requires k <= |frames|
    ensures Sources(frames[..k]) <= Sources(frames)
    decreases |frames|
  {
    if k == |frames| {
      assert frames[..k] == frames;
    } else {
      assert frames[..|frames| - 1][..k] == frames[..k];
      SourcesPrefix(frames[..|frames| - 1], k);
    }
  }

  /** The address client `mac` holds after a run: base + k mod pool size, k counting distinct requesters before it. */
  lemma BoundInRun(s: Server, base: u32, end: u32, frames: seq<seq<byte>>, k: nat)
    requires k < |Distinct(Sources(frames))|
    ensures Bound(Served(s, base, end, frames), Distinct(Sources(frames))[k]) == U32ToIp(base + k % PoolSize(base, end))
  {
    hide MacString, Sources, Served, LeasedAll, Distinct;
    var macs := Sources(frames);
    var d := Distinct(macs);
    ServedLeases(s, base, end, frames);
    LeasesRoundRobin(base, end, macs);
    assert d[k] in d && MacString(d[k]) in KeysOf(d);
  }

  /** The first request of a client fixes its address for every later request of the run. */
  lemma SameAddressLater(s: Server, base: u32, end: u32, frames: seq<seq<byte>>, i: nat, j: nat)
    requires i < j < |frames| && ParseDhcp(frames[i]).Some?
    ensures var mac := ParseDhcp(frames[i]).value.srcMac;
            Bound(Served(s, base, end, frames[..i]), mac) == Bound(Served(s, base, end, frames[..j]), mac)
  {
    hide ParseDhcp, MacString, Served;
    var mac := ParseDhcp(frames[i]).value.srcMac;
    ServedLeases(s, base, end, frames[..i]);
    ServedLeases(s, base, end, frames[..j]);
    var early, later := SourcesBetween(frames, i, j);
    BoundForEver(base, end, early + [mac], later, mac);
    assert (early + [mac])[..|early|] == early && early + [mac] + later == Sources(frames[..j]);
    hide Sources;
    assert LeasedAll(Empty(base, end), early + [mac]) == Leased(LeasedAll(Empty(base, end), early), MacString(mac));
    hide LeasedAll;
  }

  /** The sources before frame j are those before frame i, that of frame i, and some more. */
  lemma SourcesBetween(frames: seq<seq<byte>>, i: nat, j: nat) returns (early: seq<Mac>, later: seq<Mac>)
    requires i < j <= |frames| && ParseDhcp(frames[i]).Some?
    ensures early == Sources(frames[..i]) && Sources(frames[..j]) == early + [ParseDhcp(frames[i]).value.srcMac] + later
  {
    hide ParseDhcp;
    early := Sources(frames[..i]);
    assert frames[..j][..i + 1] == frames[..i + 1] && frames[..i + 1][..i] == frames[..i];
    SourcesPrefix(frames[..j], i + 1);
    later := Sources(frames[..j])[|early| + 1..];
  }

  /**
   In any interleaving of clients, a client that was offered an address and
   requests it is acknowledged with that address.
   */
  lemma OfferedIsAcked(s: Server, base: u32, end: u32, frames: seq<seq<byte>>, i: nat, j: nat)
    requires i < j < |frames| && ParseDhcp(frames[i]).Some? && ParseDhcp(frames[j]).Some?
    requires ParseDhcp(frames[i]).value.srcMac == ParseDhcp(frames[j]).value.srcMac
    requires ParseDhcp(frames[i]).value.packet.msgType == MSG_DISCOVER
    requires ParseDhcp(frames[j]).value.packet.msgType == MSG_REQUEST
    ensures var offer := Consumed(s, Served(s, base, end, frames[..i]), frames[i]).reply;
            var ack := Consumed(s, Served(s, base, end, frames[..j]), frames[j]).reply;
            && offer.Some? && |offer.value| >= 42 && ack.Some? && |ack.value| >= 42
            && Decode(offer.value[42..]).Ok? && Decode(ack.value[42..]).Ok?
            && var offered, answered := Decode(offer.value[42..]).value, Decode(ack.value[42..]).value;
               var p := ParseDhcp(frames[j]).value.packet;
               && offered.msgType == MSG_OFFER
               && (p.reqIp == offered.yiaddr ==> answered.msgType == MSG_ACK && answered.yiaddr == offered.yiaddr)
               && (p.reqIp != [] && p.reqIp != offered.yiaddr && p.ciaddr != offered.yiaddr ==>
                     answered.msgType == MSG_NAK && answered.yiaddr == ZERO4)
               && answered.xid == p.xid && answered.chaddr == p.chaddr
  {
    hide ParseDhcp, MacString, Sources, Served, Consumed, Decode, Bound;
    SameAddressLater(s, base, end, frames, i, j);
    ReplyDecodes(s, Served(s, base, end, frames[..i]), frames[i]);
    ReplyDecodes(s, Served(s, base, end, frames[..j]), frames[j]);
  }
}
