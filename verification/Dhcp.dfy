/**
 The NAT node's DHCP messages, policy and address leases
 (supervisor/internal/extnet/dhcp.go). Layout: RFC 2131 section 2; options:
 RFC 2132, with the message type of section 9.6.

 An address is the byte string net.IP is: empty for nil, 4 bytes, or 16 bytes.
 */
module Dhcp {
  import opened Wrappers
  import opened Bytes

  type Ip = seq<byte>
  type HwAddr = seq<byte>
  type u32 = x: int | 0 <= x < TWO_32
  type u16 = x: int | 0 <= x < TWO_16

  const DHCP_MIN_LEN: nat := 240
  const DHCP_MAGIC: nat := 0x63825363
  const OPT_PAD: byte := 0
  const OPT_SUBNET_MASK: byte := 1
  const OPT_ROUTER: byte := 3
  const OPT_DNS: byte := 6
  const OPT_REQUESTED_IP: byte := 50
  const OPT_LEASE_TIME: byte := 51
  const OPT_MESSAGE_TYPE: byte := 53
  const OPT_SERVER_ID: byte := 54
  const OPT_RENEWAL_T1: byte := 58
  const OPT_REBINDING_T2: byte := 59
  const OPT_END: byte := 255
  const MSG_DISCOVER: byte := 1
  const MSG_OFFER: byte := 2
  const MSG_REQUEST: byte := 3
  const MSG_ACK: byte := 5
  const MSG_NAK: byte := 6
  const LEASE_SECONDS: nat := 3600

  // ----- Addresses -----------------------------------------------------------------

  const V4_PREFIX: seq<byte> := [0, 0, 0, 0, 0, 0, 0, 0, 0, 0, 0xFF, 0xFF]
  const ZERO4: Ip := [0, 0, 0, 0]

  function To4(ip: Ip): (v: Option<Ip>)
    ensures v.Some? ==> |v.value| == 4
  {
    if |ip| == 4 then Some(ip)
    else if |ip| == 16 && ip[..12] == V4_PREFIX then Some(ip[12..])
    else None
  }

  /** net.IP.Equal: a 4-byte and a 16-byte form of one IPv4 address are equal. */
  predicate IpEqual(a: Ip, b: Ip) {
    if |a| == |b| then a == b
    else if |a| == 4 && |b| == 16 then b[..12] == V4_PREFIX && a == b[12..]
    else if |a| == 16 && |b| == 4 then a[..12] == V4_PREFIX && a[12..] == b
    else false
  }

  /** The IPv4 form, or 0.0.0.0 for what has none. */
  function Four(ip: Ip): (v: Ip)
    ensures |v| == 4
  {
    if To4(ip).Some? then To4(ip).value else ZERO4
  }

  function IpToU32(ip: Ip): (u: u32) {
    if To4(ip).Some? then GetBe32(To4(ip).value, 0) else 0
  }

  function U32ToIp(u: u32): (ip: Ip)
    ensures |ip| == 4
  {
    Be32(u)
  }

  // ----- Messages --------------------------------------------------------------------

  datatype Packet = Packet(op: byte, xid: u32, flags: u16, ciaddr: Ip, yiaddr: Ip, giaddr: Ip,
                           chaddr: HwAddr, msgType: byte, reqIp: Ip)

  datatype DecodeError = TooShort | BadMagic

  /** What the option scan keeps: message type and requested address (empty for none). */
  datatype Scan = Scan(msgType: byte, reqIp: Ip)

  function Keep(s: Scan, code: byte, val: seq<byte>): (s': Scan) {
    if code == OPT_MESSAGE_TYPE && |val| == 1 then s.(msgType := val[0])
    else if code == OPT_REQUESTED_IP && |val| == 4 then s.(reqIp := val)
    else s
  }

  function ScanOptions(opts: seq<byte>, s: Scan): (s': Scan)
    decreases |opts|
  {
    if opts == [] || opts[0] == OPT_END then s
    else if opts[0] == OPT_PAD then ScanOptions(opts[1..], s)
    else if |opts| < 2 || 2 + opts[1] > |opts| then s
    else ScanOptions(opts[2 + opts[1]..], Keep(s, opts[0], opts[2..2 + opts[1]]))
  }

  function Decode(b: seq<byte>): (r: Result<Packet, DecodeError>) {
    if |b| < DHCP_MIN_LEN then Err(TooShort)
    else if GetBe32(b, 236) != DHCP_MAGIC then Err(BadMagic)
    else
      var s := ScanOptions(b[240..], Scan(0, []));
      Ok(Packet(b[0], GetBe32(b, 4), GetBe16(b, 10), b[12..16], b[16..20], b[24..28], b[28..34], s.msgType, s.reqIp))
  }

  method DecodePacket(b: seq<byte>) returns (r: Result<Packet, DecodeError>)
    ensures r == Decode(b)
  {
    hide GetBe32, GetBe16, ScanOptions;
    if |b| < DHCP_MIN_LEN {
      return Err(TooShort);
    }
    if GetBe32(b, 236) != DHCP_MAGIC {
      return Err(BadMagic);
    }
    var msgType, reqIp := ScanTlvs(b[240..]);
    return Ok(Packet(b[0], GetBe32(b, 4), GetBe16(b, 10), b[12..16], b[16..20], b[24..28], b[28..34], msgType, reqIp));
  }

  /** The loop over the options behind the magic cookie. */
  method ScanTlvs(opts: seq<byte>) returns (msgType: byte, reqIp: Ip)
    ensures Scan(msgType, reqIp) == ScanOptions(opts, Scan(0, []))
  {
    hide ScanOptions, Keep;
    msgType, reqIp := 0, [];
    var i := 0;
    assert opts[0..] == opts;
    while i < |opts|
      invariant 0 <= i <= |opts|
      invariant ScanOptions(opts[i..], Scan(msgType, reqIp)) == ScanOptions(opts, Scan(0, []))
    {
      ghost var s := Scan(msgType, reqIp);
      ScanStopsAt(opts, i, s);
      var code := opts[i];
      if code == OPT_END {
        break;
      }
      if code == OPT_PAD {
        i := i + 1;
        continue;
      }
      if i + 1 >= |opts| {
        break;
      }
      var length := opts[i + 1] as int;
      if i + 2 + length > |opts| {
        break;
      }
      var val := opts[i + 2..i + 2 + length];
      ScanAt(opts, i, s);
      KeepIs(s, code, val);
      if code == OPT_MESSAGE_TYPE {
        if length == 1 {
          msgType := val[0];
        }
      } else if code == OPT_REQUESTED_IP {
        if length == 4 {
          reqIp := val;
        }
      }
      i := i + 2 + length;
    }
    assert i == |opts| ==> opts[i..] == [];
    ScanNothing(Scan(msgType, reqIp));
  }

  /** Where the scan ends, and how it steps over padding. */
  lemma ScanStopsAt(opts: seq<byte>, i: nat, s: Scan)
    requires i < |opts|
    ensures opts[i] == OPT_PAD ==> ScanOptions(opts[i..], s) == ScanOptions(opts[i + 1..], s)
    ensures opts[i] != OPT_PAD && (opts[i] == OPT_END || i + 1 >= |opts| || i + 2 + opts[i + 1] > |opts|) ==>
              ScanOptions(opts[i..], s) == s
  {
    var b := opts[i..];
    assert b[0] == opts[i] && b[1..] == opts[i + 1..] && (|b| > 1 ==> b[1] == opts[i + 1]);
  }

  lemma ScanNothing(s: Scan)
    ensures ScanOptions([], s) == s
  {
  }

  lemma KeepIs(s: Scan, code: byte, val: seq<byte>)
    ensures Keep(s, code, val) ==
            if code == OPT_MESSAGE_TYPE then (if |val| == 1 then s.(msgType := val[0]) else s)
            else if code == OPT_REQUESTED_IP then (if |val| == 4 then s.(reqIp := val) else s)
            else s
  {
  }

  lemma ScanAt(opts: seq<byte>, i: nat, s: Scan)
    requires i + 1 < |opts| && i + 2 + opts[i + 1] <= |opts| && opts[i] != OPT_END && opts[i] != OPT_PAD
    ensures var next := i + 2 + opts[i + 1];
            ScanOptions(opts[i..], s) == ScanOptions(opts[next..], Keep(s, opts[i], opts[i + 2..next]))
  {
    var b := opts[i..];
    assert b[2 + b[1]..] == opts[i + 2 + opts[i + 1]..];
    assert b[2..2 + b[1]] == opts[i + 2..i + 2 + opts[i + 1]];
  }

  datatype Tlv = Tlv(code: byte, val: seq<byte>)

  /** An option that a scanner can step over. */
  predicate Regular(t: Tlv) {
    t.code != OPT_PAD && t.code != OPT_END && |t.val| < 256
  }

  function Tlvs(ts: seq<Tlv>): (b: seq<byte>)
    requires forall i | 0 <= i < |ts| :: Regular(ts[i])
  {
    if ts == [] then []
    else
      assert Regular(ts[0]);
      var len: byte := |ts[0].val|;
      [ts[0].code, len] + ts[0].val + Tlvs(ts[1..])
  }

  function KeepAll(ts: seq<Tlv>, s: Scan): (s': Scan) {
    if ts == [] then s else KeepAll(ts[1..], Keep(s, ts[0].code, ts[0].val))
  }

  function IpOption(code: byte, ip: Ip): (t: Tlv) {
    Tlv(code, Four(ip))
  }

  function U32Option(code: byte, v: u32): (t: Tlv) {
    Tlv(code, Be32(v))
  }

  function ReplyOptions(msgType: byte, serverIp: Ip, mask: Ip): (ts: seq<Tlv>)
    ensures |ts| == 8 && forall i | 0 <= i < |ts| :: Regular(ts[i])
  {
    [ Tlv(OPT_MESSAGE_TYPE, [msgType]),
      IpOption(OPT_SERVER_ID, serverIp),
      U32Option(OPT_LEASE_TIME, LEASE_SECONDS),
      U32Option(OPT_RENEWAL_T1, LEASE_SECONDS / 2),
      U32Option(OPT_REBINDING_T2, LEASE_SECONDS * 7 / 8),
      IpOption(OPT_SUBNET_MASK, mask),
      IpOption(OPT_ROUTER, serverIp),
      Tlv(OPT_DNS, [1, 1, 1, 1, 8, 8, 8, 8]) ]
  }

  function SixBytes(hw: HwAddr): (h: seq<byte>)
    ensures |h| == 6
  {
    if |hw| >= 6 then hw[..6] else Zeros(6)
  }

  function ReplyHeader(p: Packet, serverIp: Ip): (b: seq<byte>)
    ensures |b| == DHCP_MIN_LEN
  {
    IdFields(p) + Four(p.yiaddr) + Four(serverIp) + Four(p.giaddr) + SixBytes(p.chaddr) + Zeros(202) + Be32(DHCP_MAGIC)
  }

  function Encoded(p: Packet, msgType: byte, serverIp: Ip, mask: Ip): (b: seq<byte>) {
    ReplyHeader(p, serverIp) + Tlvs(ReplyOptions(msgType, serverIp, mask)) + [OPT_END]
  }

  // ----- Encoding as written -----------------------------------------------------------

  /** Copy `bytes` to `at` in a buffer written up to `done` and zero behind it. */
  method CopyTo(buf: array<byte>, at: nat, bytes: seq<byte>, ghost done: seq<byte>) returns (ghost now: seq<byte>)
    requires |done| <= at && at + |bytes| <= buf.Length && buf[..] == done + Zeros(buf.Length - |done|)
    modifies buf
    ensures now == done + Zeros(at - |done|) + bytes && buf[..] == now + Zeros(buf.Length - |now|)
  {
    forall i | 0 <= i < |bytes| {
      buf[at + i] := bytes[i];
    }
    now := done + Zeros(at - |done|) + bytes;
  }

  /** Copying nil copies nothing. */
  method CopyIp(buf: array<byte>, at: nat, ip: Ip, ghost done: seq<byte>) returns (ghost now: seq<byte>)
    requires |done| <= at && at + 4 <= buf.Length && buf[..] == done + Zeros(buf.Length - |done|)
    modifies buf
    ensures now == done + Zeros(at - |done|) + Four(ip) && buf[..] == now + Zeros(buf.Length - |now|)
  {
    var v := To4(ip);
    if v.Some? {
      now := CopyTo(buf, at, v.value, done);
    } else {
      now := done + Zeros(at - |done|) + ZERO4;
    }
  }

  method AppendIpOpt(opts: seq<byte>, code: byte, ip: Ip) returns (r: seq<byte>)
    requires Regular(IpOption(code, ip))
    ensures r == opts + TlvBytes(IpOption(code, ip))
  {
    var v := To4(ip);
    r := opts + [code, 4] + if v.None? then ZERO4 else v.value;
  }

  method AppendU32Opt(opts: seq<byte>, code: byte, v: u32) returns (r: seq<byte>)
    requires Regular(U32Option(code, v))
    ensures r == opts + TlvBytes(U32Option(code, v))
  {
    r := opts + [code, 4] + Be32(v);
  }

  function IdFields(p: Packet): (b: seq<byte>)
    ensures |b| == 16
  {
    [2, 1, 6, 0] + Be32(p.xid) + Zeros(2) + Be16(p.flags) + Zeros(4)
  }

  method EncodeHeader(p: Packet, serverIp: Ip) returns (buf: array<byte>)
    ensures fresh(buf) && buf[..] == ReplyHeader(p, serverIp)
  {
    buf := new byte[DHCP_MIN_LEN](_ => 0);
    ghost var b := ZeroBuffer(buf);
    b := EncodeIds(buf, p, b);
    b := EncodeAddresses(buf, p, serverIp, b);
    hide Be32, Four, Zeros, IdFields;
    if |p.chaddr| >= 6 {
      b := CopyTo(buf, 28, p.chaddr[..6], b);
    } else {
      b := SkipZeros(buf, 28, 6, b);
    }
    b := CopyTo(buf, 236, Be32(DHCP_MAGIC), b);
  }

  method EncodeAddresses(buf: array<byte>, p: Packet, serverIp: Ip, ghost done: seq<byte>)
    returns (ghost now: seq<byte>)
    requires |done| == 16 && 28 <= buf.Length && buf[..] == done + Zeros(buf.Length - |done|)
    modifies buf
    ensures now == done + Four(p.yiaddr) + Four(serverIp) + Four(p.giaddr) && buf[..] == now + Zeros(buf.Length - |now|)
  {
    hide Four;
    now := CopyIp(buf, 16, p.yiaddr, done);
    now := CopyIp(buf, 20, serverIp, now);
    now := CopyIp(buf, 24, p.giaddr, now);
  }

  method EncodeIds(buf: array<byte>, p: Packet, ghost done: seq<byte>) returns (ghost now: seq<byte>)
    requires done == [] && 16 <= buf.Length && buf[..] == done + Zeros(buf.Length - |done|)
    modifies buf
    ensures now == IdFields(p) && buf[..] == now + Zeros(buf.Length - |now|)
  {
    hide Be32, Be16;
    var b := CopyTo(buf, 0, [2, 1, 6, 0], done);
    b := CopyTo(buf, 4, Be32(p.xid), b);
    b := CopyTo(buf, 10, Be16(p.flags), b);
    now := SkipZeros(buf, 12, 4, b);
  }

  lemma ZeroBuffer(buf: array<byte>) returns (done: seq<byte>)
    requires forall i | 0 <= i < buf.Length :: buf[i] == 0
    ensures done == [] && buf[..] == done + Zeros(buf.Length)
  {
    done := [];
  }

  lemma SkipZeros(buf: array<byte>, at: nat, n: nat, done: seq<byte>) returns (now: seq<byte>)
    requires |done| <= at && at + n <= buf.Length && buf[..] == done + Zeros(buf.Length - |done|)
    ensures now == done + Zeros(at - |done|) + Zeros(n) && buf[..] == now + Zeros(buf.Length - |now|)
  {
    now := done + Zeros(at - |done|) + Zeros(n);
  }

  method Encode(p: Packet, msgType: byte, serverIp: Ip, mask: Ip) returns (out: seq<byte>)
    ensures out == Encoded(p, msgType, serverIp, mask)
  {
    var buf := EncodeHeader(p, serverIp);
    var opts := EncodeOptions(msgType, serverIp, mask);
    out := buf[..] + opts;
  }

  method EncodeOptions(msgType: byte, serverIp: Ip, mask: Ip) returns (opts: seq<byte>)
    ensures opts == Tlvs(ReplyOptions(msgType, serverIp, mask)) + [OPT_END]
  {
    ghost var ts := ReplyOptions(msgType, serverIp, mask);
    NoTlvs();
    hide Tlvs, Four, Be32;
    FirstOptions(ts, 1);
    opts := [OPT_MESSAGE_TYPE, 1, msgType];
    assert ts[..0] == [] && opts == [] + TlvBytes(ts[0]);
    FirstOptions(ts, 2);
    opts := AppendIpOpt(opts, OPT_SERVER_ID, serverIp);
    FirstOptions(ts, 3);
    opts := AppendU32Opt(opts, OPT_LEASE_TIME, LEASE_SECONDS);
    FirstOptions(ts, 4);
    opts := AppendU32Opt(opts, OPT_RENEWAL_T1, LEASE_SECONDS / 2);
    FirstOptions(ts, 5);
    opts := AppendU32Opt(opts, OPT_REBINDING_T2, LEASE_SECONDS * 7 / 8);
    FirstOptions(ts, 6);
    opts := AppendIpOpt(opts, OPT_SUBNET_MASK, mask);
    FirstOptions(ts, 7);
    opts := AppendIpOpt(opts, OPT_ROUTER, serverIp);
    FirstOptions(ts, 8);
    opts := opts + [OPT_DNS, 8, 1, 1, 1, 1, 8, 8, 8, 8];
    assert opts == Tlvs(ts[..7]) + TlvBytes(ts[7]) && ts[..8] == ts;
    opts := opts + [OPT_END];
  }

  function TlvBytes(t: Tlv): (b: seq<byte>)
    requires Regular(t)
  {
    var len: byte := |t.val|;
    [t.code, len] + t.val
  }

  lemma {:induction false} TlvsSnoc(ts: seq<Tlv>)
    requires ts != [] && forall i | 0 <= i < |ts| :: Regular(ts[i])
    ensures Tlvs(ts) == Tlvs(ts[..|ts| - 1]) + TlvBytes(ts[|ts| - 1])
    decreases |ts|
  {
    var n := |ts| - 1;
    if n == 0 {
      assert ts[1..] == [] && ts[..n] == [];
    } else {
      TlvsSnoc(ts[1..]);
      assert ts[1..][..n - 1] == ts[..n][1..];
      assert Tlvs(ts) == TlvBytes(ts[0]) + Tlvs(ts[1..]) && Tlvs(ts[..n]) == TlvBytes(ts[0]) + Tlvs(ts[..n][1..]);
      hide Tlvs, TlvBytes;
      assert TlvBytes(ts[0]) + (Tlvs(ts[..n][1..]) + TlvBytes(ts[n]))
          == TlvBytes(ts[0]) + Tlvs(ts[..n][1..]) + TlvBytes(ts[n]);
    }
  }

  lemma NoTlvs()
    ensures Tlvs([]) == []
  {
  }

  lemma FirstOptions(ts: seq<Tlv>, k: nat)
    requires 0 < k <= |ts| && forall i | 0 <= i < |ts| :: Regular(ts[i])
    ensures Tlvs(ts[..k]) == Tlvs(ts[..k - 1]) + TlvBytes(ts[k - 1])
  {
    TlvsSnoc(ts[..k]);
    assert ts[..k][..k - 1] == ts[..k - 1];
  }

  // ----- Round trip ---------------------------------------------------------------------

  /** Options laid out one after the other and terminated are scanned one after the other. */
  lemma {:induction false} ScanTlvList(ts: seq<Tlv>, rest: seq<byte>, s: Scan)
    requires forall i | 0 <= i < |ts| :: Regular(ts[i])
    ensures ScanOptions(Tlvs(ts) + [OPT_END] + rest, s) == KeepAll(ts, s)
    decreases |ts|
  {
    hide ScanOptions, Tlvs, TlvBytes, Keep;
    if ts == [] {
      NoTlvs();
      assert [] + [OPT_END] + rest == [OPT_END] + rest;
      ScanStops(rest, s);
    } else {
      var more := ts[1..];
      TlvsCons(ts);
      ScanTlvList(more, rest, Keep(s, ts[0].code, ts[0].val));
      var after := Tlvs(more) + [OPT_END] + rest;
      ScanOneTlv(ts[0], after, s);
      assert TlvBytes(ts[0]) + Tlvs(more) + [OPT_END] + rest == TlvBytes(ts[0]) + after;
    }
  }

  lemma ScanStops(rest: seq<byte>, s: Scan)
    ensures ScanOptions([OPT_END] + rest, s) == s
  {
  }

  lemma TlvsCons(ts: seq<Tlv>)
    requires ts != [] && forall i | 0 <= i < |ts| :: Regular(ts[i])
    ensures Tlvs(ts) == TlvBytes(ts[0]) + Tlvs(ts[1..])
  {
  }

  lemma ScanOneTlv(t: Tlv, rest: seq<byte>, s: Scan)
    requires Regular(t)
    ensures ScanOptions(TlvBytes(t) + rest, s) == ScanOptions(rest, Keep(s, t.code, t.val))
  {
    var b := TlvBytes(t) + rest;
    assert b[0] == t.code && b[1] == |t.val| && b[2..2 + b[1]] == t.val && b[2 + b[1]..] == rest;
  }

  lemma ReplyScan(msgType: byte, serverIp: Ip, mask: Ip)
    ensures KeepAll(ReplyOptions(msgType, serverIp, mask), Scan(0, [])) == Scan(msgType, [])
  {
    var ts := ReplyOptions(msgType, serverIp, mask);
    KeepRest(ts, 1, Keep(Scan(0, []), ts[0].code, ts[0].val));
    assert ts[1..] == ts[1..];
  }

  lemma {:induction false} KeepRest(ts: seq<Tlv>, k: nat, s: Scan)
    requires k <= |ts| && forall i | k <= i < |ts| :: ts[i].code != OPT_MESSAGE_TYPE && ts[i].code != OPT_REQUESTED_IP
    ensures KeepAll(ts[k..], s) == s
    decreases |ts| - k
  {
    if k < |ts| {
      assert ts[k..][1..] == ts[k + 1..];
      KeepRest(ts, k + 1, s);
    }
  }

  /** What a client decodes from an encoded reply. */
  function AsDecoded(p: Packet, msgType: byte): (q: Packet) {
    Packet(2, p.xid, p.flags, ZERO4, Four(p.yiaddr), Four(p.giaddr), SixBytes(p.chaddr), msgType, [])
  }

  /** Decoding an encoded reply returns its xid, flags, addresses, hardware address and message type. */
  lemma DecodeEncoded(p: Packet, msgType: byte, serverIp: Ip, mask: Ip)
    ensures Decode(Encoded(p, msgType, serverIp, mask)) == Ok(AsDecoded(p, msgType))
  {
    var b, ts := Encoded(p, msgType, serverIp, mask), ReplyOptions(msgType, serverIp, mask);
    assert b[..240] == ReplyHeader(p, serverIp);
    HeaderFields(p, serverIp, b);
    assert b[240..] == Tlvs(ts) + [OPT_END] + [];
    ScanTlvList(ts, [], Scan(0, []));
    ReplyScan(msgType, serverIp, mask);
    hide GetBe32, GetBe16, ReplyHeader, Encoded, ScanOptions;
  }

  lemma HeaderFields(p: Packet, serverIp: Ip, b: seq<byte>)
    requires |b| >= 240 && b[..240] == ReplyHeader(p, serverIp)
    ensures b[0] == 2 && GetBe32(b, 4) == p.xid && GetBe16(b, 10) == p.flags && b[12..16] == ZERO4
    ensures b[16..20] == Four(p.yiaddr) && b[24..28] == Four(p.giaddr) && b[28..34] == SixBytes(p.chaddr)
    ensures GetBe32(b, 236) == DHCP_MAGIC
  {
    hide Be32, Be16, Four, SixBytes, GetBe32, GetBe16;
    var h := ReplyHeader(p, serverIp);
    assert b[4..8] == h[4..8] == Be32(p.xid);
    assert b[10..12] == h[10..12] == Be16(p.flags);
    assert b[236..240] == h[236..240] == Be32(DHCP_MAGIC);
    ReadBe32(b, 4, p.xid);
    ReadBe16(b, 10, p.flags);
    ReadBe32(b, 236, DHCP_MAGIC);
    assert b[0] == h[0];
    assert b[12..16] == h[12..16] == ZERO4;
    assert b[16..20] == h[16..20];
    assert b[24..28] == h[24..28];
    assert b[28..34] == h[28..34];
  }

  // ----- Policy -----------------------------------------------------------------------------

  function ReplyShell(p: Packet, yiaddr: Ip): (r: Packet) {
    Packet(0, p.xid, p.flags, [], Four(yiaddr), Four(p.giaddr), p.chaddr, 0, [])
  }

  /** The reply to a decoded request for which `offer` is leased; None when there is none. */
  function Handle(p: Packet, offer: Ip): (r: Option<(byte, Packet)>) {
    if p.msgType == MSG_DISCOVER then Some((MSG_OFFER, ReplyShell(p, offer)))
    else if p.msgType == MSG_REQUEST then
      if p.reqIp != [] && !IpEqual(p.reqIp, offer) && !IpEqual(p.ciaddr, offer)
      then Some((MSG_NAK, ReplyShell(p, ZERO4)))
      else Some((MSG_ACK, ReplyShell(p, offer)))
    else None
  }
}
