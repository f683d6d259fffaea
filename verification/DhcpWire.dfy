/**
 The DHCP exchange byte by byte, read by rules that share nothing with the encoder:
 RFC 2131 section 2, the options of RFC 2132, RFC 791 section 3.1.
 */
module DhcpWire {
  import opened Wrappers
  import opened Bytes
  import opened Dhcp
  import opened DhcpLeases
  import opened DhcpServer

  // ----- Options ---------------------------------------------------------------------------

  /** The value of the first option with this code. */
  function Lookup(opts: seq<byte>, code: byte): (val: Option<seq<byte>>)
    decreases |opts|
  {
    if opts == [] || opts[0] == 255 then None
    else if opts[0] == 0 then Lookup(opts[1..], code)
    else if |opts| < 2 || 2 + opts[1] > |opts| then None
    else if opts[0] == code then Some(opts[2..2 + opts[1]])
    else Lookup(opts[2 + opts[1]..], code)
  }

  lemma LookupOne(t: Tlv, rest: seq<byte>, code: byte)
    requires Regular(t)
    ensures Lookup(TlvBytes(t) + rest, code) == if t.code == code then Some(t.val) else Lookup(rest, code)
  {
    var b := TlvBytes(t) + rest;
    assert b[0] == t.code && b[1] == |t.val| && b[2..2 + b[1]] == t.val && b[2 + b[1]..] == rest;
  }

  lemma {:induction false} LookupAt(ts: seq<Tlv>, rest: seq<byte>, i: nat)
    requires (forall j | 0 <= j < |ts| :: Regular(ts[j])) && i < |ts|
    requires forall j | 0 <= j < i :: ts[j].code != ts[i].code
    ensures Lookup(Tlvs(ts) + rest, ts[i].code) == Some(ts[i].val)
  {
    hide Lookup, Tlvs, TlvBytes;
    TlvsCons(ts);
    var after := Tlvs(ts[1..]) + rest;
    assert TlvBytes(ts[0]) + Tlvs(ts[1..]) + rest == TlvBytes(ts[0]) + after;
    LookupOne(ts[0], after, ts[i].code);
    if i > 0 {
      LookupAt(ts[1..], rest, i - 1);
    }
  }

  /** The four bytes sent for an address; zeros for what is no IPv4 address. */
  function Quad(ip: Ip): (v: seq<byte>) {
    if |ip| == 4 then ip
    else if |ip| == 16 && ip[..12] == [0, 0, 0, 0, 0, 0, 0, 0, 0, 0, 255, 255] then ip[12..]
    else [0, 0, 0, 0]
  }

  lemma QuadIs(ip: Ip)
    ensures Quad(ip) == Four(ip)
  {
  }

  /** 3600, 1800 and 3150 seconds; the server is the router, the name servers are public. */
  predicate OptionsSay(opts: seq<byte>, kind: byte, server: seq<byte>, mask: seq<byte>) {
    && Lookup(opts, 53) == Some([kind])
    && Lookup(opts, 54) == Some(server) && Lookup(opts, 3) == Some(server) && Lookup(opts, 1) == Some(mask)
    && Lookup(opts, 6) == Some([1, 1, 1, 1, 8, 8, 8, 8])
    && Lookup(opts, 51) == Some([0, 0, 14, 16])
    && Lookup(opts, 58) == Some([0, 0, 7, 8])
    && Lookup(opts, 59) == Some([0, 0, 12, 78])
  }

  lemma OptionsAre(kind: byte, serverIp: Ip, mask: Ip)
    ensures OptionsSay(Tlvs(ReplyOptions(kind, serverIp, mask)) + [255], kind, Quad(serverIp), Quad(mask))
  {
    var ts := ReplyOptions(kind, serverIp, mask);
    forall i | 0 <= i < 8
      ensures Lookup(Tlvs(ts) + [255], ts[i].code) == Some(ts[i].val)
    {
      hide Four, Tlvs, Lookup;
      LookupAt(ts, [255], i);
    }
    QuadIs(serverIp);
    QuadIs(mask);
    hide Four, Quad, Tlvs, Lookup;
    assert Be32(3600) == [0, 0, 14, 16] && Be32(1800) == [0, 0, 7, 8] && Be32(3150) == [0, 0, 12, 78];
    hide Be32;
    assert ts[0].code == 53 && ts[1].code == 54 && ts[2].code == 51 && ts[3].code == 58;
    assert ts[4].code == 59 && ts[5].code == 1 && ts[6].code == 3 && ts[7].code == 6;
  }

  // ----- The message ---------------------------------------------------------------------------

  /** The number in the two bytes at `i`, most significant first. */
  function Word(b: seq<byte>, i: nat): (v: nat)
    requires i + 2 <= |b|
  {
    256 * (b[i] as int) + b[i + 1] as int
  }

  predicate Pair16(b: seq<byte>, v: nat) {
    |b| == 2 && v == Word(b, 0)
  }

  predicate Quad32(b: seq<byte>, v: nat) {
    |b| == 4 && v == 65536 * Word(b, 0) + Word(b, 2)
  }

  lemma NumberIs(b: seq<byte>, v: u32)
    ensures Quad32(b, v) <==> b == Be32(v)
  {
    ReadBe32(Be32(v), 0, v);
    SumIs(Be32(v));
    if |b| == 4 {
      SumIs(b);
      hide Be32, GetBe32, Word;
      if Quad32(b, v) {
        Digits(b, Be32(v));
      }
    }
  }

  lemma SumIs(b: seq<byte>)
    requires |b| == 4
    ensures 65536 * Word(b, 0) + Word(b, 2) == GetBe32(b, 0)
  {
  }

  lemma Digits(b: seq<byte>, c: seq<byte>)
    requires |b| == |c| == 4 && GetBe32(b, 0) == GetBe32(c, 0)
    ensures b == c
  {
    assert GetBe16(b, 0) == GetBe16(c, 0) && GetBe16(b, 2) == GetBe16(c, 2) by { hide GetBe16; }
    hide GetBe32;
    TwoBytes(b, c, 0);
    TwoBytes(b, c, 2);
  }

  lemma TwoBytes(b: seq<byte>, c: seq<byte>, i: nat)
    requires i + 2 <= |b| && i + 2 <= |c| && GetBe16(b, i) == GetBe16(c, i)
    ensures b[i] == c[i] && b[i + 1] == c[i + 1]
  {
  }

  lemma PairIs(b: seq<byte>, v: u16)
    ensures Pair16(b, v) <==> b == Be16(v)
  {
  }

  /** The message of a reply: BOOTREPLY over Ethernet with these fields, all others zero. */
  predicate Bootp(b: seq<byte>, kind: byte, xid: nat, flags: nat, yours: seq<byte>, server: seq<byte>,
                  mask: seq<byte>, relay: seq<byte>, client: seq<byte>)
  {
    && |b| > 240 && b[..4] == [2, 1, 6, 0] && Quad32(b[4..8], xid)
    && b[8..10] == [0, 0] && Pair16(b[10..12], flags) && b[12..16] == [0, 0, 0, 0]
    && b[16..20] == yours && b[20..24] == server && b[24..28] == relay && b[28..34] == client
    && (forall i | 34 <= i < 236 :: b[i] == 0) && b[236..240] == [0x63, 0x82, 0x53, 0x63]
    && OptionsSay(b[240..], kind, server, mask)
  }

  lemma EncodedBytes(p: Packet, kind: byte, serverIp: Ip, mask: Ip)
    ensures Bootp(Encoded(p, kind, serverIp, mask), kind, p.xid, p.flags, Quad(p.yiaddr), Quad(serverIp), Quad(mask),
                  Quad(p.giaddr), if |p.chaddr| >= 6 then p.chaddr[..6] else [0, 0, 0, 0, 0, 0])
  {
    var b, ts := Encoded(p, kind, serverIp, mask), ReplyOptions(kind, serverIp, mask);
    var h := ReplyHeader(p, serverIp);
    OptionsAre(kind, serverIp, mask);
    hide OptionsSay, Tlvs, ReplyOptions;
    HeaderBytes(p, serverIp);
    hide ReplyHeader;
    assert b[..240] == h && b[240..] == Tlvs(ts) + [255];
    HeaderOf(b, h);
  }

  lemma HeaderOf(b: seq<byte>, h: seq<byte>)
    requires |h| == 240 && |b| > 240 && b[..240] == h
    ensures b[..4] == h[..4] && b[4..8] == h[4..8] && b[8..10] == h[8..10] && b[10..12] == h[10..12]
    ensures b[12..16] == h[12..16] && b[16..20] == h[16..20] && b[20..24] == h[20..24] && b[24..28] == h[24..28]
    ensures b[28..34] == h[28..34] && b[34..236] == h[34..236] && b[236..240] == h[236..240]
  {
    assert b[0..240] == h;
    Part(b, 0, 240, 0, 4);
    Part(b, 0, 240, 4, 8);
    Part(b, 0, 240, 8, 10);
    Part(b, 0, 240, 10, 12);
    Part(b, 0, 240, 12, 16);
    Part(b, 0, 240, 16, 20);
    Part(b, 0, 240, 20, 24);
    Part(b, 0, 240, 24, 28);
    Part(b, 0, 240, 28, 34);
    Part(b, 0, 240, 34, 236);
    Part(b, 0, 240, 236, 240);
  }

  lemma HeaderBytes(p: Packet, serverIp: Ip)
    ensures var b := ReplyHeader(p, serverIp);
            && b[..4] == [2, 1, 6, 0] && Quad32(b[4..8], p.xid) && b[8..10] == [0, 0] && Pair16(b[10..12], p.flags)
            && b[12..16] == [0, 0, 0, 0] && b[16..20] == Quad(p.yiaddr) && b[20..24] == Quad(serverIp)
            && b[24..28] == Quad(p.giaddr)
            && b[28..34] == (if |p.chaddr| >= 6 then p.chaddr[..6] else [0, 0, 0, 0, 0, 0])
            && b[34..236] == Zeros(202) && b[236..240] == [0x63, 0x82, 0x53, 0x63]
  {
    var b, ids := ReplyHeader(p, serverIp), IdFields(p);
    NumberIs(Be32(p.xid), p.xid);
    PairIs(Be16(p.flags), p.flags);
    QuadIs(p.yiaddr);
    QuadIs(serverIp);
    QuadIs(p.giaddr);
    assert Be32(DHCP_MAGIC) == [0x63, 0x82, 0x53, 0x63];
    assert SixBytes(p.chaddr) == if |p.chaddr| >= 6 then p.chaddr[..6] else [0, 0, 0, 0, 0, 0];
    hide Be32, Be16, Quad32, Pair16, Four, Quad, SixBytes;
    assert ids[..4] == [2, 1, 6, 0] && ids[4..8] == Be32(p.xid) && ids[8..10] == [0, 0] && ids[10..12] == Be16(p.flags);
    assert ids[12..16] == [0, 0, 0, 0];
    hide IdFields;
    HeaderSlices(ids, Four(p.yiaddr), Four(serverIp), Four(p.giaddr), SixBytes(p.chaddr), Be32(DHCP_MAGIC), b);
  }

  lemma HeaderSlices(ids: seq<byte>, yi: seq<byte>, si: seq<byte>, gi: seq<byte>, ch: seq<byte>, magic: seq<byte>,
                     b: seq<byte>)
    requires |ids| == 16 && |yi| == |si| == |gi| == |magic| == 4 && |ch| == 6
    requires b == ids + yi + si + gi + ch + Zeros(202) + magic
    ensures |b| == 240 && b[..4] == ids[..4] && b[4..8] == ids[4..8] && b[8..10] == ids[8..10]
    ensures b[10..12] == ids[10..12] && b[12..16] == ids[12..16] && b[16..20] == yi && b[20..24] == si
    ensures b[24..28] == gi && b[28..34] == ch && b[34..236] == Zeros(202) && b[236..240] == magic
  {
  }

  // ----- The frame -----------------------------------------------------------------------------

  /** The sum of the ten 16-bit words of an IP header at byte 14. */
  function HeaderWords(f: seq<byte>): (n: nat)
    requires |f| >= 34
  {
    Word(f, 14) + Word(f, 16) + Word(f, 18) + Word(f, 20) + Word(f, 22)
    + Word(f, 24) + Word(f, 26) + Word(f, 28) + Word(f, 30) + Word(f, 32)
  }

  /** Ethernet, IPv4 without options, UDP from port 67 to port 68 without a checksum, then the message. */
  predicate Datagram(f: seq<byte>, dstMac: Mac, srcMac: Mac, src: seq<byte>, dst: seq<byte>, payload: seq<byte>) {
    && |f| == 42 + |payload| && f[..6] == dstMac && f[6..12] == srcMac && f[12..14] == [8, 0]
    && f[14..16] == [0x45, 0] && f[18..22] == [0, 0, 0, 0] && f[22..24] == [64, 17]
    && HeaderWords(f) % 0xFFFF == 0
    && f[26..30] == src && f[30..34] == dst && f[34..38] == [0, 67, 0, 68] && f[40..42] == [0, 0]
    && f[42..] == payload
  }

  lemma FrameBytes(s: Server, clientMac: Mac, yiaddr: Ip, payload: seq<byte>, broadcast: bool)
    ensures var all := broadcast || Quad(yiaddr) == [0, 0, 0, 0];
            Datagram(Frame(s, clientMac, yiaddr, payload, broadcast),
                     if all then [255, 255, 255, 255, 255, 255] else clientMac, s.serverMac, Quad(s.serverIp),
                     if all then [255, 255, 255, 255] else Quad(yiaddr), payload)
  {
    var f := Frame(s, clientMac, yiaddr, payload, broadcast);
    var dst := if ToAll(yiaddr, broadcast) then BROADCAST_IP else Four(yiaddr);
    FrameSound(s, clientMac, yiaddr, payload, broadcast);
    QuadIs(s.serverIp);
    QuadIs(yiaddr);
    assert Be16(ETHER_TYPE_IPV4) == [8, 0] && Be16(67) == [0, 67] && Be16(68) == [0, 68];
    hide Four, Checksum, Be16, Quad, HeaderWords;
    var ip, udp := IpHeader(s, dst, |payload|), UdpHeader(|payload|);
    IpBytes(s, dst, |payload|);
    assert udp[..4] == [0, 67, 0, 68] && udp[6..8] == [0, 0];
    assert f[14..34] == ip && f[34..42] == udp;
    hide IpHeader, UdpHeader;
    VerifiedSum(f);
    FrameSlices(f, ip, udp);
  }

  lemma FrameSlices(f: seq<byte>, ip: seq<byte>, udp: seq<byte>)
    requires |f| >= 42 && f[14..34] == ip && f[34..42] == udp
    ensures f[14..16] == ip[..2] && f[18..22] == ip[4..8] && f[22..24] == ip[8..10] && f[26..30] == ip[12..16]
    ensures f[30..34] == ip[16..20] && f[34..38] == udp[..4] && f[40..42] == udp[6..8]
  {
    Part(f, 14, 34, 0, 2);
    Part(f, 14, 34, 4, 8);
    Part(f, 14, 34, 8, 10);
    Part(f, 14, 34, 12, 16);
    Part(f, 14, 34, 16, 20);
    Part(f, 34, 42, 0, 4);
    Part(f, 34, 42, 6, 8);
  }

  lemma IpBytes(s: Server, dst: Ip, n: nat)
    requires |dst| == 4
    ensures var h := IpHeader(s, dst, n);
            && h[..2] == [0x45, 0] && h[4..8] == [0, 0, 0, 0] && h[8..10] == [64, 17]
            && h[12..16] == Four(s.serverIp) && h[16..20] == dst
  {
    hide Four, Be16, Checksum;
    var b := BareIpHeader(s, dst, n);
    assert b[..2] == [0x45, 0] && b[4..8] == [0, 0, 0, 0] && b[8..10] == [64, 17];
    assert b[12..16] == Four(s.serverIp) && b[16..20] == dst;
    hide BareIpHeader;
    var h := IpHeader(s, dst, n);
    assert forall i | 0 <= i < 10 || 12 <= i < 20 :: h[i] == b[i];
    assert h[..2] == b[..2] && h[4..8] == b[4..8] && h[8..10] == b[8..10];
    assert h[12..16] == b[12..16] && h[16..20] == b[16..20];
  }

  /** A header whose checksum verifies adds up to zero in ones' complement. */
  lemma VerifiedSum(f: seq<byte>)
    requires |f| >= 34 && Checksum(f[14..34]) == 0
    ensures HeaderWords(f) % 0xFFFF == 0
  {
    var h := f[14..34];
    TenWords(h);
    assert forall i | 0 <= i < 20 :: h[i] == f[14 + i];
    hide Words, Folded;
    ModUnique(WordSum(h), TWO_32, 0, WordSum(h));
  }

  lemma TenWords(h: seq<byte>)
    requires |h| == 20
    ensures WordSum(h) == Word(h, 0) + Word(h, 2) + Word(h, 4) + Word(h, 6) + Word(h, 8)
                          + Word(h, 10) + Word(h, 12) + Word(h, 14) + Word(h, 16) + Word(h, 18)
  {
    assert Words(h, 2) == Words(h, 0) + GetBe16(h, 0) + GetBe16(h, 2);
    assert Words(h, 4) == Words(h, 2) + GetBe16(h, 4) + GetBe16(h, 6);
    assert Words(h, 6) == Words(h, 4) + GetBe16(h, 8) + GetBe16(h, 10);
    assert Words(h, 8) == Words(h, 6) + GetBe16(h, 12) + GetBe16(h, 14);
    assert Words(h, 10) == Words(h, 8) + GetBe16(h, 16) + GetBe16(h, 18);
  }

  // ----- Requests --------------------------------------------------------------------------------

  /** Where the UDP header of an IPv4 frame starts. */
  function UdpAt(f: seq<byte>): (u: nat)
    requires |f| >= 42
  {
    14 + 4 * (f[14] % 16)
  }

  /** An IPv4 datagram to UDP port 67 that the frame holds whole. */
  predicate ToServer(f: seq<byte>) {
    && |f| >= 42 && f[12..14] == [8, 0] && f[23] == 17
    && var u := UdpAt(f);
       34 <= u <= |f| - 8 && f[u + 2..u + 4] == [0, 67] && 8 <= Word(f, u + 4) <= |f| - u
  }

  /** A BOOTREQUEST with the DHCP cookie in such a datagram. */
  predicate IsRequest(f: seq<byte>) {
    && ToServer(f)
    && var u := UdpAt(f);
       Word(f, u + 4) >= 248 && f[u + 8] == 1 && f[u + 244..u + 248] == [0x63, 0x82, 0x53, 0x63]
  }

  function MessageOf(f: seq<byte>): (b: seq<byte>)
    requires ToServer(f)
  {
    f[UdpAt(f) + 8..UdpAt(f) + Word(f, UdpAt(f) + 4)]
  }

  lemma ParseIs(f: seq<byte>)
    ensures ParseDhcp(f).Some? <==> ToServer(f) && Decode(MessageOf(f)).Ok? && Decode(MessageOf(f)).value.op == 1
    ensures ParseDhcp(f).Some? ==> ParseDhcp(f).value == Request(Decode(MessageOf(f)).value, f[6..12])
  {
    hide Decode;
    if |f| >= 42 {
      var ip, u := f[14..], UdpAt(f);
      assert ip[0] == f[14] && ip[9] == f[23] && (GetBe16(f, 12) == 0x0800 <==> f[12..14] == [8, 0]);
      if 34 <= u <= |f| - 8 {
        var udp := ip[u - 14..];
        assert udp == f[u..] && GetBe16(udp, 4) == Word(f, u + 4);
        assert GetBe16(udp, 2) == 67 <==> f[u + 2..u + 4] == [0, 67];
        if 8 <= Word(f, u + 4) <= |f| - u {
          assert udp[8..Word(f, u + 4)] == f[u + 8..u + Word(f, u + 4)];
        }
      }
    }
  }

  lemma CookieIs(b: seq<byte>, at: nat)
    requires at + 4 <= |b|
    ensures GetBe32(b, at) == DHCP_MAGIC <==> b[at..at + 4] == [0x63, 0x82, 0x53, 0x63]
  {
    var c := b[at..at + 4];
    assert b[at] == c[0] && b[at + 1] == c[1] && b[at + 2] == c[2] && b[at + 3] == c[3];
    if GetBe32(b, at) == DHCP_MAGIC {
      Digits(c, [0x63, 0x82, 0x53, 0x63]);
    }
  }

  lemma Part<T>(f: seq<T>, lo: nat, hi: nat, i: nat, j: nat)
    requires i <= j && lo + j <= hi <= |f|
    ensures f[lo..hi][i..j] == f[lo + i..lo + j]
  {
    var s := f[lo..hi];
    assert forall k | 0 <= k < j - i :: s[i..j][k] == s[i + k] == f[lo + i + k];
  }

  /** The fields of a message are the bytes of its frame. */
  lemma FieldSlices(f: seq<byte>, u: nat, n: nat)
    requires u + 248 <= u + n <= |f|
    ensures var b := f[u + 8..u + n];
            && b[0] == f[u + 8] && Quad32(f[u + 12..u + 16], GetBe32(b, 4)) && Pair16(f[u + 18..u + 20], GetBe16(b, 10))
            && b[12..16] == f[u + 20..u + 24] && b[24..28] == f[u + 32..u + 36] && b[28..34] == f[u + 36..u + 42]
            && b[236..240] == f[u + 244..u + 248] && b[240..] == f[u + 248..u + n]
  {
    var b := f[u + 8..u + n];
    Part(f, u + 8, u + n, 12, 16);
    Part(f, u + 8, u + n, 24, 28);
    Part(f, u + 8, u + n, 28, 34);
    Part(f, u + 8, u + n, 236, 240);
    Part(f, u + 8, u + n, 240, n - 8);
    var x, y := f[u + 12..u + 16], f[u + 18..u + 20];
    assert x[0] == b[4] && x[1] == b[5] && x[2] == b[6] && x[3] == b[7] && y[0] == b[10] && y[1] == b[11];
  }

  /** A frame is answered to exactly when it is such a request, and these are the fields looked at. */
  lemma RequestIs(f: seq<byte>)
    ensures ParseDhcp(f).Some? <==> IsRequest(f)
    ensures IsRequest(f) ==>
              var u := UdpAt(f);
              var r, n := ParseDhcp(f).value, Word(f, u + 4);
              && r.srcMac == f[6..12] && Quad32(f[u + 12..u + 16], r.packet.xid)
              && Pair16(f[u + 18..u + 20], r.packet.flags) && r.packet.ciaddr == f[u + 20..u + 24]
              && r.packet.giaddr == f[u + 32..u + 36] && r.packet.chaddr == f[u + 36..u + 42]
              && Scan(r.packet.msgType, r.packet.reqIp) == ScanOptions(f[u + 248..u + n], Scan(0, []))
  {
    ParseIs(f);
    hide ParseDhcp, GetBe32, GetBe16, ScanOptions;
    if ToServer(f) {
      var b, u := MessageOf(f), UdpAt(f);
      if |b| >= 240 {
        CookieIs(b, 236);
        FieldSlices(f, u, Word(f, u + 4));
      }
      hide Word, Quad32, Pair16, ToServer, UdpAt;
    }
  }

  // ----- Request options ---------------------------------------------------------------------------

  /** The last of the options with this code and length holds `val`. */
  predicate LastIs(ts: seq<Tlv>, code: byte, n: nat, val: seq<byte>) {
    exists i | 0 <= i < |ts| ::
      && ts[i].code == code && ts[i].val == val && |val| == n
      && forall j | i < j < |ts| :: ts[j].code != code || |ts[j].val| != n
  }

  predicate NoneIs(ts: seq<Tlv>, code: byte, n: nat) {
    forall j | 0 <= j < |ts| :: ts[j].code != code || |ts[j].val| != n
  }

  lemma {:induction false} KeepAllSnoc(ts: seq<Tlv>, s: Scan)
    requires ts != []
    ensures var last := ts[|ts| - 1];
            KeepAll(ts, s) == Keep(KeepAll(ts[..|ts| - 1], s), last.code, last.val)
    decreases |ts|
  {
    hide Keep;
    if |ts| > 1 {
      KeepAllSnoc(ts[1..], Keep(s, ts[0].code, ts[0].val));
      assert ts[1..][..|ts| - 2] == ts[..|ts| - 1][1..];
    }
  }

  /**
   Of the options laid out in a request the last one-byte message type and the
   last four-byte requested address count.
   */
  lemma {:induction false} OptionsKept(ts: seq<Tlv>)
    ensures var k := KeepAll(ts, Scan(0, []));
            && (if NoneIs(ts, 53, 1) then k.msgType == 0 else LastIs(ts, 53, 1, [k.msgType]))
            && (if NoneIs(ts, 50, 4) then k.reqIp == [] else LastIs(ts, 50, 4, k.reqIp))
    decreases |ts|
  {
    if ts != [] {
      var n := |ts| - 1;
      KeepAllSnoc(ts, Scan(0, []));
      OptionsKept(ts[..n]);
      var k := KeepAll(ts[..n], Scan(0, []));
      var k' := KeepAll(ts, Scan(0, []));
      hide KeepAll;
      LastSnoc(ts, 53, 1, [k.msgType], [k'.msgType]);
      LastSnoc(ts, 50, 4, k.reqIp, k'.reqIp);
    }
  }

  lemma LastSnoc(ts: seq<Tlv>, code: byte, n: nat, old': seq<byte>, val: seq<byte>)
    requires ts != []
    requires var last := ts[|ts| - 1]; val == if last.code == code && |last.val| == n then last.val else old'
    ensures var front, last := ts[..|ts| - 1], ts[|ts| - 1];
            var hit := last.code == code && |last.val| == n;
            && (NoneIs(ts, code, n) <==> NoneIs(front, code, n) && !hit)
            && (hit ==> LastIs(ts, code, n, val))
            && (!hit && LastIs(front, code, n, val) ==> LastIs(ts, code, n, val))
  {
    var front, k := ts[..|ts| - 1], |ts| - 1;
    var hit := ts[k].code == code && |ts[k].val| == n;
    assert NoneIs(ts, code, n) ==> NoneIs(front, code, n) by {
      assert forall j | 0 <= j < k :: front[j] == ts[j];
    }
    if hit {
      assert ts[k].val == val;
    } else if LastIs(front, code, n, val) {
      var i :| 0 <= i < k && front[i].code == code && front[i].val == val && |val| == n
               && forall j | i < j < k :: front[j].code != code || |front[j].val| != n;
      assert ts[i] == front[i];
      assert forall j | i < j < k :: ts[j] == front[j];
    }
  }

  // ----- The exchange ------------------------------------------------------------------------------

  /** An offer to a discover; an acknowledgement or a refusal to a request; nothing to anything else. */
  function Verdict(p: Packet, bound: seq<byte>): (v: Option<(byte, seq<byte>)>) {
    if p.msgType == 1 then Some((2, bound))
    else if p.msgType != 3 then None
    else if p.reqIp == [] || p.reqIp == bound || p.ciaddr == bound then Some((5, bound))
    else Some((6, [0, 0, 0, 0]))
  }

  /**
   Every request frame is answered with the datagram its verdict calls for: the
   request's xid, flags, relay and client in the message, the server's address and
   mask in the options, broadcast when the request asks for it or nothing is offered.
   */
  lemma ExchangeOnWire(s: Server, l: Leases, f: seq<byte>)
    requires IsRequest(f) && ParseDhcp(f).Some?
    ensures var p, u, o := ParseDhcp(f).value.packet, UdpAt(f), Consumed(s, l, f);
            var v := Verdict(p, Bound(l, f[6..12]));
            && o.consumed && (o.reply.Some? <==> v.Some?)
            && (v.Some? ==>
                  && |o.reply.value| >= 42
                  && (var all := f[u + 18] >= 128 || v.value.1 == [0, 0, 0, 0];
                      Datagram(o.reply.value, if all then [255, 255, 255, 255, 255, 255] else f[6..12], s.serverMac,
                               Quad(s.serverIp), if all then [255, 255, 255, 255] else v.value.1, o.reply.value[42..]))
                  && Bootp(o.reply.value[42..], v.value.0, p.xid, p.flags, v.value.1, Quad(s.serverIp), Quad(s.mask),
                           f[u + 32..u + 36], f[u + 36..u + 42]))
  {
    var req, u := ParseDhcp(f).value, UdpAt(f);
    var p, bound := req.packet, Bound(l, req.srcMac);
    RequestIs(f);
    ParsedFields(f);
    HandleIs(p, bound);
    HighBit(f[u + 18..u + 20], p.flags);
    assert f[u + 18..u + 20][0] == f[u + 18];
    hide ParseDhcp, Frame, Encoded, MacString, Handle, Bound, ToAll, Datagram, Bootp, Verdict, IsRequest, ScanOptions;
    var h := Handle(p, bound);
    if h.Some? {
      var (kind, r) := h.value;
      ReplyBytes(s, req.srcMac, r, kind, p.flags >= FLAG_BROADCAST);
    }
  }

  lemma ReplyBytes(s: Server, mac: Mac, r: Packet, kind: byte, broadcast: bool)
    requires |r.chaddr| == 6
    ensures var f := Frame(s, mac, r.yiaddr, Encoded(r, kind, s.serverIp, s.mask), broadcast);
            && |f| >= 42
            && (var all := broadcast || Quad(r.yiaddr) == [0, 0, 0, 0];
                Datagram(f, if all then [255, 255, 255, 255, 255, 255] else mac, s.serverMac,
                         Quad(s.serverIp), if all then [255, 255, 255, 255] else Quad(r.yiaddr), f[42..]))
            && Bootp(f[42..], kind, r.xid, r.flags, Quad(r.yiaddr), Quad(s.serverIp), Quad(s.mask), Quad(r.giaddr),
                     r.chaddr)
  {
    var b := Encoded(r, kind, s.serverIp, s.mask);
    EncodedBytes(r, kind, s.serverIp, s.mask);
    FrameBytes(s, mac, r.yiaddr, b, broadcast);
    FrameSound(s, mac, r.yiaddr, b, broadcast);
    assert r.chaddr[..6] == r.chaddr;
    hide Encoded, Frame, Bootp, Datagram, Quad, Checksum, ToAll, Four;
  }

  lemma HighBit(b: seq<byte>, v: nat)
    requires Pair16(b, v)
    ensures v >= FLAG_BROADCAST <==> b[0] >= 128
  {
  }

  lemma HandleIs(p: Packet, bound: Ip)
    requires |p.ciaddr| == 4 && |p.giaddr| == 4 && |p.chaddr| == 6 && (p.reqIp == [] || |p.reqIp| == 4) && |bound| == 4
    ensures var h, v := Handle(p, bound), Verdict(p, bound);
            && (h.Some? <==> v.Some?)
            && (h.Some? ==>
                  && h.value.0 == v.value.0 && Quad(h.value.1.yiaddr) == v.value.1
                  && h.value.1.xid == p.xid && h.value.1.flags == p.flags
                  && Quad(h.value.1.giaddr) == p.giaddr && h.value.1.chaddr == p.chaddr && p.chaddr[..6] == p.chaddr)
  {
  }

  /** The k-th client is given the pool's start plus k modulo its size, as a number of four bytes. */
  lemma PoolInOrder(s: Server, poolStart: seq<byte>, poolEnd: seq<byte>, start: nat, end: nat, frames: seq<seq<byte>>,
                    k: nat)
    requires Quad32(poolStart, start) && Quad32(poolEnd, end) && start <= end && k < |Distinct(Sources(frames))|
    ensures var l := Served(s, IpToU32(poolStart), IpToU32(poolEnd), frames);
            Quad32(Bound(l, Distinct(Sources(frames))[k]), start + k % (end - start + 1))
  {
    hide Sources, Distinct, Served, Bound;
    BoundInRun(s, start, end, frames, k);
    NumberIs(U32ToIp(start + k % (end - start + 1)), start + k % (end - start + 1));
  }
}
