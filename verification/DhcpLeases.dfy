/** Sticky round-robin leases (the leaser of supervisor/internal/extnet/dhcp.go). */
module DhcpLeases {
  import opened Bytes
  import opened Dhcp

  type Mac = m: seq<byte> | |m| == 6 witness [0, 0, 0, 0, 0, 0]

  // ----- The key: HardwareAddr.String() ---------------------------------------------

  const HEX: string := "0123456789abcdef"

  function MacString(m: seq<byte>): (s: string)
    ensures |s| == if m == [] then 0 else 3 * |m| - 1
  {
    if m == [] then ""
    else if |m| == 1 then [HEX[m[0] / 16], HEX[m[0] % 16]]
    else [HEX[m[0] / 16], HEX[m[0] % 16], ':'] + MacString(m[1..])
  }

  lemma HexInjective(i: nat, j: nat)
    requires i < 16 && j < 16 && HEX[i] == HEX[j]
    ensures i == j
  {
  }

  /** Different hardware addresses have different keys. */
  lemma {:induction false} MacStringInjective(a: seq<byte>, b: seq<byte>)
    requires MacString(a) == MacString(b)
    ensures a == b
    decreases |a|
  {
    assert |a| == |b|;
    if a != [] {
      var s := MacString(a);
      assert s[0] == HEX[a[0] / 16] == HEX[b[0] / 16] && s[1] == HEX[a[0] % 16] == HEX[b[0] % 16];
      HexInjective(a[0] / 16, b[0] / 16);
      HexInjective(a[0] % 16, b[0] % 16);
      if |a| > 1 {
        assert MacString(a[1..]) == s[3..] == MacString(b[1..]);
        MacStringInjective(a[1..], b[1..]);
      }
      assert a == [a[0]] + a[1..] && b == [b[0]] + b[1..];
    }
  }

  // ----- One lease -----------------------------------------------------------------------

  datatype Leases = Leases(next: u32, byMac: map<string, u32>, base: u32, end: u32)

  function Empty(base: u32, end: u32): (l: Leases) {
    Leases(base, map[], base, end)
  }

  /** The leases after `key` asked. */
  function Leased(l: Leases, key: string): (l': Leases) {
    if key in l.byMac then l
    else l.(byMac := l.byMac[key := l.next], next := if l.next >= l.end then l.base else l.next + 1)
  }

  class Leaser {
    var next: u32
    var byMac: map<string, u32>
    const base: u32
    const end: u32

    function Now(): Leases
      reads this
    {
      Leases(next, byMac, base, end)
    }

    constructor (start: Ip, stop: Ip)
      ensures Now() == Empty(IpToU32(start), IpToU32(stop))
    {
      base, end := IpToU32(start), IpToU32(stop);
      next, byMac := IpToU32(start), map[];
    }

    /** The address of a hardware address, bound on its first request. */
    method Lease(mac: Mac) returns (ip: Ip)
      modifies this
      ensures Now() == Leased(old(Now()), MacString(mac))
      ensures MacString(mac) in byMac && ip == U32ToIp(byMac[MacString(mac)])
    {
      var key := MacString(mac);
      if key in byMac {
        return U32ToIp(byMac[key]);
      }
      var u := next;
      byMac := byMac[key := u];
      if next >= end {
        next := base;
      } else {
        next := next + 1;
      }
      return U32ToIp(u);
    }
  }

  // ----- Every run --------------------------------------------------------------------------

  function LeasedAll(l: Leases, macs: seq<Mac>): (l': Leases) {
    if macs == [] then l else Leased(LeasedAll(l, macs[..|macs| - 1]), MacString(macs[|macs| - 1]))
  }

  /** The distinct requesters, in order of their first request. */
  function Distinct(macs: seq<Mac>): (d: seq<Mac>) {
    if macs == [] then []
    else
      var d, m := Distinct(macs[..|macs| - 1]), macs[|macs| - 1];
      if m in d then d else d + [m]
  }

  function PoolSize(base: u32, end: u32): (n: nat)
    ensures n >= 1
  {
    if base <= end then end - base + 1 else 1
  }

  predicate AllDistinct(d: seq<Mac>) {
    forall i, j | 0 <= i < j < |d| :: d[i] != d[j]
  }

  lemma {:induction false} DistinctIsSet(macs: seq<Mac>)
    ensures AllDistinct(Distinct(macs)) && forall m :: m in Distinct(macs) <==> m in macs
    decreases |macs|
  {
    if macs != [] {
      DistinctIsSet(macs[..|macs| - 1]);
      assert forall m :: m in macs <==> m in macs[..|macs| - 1] || m == macs[|macs| - 1];
    }
  }

  lemma NextInPool(base: u32, end: u32, n: nat)
    ensures var u, size := base + n % PoolSize(base, end), PoolSize(base, end);
            (if u >= end then base else u + 1) == base + (n + 1) % size
  {
    var size := PoolSize(base, end);
    NextMod(n, size);
  }

  lemma NextMod(n: nat, size: nat)
    requires size >= 1
    ensures (n + 1) % size == if n % size == size - 1 then 0 else n % size + 1
  {
    var q, r := n / size, n % size;
    if r == size - 1 {
      assert n + 1 == size * q + size == size * (q + 1);
      ModUnique(n + 1, size, q + 1, 0);
    } else {
      ModUnique(n + 1, size, q, r + 1);
    }
  }

  function KeysOf(d: seq<Mac>): (keys: set<string>) {
    set m | m in d :: MacString(m)
  }

  /** The table holds exactly the distinct requesters, the k-th at base + k mod the pool size. */
  predicate RoundRobin(l: Leases, d: seq<Mac>) {
    && l.byMac.Keys == KeysOf(d)
    && (forall k | 0 <= k < |d| :: l.byMac[MacString(d[k])] == l.base + k % PoolSize(l.base, l.end))
    && l.next == l.base + |d| % PoolSize(l.base, l.end)
  }

  lemma {:induction false} LeasesRoundRobin(base: u32, end: u32, macs: seq<Mac>)
    ensures var l := LeasedAll(Empty(base, end), macs);
            l.base == base && l.end == end && RoundRobin(l, Distinct(macs))
    decreases |macs|
  {
    if macs == [] {
    } else {
      var init, m := macs[..|macs| - 1], macs[|macs| - 1];
      LeasesRoundRobin(base, end, init);
      DistinctIsSet(init);
      LeaseStep(LeasedAll(Empty(base, end), init), Distinct(init), m);
    }
  }

  lemma LeaseStep(l: Leases, d: seq<Mac>, m: Mac)
    requires RoundRobin(l, d) && AllDistinct(d)
    ensures RoundRobin(Leased(l, MacString(m)), if m in d then d else d + [m])
  {
    var key := MacString(m);
    if m in d {
      assert key in KeysOf(d);
    } else {
      if key in KeysOf(d) {
        var m' :| m' in d && MacString(m') == key;
        MacStringInjective(m', m);
      }
      NewLease(l, d, m);
    }
  }

  lemma NewLease(l: Leases, d: seq<Mac>, m: Mac)
    requires RoundRobin(l, d) && MacString(m) !in KeysOf(d)
    ensures RoundRobin(Leased(l, MacString(m)), d + [m])
  {
    hide MacString, PoolSize;
    var key, d' := MacString(m), d + [m];
    NextInPool(l.base, l.end, |d|);
    assert KeysOf(d') == KeysOf(d) + {key} by {
      assert forall x: Mac :: x in d' <==> x in d || x == m;
    }
    forall k | 0 <= k < |d'|
      ensures Leased(l, key).byMac[MacString(d'[k])] == l.base + k % PoolSize(l.base, l.end)
    {
      if k < |d| {
        assert d'[k] == d[k] && d[k] in d && MacString(d[k]) in KeysOf(d);
      }
    }
  }

  /** Later requests only extend the list of requesters, so a binding is for ever. */
  lemma {:induction false} BoundForEver(base: u32, end: u32, early: seq<Mac>, later: seq<Mac>, m: Mac)
    requires m in early
    ensures var l, l' := LeasedAll(Empty(base, end), early), LeasedAll(Empty(base, end), early + later);
            MacString(m) in l.byMac && MacString(m) in l'.byMac && l.byMac[MacString(m)] == l'.byMac[MacString(m)]
    decreases |later|
  {
    if later == [] {
      assert early + later == early;
      LeasesRoundRobin(base, end, early);
      DistinctIsSet(early);
      assert m in Distinct(early);
    } else {
      hide MacString, Distinct;
      var n := |later| - 1;
      BoundForEver(base, end, early, later[..n], m);
      assert (early + later)[..|early| + n] == early + later[..n];
    }
  }

  /** The first pool-size requesters hold distinct addresses, all inside the pool. */
  lemma FirstClientsApart(base: u32, end: u32, macs: seq<Mac>, i: nat, j: nat)
    requires base <= end && i < j < |Distinct(macs)| && j < PoolSize(base, end)
    ensures var l, d := LeasedAll(Empty(base, end), macs), Distinct(macs);
            && MacString(d[i]) in l.byMac && MacString(d[j]) in l.byMac
            && base <= l.byMac[MacString(d[i])] <= end && base <= l.byMac[MacString(d[j])] <= end
            && l.byMac[MacString(d[i])] != l.byMac[MacString(d[j])]
  {
    LeasesRoundRobin(base, end, macs);
    var d := Distinct(macs);
    assert d[i] in d && d[j] in d;
    assert MacString(d[i]) in KeysOf(d) && MacString(d[j]) in KeysOf(d);
    SmallMod(i, PoolSize(base, end));
    SmallMod(j, PoolSize(base, end));
    hide MacString, Distinct, LeasedAll;
  }

  lemma SmallMod(i: nat, n: nat)
    requires i < n
    ensures i % n == i
  {
  }
}
