/** Safety and history of source-MAC attribution, over every run of operations. */
module DirStatProofs {
  import opened DirStat

  // ----- The conflict list -----------------------------------------------------------

  predicate DistinctMacs(cs: seq<Conflict>) {
    forall i, j | 0 <= i < j < |cs| :: cs[i].mac != cs[j].mac
  }

  predicate GoodConflicts(cs: seq<Conflict>) {
    DistinctMacs(cs) && |cs| <= MAX_CONFLICT
  }

  lemma {:induction false} TouchedSame(cs: seq<Conflict>, mac: Mac, now: int)
    ensures var t := Touched(cs, mac, now);
            && |t| == |cs|
            && forall i | 0 <= i < |cs| :: t[i].mac == cs[i].mac && (t[i] == cs[i] || t[i] == Conflict(mac, now))
    ensures InConflict(cs, mac) ==> Conflict(mac, now) in Touched(cs, mac, now)
  {
    if cs != [] && cs[0].mac != mac {
      TouchedSame(cs[1..], mac, now);
      if InConflict(cs, mac) {
        var i :| 0 <= i < |cs| && cs[i].mac == mac;
        assert cs[1..][i - 1].mac == mac;
      }
    }
  }

  /** Every MAC of `t` is one of `cs`, or `mac`. */
  ghost predicate OnlyAdds(cs: seq<Conflict>, t: seq<Conflict>, mac: Mac) {
    forall m | InConflict(t, m) :: m == mac || InConflict(cs, m)
  }

  lemma TouchedGood(cs: seq<Conflict>, mac: Mac, now: int)
    requires GoodConflicts(cs)
    ensures GoodConflicts(Touched(cs, mac, now)) && OnlyAdds(cs, Touched(cs, mac, now), mac)
  {
    var t := Touched(cs, mac, now);
    TouchedSame(cs, mac, now);
    forall m | InConflict(t, m)
      ensures InConflict(cs, m)
    {
      var i :| 0 <= i < |t| && t[i].mac == m;
      assert cs[i].mac == m;
    }
  }

  lemma AppendedGood(cs: seq<Conflict>, c: Conflict)
    requires DistinctMacs(cs) && !InConflict(cs, c.mac)
    ensures DistinctMacs(cs + [c]) && OnlyAdds(cs, cs + [c], c.mac)
  {
    forall m | InConflict(cs + [c], m)
      ensures m == c.mac || InConflict(cs, m)
    {
      var i :| 0 <= i < |cs| + 1 && (cs + [c])[i].mac == m;
      if i < |cs| { assert cs[i].mac == m; }
    }
  }

  lemma WithoutGood(cs: seq<Conflict>, i: nat)
    requires i < |cs| && DistinctMacs(cs)
    ensures DistinctMacs(Without(cs, i)) && forall m | InConflict(Without(cs, i), m) :: InConflict(cs, m)
  {
    var t := Without(cs, i);
    assert forall k | 0 <= k < |t| :: t[k] == cs[if k < i then k else k + 1];
    forall m | InConflict(t, m)
      ensures InConflict(cs, m)
    {
      var k :| 0 <= k < |t| && t[k].mac == m;
      assert cs[if k < i then k else k + 1].mac == m;
    }
  }

  lemma WithConflictGood(cs: seq<Conflict>, mac: Mac, now: int)
    requires GoodConflicts(cs)
    ensures GoodConflicts(WithConflict(cs, mac, now)) && OnlyAdds(cs, WithConflict(cs, mac, now), mac)
  {
    if InConflict(cs, mac) {
      TouchedGood(cs, mac, now);
    } else {
      var more := cs + [Conflict(mac, now)];
      AppendedGood(cs, Conflict(mac, now));
      if |more| > MAX_CONFLICT {
        WithoutGood(more, Oldest(more));
      }
    }
  }

  lemma {:induction false} AliveGood(cs: seq<Conflict>, now: int)
    requires GoodConflicts(cs)
    ensures GoodConflicts(AliveConflicts(cs, now))
    ensures forall c :: c in AliveConflicts(cs, now) <==> c in cs && now - c.lastSeen <= MAC_TTL
  {
    if cs != [] {
      AliveGood(cs[1..], now);
      var alive := AliveConflicts(cs[1..], now);
      forall i | 0 <= i < |alive|
        ensures alive[i].mac != cs[0].mac
      {
        assert alive[i] in cs[1..];
        var j :| 0 <= j < |cs[1..]| && cs[1..][j] == alive[i];
      }
      AliveShorter(cs[1..], now);
    }
  }

  lemma AliveShorter(cs: seq<Conflict>, now: int)
    ensures |AliveConflicts(cs, now)| <= |cs|
  {
  }

  predicate NoneAfter(cs: seq<Conflict>, now: int) {
    forall i | 0 <= i < |cs| :: cs[i].lastSeen <= now
  }

  /** An entry that is gone was one too many, and no younger than anything kept. */
  predicate EvictedFairly(cs: seq<Conflict>, kept: seq<Conflict>, mac: Mac) {
    forall c | c in cs && c.mac != mac && c !in kept ::
      |cs| == MAX_CONFLICT && forall d | d in kept :: c.lastSeen <= d.lastSeen
  }

  /**
   With a clock that has not run backwards, the entry just added survives, and
   whatever was evicted is no younger than anything kept.
   */
  lemma EvictsOldest(cs: seq<Conflict>, mac: Mac, now: int)
    requires GoodConflicts(cs) && NoneAfter(cs, now)
    ensures var kept := WithConflict(cs, mac, now);
            Conflict(mac, now) in kept && EvictedFairly(cs, kept, mac) && NoneAfter(kept, now)
  {
    TouchedSame(cs, mac, now);
    if InConflict(cs, mac) {
      var kept := Touched(cs, mac, now);
      forall c | c in cs && c.mac != mac
        ensures c in kept
      {
        var i :| 0 <= i < |cs| && cs[i] == c;
        assert kept[i] == c;
      }
    } else {
      var more := cs + [Conflict(mac, now)];
      assert more[|cs|] == Conflict(mac, now);
      if |more| > MAX_CONFLICT {
        EvictsOne(cs, Conflict(mac, now), Oldest(more));
      }
    }
  }

  lemma WithoutKeeps<T>(s: seq<T>, i: nat)
    requires i < |s|
    ensures forall x | x in Without(s, i) :: x in s
    ensures forall j | 0 <= j < |s| && j != i :: s[j] in Without(s, i)
  {
    var t := Without(s, i);
    assert forall k | 0 <= k < |t| :: t[k] == s[if k < i then k else k + 1];
    assert forall j | 0 <= j < |s| && j != i :: s[j] == t[if j < i then j else j - 1];
  }

  lemma EvictsOne(cs: seq<Conflict>, last: Conflict, o: nat)
    requires |cs| == MAX_CONFLICT && NoneAfter(cs, last.lastSeen) && o == Oldest(cs + [last])
    ensures var kept := Without(cs + [last], o);
            last in kept && EvictedFairly(cs, kept, last.mac) && NoneAfter(kept, last.lastSeen)
  {
    var more := cs + [last];
    assert more[|cs|] == last && forall j | 0 <= j < |cs| :: more[j] == cs[j];
    WithoutKeeps(more, o);
    hide Without;
    var kept := Without(more, o);
    forall c | c in cs && c !in kept
      ensures c == more[o]
    {
    }
    forall d | d in kept
      ensures more[o].lastSeen <= d.lastSeen <= last.lastSeen
    {
    }
  }

  /**
   The readers take the time before they take the lock, so times can arrive out of
   order: then the new entry itself is evicted exactly when the list is full and
   every entry in it is younger.
   */
  lemma NewEntryEvictedExactly(cs: seq<Conflict>, mac: Mac, now: int)
    requires GoodConflicts(cs)
    ensures Conflict(mac, now) !in WithConflict(cs, mac, now)
       <==> !InConflict(cs, mac) && |cs| == MAX_CONFLICT && forall i | 0 <= i < |cs| :: now < cs[i].lastSeen
  {
    TouchedSame(cs, mac, now);
    if !InConflict(cs, mac) {
      var last := Conflict(mac, now);
      assert (cs + [last])[|cs|] == last;
      if |cs| == MAX_CONFLICT {
        NewestGoes(cs, last);
      }
    }
  }

  lemma NewestGoes(cs: seq<Conflict>, last: Conflict)
    requires !InConflict(cs, last.mac)
    ensures var more := cs + [last];
            last !in Without(more, Oldest(more)) <==> forall i | 0 <= i < |cs| :: last.lastSeen < cs[i].lastSeen
  {
    var more := cs + [last];
    var o := Oldest(more);
    assert more[|cs|] == last && forall j | 0 <= j < |cs| :: more[j] == cs[j];
    WithoutKeeps(more, o);
    if o == |cs| {
      assert Without(more, o) == cs;
      assert forall j | 0 <= j < |cs| :: cs[j].mac != last.mac;
    }
  }

  // ----- Safety ----------------------------------------------------------------------

  /** A single MAC is not in conflict. */
  predicate Undisputed(cs: seq<Conflict>, c: Candidate) {
    c.state == Single ==> !InConflict(cs, c.mac)
  }

  predicate Apart(c: Candidate, d: Candidate) {
    !(c.state == Single && d.state == Single && c.mac == d.mac)
  }

  predicate Safe(a: Attr) {
    && a.candidates.Keys == a.endpoints <= {0, 1}
    && GoodConflicts(a.conflicts)
    && Apart(CandidateOf(a, 0), CandidateOf(a, 1))
    && Undisputed(a.conflicts, CandidateOf(a, 0)) && Undisputed(a.conflicts, CandidateOf(a, 1))
  }

  lemma {:induction false} OpenedUnseen(devs: seq<EndpointDev>)
    ensures var a := Opened(devs);
            && a.candidates.Keys == a.endpoints <= {0, 1} && a.conflicts == []
            && forall ep | ep in a.candidates :: a.candidates[ep] == NoCandidate
    decreases |devs|
  {
    if devs != [] {
      OpenedUnseen(devs[..|devs| - 1]);
    }
  }

  lemma StepSafe(a: Attr, op: Op)
    requires Safe(a)
    ensures Safe(Step(a, op))
  {
    match op
    case ObserveSource(ep, mac, now) => ObserveSafe(a, ep, mac, now);
    case Report(now) =>
      AliveGood(a.conflicts, now);
      AliveMacs(a.conflicts, now);
      hide GoodConflicts, InConflict, AliveConflicts;
    case CountFrame(ep) =>
  }

  lemma AliveMacs(cs: seq<Conflict>, now: int)
    requires GoodConflicts(cs)
    ensures forall m | InConflict(AliveConflicts(cs, now), m) :: InConflict(cs, m)
  {
    AliveGood(cs, now);
    var alive := AliveConflicts(cs, now);
    forall m | InConflict(alive, m)
      ensures InConflict(cs, m)
    {
      var i :| 0 <= i < |alive| && alive[i].mac == m;
      assert alive[i] in cs;
      var j :| 0 <= j < |cs| && cs[j] == alive[i];
    }
  }

  /** The endpoint's own candidate after a valid source. */
  function OwnAfter(a: Attr, ep: int, mac: Mac, now: int): (c: Candidate) {
    var c := CandidateOf(a, ep);
    if c.state == Ambiguous then Refused(c, now)
    else if SingleOn(a, 1 - ep, mac) then
      if c.state == Unseen then c else if c.mac == mac then NoCandidate else Demoted(c, now)
    else if InConflict(a.conflicts, mac) then
      if c.state == Single && c.mac == mac then NoCandidate else c
    else if c.state == Unseen then Candidate(mac, Single, now, now)
    else if c.mac == mac then Refused(c, now)
    else Demoted(c, now)
  }

  lemma ObserveEffect(a: Attr, ep: int, mac: Mac, now: int)
    requires 0 <= ep <= 1 && ValidSource(mac) && a.candidates.Keys == a.endpoints <= {0, 1}
    ensures var a', taken := Observe(a, ep, mac, now), SingleOn(a, 1 - ep, mac);
            && a'.candidates.Keys == a'.endpoints == a.endpoints + {ep}
            && CandidateOf(a', ep) == OwnAfter(a, ep, mac, now)
            && CandidateOf(a', 1 - ep) == (if taken then NoCandidate else CandidateOf(a, 1 - ep))
            && a'.conflicts == (if taken then WithConflict(a.conflicts, mac, now) else a.conflicts)
  {
    hide Observe, OwnAfter, WithConflict, InConflict, SingleOn;
    if SingleOn(a, 1 - ep, mac) {
      TakenEffect(a, ep, mac, now);
    } else {
      FreeEffect(a, ep, mac, now);
    }
  }

  lemma TakenEffect(a: Attr, ep: int, mac: Mac, now: int)
    requires 0 <= ep <= 1 && ValidSource(mac) && a.candidates.Keys == a.endpoints <= {0, 1} && SingleOn(a, 1 - ep, mac)
    ensures var a' := Observe(a, ep, mac, now);
            && a'.candidates.Keys == a'.endpoints == a.endpoints + {ep}
            && CandidateOf(a', ep) == OwnAfter(a, ep, mac, now) && CandidateOf(a', 1 - ep) == NoCandidate
            && a'.conflicts == WithConflict(a.conflicts, mac, now)
  {
    hide WithConflict, InConflict;
  }

  lemma FreeEffect(a: Attr, ep: int, mac: Mac, now: int)
    requires 0 <= ep <= 1 && ValidSource(mac) && a.candidates.Keys == a.endpoints <= {0, 1} && !SingleOn(a, 1 - ep, mac)
    ensures var a' := Observe(a, ep, mac, now);
            && a'.candidates.Keys == a'.endpoints == a.endpoints + {ep}
            && CandidateOf(a', ep) == OwnAfter(a, ep, mac, now) && CandidateOf(a', 1 - ep) == CandidateOf(a, 1 - ep)
            && a'.conflicts == a.conflicts
  {
    hide WithConflict, InConflict;
  }

  lemma ObserveSafe(a: Attr, ep: int, mac: Mac, now: int)
    requires Safe(a)
    ensures Safe(Observe(a, ep, mac, now))
  {
    hide Observe, WithConflict, GoodConflicts, InConflict;
    if ValidSource(mac) && 0 <= ep <= 1 {
      ObserveEffect(a, ep, mac, now);
      WithConflictGood(a.conflicts, mac, now);
    } else {
      ObserveNothing(a, ep, mac, now);
    }
  }

  lemma ObserveNothing(a: Attr, ep: int, mac: Mac, now: int)
    requires !ValidSource(mac) || ep < 0 || ep > 1
    ensures Observe(a, ep, mac, now) == a
  {
  }

  /**
   In every reachable state the endpoints are never both single on one MAC, no
   single MAC is in conflict, and the conflict list is duplicate-free and bounded.
   */
  lemma {:induction false} AlwaysSafe(devs: seq<EndpointDev>, ops: seq<Op>, k: nat)
    requires k <= |ops|
    ensures Safe(StateAt(Opened(devs), ops, k))
  {
    if k == 0 {
      OpenedUnseen(devs);
    } else {
      AlwaysSafe(devs, ops, k - 1);
      StepSafe(StateAt(Opened(devs), ops, k - 1), ops[k - 1]);
    }
  }

  /** So the report never withholds a MAC: each entry is its endpoint's own. */
  lemma ReportsOwn(devs: seq<EndpointDev>, ops: seq<Op>, ep: int)
    ensures var a := StateAt(Opened(devs), ops, |ops|);
            GuardedEntry(a, ep) == OwnEntry(a, ep)
  {
    AlwaysSafe(devs, ops, |ops|);
  }

  /**
   Nor does `observeSource` ever reach its same-MAC clear branches: an endpoint that is
   single on the MAC it sees neither shares it with the other endpoint nor has it in conflict.
   */
  lemma ClearBranchesDead(devs: seq<EndpointDev>, ops: seq<Op>, ep: int, mac: Mac)
    requires 0 <= ep <= 1
    ensures var a := StateAt(Opened(devs), ops, |ops|);
            SingleOn(a, ep, mac) ==> !SingleOn(a, 1 - ep, mac) && !InConflict(a.conflicts, mac)
  {
    AlwaysSafe(devs, ops, |ops|);
  }

  // ----- Eviction in runs with a monotone clock ---------------------------------------

  lemma TimesKept(cs: seq<Conflict>, mac: Mac, now: int, t: int)
    requires NoneAfter(cs, t) && now <= t
    ensures NoneAfter(WithConflict(cs, mac, now), t)
  {
    TouchedSame(cs, mac, now);
  }

  lemma {:induction false} NoneAfterRun(devs: seq<EndpointDev>, ops: seq<Op>, k: nat, t: int)
    requires k <= |ops| && forall j | 0 <= j < k :: ops[j].ObserveSource? ==> ops[j].now <= t
    ensures NoneAfter(StateAt(Opened(devs), ops, k).conflicts, t)
  {
    if k == 0 {
      OpenedUnseen(devs);
    } else {
      NoneAfterRun(devs, ops, k - 1, t);
      var a, op := StateAt(Opened(devs), ops, k - 1), ops[k - 1];
      AlwaysSafe(devs, ops, k - 1);
      if op.Report? {
        AliveGood(a.conflicts, op.now);
      } else if op.ObserveSource? && ValidSource(op.mac) && 0 <= op.ep <= 1 {
        ObserveEffect(a, op.ep, op.mac, op.now);
        TimesKept(a.conflicts, op.mac, op.now, t);
        hide Observe, WithConflict;
      }
    }
  }

  /** While times do not run backwards, a new conflict stays and only the oldest makes room for it. */
  lemma EvictionInRuns(devs: seq<EndpointDev>, ops: seq<Op>, k: nat)
    requires k < |ops| && ops[k].ObserveSource? && SourceOn(ops[k], ops[k].ep) && 0 <= ops[k].ep <= 1
    requires forall j | 0 <= j < k :: ops[j].ObserveSource? ==> ops[j].now <= ops[k].now
    requires SingleOn(StateAt(Opened(devs), ops, k), 1 - ops[k].ep, ops[k].mac)
    ensures var cs, kept := StateAt(Opened(devs), ops, k).conflicts, StateAt(Opened(devs), ops, k + 1).conflicts;
            && Conflict(ops[k].mac, ops[k].now) in kept && EvictedFairly(cs, kept, ops[k].mac)
            && NoneAfter(kept, ops[k].now)
  {
    var a, op := StateAt(Opened(devs), ops, k), ops[k];
    AlwaysSafe(devs, ops, k);
    NoneAfterRun(devs, ops, k, op.now);
    ObserveEffect(a, op.ep, op.mac, op.now);
    EvictsOldest(a.conflicts, op.mac, op.now);
    hide Observe, WithConflict, EvictedFairly;
  }

  // ----- Eviction when times are out of order ---------------------------------------------

  /** In a run a new conflict is evicted at once exactly when the list is full of younger entries. */
  lemma EvictedAtOnceExactly(devs: seq<EndpointDev>, ops: seq<Op>, k: nat)
    requires k < |ops| && ops[k].ObserveSource? && SourceOn(ops[k], ops[k].ep) && 0 <= ops[k].ep <= 1
    requires SingleOn(StateAt(Opened(devs), ops, k), 1 - ops[k].ep, ops[k].mac)
    ensures var cs, now := StateAt(Opened(devs), ops, k).conflicts, ops[k].now;
            (Conflict(ops[k].mac, now) !in StateAt(Opened(devs), ops, k + 1).conflicts <==>
             |cs| == MAX_CONFLICT && forall i | 0 <= i < |cs| :: now < cs[i].lastSeen)
  {
    var a, op := StateAt(Opened(devs), ops, k), ops[k];
    AlwaysSafe(devs, ops, k);
    ObserveEffect(a, op.ep, op.mac, op.now);
    NewEntryEvictedExactly(a.conflicts, op.mac, op.now);
    hide Observe, WithConflict;
  }

  function NthMac(n: nat): (m: Mac)
    requires n < 256
    ensures ValidSource(m)
  {
    [2, 0, 0, 0, 0, n]
  }

  /** The n-th MAC is learned on endpoint 0 and seen on endpoint 1; the last of 33 is seen one tick early there. */
  function Flood(t: int): (ops: seq<Op>)
    ensures |ops| == 66
  {
    seq(66, i requires 0 <= i < 66 => ObserveSource(i % 2, NthMac(i / 2), if i == 65 then t - 1 else t))
  }

  const BothDevs: seq<EndpointDev> := [EndpointDev(0, "tap0"), EndpointDev(1, "tap1")]

  /** Both endpoints blank and n MACs in conflict. */
  function Flooded(t: int, n: nat): (a: Attr)
    requires n <= 256
  {
    Attr({0, 1}, map[0 := NoCandidate, 1 := NoCandidate], seq(n, i requires 0 <= i < n => Conflict(NthMac(i), t)))
  }

  lemma FloodedNext(t: int, n: nat)
    requires n < MAX_CONFLICT
    ensures var a := Observe(Flooded(t, n), 0, NthMac(n), t);
            SingleOn(a, 0, NthMac(n)) && Observe(a, 1, NthMac(n), t) == Flooded(t, n + 1)
  {
    var m := NthMac(n);
    var cs := Flooded(t, n).conflicts;
    assert !InConflict(cs, m) by {
      assert forall i | 0 <= i < n :: cs[i].mac[5] == i;
    }
    assert cs + [Conflict(m, t)] == Flooded(t, n + 1).conflicts;
  }

  lemma {:induction false} FloodRuns(t: int, n: nat)
    requires n <= MAX_CONFLICT
    ensures StateAt(Opened(BothDevs), Flood(t), 2 * n) == Flooded(t, n)
  {
    hide Observe, Flooded, Opened;
    if n == 0 {
      OpenedBoth(t);
    } else {
      FloodRuns(t, n - 1);
      FloodedNext(t, n - 1);
      var a, ops := Opened(BothDevs), Flood(t);
      LastStep(a, ops, 2 * n - 1);
      LastStep(a, ops, 2 * n);
      assert ops[2 * n - 2] == ObserveSource(0, NthMac(n - 1), t);
      assert ops[2 * n - 1] == ObserveSource(1, NthMac(n - 1), t);
    }
  }

  lemma OpenedBoth(t: int)
    ensures Opened(BothDevs) == Flooded(t, 0)
  {
    var one := BothDevs[..1];
    assert one[..0] == [] && Opened(one) == Attr({0}, map[0 := NoCandidate], []);
    assert Opened(BothDevs) == Attr({0} + {1}, map[0 := NoCandidate][1 := NoCandidate], []);
  }

  /** Such a run: the 33rd conflict, timed one tick before the others, is recorded and gone at once. */
  lemma FloodLoses(t: int)
    ensures var ops, a := Flood(t), Opened(BothDevs);
            && SourceOn(ops[65], 1) && SingleOn(StateAt(a, ops, 65), 0, ops[65].mac)
            && |StateAt(a, ops, 65).conflicts| == MAX_CONFLICT
            && Conflict(ops[65].mac, t - 1) !in StateAt(a, ops, 66).conflicts
  {
    hide Observe, Opened, Flood, NthMac, StateAt, Flooded, SingleOn;
    var ops, a := Flood(t), Opened(BothDevs);
    FloodRuns(t, 32);
    FloodEnds(t);
    LastStep(a, ops, 65);
    FloodedLearns(t);
    EvictedAtOnceExactly(BothDevs, ops, 65);
  }

  lemma FloodEnds(t: int)
    ensures Flood(t)[64] == ObserveSource(0, NthMac(32), t) && Flood(t)[65] == ObserveSource(1, NthMac(32), t - 1)
    ensures SourceOn(Flood(t)[65], 1)
  {
  }

  lemma FloodedLearns(t: int)
    ensures var a := Observe(Flooded(t, 32), 0, NthMac(32), t);
            SingleOn(a, 0, NthMac(32)) && a.conflicts == Flooded(t, 32).conflicts
    ensures |Flooded(t, 32).conflicts| == MAX_CONFLICT
    ensures forall i | 0 <= i < MAX_CONFLICT :: t - 1 < Flooded(t, 32).conflicts[i].lastSeen
  {
    var cs := Flooded(t, 32).conflicts;
    assert forall i | 0 <= i < 32 :: cs[i].mac[5] == i;
  }

  // ----- History ---------------------------------------------------------------------

  predicate SourceOn(op: Op, ep: int) {
    op.ObserveSource? && op.ep == ep && ValidSource(op.mac)
  }

  /** A step that gives no reason to doubt that `ep` is `m`, and does not find it stale. */
  predicate Quiet(a: Attr, op: Op, ep: int, m: Mac) {
    && (SourceOn(op, ep) ==> op.mac == m || InConflict(a.conflicts, op.mac))
    && !(SourceOn(op, 1 - ep) && op.mac == m)
    && (op.Report? ==> !Expired(CandidateOf(a, ep), op.now))
  }

  /** A source that makes a blank endpoint single on it. */
  predicate Learns(a: Attr, op: Op, ep: int, m: Mac) {
    && SourceOn(op, ep) && op.mac == m && CandidateOf(a, ep).state == Unseen
    && !InConflict(a.conflicts, m) && !SingleOn(a, 1 - ep, m)
  }

  /** Operation i taught `ep` the MAC, and everything between it and operation k was quiet. */
  predicate LearnedAt(a: Attr, ops: seq<Op>, k: nat, ep: int, m: Mac, i: nat)
    requires k <= |ops|
  {
    && i < k && Learns(StateAt(a, ops, i), ops[i], ep, m)
    && forall j | i < j < k :: Quiet(StateAt(a, ops, j), ops[j], ep, m)
  }

  /** One step ends in single on m just when it learns m or was single on m and is quiet. */
  lemma SingleStep(a: Attr, op: Op, ep: int, m: Mac)
    requires Safe(a) && 0 <= ep <= 1
    ensures SingleOn(Step(a, op), ep, m) <==> (SingleOn(a, ep, m) && Quiet(a, op, ep, m)) || Learns(a, op, ep, m)
  {
    hide WithConflict, InConflict, GoodConflicts, OwnAfter;
    if SourceOn(op, ep) {
      ObserveEffect(a, ep, op.mac, op.now);
      OwnSingle(a, ep, op.mac, op.now, m);
      hide Observe;
    } else if SourceOn(op, 1 - ep) {
      ObserveEffect(a, 1 - ep, op.mac, op.now);
      hide Observe;
    }
  }

  lemma OwnSingle(a: Attr, ep: int, mac: Mac, now: int, m: Mac)
    requires Safe(a) && 0 <= ep <= 1
    ensures var c, c' := CandidateOf(a, ep), OwnAfter(a, ep, mac, now);
            c'.state == Single && c'.mac == m <==>
              || (c.state == Single && c.mac == m && (mac == m || InConflict(a.conflicts, mac)))
              || (mac == m && c.state == Unseen && !InConflict(a.conflicts, m) && !SingleOn(a, 1 - ep, m))
  {
    hide InConflict, GoodConflicts;
  }

  /**
   An endpoint is single on m after k operations if and only if it learned m at
   one of them and since then every valid source on it was m or in conflict on
   arrival, m was not seen on the other endpoint, and no report found it expired.
   */
  lemma {:induction false} SingleExactly(devs: seq<EndpointDev>, ops: seq<Op>, k: nat, ep: int, m: Mac)
    requires 0 <= ep <= 1 && k <= |ops|
    ensures SingleOn(StateAt(Opened(devs), ops, k), ep, m)
       <==> exists i: nat :: LearnedAt(Opened(devs), ops, k, ep, m, i)
  {
    hide LearnedAt, Quiet, Learns, SingleOn, Step, Opened, StateAt, Safe;
    var a := Opened(devs);
    if k == 0 {
      NoneSingle(devs, ops, ep, m);
    } else {
      var last, before := ops[k - 1], StateAt(a, ops, k - 1);
      SingleExactly(devs, ops, k - 1, ep, m);
      AlwaysSafe(devs, ops, k - 1);
      SingleStep(before, last, ep, m);
      LastStep(a, ops, k);
      if Learns(before, last, ep, m) {
        LearnedStep(a, ops, k, ep, m, k - 1);
      } else if SingleOn(before, ep, m) && Quiet(before, last, ep, m) {
        var i: nat :| LearnedAt(a, ops, k - 1, ep, m, i);
        LearnedStep(a, ops, k, ep, m, i);
      } else {
        forall i: nat | LearnedAt(a, ops, k, ep, m, i)
          ensures LearnedAt(a, ops, k - 1, ep, m, i) && Quiet(before, last, ep, m)
        {
          LearnedStep(a, ops, k, ep, m, i);
        }
      }
    }
  }

  lemma NoneSingle(devs: seq<EndpointDev>, ops: seq<Op>, ep: int, m: Mac)
    requires 0 <= ep <= 1
    ensures !SingleOn(StateAt(Opened(devs), ops, 0), ep, m)
    ensures forall i: nat :: !LearnedAt(Opened(devs), ops, 0, ep, m, i)
  {
    OpenedUnseen(devs);
    hide Opened, Learns, Quiet;
  }

  lemma LastStep(a: Attr, ops: seq<Op>, k: nat)
    requires 0 < k <= |ops|
    ensures StateAt(a, ops, k) == Step(StateAt(a, ops, k - 1), ops[k - 1])
  {
    hide Step;
  }

  lemma LearnedStep(a: Attr, ops: seq<Op>, k: nat, ep: int, m: Mac, i: nat)
    requires 0 < k <= |ops|
    ensures LearnedAt(a, ops, k, ep, m, i) <==>
              || (i == k - 1 && Learns(StateAt(a, ops, k - 1), ops[k - 1], ep, m))
              || (LearnedAt(a, ops, k - 1, ep, m, i) && Quiet(StateAt(a, ops, k - 1), ops[k - 1], ep, m))
  {
    hide Learns, Quiet, StateAt;
  }

  /** Ambiguity ends only when a report finds more than the TTL since `lastSeen`. */
  lemma AmbiguousStep(a: Attr, op: Op, ep: int)
    requires Safe(a) && 0 <= ep <= 1 && IsAmbiguous(a, ep)
    ensures var a' := Step(a, op);
            if op.Report? && op.now - CandidateOf(a, ep).lastSeen > MAC_TTL then CandidateOf(a', ep) == NoCandidate
            else
              && IsAmbiguous(a', ep)
              && CandidateOf(a', ep).lastSeen == if SourceOn(op, ep) then op.now else CandidateOf(a, ep).lastSeen
  {
    hide WithConflict, InConflict, GoodConflicts;
    if op.ObserveSource? && ValidSource(op.mac) && 0 <= op.ep <= 1 {
      ObserveEffect(a, op.ep, op.mac, op.now);
      hide Observe;
    }
  }

  /** ... and `lastSeen` of an ambiguous endpoint is the time of the last valid source there. */
  lemma {:induction false} AmbiguousSince(devs: seq<EndpointDev>, ops: seq<Op>, k: nat, ep: int) returns (i: nat)
    requires 0 <= ep <= 1 && k <= |ops| && IsAmbiguous(StateAt(Opened(devs), ops, k), ep)
    ensures i < k && SourceOn(ops[i], ep)
    ensures ops[i].now == CandidateOf(StateAt(Opened(devs), ops, k), ep).lastSeen
    ensures forall j | i < j < k :: !SourceOn(ops[j], ep)
  {
    OpenedUnseen(devs);
    AlwaysSafe(devs, ops, k - 1);
    var before := StateAt(Opened(devs), ops, k - 1);
    if SourceOn(ops[k - 1], ep) {
      BecomesAmbiguous(before, ops[k - 1], ep);
      i := k - 1;
    } else {
      StaysAmbiguous(before, ops[k - 1], ep);
      i := AmbiguousSince(devs, ops, k - 1, ep);
      AmbiguousStep(before, ops[k - 1], ep);
    }
  }

  lemma BecomesAmbiguous(a: Attr, op: Op, ep: int)
    requires Safe(a) && 0 <= ep <= 1 && SourceOn(op, ep) && IsAmbiguous(Step(a, op), ep)
    ensures CandidateOf(Step(a, op), ep).lastSeen == op.now
  {
    ObserveEffect(a, ep, op.mac, op.now);
    hide Observe, WithConflict, InConflict, GoodConflicts;
  }

  lemma StaysAmbiguous(a: Attr, op: Op, ep: int)
    requires Safe(a) && 0 <= ep <= 1 && !SourceOn(op, ep) && IsAmbiguous(Step(a, op), ep)
    ensures IsAmbiguous(a, ep)
  {
    hide WithConflict, InConflict, GoodConflicts;
    if op.ObserveSource? && ValidSource(op.mac) && 0 <= op.ep <= 1 {
      ObserveEffect(a, op.ep, op.mac, op.now);
      hide Observe;
    }
  }
}
