/**
 What the classifier attributes, told by the frames and reports of a run: which
 sources an endpoint had, when, and when it was asked.
 */
module DirStatHistory {
  import opened Wrappers
  import opened DirStat
  import opened DirStatProofs

  const FIVE_MINUTES: int := 300_000_000_000

  /** A source address that can stand for an endpoint: no group address, not all zero. */
  predicate Identity(m: Mac) {
    m[0] % 2 == 0 && exists b | 0 <= b < 6 :: m[b] != 0
  }

  predicate Heard(op: Op, ep: int) {
    op.ObserveSource? && op.ep == ep && Identity(op.mac)
  }

  predicate HeardFrom(op: Op, ep: int, m: Mac) {
    Heard(op, ep) && op.mac == m
  }

  lemma HeardIs(op: Op, ep: int)
    ensures Heard(op, ep) <==> SourceOn(op, ep)
  {
    if op.ObserveSource? && op.mac != ZERO_MAC {
      assert exists b | 0 <= b < 6 :: op.mac[b] != ZERO_MAC[b];
    }
  }

  // ----- Endpoints ---------------------------------------------------------------------

  /** Something told the classifier of the endpoint. */
  predicate Names(op: Op, ep: int) {
    Heard(op, ep) || (op.CountFrame? && op.ep == ep)
  }

  predicate Configured(devs: seq<EndpointDev>, ep: int) {
    exists i | 0 <= i < |devs| :: devs[i].index == ep && devs[i].dev != ""
  }

  lemma {:induction false} OpenedEndpoints(devs: seq<EndpointDev>, ep: int)
    ensures ep in Opened(devs).endpoints <==> 0 <= ep <= 1 && Configured(devs, ep)
    decreases |devs|
  {
    if devs != [] {
      var n := |devs| - 1;
      OpenedEndpoints(devs[..n], ep);
      assert forall i | 0 <= i < n :: devs[..n][i] == devs[i];
      if i :| 0 <= i < |devs| && devs[i].index == ep && devs[i].dev != "" {
        assert i == n || devs[..n][i].index == ep;
      }
    }
  }

  /** The endpoints reported on are those opened with a device and those a frame was seen on. */
  lemma {:induction false} EndpointsAre(devs: seq<EndpointDev>, ops: seq<Op>, k: nat, ep: int)
    requires k <= |ops|
    ensures ep in StateAt(Opened(devs), ops, k).endpoints
       <==> 0 <= ep <= 1 && (Configured(devs, ep) || exists j | 0 <= j < k :: Names(ops[j], ep))
  {
    hide Opened, Names, Observe;
    if k == 0 {
      OpenedEndpoints(devs, ep);
    } else {
      EndpointsAre(devs, ops, k - 1, ep);
      AlwaysSafe(devs, ops, k - 1);
      LastStep(Opened(devs), ops, k);
      NamesStep(StateAt(Opened(devs), ops, k - 1), ops[k - 1], ep);
      hide Safe, Step, StateAt;
    }
  }

  lemma NamesStep(a: Attr, op: Op, ep: int)
    requires Safe(a)
    ensures ep in Step(a, op).endpoints <==> ep in a.endpoints || (0 <= ep <= 1 && Names(op, ep))
  {
    hide WithConflict, InConflict, GoodConflicts, Identity, OwnAfter;
    HeardIs(op, ep);
    if op.ObserveSource? {
      HeardIs(op, op.ep);
      if SourceOn(op, op.ep) && 0 <= op.ep <= 1 {
        ObserveEffect(a, op.ep, op.mac, op.now);
      } else {
        ObserveNothing(a, op.ep, op.mac, op.now);
      }
      hide Observe;
    }
  }

  /**
   The report has one entry per endpoint in index order. It names a MAC exactly
   for an endpoint that is single on it, and calls an endpoint ambiguous or
   unseen when it is.
   */
  lemma ReportIs(devs: seq<EndpointDev>, ops: seq<Op>)
    ensures var a := StateAt(Opened(devs), ops, |ops|);
            Reports(a, Entries(a))
  {
    var a := StateAt(Opened(devs), ops, |ops|);
    AlwaysSafe(devs, ops, |ops|);
    ReportsOwn(devs, ops, 0);
    ReportsOwn(devs, ops, 1);
    assert EntriesBelow(a, 0) == [] && EntriesBelow(a, 1) == OwnReport(a, 0);
    OwnReports(a);
    hide StateAt, Opened, GuardedEntry, Reports;
  }

  ghost predicate Reports(a: Attr, es: seq<EndpointAttrib>) {
    && (forall ep :: ep in a.endpoints <==> exists i | 0 <= i < |es| :: es[i].endpointIndex == ep)
    && (forall i, j | 0 <= i < j < |es| :: es[i].endpointIndex < es[j].endpointIndex)
    && (forall i, m | 0 <= i < |es| :: es[i].mac == Some(m) <==> SingleOn(a, es[i].endpointIndex, m))
    && (forall i | 0 <= i < |es| :: es[i].state == Ambiguous <==> IsAmbiguous(a, es[i].endpointIndex))
    && (forall i | 0 <= i < |es| :: es[i].state == Single <==> es[i].mac != None)
  }

  function OwnReport(a: Attr, ep: int): (es: seq<EndpointAttrib>) {
    if ep in a.endpoints then [OwnEntry(a, ep)] else []
  }

  lemma OwnReports(a: Attr)
    requires a.endpoints <= {0, 1}
    ensures Reports(a, OwnReport(a, 0) + OwnReport(a, 1))
  {
    var es := OwnReport(a, 0) + OwnReport(a, 1);
    assert 0 in a.endpoints ==> es[0] == OwnEntry(a, 0);
    assert 1 in a.endpoints ==> es[|OwnReport(a, 0)|] == OwnEntry(a, 1);
    assert forall i | 0 <= i < |es| :: es[i] == OwnEntry(a, es[i].endpointIndex);
  }

  // ----- Single ------------------------------------------------------------------------

  /** Operation i is the last before operation k to bring source m on `ep`. */
  predicate LastFrom(ops: seq<Op>, k: nat, ep: int, m: Mac, i: nat)
    requires k <= |ops|
  {
    i < k && HeardFrom(ops[i], ep, m) && forall j | i < j < k :: !HeardFrom(ops[j], ep, m)
  }

  lemma OwnTime(a: Attr, ep: int, mac: Mac, now: int)
    requires Safe(a) && 0 <= ep <= 1 && OwnAfter(a, ep, mac, now).state == Single
    ensures var c, c' := CandidateOf(a, ep), OwnAfter(a, ep, mac, now);
            if mac == c'.mac then c'.lastSeen == now else c' == c
  {
    hide InConflict, GoodConflicts;
  }

  /** A step after which `ep` is single on m leaves the time of the source it brought, or the old time. */
  lemma TimeStep(a: Attr, op: Op, ep: int, m: Mac)
    requires Safe(a) && 0 <= ep <= 1 && SingleOn(Step(a, op), ep, m)
    ensures if HeardFrom(op, ep, m) then CandidateOf(Step(a, op), ep).lastSeen == op.now
            else SingleOn(a, ep, m) && CandidateOf(Step(a, op), ep).lastSeen == CandidateOf(a, ep).lastSeen
  {
    hide WithConflict, InConflict, GoodConflicts, Identity, OwnAfter;
    HeardIs(op, ep);
    if op.ObserveSource? {
      HeardIs(op, op.ep);
      if SourceOn(op, op.ep) && 0 <= op.ep <= 1 {
        ObserveEffect(a, op.ep, op.mac, op.now);
        if op.ep == ep {
          OwnTime(a, ep, op.mac, op.now);
        }
      } else {
        ObserveNothing(a, op.ep, op.mac, op.now);
      }
      hide Observe;
    }
  }

  /** In every run an endpoint single on m was last seen when the last source m came in on it. */
  lemma {:induction false} LastSeenIs(devs: seq<EndpointDev>, ops: seq<Op>, k: nat, ep: int, m: Mac) returns (i: nat)
    requires 0 <= ep <= 1 && k <= |ops| && SingleOn(StateAt(Opened(devs), ops, k), ep, m)
    ensures LastFrom(ops, k, ep, m, i)
    ensures CandidateOf(StateAt(Opened(devs), ops, k), ep).lastSeen == ops[i].now
  {
    hide HeardFrom, Opened, SingleOn, Step;
    NoneSingle(devs, ops, ep, m);
    AlwaysSafe(devs, ops, k - 1);
    LastStep(Opened(devs), ops, k);
    TimeStep(StateAt(Opened(devs), ops, k - 1), ops[k - 1], ep, m);
    hide Safe, StateAt;
    if HeardFrom(ops[k - 1], ep, m) {
      i := k - 1;
    } else {
      i := LastSeenIs(devs, ops, k - 1, ep, m);
    }
  }

  /** No more than five minutes lie between operation k and the last source m on `ep` before it. */
  predicate Fresh(ops: seq<Op>, k: nat, ep: int, m: Mac)
    requires k < |ops| && ops[k].Report?
  {
    exists i | 0 <= i < k :: LastFrom(ops, k, ep, m, i) && ops[k].now - ops[i].now <= FIVE_MINUTES
  }

  /**
   Operation i brought m to a blank endpoint while nobody else had it, and since
   then only m or a MAC in conflict was heard there, m was not heard on the other
   endpoint, and each report came within five minutes of m.
   */
  predicate HeldSince(a: Attr, ops: seq<Op>, k: nat, ep: int, m: Mac, i: nat)
    requires k <= |ops|
  {
    && i < k && HeardFrom(ops[i], ep, m) && CandidateOf(StateAt(a, ops, i), ep).state == Unseen
    && !InConflict(StateAt(a, ops, i).conflicts, m) && !SingleOn(StateAt(a, ops, i), 1 - ep, m)
    && forall j | i < j < k :: Undoubted(a, ops, j, ep, m)
  }

  predicate Undoubted(a: Attr, ops: seq<Op>, j: nat, ep: int, m: Mac)
    requires j < |ops|
  {
    && (Heard(ops[j], ep) ==> ops[j].mac == m || InConflict(StateAt(a, ops, j).conflicts, ops[j].mac))
    && !HeardFrom(ops[j], 1 - ep, m)
    && (ops[j].Report? ==> Fresh(ops, j, ep, m))
  }

  lemma FreshIs(ops: seq<Op>, k: nat, ep: int, m: Mac, i: nat)
    requires k < |ops| && ops[k].Report? && LastFrom(ops, k, ep, m, i)
    ensures Fresh(ops, k, ep, m) <==> ops[k].now - ops[i].now <= FIVE_MINUTES
  {
    hide HeardFrom;
    forall l: nat | LastFrom(ops, k, ep, m, l)
      ensures l == i
    {
    }
  }

  lemma UndoubtedIs(devs: seq<EndpointDev>, ops: seq<Op>, j: nat, ep: int, m: Mac)
    requires 0 <= ep <= 1 && j < |ops| && SingleOn(StateAt(Opened(devs), ops, j), ep, m)
    ensures Undoubted(Opened(devs), ops, j, ep, m) <==> Quiet(StateAt(Opened(devs), ops, j), ops[j], ep, m)
  {
    var i := LastSeenIs(devs, ops, j, ep, m);
    if ops[j].Report? {
      FreshIs(ops, j, ep, m, i);
    }
    HeardIs(ops[j], ep);
    HeardIs(ops[j], 1 - ep);
    hide StateAt, Opened, Heard, SourceOn, InConflict, LastFrom, Fresh;
  }

  /** Single on m: learned from a frame, and nothing since speaks against it. */
  lemma {:induction false} SingleByHistory(devs: seq<EndpointDev>, ops: seq<Op>, k: nat, ep: int, m: Mac)
    requires 0 <= ep <= 1 && k <= |ops|
    ensures SingleOn(StateAt(Opened(devs), ops, k), ep, m)
       <==> exists i: nat :: HeldSince(Opened(devs), ops, k, ep, m, i)
  {
    hide *;
    SingleExactly(devs, ops, k, ep, m);
    forall i: nat
      ensures LearnedAt(Opened(devs), ops, k, ep, m, i) <==> HeldSince(Opened(devs), ops, k, ep, m, i)
    {
      HeldIsLearned(devs, ops, k, ep, m, i);
    }
  }

  lemma {:induction false} HeldIsLearned(devs: seq<EndpointDev>, ops: seq<Op>, k: nat, ep: int, m: Mac, i: nat)
    requires 0 <= ep <= 1 && k <= |ops|
    ensures LearnedAt(Opened(devs), ops, k, ep, m, i) <==> HeldSince(Opened(devs), ops, k, ep, m, i)
  {
    hide StateAt, Opened, Heard, SourceOn, InConflict, SingleOn, Quiet, Undoubted, CandidateOf;
    if i < k {
      HeardIs(ops[i], ep);
      var a := Opened(devs);
      if i < k - 1 {
        HeldIsLearned(devs, ops, k - 1, ep, m, i);
        if LearnedAt(a, ops, k - 1, ep, m, i) {
          SingleExactly(devs, ops, k - 1, ep, m);
          UndoubtedIs(devs, ops, k - 1, ep, m);
        }
      }
    }
  }

  // ----- Ambiguous ---------------------------------------------------------------------

  /** A second source, not in conflict, on an endpoint single on another. */
  predicate Doubts(a: Attr, op: Op, ep: int) {
    && Heard(op, ep) && CandidateOf(a, ep).state == Single && CandidateOf(a, ep).mac != op.mac
    && !InConflict(a.conflicts, op.mac)
  }

  /** Operation i is the last before operation k to bring any source on `ep`. */
  predicate LastHeard(ops: seq<Op>, k: nat, ep: int, i: nat)
    requires k <= |ops|
  {
    i < k && Heard(ops[i], ep) && forall j | i < j < k :: !Heard(ops[j], ep)
  }

  predicate Lively(ops: seq<Op>, k: nat, ep: int)
    requires k < |ops| && ops[k].Report?
  {
    exists i | 0 <= i < k :: LastHeard(ops, k, ep, i) && ops[k].now - ops[i].now <= FIVE_MINUTES
  }

  predicate DoubtedSince(a: Attr, ops: seq<Op>, k: nat, ep: int, i: nat)
    requires k <= |ops|
  {
    && i < k && Doubts(StateAt(a, ops, i), ops[i], ep)
    && forall j | i < j < k :: ops[j].Report? ==> Lively(ops, j, ep)
  }

  lemma DoubtStep(a: Attr, op: Op, ep: int)
    requires Safe(a) && 0 <= ep <= 1
    ensures IsAmbiguous(Step(a, op), ep) <==>
              || Doubts(a, op, ep)
              || (IsAmbiguous(a, ep) && !(op.Report? && op.now - CandidateOf(a, ep).lastSeen > FIVE_MINUTES))
  {
    hide WithConflict, GoodConflicts, Identity;
    HeardIs(op, ep);
    if op.ObserveSource? {
      HeardIs(op, op.ep);
      if SourceOn(op, op.ep) && 0 <= op.ep <= 1 {
        ObserveEffect(a, op.ep, op.mac, op.now);
      } else {
        ObserveNothing(a, op.ep, op.mac, op.now);
      }
      hide Observe, InConflict;
    }
  }

  lemma LivelyIs(devs: seq<EndpointDev>, ops: seq<Op>, k: nat, ep: int)
    requires 0 <= ep <= 1 && k < |ops| && ops[k].Report? && IsAmbiguous(StateAt(Opened(devs), ops, k), ep)
    ensures Lively(ops, k, ep)
       <==> ops[k].now - CandidateOf(StateAt(Opened(devs), ops, k), ep).lastSeen <= FIVE_MINUTES
  {
    var i := AmbiguousSince(devs, ops, k, ep);
    HeardIs(ops[i], ep);
    forall j | i < j < k
      ensures !Heard(ops[j], ep)
    {
      HeardIs(ops[j], ep);
    }
    hide Heard, SourceOn, StateAt, Opened;
    forall l: nat | LastHeard(ops, k, ep, l)
      ensures l == i
    {
    }
    assert LastHeard(ops, k, ep, i);
  }

  /**
   Ambiguous: a second source came while the endpoint was single on another, and
   every report since came within five minutes of some source there.
   */
  lemma {:induction false} AmbiguousByHistory(devs: seq<EndpointDev>, ops: seq<Op>, k: nat, ep: int)
    requires 0 <= ep <= 1 && k <= |ops|
    ensures IsAmbiguous(StateAt(Opened(devs), ops, k), ep)
       <==> exists i: nat :: DoubtedSince(Opened(devs), ops, k, ep, i)
  {
    hide Heard, SourceOn, InConflict, Doubts, Lively, Step, Opened, StateAt, Safe;
    var a := Opened(devs);
    if k == 0 {
      OpenedUnseen(devs);
      StartsAt(a, ops);
    } else {
      var last, before := ops[k - 1], StateAt(a, ops, k - 1);
      AmbiguousByHistory(devs, ops, k - 1, ep);
      AlwaysSafe(devs, ops, k - 1);
      DoubtStep(before, last, ep);
      LastStep(a, ops, k);
      if IsAmbiguous(before, ep) && last.Report? {
        LivelyIs(devs, ops, k - 1, ep);
      }
      if Doubts(before, last, ep) {
        DoubtedStep(a, ops, k, ep, k - 1);
      } else if IsAmbiguous(StateAt(a, ops, k), ep) {
        var i: nat :| DoubtedSince(a, ops, k - 1, ep, i);
        DoubtedStep(a, ops, k, ep, i);
      } else {
        forall i: nat
          ensures !DoubtedSince(a, ops, k, ep, i)
        {
          DoubtedStep(a, ops, k, ep, i);
        }
      }
    }
  }

  lemma DoubtedStep(a: Attr, ops: seq<Op>, k: nat, ep: int, i: nat)
    requires 0 < k <= |ops|
    ensures DoubtedSince(a, ops, k, ep, i) <==>
              || (i == k - 1 && Doubts(StateAt(a, ops, k - 1), ops[k - 1], ep))
              || (DoubtedSince(a, ops, k - 1, ep, i) && (ops[k - 1].Report? ==> Lively(ops, k - 1, ep)))
  {
    hide Doubts, Lively, StateAt;
  }

  lemma StartsAt(a: Attr, ops: seq<Op>)
    ensures StateAt(a, ops, 0) == a
  {
  }

  // ----- Conflicts -----------------------------------------------------------------------

  /** Operation `op` brings a MAC on one endpoint that the other is single on. */
  predicate Clash(a: Attr, op: Op) {
    op.ObserveSource? && 0 <= op.ep <= 1 && Heard(op, op.ep) && SingleOn(a, 1 - op.ep, op.mac)
  }

  /** One is added at each clash, the oldest beyond 32 goes, and a report drops what is past five minutes. */
  lemma ConflictsStep(a: Attr, op: Op)
    requires Safe(a)
    ensures var cs, after := a.conflicts, Step(a, op).conflicts;
            if op.Report? then forall c :: c in after <==> c in cs && op.now - c.lastSeen <= FIVE_MINUTES
            else if !Clash(a, op) then after == cs
            else if |cs| < 32 then after == cs + [Conflict(op.mac, op.now)]
            else DropsOldest(cs + [Conflict(op.mac, op.now)], after)
  {
    if op.Report? {
      AliveGood(a.conflicts, op.now);
      hide AliveConflicts, GoodConflicts;
    } else if op.ObserveSource? {
      HeardIs(op, op.ep);
      if SourceOn(op, op.ep) && 0 <= op.ep <= 1 {
        ObserveEffect(a, op.ep, op.mac, op.now);
        if Clash(a, op) {
          NewConflict(a.conflicts, op.mac, op.now);
        }
      } else {
        ObserveNothing(a, op.ep, op.mac, op.now);
      }
      hide Observe, InConflict, WithConflict, DropsOldest, Identity;
    }
  }

  predicate DropsOldest(cs: seq<Conflict>, rest: seq<Conflict>) {
    exists o | 0 <= o < |cs| ::
      && rest == cs[..o] + cs[o + 1..]
      && (forall j | 0 <= j < |cs| :: cs[o].lastSeen <= cs[j].lastSeen)
      && (forall j | 0 <= j < o :: cs[o].lastSeen < cs[j].lastSeen)
  }

  lemma NewConflict(cs: seq<Conflict>, mac: Mac, now: int)
    requires GoodConflicts(cs) && !InConflict(cs, mac)
    ensures var more, after := cs + [Conflict(mac, now)], WithConflict(cs, mac, now);
            if |cs| < 32 then after == more else DropsOldest(more, after)
  {
  }
}
