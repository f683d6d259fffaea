/**
 Source-MAC attribution of the per-link classifier
 (supervisor/internal/dirstat/dirstat.go).

 Every public method runs under the classifier's mutex, so a run is a sequence
 of whole operations. `Step` gives each operation's meaning on a value state; the
 class updates its fields in place and is tied to it.
 */
module DirStat {
  import opened Bytes
  import opened Wrappers

  type Mac = m: seq<byte> | |m| == 6 witness [0, 0, 0, 0, 0, 0]

  const ZERO_MAC: Mac := [0, 0, 0, 0, 0, 0]
  const MAC_TTL: int := 5 * 60 * 1_000_000_000
  const MAX_CONFLICT: int := 32

  datatype AttribState = Unseen | Single | Ambiguous

  datatype Candidate = Candidate(mac: Mac, state: AttribState, firstSeen: int, lastSeen: int)

  const NoCandidate: Candidate := Candidate(ZERO_MAC, Unseen, 0, 0)

  datatype Conflict = Conflict(mac: Mac, lastSeen: int)

  datatype Key = Key(ep: int, lbl: string, subtype: string)

  /** One entry of the report; a MAC is named only in state Single. */
  datatype EndpointAttrib = EndpointAttrib(endpointIndex: int, state: AttribState, mac: Option<Mac>)

  datatype EndpointDev = EndpointDev(index: int, dev: string)

  predicate ValidSource(mac: Mac) {
    mac[0] % 2 == 0 && mac != ZERO_MAC
  }

  // ----- The value state ---------------------------------------------------------

  datatype Attr = Attr(endpoints: set<int>, candidates: map<int, Candidate>, conflicts: seq<Conflict>)

  function CandidateOf(a: Attr, ep: int): (c: Candidate) {
    if ep in a.candidates then a.candidates[ep] else NoCandidate
  }

  predicate SingleOn(a: Attr, ep: int, mac: Mac) {
    CandidateOf(a, ep).state == Single && CandidateOf(a, ep).mac == mac
  }

  predicate IsAmbiguous(a: Attr, ep: int) {
    CandidateOf(a, ep).state == Ambiguous
  }

  predicate InConflict(cs: seq<Conflict>, mac: Mac) {
    exists i :: 0 <= i < |cs| && cs[i].mac == mac
  }

  function WithEndpoint(a: Attr, ep: int): (a': Attr) {
    if ep < 0 || ep > 1 then a
    else Attr(a.endpoints + {ep}, a.candidates[ep := CandidateOf(a, ep)], a.conflicts)
  }

  function SetCandidate(a: Attr, ep: int, c: Candidate): (a': Attr) {
    a.(candidates := a.candidates[ep := c])
  }

  /** The position of the oldest entry, the first of equals. */
  function Oldest(cs: seq<Conflict>): (i: nat)
    requires cs != []
    ensures i < |cs| && forall j | 0 <= j < |cs| :: cs[i].lastSeen <= cs[j].lastSeen
    ensures forall j | 0 <= j < i :: cs[i].lastSeen < cs[j].lastSeen
  {
    if |cs| == 1 then 0
    else
      var i := Oldest(cs[..|cs| - 1]);
      if cs[|cs| - 1].lastSeen < cs[i].lastSeen then |cs| - 1 else i
  }

  function Without<T>(s: seq<T>, i: nat): (t: seq<T>)
    requires i < |s|
  {
    s[..i] + s[i + 1..]
  }

  function Touched(cs: seq<Conflict>, mac: Mac, now: int): (cs': seq<Conflict>) {
    if cs == [] then []
    else if cs[0].mac == mac then [Conflict(mac, now)] + cs[1..]
    else [cs[0]] + Touched(cs[1..], mac, now)
  }

  /** Refresh the entry of `mac`, or append it and drop the oldest beyond the bound. */
  function WithConflict(cs: seq<Conflict>, mac: Mac, now: int): (cs': seq<Conflict>) {
    if InConflict(cs, mac) then Touched(cs, mac, now)
    else
      var more := cs + [Conflict(mac, now)];
      if |more| > MAX_CONFLICT then Without(more, Oldest(more)) else more
  }

  function AliveConflicts(cs: seq<Conflict>, now: int): (cs': seq<Conflict>) {
    if cs == [] then []
    else (if now - cs[0].lastSeen <= MAC_TTL then [cs[0]] else []) + AliveConflicts(cs[1..], now)
  }

  predicate Expired(c: Candidate, now: int) {
    c.state != Unseen && now - c.lastSeen > MAC_TTL
  }

  function Expire(a: Attr, now: int): (a': Attr) {
    Attr(a.endpoints,
         map ep | ep in a.candidates :: if Expired(a.candidates[ep], now) then NoCandidate else a.candidates[ep],
         AliveConflicts(a.conflicts, now))
  }

  /** What a further source does to an endpoint that cannot claim it. */
  function Refused(c: Candidate, now: int): (c': Candidate) {
    c.(lastSeen := now)
  }

  function Demoted(c: Candidate, now: int): (c': Candidate) {
    Candidate(ZERO_MAC, Ambiguous, c.firstSeen, now)
  }

  function Observe(a: Attr, ep: int, mac: Mac, now: int): (a': Attr) {
    if !ValidSource(mac) || ep < 0 || ep > 1 then a
    else
      var a := WithEndpoint(a, ep);
      var c := a.candidates[ep];
      if SingleOn(a, 1 - ep, mac) then
        // The other endpoint owned it: neither side keeps it while the conflict lives.
        var a1 := SetCandidate(a.(conflicts := WithConflict(a.conflicts, mac, now)), 1 - ep, NoCandidate);
        match c.state
        case Unseen => a1
        case Single => SetCandidate(a1, ep, if c.mac == mac then NoCandidate else Demoted(c, now))
        case Ambiguous => SetCandidate(a1, ep, Refused(c, now))
      else if InConflict(a.conflicts, mac) then
        match c.state
        case Unseen => a
        case Single => if c.mac == mac then SetCandidate(a, ep, NoCandidate) else a
        case Ambiguous => SetCandidate(a, ep, Refused(c, now))
      else
        match c.state
        case Unseen => SetCandidate(a, ep, Candidate(mac, Single, now, now))
        case Single => SetCandidate(a, ep, if c.mac == mac then Refused(c, now) else Demoted(c, now))
        case Ambiguous => SetCandidate(a, ep, Refused(c, now))
  }

  datatype Op =
    | ObserveSource(ep: int, mac: Mac, now: int)
    | Report(now: int)
    | CountFrame(ep: int)

  function Step(a: Attr, op: Op): (a': Attr) {
    match op
    case ObserveSource(ep, mac, now) => Observe(a, ep, mac, now)
    case Report(now) => Expire(a, now)
    case CountFrame(ep) => WithEndpoint(a, ep)
  }

  /** The state after the first `k` operations. */
  function StateAt(a: Attr, ops: seq<Op>, k: nat): (a': Attr)
    requires k <= |ops|
  {
    if k == 0 then a else Step(StateAt(a, ops, k - 1), ops[k - 1])
  }

  function Opened(devs: seq<EndpointDev>): (a: Attr) {
    if devs == [] then Attr({}, map[], [])
    else
      var a, d := Opened(devs[..|devs| - 1]), devs[|devs| - 1];
      if d.index < 0 || d.index > 1 || d.dev == "" then a
      else Attr(a.endpoints + {d.index}, a.candidates[d.index := NoCandidate], a.conflicts)
  }

  /** What an endpoint's own state licenses: a MAC in state Single, nothing otherwise. */
  function OwnEntry(a: Attr, ep: int): (e: EndpointAttrib) {
    var c := CandidateOf(a, ep);
    EndpointAttrib(ep, c.state, if c.state == Single then Some(c.mac) else None)
  }

  /** The entry as reported: a conflicted MAC is withheld. */
  function GuardedEntry(a: Attr, ep: int): (e: EndpointAttrib) {
    var c := CandidateOf(a, ep);
    if c.state == Single && InConflict(a.conflicts, c.mac) then EndpointAttrib(ep, Unseen, None)
    else OwnEntry(a, ep)
  }

  function EntriesBelow(a: Attr, n: nat): (es: seq<EndpointAttrib>) {
    if n == 0 then []
    else EntriesBelow(a, n - 1) + if n - 1 in a.endpoints then [GuardedEntry(a, n - 1)] else []
  }

  function Entries(a: Attr): (es: seq<EndpointAttrib>) {
    EntriesBelow(a, 2)
  }

  // ----- The classifier as written --------------------------------------------------

  class Classifier {
    var counts: map<Key, nat>
    var endpoints: set<int>
    var candidates: map<int, Candidate>
    var conflicts: seq<Conflict>

    function Now(): Attr
      reads this
    {
      Attr(endpoints, candidates, conflicts)
    }

    constructor (devs: seq<EndpointDev>)
      ensures Now() == Opened(devs) && counts == map[]
    {
      counts, endpoints, candidates, conflicts := map[], {}, map[], [];
      new;
      assert devs[..0] == [];
      for i := 0 to |devs|
        invariant Now() == Opened(devs[..i]) && counts == map[]
      {
        assert devs[..i + 1][..i] == devs[..i];
        var d := devs[i];
        if d.index < 0 || d.index > 1 || d.dev == "" {
          continue;
        }
        endpoints := endpoints + {d.index};
        candidates := candidates[d.index := NoCandidate];
      }
      assert devs[..|devs|] == devs;
    }

    method EnsureEndpoint(ep: int)
      modifies this`endpoints, this`candidates
      ensures Now() == WithEndpoint(old(Now()), ep)
    {
      if ep < 0 || ep > 1 {
        return;
      }
      endpoints := endpoints + {ep};
      if ep !in candidates {
        candidates := candidates[ep := NoCandidate];
      } else {
        assert candidates[ep := candidates[ep]] == candidates;
      }
    }

    method Count(ep: int, lbl: string, subtype: string)
      modifies this
      ensures Now() == Step(old(Now()), CountFrame(ep))
      ensures var k := Key(ep, lbl, subtype);
              counts == old(counts)[k := if k in old(counts) then old(counts)[k] + 1 else 1]
    {
      EnsureEndpoint(ep);
      var k := Key(ep, lbl, subtype);
      counts := counts[k := if k in counts then counts[k] + 1 else 1];
    }

    /** The index of the entry for `mac`, or -1. */
    method ConflictIndex(mac: Mac) returns (i: int)
      ensures i >= -1 && (i != -1 <==> InConflict(conflicts, mac))
      ensures i != -1 ==>
                0 <= i < |conflicts| && conflicts[i].mac == mac && forall j | 0 <= j < i :: conflicts[j].mac != mac
    {
      for k := 0 to |conflicts|
        invariant forall j | 0 <= j < k :: conflicts[j].mac != mac
      {
        if conflicts[k].mac == mac {
          return k;
        }
      }
      return -1;
    }

    method AddConflict(mac: Mac, now: int)
      modifies this`conflicts
      ensures conflicts == WithConflict(old(conflicts), mac, now)
    {
      var i := ConflictIndex(mac);
      if i >= 0 {
        TouchedAt(conflicts, mac, now, i);
        conflicts := conflicts[i := Conflict(mac, now)];
        return;
      }
      conflicts := conflicts + [Conflict(mac, now)];
      if |conflicts| > MAX_CONFLICT {
        var oldest := OldestIndex();
        conflicts := conflicts[..oldest] + conflicts[oldest + 1..];
      }
    }

    method OldestIndex() returns (oldest: nat)
      requires conflicts != []
      ensures oldest == Oldest(conflicts)
    {
      oldest := 0;
      assert conflicts[..1] == [conflicts[0]];
      for k := 1 to |conflicts|
        invariant 0 <= oldest < k && oldest == Oldest(conflicts[..k])
      {
        assert conflicts[..k + 1][..k] == conflicts[..k];
        if conflicts[k].lastSeen < conflicts[oldest].lastSeen {
          oldest := k;
        }
      }
      assert conflicts[..|conflicts|] == conflicts;
    }

    method ExpireOld(now: int)
      modifies this`candidates, this`conflicts
      ensures Now() == Expire(old(Now()), now)
    {
      candidates := map ep | ep in candidates ::
        if Expired(candidates[ep], now) then NoCandidate else candidates[ep];
      var kept: seq<Conflict> := [];
      assert [] + AliveConflicts(conflicts, now) == AliveConflicts(conflicts, now) && conflicts[0..] == conflicts;
      for i := 0 to |conflicts|
        invariant kept + AliveConflicts(conflicts[i..], now) == AliveConflicts(conflicts, now)
      {
        assert conflicts[i..][1..] == conflicts[i + 1..];
        if now - conflicts[i].lastSeen <= MAC_TTL {
          kept := kept + [conflicts[i]];
        }
      }
      assert AliveConflicts(conflicts[|conflicts|..], now) == [] && kept + [] == kept;
      conflicts := kept;
      assert candidates == Expire(old(Now()), now).candidates;
    }

    method ClearCandidate(ep: int)
      requires 0 <= ep <= 1
      modifies this`endpoints, this`candidates
      ensures Now() == SetCandidate(WithEndpoint(old(Now()), ep), ep, NoCandidate)
    {
      EnsureEndpoint(ep);
      candidates := candidates[ep := NoCandidate];
    }

    method ObserveSource(ep: int, mac: Mac, now: int)
      requires candidates.Keys == endpoints
      modifies this`endpoints, this`candidates, this`conflicts
      ensures Now() == Step(old(Now()), Op.ObserveSource(ep, mac, now)) && candidates.Keys == endpoints
    {
      hide WithConflict, InConflict;
      if !ValidSource(mac) || ep < 0 || ep > 1 {
        return;
      }
      EnsureEndpoint(ep);
      var other := 1 - ep;
      if other in candidates && candidates[other].state == Single && candidates[other].mac == mac {
        AddConflict(mac, now);
        assert WithEndpoint(Now(), other) == Now();
        ClearCandidate(other);
        var current := candidates[ep];
        match current.state {
          case Single =>
            if current.mac == mac {
              assert WithEndpoint(Now(), ep) == Now();
              ClearCandidate(ep);
            } else {
              candidates := candidates[ep := current.(state := Ambiguous, mac := ZERO_MAC, lastSeen := now)];
            }
          case Ambiguous =>
            candidates := candidates[ep := current.(lastSeen := now)];
          case Unseen =>
        }
        return;
      }
      var index := ConflictIndex(mac);
      var current := candidates[ep];
      if index >= 0 {
        match current.state {
          case Single =>
            if current.mac == mac {
              assert WithEndpoint(Now(), ep) == Now();
              ClearCandidate(ep);
            }
          case Ambiguous =>
            candidates := candidates[ep := current.(lastSeen := now)];
          case Unseen =>
        }
        return;
      }
      match current.state {
        case Unseen =>
          candidates := candidates[ep := Candidate(mac, Single, now, now)];
        case Single =>
          if current.mac == mac {
            candidates := candidates[ep := current.(lastSeen := now)];
          } else {
            candidates := candidates[ep := current.(mac := ZERO_MAC, state := Ambiguous, lastSeen := now)];
          }
        case Ambiguous =>
          candidates := candidates[ep := current.(lastSeen := now)];
      }
    }

    /** The report at time `now`: expire, then one entry per endpoint in index order. */
    method Attribution(now: int) returns (report: seq<EndpointAttrib>)
      requires candidates.Keys == endpoints <= {0, 1}
      modifies this`candidates, this`conflicts
      ensures Now() == Step(old(Now()), Report(now)) && candidates.Keys == endpoints
      ensures report == Entries(Now())
    {
      ExpireOld(now);
      report := [];
      ghost var a := Now();
      for ep := 0 to 2
        invariant Now() == a && candidates.Keys == endpoints
        invariant report == EntriesBelow(Now(), ep)
      {
        if ep in endpoints {
          var entry := Entry(ep);
          report := report + [entry];
        }
      }
    }

    method Entry(ep: int) returns (entry: EndpointAttrib)
      requires ep in candidates
      ensures entry == GuardedEntry(Now(), ep)
    {
      var candidate := candidates[ep];
      var index := ConflictIndex(candidate.mac);
      entry := EndpointAttrib(ep, candidate.state, None);
      if candidate.state == Single && index < 0 {
        entry := entry.(mac := Some(candidate.mac));
      } else if candidate.state == Single {
        entry := entry.(state := Unseen);
      }
    }
  }

  lemma {:induction false} TouchedAt(cs: seq<Conflict>, mac: Mac, now: int, i: nat)
    requires i < |cs| && cs[i].mac == mac && forall j | 0 <= j < i :: cs[j].mac != mac
    ensures Touched(cs, mac, now) == cs[i := Conflict(mac, now)]
  {
    if i > 0 {
      TouchedAt(cs[1..], mac, now, i - 1);
      assert cs[i := Conflict(mac, now)] == [cs[0]] + cs[1..][i - 1 := Conflict(mac, now)];
    }
  }
}
