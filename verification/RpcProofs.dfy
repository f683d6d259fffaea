/** What holds of every run of the RPC client and its transport. */
module RpcProofs {
  import opened Wrappers
  import opened Rpc

  function SettledIds(settled: seq<Settlement>): (ids: seq<Id>)
    ensures |ids| == |settled|
  {
    seq(|settled|, i requires 0 <= i < |settled| => settled[i].id)
  }

  /** Every call is pending or settled, never both, never settled twice. */
  predicate Accounted(s: State) {
    && NoDuplicates(s.issued) && NoDuplicates(SettledIds(s.settled))
    && Range(SettledIds(s.settled)) !! s.pending
    && Range(s.issued) == Range(SettledIds(s.settled)) + s.pending
  }

  /** Frames go out in issue order, each at most once; until disconnect none is lost. */
  predicate Ordered(s: State) {
    && s.sent <= s.issued
    && (s.subscribed ==> s.sent + s.t.outbox == s.issued)
  }

  /** The transport's own bookkeeping; it never gives up until told to. */
  predicate Alive(s: State) {
    && (s.t.connected ==> s.t.socket == Open || s.t.socket == ClosingDown)
    && (s.t.socket == Open ==> s.t.connected && s.t.everConnected)
    && (s.subscribed <==> !s.t.intentionalClose)
    && (s.subscribed && s.t.socket == Open ==> s.t.outbox == [])
    && (s.subscribed ==> (s.t.socket == NoSocket <==> s.t.timer.Some?))
    && (!s.subscribed ==> s.t.socket == NoSocket && s.t.timer == None)
    && (s.t.timer.Some? ==> 500 <= s.t.timer.value <= 30_000)
  }

  predicate Inv(s: State) {
    Accounted(s) && Ordered(s) && Alive(s)
  }

  ghost predicate IsRun(states: seq<State>, steps: seq<Step>) {
    && |states| == |steps| + 1 && states[0] == Started
    && forall k | 0 <= k < |steps| :: Enabled(states[k], steps[k]) && states[k + 1] == Next(states[k], steps[k])
  }

  // ----- Calls -------------------------------------------------------------------------

  lemma AppendNew(s: seq<Id>, id: Id)
    requires NoDuplicates(s) && id !in s
    ensures NoDuplicates(s + [id]) && Range(s + [id]) == Range(s) + {id}
  {
  }

  lemma CallInv(s: State, id: Id)
    requires Inv(s) && id !in s.issued
    ensures Inv(Called(s, id)) && Called(s, id).settled == s.settled
  {
    AppendNew(s.issued, id);
    assert id !in Range(s.issued);
    hide NoDuplicates, Range, SettledIds;
    assert s.sent + s.t.outbox + [id] == s.sent + (s.t.outbox + [id]);
    if s.subscribed && s.t.socket == Open {
      assert s.sent + [] == s.sent;
    }
  }

  lemma CalledAdds(s: State, id: Id)
    ensures var s' := Called(s, id);
            s'.issued == s.issued + [id] && s'.pending == s.pending + {id} && s'.t.everConnected == s.t.everConnected
  {
  }

  lemma {:induction false} CallsAdd(s: State, ids: seq<Id>)
    ensures var s' := CalledAll(s, ids);
            && s'.issued == s.issued + ids && s'.pending == s.pending + Range(ids)
            && s'.t.everConnected == s.t.everConnected
    decreases |ids|
  {
    if ids == [] {
      assert s.issued + [] == s.issued && Range([]) == {};
    } else {
      hide Called;
      var n := |ids| - 1;
      CallsAdd(s, ids[..n]);
      CalledAdds(CalledAll(s, ids[..n]), ids[n]);
      RangeAppend(ids[..n], [ids[n]]);
      assert ids[..n] + [ids[n]] == ids;
      hide Range;
      assert s.issued + ids[..n] + [ids[n]] == s.issued + ids;
    }
  }

  lemma {:induction false} CallsInv(s: State, ids: seq<Id>)
    requires Inv(s) && New(s, ids)
    ensures Inv(CalledAll(s, ids)) && CalledAll(s, ids).settled == s.settled
    decreases |ids|
  {
    if ids != [] {
      var n := |ids| - 1;
      assert New(s, ids[..n]);
      StillNew(s, ids, n);
      hide New, Inv, Called;
      CallsInv(s, ids[..n]);
      CallsAdd(s, ids[..n]);
      CallInv(CalledAll(s, ids[..n]), ids[n]);
    }
  }

  // ----- The reconnect rejection -----------------------------------------------------------

  lemma {:induction false} PendingInOrderIs(issued: seq<Id>, pending: set<Id>)
    requires NoDuplicates(issued)
    ensures var p := PendingInOrder(issued, pending);
            NoDuplicates(p) && Range(p) == Range(issued) * pending
    decreases |issued|
  {
    if issued != [] {
      var n := |issued| - 1;
      var p := PendingInOrder(issued[..n], pending);
      PendingInOrderIs(issued[..n], pending);
      assert issued[n] !in issued[..n];
      AppendNew(issued[..n], issued[n]);
      assert issued[..n] + [issued[n]] == issued;
      assert issued[n] !in Range(p) by { assert issued[n] !in Range(issued[..n]) * pending; }
      if issued[n] in pending {
        AppendNew(p, issued[n]);
        hide Range;
        assert Range(issued) * pending == (Range(issued[..n]) + {issued[n]}) * pending == Range(p) + {issued[n]};
      } else {
        hide Range;
        assert Range(issued) * pending == (Range(issued[..n]) + {issued[n]}) * pending == Range(p);
        assert p + [] == p;
      }
    }
  }

  lemma JoinApart(a: seq<Id>, b: seq<Id>)
    requires NoDuplicates(a) && NoDuplicates(b) && Range(a) !! Range(b)
    ensures NoDuplicates(a + b) && Range(a + b) == Range(a) + Range(b)
  {
    forall i, j | 0 <= i < j < |a + b|
      ensures (a + b)[i] != (a + b)[j]
    {
      if i < |a| <= j {
        assert a[i] in Range(a) && b[j - |a|] in Range(b);
      }
    }
  }

  lemma RejectAccounted(s: State)
    requires Accounted(s)
    ensures Accounted(RejectedAll(s)) && RejectedAll(s).pending == {}
    ensures forall id | id in s.pending :: Settlement(id, Disconnected) in RejectedAll(s).settled
  {
    var stale := PendingInOrder(s.issued, s.pending);
    PendingInOrderIs(s.issued, s.pending);
    assert Range(stale) == s.pending;
    var before, more := s.settled, AllDisconnected(stale);
    assert SettledIds(more) == stale;
    assert SettledIds(before + more) == SettledIds(before) + stale;
    JoinApart(SettledIds(before), stale);
    forall id | id in s.pending
      ensures Settlement(id, Disconnected) in RejectedAll(s).settled
    {
      assert id in Range(stale);
      var i :| 0 <= i < |stale| && stale[i] == id;
      assert more[i] == Settlement(id, Disconnected);
    }
  }

  lemma OpenInv(s: State, calls: seq<Id>)
    requires Inv(s) && Enabled(s, SocketOpens(calls))
    ensures Inv(Opened(s, calls))
  {
    var t := s.t.(connected := true, socket := Open, reconnectAttempts := 0, outbox := [], everConnected := true);
    var flushed := s.(t := t, sent := s.sent + s.t.outbox);
    assert s.subscribed;
    assert flushed.sent + [] == flushed.sent;
    hide NoDuplicates, Range, SettledIds;
    assert Inv(flushed);
    if s.t.everConnected {
      RejectAccounted(flushed);
      CallsInv(RejectedAll(flushed), calls);
    }
  }

  // ----- Replies -----------------------------------------------------------------------------

  lemma ReplyInv(s: State, id: Id, ok: bool)
    requires Inv(s)
    ensures Inv(Next(s, Reply(id, ok)))
  {
    if s.subscribed && id in s.pending {
      var outcome := Settlement(id, if ok then Resolved else Rejected);
      assert SettledIds(s.settled + [outcome]) == SettledIds(s.settled) + [id];
      assert id !in Range(SettledIds(s.settled));
      AppendNew(SettledIds(s.settled), id);
    }
  }

  /** A reply to a call that is settled already, or was never made, changes nothing. */
  lemma LateReply(s: State, id: Id, ok: bool)
    requires Inv(s) && (id in SettledIds(s.settled) || id !in s.issued)
    ensures Next(s, Reply(id, ok)) == s
  {
    if id in SettledIds(s.settled) {
      assert id in Range(SettledIds(s.settled));
    } else {
      assert id !in Range(s.issued);
    }
  }

  // ----- Every run ------------------------------------------------------------------------------

  lemma StepInv(s: State, step: Step)
    requires Inv(s) && Enabled(s, step)
    ensures Inv(Next(s, step))
  {
    match step
    case Call(id) => CallInv(s, id);
    case SocketOpens(calls) => OpenInv(s, calls);
    case Reply(id, ok) => ReplyInv(s, id, ok);
    case _ => hide Accounted;
              assert Accounted(Next(s, step)) by { SameAccounts(s, Next(s, step)); }
  }

  lemma SameAccounts(s: State, s': State)
    requires s.issued == s'.issued && s.settled == s'.settled && s.pending == s'.pending
    ensures Accounted(s) == Accounted(s')
  {
  }

  /**
   In every run: every call is pending or settled exactly once; frames go out in
   issue order, each at most once, and until disconnect none is lost; a transport
   without a socket has its reconnect timer armed.
   */
  lemma {:induction false} RunInv(states: seq<State>, steps: seq<Step>, k: nat)
    requires IsRun(states, steps) && k < |states|
    ensures Inv(states[k])
  {
    if k > 0 {
      RunInv(states, steps, k - 1);
      StepInv(states[k - 1], steps[k - 1]);
    } else {
      assert Range([]) == {};
    }
  }

  /** Who settled what: a step settles a call only as its own reply or as a reconnect. */
  lemma SettledBy(s: State, step: Step, id: Id)
    requires Inv(s) && Enabled(s, step) && id !in SettledIds(s.settled) && id in SettledIds(Next(s, step).settled)
    ensures id in s.pending
    ensures (step.Reply? && step.id == id) || (step.SocketOpens? && s.t.everConnected)
  {
    match step
    case Call(_) =>
    case SocketOpens(calls) => OpenSettles(s, calls);
    case Reply(rid, ok) =>
      if s.subscribed && rid in s.pending {
        assert SettledIds(Next(s, step).settled) == SettledIds(s.settled) + [rid];
      }
    case _ =>
  }

  /**
   A reconnect settles every call made before that open, including those whose
   frame it has just flushed; only calls made by the handlers are pending.
   */
  lemma OpenSettles(s: State, calls: seq<Id>)
    requires Inv(s) && Enabled(s, SocketOpens(calls))
    ensures var s' := Next(s, SocketOpens(calls));
            if s.t.everConnected then
              && s'.pending == Range(calls)
              && s'.settled == s.settled + AllDisconnected(PendingInOrder(s.issued, s.pending))
              && Range(SettledIds(s'.settled)) == Range(s.issued)
              && s'.sent == s.sent + s.t.outbox + calls
            else s'.settled == s.settled && s'.pending == s.pending
    ensures forall id | id in SettledIds(Next(s, SocketOpens(calls)).settled) && id !in SettledIds(s.settled) ::
              id in s.pending
  {
    var t := s.t.(connected := true, socket := Open, reconnectAttempts := 0, outbox := [], everConnected := true);
    var flushed := s.(t := t, sent := s.sent + s.t.outbox);
    assert flushed.sent + [] == flushed.sent;
    assert Inv(flushed);
    if s.t.everConnected {
      RejectAccounted(flushed);
      CallsInv(RejectedAll(flushed), calls);
      CallsAdd(RejectedAll(flushed), calls);
      OpenInv(s, calls);
      var s' := Opened(s, calls);
      assert s'.t.socket == Open by { StaysOpen(RejectedAll(flushed), calls); }
      assert s'.sent + [] == s'.issued;
      forall id | id in SettledIds(s'.settled) && id !in SettledIds(s.settled)
        ensures id in s.pending
      {
        assert id in Range(SettledIds(s'.settled)) && id !in Range(SettledIds(s.settled));
      }
    }
  }

  lemma {:induction false} StaysOpen(s: State, ids: seq<Id>)
    ensures CalledAll(s, ids).t.socket == s.t.socket
    decreases |ids|
  {
    if ids != [] {
      StaysOpen(s, ids[..|ids| - 1]);
    }
  }

  /** A call made while the connection is down is transmitted by the reconnect and rejected by it as well. */
  lemma QueuedIsSentAndRejected(s: State, calls: seq<Id>, id: Id)
    requires Inv(s) && Enabled(s, SocketOpens(calls)) && s.t.everConnected && id in s.t.outbox && id in s.pending
    ensures var s' := Next(s, SocketOpens(calls));
            id in s'.sent && Settlement(id, Disconnected) in s'.settled
  {
    OpenSettles(s, calls);
    RejectAccounted(s);
  }

  /** What is settled stays settled, in the same order. */
  lemma {:induction false} SettledForEver(states: seq<State>, steps: seq<Step>, j: nat, k: nat)
    requires IsRun(states, steps) && j <= k < |states|
    ensures states[j].settled <= states[k].settled && states[j].sent <= states[k].sent
    decreases k
  {
    hide Inv, Next, Enabled;
    if j < k {
      SettledForEver(states, steps, j, k - 1);
      RunInv(states, steps, k - 1);
      OnlyAdds(states[k - 1], steps[k - 1]);
    }
  }

  lemma OnlyAdds(s: State, step: Step)
    requires Inv(s) && Enabled(s, step)
    ensures s.settled <= Next(s, step).settled && s.sent <= Next(s, step).sent
  {
    hide NoDuplicates, Range, SettledIds;
    if step.SocketOpens? {
      OpenSettles(s, step.calls);
    }
  }
}
