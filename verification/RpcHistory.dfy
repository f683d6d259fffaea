/** Every run of the RPC client told by its events alone: who settles a call, and how; what is sent; when it redials. */
module RpcHistory {
  import opened Wrappers
  import opened Rpc
  import opened RpcProofs

  /** An open after an earlier open. */
  predicate Reconnects(steps: seq<Step>, j: nat)
    requires j < |steps|
  {
    steps[j].SocketOpens? && exists i | 0 <= i < j :: steps[i].SocketOpens?
  }

  predicate Disconnects(steps: seq<Step>, k: nat)
    requires k <= |steps|
  {
    exists i | 0 <= i < k :: steps[i].Disconnect?
  }

  /** Event j makes the call `id`. */
  predicate Makes(steps: seq<Step>, j: nat, id: Id)
    requires j < |steps|
  {
    steps[j] == Call(id) || (Reconnects(steps, j) && exists i | 0 <= i < |steps[j].calls| :: steps[j].calls[i] == id)
  }

  /** Event j ends a pending call `id`: ok resolves it, an error rejects it, a reconnect disconnects it. */
  predicate Ends(steps: seq<Step>, j: nat, id: Id, o: Outcome)
    requires j < |steps|
  {
    match o
    case Resolved => steps[j] == Reply(id, true) && !Disconnects(steps, j)
    case Rejected => steps[j] == Reply(id, false) && !Disconnects(steps, j)
    case Disconnected => Reconnects(steps, j)
  }

  predicate EndsSomehow(steps: seq<Step>, j: nat, id: Id)
    requires j < |steps|
  {
    Ends(steps, j, id, Resolved) || Ends(steps, j, id, Rejected) || Ends(steps, j, id, Disconnected)
  }

  /** Event i made the call and none of the events before event k has ended it. */
  predicate WaitsSince(steps: seq<Step>, k: nat, id: Id, i: nat)
    requires k <= |steps|
  {
    i < k && Makes(steps, i, id) && forall j | i < j < k :: !EndsSomehow(steps, j, id)
  }

  predicate Waits(steps: seq<Step>, k: nat, id: Id)
    requires k <= |steps|
  {
    exists i | 0 <= i < k :: WaitsSince(steps, k, id, i)
  }

  // ----- The connection ------------------------------------------------------------------

  lemma {:induction false} OpenedBefore(states: seq<State>, steps: seq<Step>, k: nat)
    requires IsRun(states, steps) && k <= |steps|
    ensures states[k].subscribed <==> !Disconnects(steps, k)
    ensures states[k].subscribed ==> (states[k].t.everConnected <==> exists i | 0 <= i < k :: steps[i].SocketOpens?)
  {
    if k > 0 {
      OpenedBefore(states, steps, k - 1);
      RunInv(states, steps, k - 1);
      var s, step := states[k - 1], steps[k - 1];
      assert states[k] == Next(s, step);
      Connection(s, step);
      hide Inv, Next, Enabled;
      assert Disconnects(steps, k) <==> Disconnects(steps, k - 1) || step.Disconnect?;
      assert (exists i | 0 <= i < k :: steps[i].SocketOpens?)
        <==> step.SocketOpens? || exists i | 0 <= i < k - 1 :: steps[i].SocketOpens?;
    }
  }

  lemma Connection(s: State, step: Step)
    requires Inv(s) && Enabled(s, step)
    ensures var s' := Next(s, step);
            && (s'.subscribed <==> s.subscribed && !step.Disconnect?)
            && (s'.subscribed ==> (s'.t.everConnected <==> s.t.everConnected || step.SocketOpens?))
            && (step.SocketOpens? ==> s.subscribed)
  {
    hide Accounted, Ordered;
    if step.SocketOpens? {
      var t := s.t.(connected := true, socket := Open, reconnectAttempts := 0, outbox := [], everConnected := true);
      CallsKeep(RejectedAll(s.(t := t, sent := s.sent + s.t.outbox)), step.calls);
    }
  }

  lemma {:induction false} CallsKeep(s: State, ids: seq<Id>)
    ensures var s' := CalledAll(s, ids);
            s'.subscribed == s.subscribed && s'.settled == s.settled && s'.t == s.t.(outbox := s'.t.outbox)
    decreases |ids|
  {
    if ids != [] {
      CallsKeep(s, ids[..|ids| - 1]);
    }
  }

  lemma ReconnectsWhen(states: seq<State>, steps: seq<Step>, k: nat)
    requires IsRun(states, steps) && k < |steps|
    ensures Reconnects(steps, k) <==> steps[k].SocketOpens? && states[k].t.everConnected
  {
    OpenedBefore(states, steps, k);
    RunInv(states, steps, k);
    assert Enabled(states[k], steps[k]);
    Connection(states[k], steps[k]);
    hide Inv, Enabled, Next;
  }

  // ----- Who settles a call ----------------------------------------------------------------

  /** What one event does to one call, whatever else it does. */
  lemma OneEvent(states: seq<State>, steps: seq<Step>, k: nat, id: Id)
    requires IsRun(states, steps) && k < |steps|
    ensures var s, s' := states[k], states[k + 1];
            && (id in s'.pending <==> Makes(steps, k, id) || (id in s.pending && !EndsSomehow(steps, k, id)))
            && (forall o :: Settlement(id, o) in s'.settled
                  <==> Settlement(id, o) in s.settled || (id in s.pending && Ends(steps, k, id, o)))
  {
    var s, step := states[k], steps[k];
    RunInv(states, steps, k);
    OpenedBefore(states, steps, k);
    ReconnectsWhen(states, steps, k);
    assert Enabled(s, step) && states[k + 1] == Next(s, step);
    hide Reconnects, Disconnects, IsRun;
    match step
    case SocketOpens(calls) =>
      OpenSettles(s, calls);
      if s.t.everConnected {
        hide Inv, Next, Enabled;
        RejectedIds(s, id);
      } else {
        hide Inv, Enabled, CalledAll;
      }
    case Reply(rid, ok) =>
      hide Inv, Enabled;
    case _ =>
      hide Accounted, Ordered;
  }

  lemma RejectedIds(s: State, id: Id)
    requires Inv(s)
    ensures forall o :: Settlement(id, o) in AllDisconnected(PendingInOrder(s.issued, s.pending))
              <==> o == Disconnected && id in s.pending
  {
    var stale := PendingInOrder(s.issued, s.pending);
    PendingInOrderIs(s.issued, s.pending);
    assert Range(stale) == s.pending;
    var all := AllDisconnected(stale);
    assert id in stale <==> id in Range(stale);
    if id in s.pending {
      var i :| 0 <= i < |stale| && stale[i] == id;
      assert all[i] == Settlement(id, Disconnected);
    }
    forall o | Settlement(id, o) in all
      ensures o == Disconnected && id in s.pending
    {
      var i :| 0 <= i < |all| && all[i] == Settlement(id, o);
      assert stale[i] == id;
    }
  }

  lemma {:induction false} PendingIs(states: seq<State>, steps: seq<Step>, k: nat, id: Id)
    requires IsRun(states, steps) && k <= |steps|
    ensures id in states[k].pending <==> Waits(steps, k, id)
  {
    hide Makes, EndsSomehow;
    if k > 0 {
      PendingIs(states, steps, k - 1, id);
      OneEvent(states, steps, k - 1, id);
      hide IsRun;
      WaitsStep(steps, k, id);
    }
  }

  lemma WaitsStep(steps: seq<Step>, k: nat, id: Id)
    requires 0 < k <= |steps|
    ensures Waits(steps, k, id)
       <==> Makes(steps, k - 1, id) || (Waits(steps, k - 1, id) && !EndsSomehow(steps, k - 1, id))
  {
    hide Makes, EndsSomehow;
    if Makes(steps, k - 1, id) {
      assert WaitsSince(steps, k, id, k - 1);
    } else if Waits(steps, k - 1, id) && !EndsSomehow(steps, k - 1, id) {
      var i :| 0 <= i < k - 1 && WaitsSince(steps, k - 1, id, i);
      assert WaitsSince(steps, k, id, i);
    }
    forall i | 0 <= i < k && WaitsSince(steps, k, id, i)
      ensures i == k - 1 || WaitsSince(steps, k - 1, id, i)
    {
    }
  }

  /**
   In every run a call is settled by the first event after it was made that can
   end it: resolved by its own ok reply, rejected by its own error reply,
   disconnected by a reconnect, and by nothing else.
   */
  lemma {:induction false} SettledExactly(states: seq<State>, steps: seq<Step>, k: nat, id: Id, o: Outcome)
    requires IsRun(states, steps) && k <= |steps|
    ensures Settlement(id, o) in states[k].settled
       <==> exists j | 0 <= j < k :: Waits(steps, j, id) && Ends(steps, j, id, o)
  {
    hide Waits, Ends;
    if k > 0 {
      SettledExactly(states, steps, k - 1, id, o);
      OneEvent(states, steps, k - 1, id);
      PendingIs(states, steps, k - 1, id);
      hide IsRun;
      assert (exists j | 0 <= j < k :: Waits(steps, j, id) && Ends(steps, j, id, o))
        <==> (Waits(steps, k - 1, id) && Ends(steps, k - 1, id, o))
             || exists j | 0 <= j < k - 1 :: Waits(steps, j, id) && Ends(steps, j, id, o);
    }
  }

  // ----- What is sent ------------------------------------------------------------------------

  /** Until a disconnect an open socket has been given every call made so far, and no other is given any. */
  lemma SentWhileOpen(states: seq<State>, steps: seq<Step>, k: nat)
    requires IsRun(states, steps) && k < |steps|
    ensures var s, s' := states[k], states[k + 1];
            && (s'.sent != s.sent ==> s'.t.socket == Open)
            && (s'.t.socket == Open ==> s'.sent == s'.issued)
  {
    var s, step := states[k], steps[k];
    RunInv(states, steps, k);
    RunInv(states, steps, k + 1);
    assert Enabled(s, step) && states[k + 1] == Next(s, step);
    var s' := states[k + 1];
    hide Accounted, IsRun;
    assert s'.sent + [] == s'.sent;
    if step.SocketOpens? {
      var t := s.t.(connected := true, socket := Open, reconnectAttempts := 0, outbox := [], everConnected := true);
      CallsKeep(RejectedAll(s.(t := t, sent := s.sent + s.t.outbox)), step.calls);
    }
  }

  // ----- When it redials -----------------------------------------------------------------------

  /** The closes since the last open. */
  function Closes(steps: seq<Step>, k: nat): (n: nat)
    requires k <= |steps|
  {
    if k == 0 || steps[k - 1].SocketOpens? then 0
    else Closes(steps, k - 1) + if steps[k - 1].SocketCloses? then 1 else 0
  }

  lemma {:induction false} AttemptsAre(states: seq<State>, steps: seq<Step>, k: nat)
    requires IsRun(states, steps) && k <= |steps| && !Disconnects(steps, k)
    ensures states[k].t.reconnectAttempts == Closes(steps, k)
  {
    hide Accounted, Ordered;
    if k > 0 {
      var s, step := states[k - 1], steps[k - 1];
      AttemptsAre(states, steps, k - 1);
      RunInv(states, steps, k - 1);
      OpenedBefore(states, steps, k - 1);
      assert Enabled(s, step) && states[k] == Next(s, step);
      hide IsRun, Disconnects;
      if step.SocketOpens? {
        var t := s.t.(connected := true, socket := Open, reconnectAttempts := 0, outbox := [], everConnected := true);
        CallsKeep(RejectedAll(s.(t := t, sent := s.sent + s.t.outbox)), step.calls);
      }
    }
  }

  /** After the n-th close in a row the next attempt is half a second away, doubled n - 1 times, 30 seconds at most. */
  lemma RedialsAfter(states: seq<State>, steps: seq<Step>, k: nat)
    requires IsRun(states, steps) && k < |steps| && steps[k].SocketCloses?
    ensures var n := Closes(steps, k);
            states[k + 1].t.timer == Some(if n < 6 then [500, 1000, 2000, 4000, 8000, 16000][n] else 30000)
  {
    var s, n := states[k], Closes(steps, k);
    RunInv(states, steps, k);
    OpenedBefore(states, steps, k);
    assert Enabled(s, steps[k]) && states[k + 1] == Next(s, steps[k]);
    hide Accounted, Ordered;
    AttemptsAre(states, steps, k);
    hide IsRun, Closes, Disconnects;
    assert Pow2(1) == 2 && Pow2(2) == 4 && Pow2(3) == 8 && Pow2(4) == 16 && Pow2(5) == 32 && Pow2(6) == 64;
    if n >= 6 {
      Doubled(n);
    }
  }

  lemma {:induction false} Doubled(n: nat)
    requires n >= 6
    ensures Pow2(n) >= 64
  {
    if n > 6 {
      Doubled(n - 1);
    } else {
      assert Pow2(3) == 8;
    }
  }
}
