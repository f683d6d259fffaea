/**
 The RPC client over a reconnecting transport (app/src/lib/supervisor.ts and
 app/src/lib/wsTransport.ts).

 Steps are what the event loop can interleave: calls, socket events, the
 reconnect timer and incoming frames. A request is represented by its id; `uuid()`
 is an input that must be new.
 */
module Rpc {
  import opened Wrappers

  type Id = string

  /** The newest WebSocket; a closing one is still `connected` until its close event. */
  datatype Socket = NoSocket | Connecting | Open | ClosingDown

  datatype Outcome = Resolved | Rejected | Disconnected

  datatype Settlement = Settlement(id: Id, outcome: Outcome)

  datatype Transport = Transport(
    connected: bool, socket: Socket, everConnected: bool, outbox: seq<Id>,
    reconnectAttempts: nat, timer: Option<nat>, intentionalClose: bool)

  /** `issued`, `sent` and `settled` record every call, frame handed to a socket, and settled promise. */
  datatype State = State(t: Transport, pending: set<Id>, subscribed: bool,
                         issued: seq<Id>, sent: seq<Id>, settled: seq<Settlement>)

  datatype Step =
    | Call(id: Id)
    | SocketOpens(calls: seq<Id>)  // calls the reconnect handlers make in turn
    | SocketStartsClosing
    | SocketCloses
    | TimerFires
    | Reply(id: Id, ok: bool)
    | Disconnect

  /** After connect() has created the first socket. */
  const Started: State :=
    State(Transport(false, Connecting, false, [], 0, None, false), {}, true, [], [], [])

  function Pow2(n: nat): (p: nat)
    ensures p >= 1
  {
    if n == 0 then 1 else 2 * Pow2(n - 1)
  }

  function Delay(attempts: nat): (d: nat) {
    if 500 * Pow2(attempts) < 30_000 then 500 * Pow2(attempts) else 30_000
  }

  function Range(s: seq<Id>): (r: set<Id>) {
    set x | x in s
  }

  predicate NoDuplicates<T(==)>(s: seq<T>) {
    forall i, j | 0 <= i < j < |s| :: s[i] != s[j]
  }

  predicate New(s: State, ids: seq<Id>) {
    NoDuplicates(ids) && forall i | 0 <= i < |ids| :: ids[i] !in s.issued
  }

  predicate Enabled(s: State, step: Step) {
    match step
    case Call(id) => id !in s.issued
    case SocketOpens(calls) => s.t.socket == Connecting && New(s, calls) && (!s.t.everConnected ==> calls == [])
    case SocketStartsClosing => s.t.socket == Open || s.t.socket == Connecting
    case SocketCloses => s.t.socket != NoSocket
    case TimerFires => s.t.timer.Some?
    case Reply(_, _) => true
    case Disconnect => true
  }

  // ----- Meaning ---------------------------------------------------------------------

  function Sent(s: State, id: Id): (s': State) {
    if s.t.connected && s.t.socket == Open then s.(sent := s.sent + [id])
    else s.(t := s.t.(outbox := s.t.outbox + [id]))
  }

  function Called(s: State, id: Id): (s': State) {
    Sent(s.(pending := s.pending + {id}, issued := s.issued + [id]), id)
  }

  function CalledAll(s: State, ids: seq<Id>): (s': State)
    decreases |ids|
  {
    if ids == [] then s else Called(CalledAll(s, ids[..|ids| - 1]), ids[|ids| - 1])
  }

  /** The pending calls in the order they were made, as a Map iterates. */
  function PendingInOrder(issued: seq<Id>, pending: set<Id>): (ids: seq<Id>) {
    if issued == [] then []
    else
      var n := |issued| - 1;
      PendingInOrder(issued[..n], pending) + if issued[n] in pending then [issued[n]] else []
  }

  function AllDisconnected(ids: seq<Id>): (r: seq<Settlement>)
    ensures |r| == |ids|
  {
    seq(|ids|, i requires 0 <= i < |ids| => Settlement(ids[i], Disconnected))
  }

  function RejectedAll(s: State): (s': State) {
    s.(settled := s.settled + AllDisconnected(PendingInOrder(s.issued, s.pending)), pending := {})
  }

  function Opened(s: State, calls: seq<Id>): (s': State) {
    var t := s.t.(connected := true, socket := Open, reconnectAttempts := 0, outbox := [], everConnected := true);
    var flushed := s.(t := t, sent := s.sent + s.t.outbox);
    if s.t.everConnected && s.subscribed then CalledAll(RejectedAll(flushed), calls) else flushed
  }

  function Closed(t: Transport): (t': Transport) {
    var t1 := t.(connected := false, socket := NoSocket);
    if t.intentionalClose || t.timer.Some? then t1
    else t1.(timer := Some(Delay(t.reconnectAttempts)), reconnectAttempts := t.reconnectAttempts + 1)
  }

  function Next(s: State, step: Step): (s': State) {
    match step
    case Call(id) => Called(s, id)
    case SocketOpens(calls) => Opened(s, calls)
    case SocketStartsClosing => s.(t := s.t.(socket := ClosingDown))
    case SocketCloses => s.(t := Closed(s.t))
    case TimerFires =>
      s.(t := s.t.(timer := None, socket := if s.t.intentionalClose then s.t.socket else Connecting))
    case Reply(id, ok) =>
      if s.subscribed && id in s.pending then
        s.(pending := s.pending - {id}, settled := s.settled + [Settlement(id, if ok then Resolved else Rejected)])
      else s
    case Disconnect =>
      s.(t := s.t.(intentionalClose := true, timer := None, connected := false, socket := NoSocket, outbox := [],
                   everConnected := false),
         subscribed := false)
  }

  // ----- The classes as written ---------------------------------------------------------

  class WsTransport {
    var connected: bool
    var socket: Socket
    var everConnected: bool
    var outbox: seq<Id>
    var reconnectAttempts: nat
    var timer: Option<nat>
    var intentionalClose: bool
    /** Every frame handed to a socket. */
    var sent: seq<Id>

    function Now(): Transport
      reads this
    {
      Transport(connected, socket, everConnected, outbox, reconnectAttempts, timer, intentionalClose)
    }

    constructor ()
      ensures Now() == Started.t && sent == []
    {
      connected, socket, everConnected, outbox := false, Connecting, false, [];
      reconnectAttempts, timer, intentionalClose, sent := 0, None, false, [];
    }

    method Send(id: Id)
      modifies this`sent, this`outbox
      ensures sent == if connected && socket == Open then old(sent) + [id] else old(sent)
      ensures outbox == if connected && socket == Open then old(outbox) else old(outbox) + [id]
    {
      if connected && socket == Open {
        sent := sent + [id];
      } else {
        outbox := outbox + [id];
      }
    }

    /** The open event; `again` says that the reconnect handlers must run. */
    method OnOpen() returns (again: bool)
      modifies this
      ensures Now() == old(Now()).(connected := true, socket := Open, reconnectAttempts := 0, outbox := [],
                                   everConnected := true)
      ensures sent == old(sent) + old(outbox) && again == old(everConnected)
    {
      connected := true;
      socket := Open;
      reconnectAttempts := 0;
      for i := 0 to |outbox|
        invariant outbox == old(outbox) && everConnected == old(everConnected)
        invariant sent == old(sent) + outbox[..i]
        invariant Now() == old(Now()).(connected := true, socket := Open, reconnectAttempts := 0)
      {
        sent := sent + [outbox[i]];
      }
      assert outbox[..|outbox|] == outbox;
      outbox := [];
      again := everConnected;
      everConnected := true;
    }

    method OnClose()
      modifies this
      ensures Now() == Closed(old(Now())) && sent == old(sent)
    {
      connected := false;
      socket := NoSocket;
      if !intentionalClose {
        ScheduleReconnect();
      }
    }

    method ScheduleReconnect()
      modifies this`timer, this`reconnectAttempts
      ensures if old(timer).Some? then timer == old(timer) && reconnectAttempts == old(reconnectAttempts)
              else timer == Some(Delay(old(reconnectAttempts))) && reconnectAttempts == old(reconnectAttempts) + 1
    {
      if timer.Some? {
        return;
      }
      var delay := 500 * Pow2(reconnectAttempts);
      reconnectAttempts := reconnectAttempts + 1;
      timer := Some(if delay < 30_000 then delay else 30_000);
    }

    /** The reconnect timer: connect() creates a new socket. */
    method TimerFires()
      requires timer.Some?
      modifies this`timer, this`socket
      ensures timer == None && socket == if intentionalClose then old(socket) else Connecting
    {
      timer := None;
      if intentionalClose {
        return;
      }
      socket := Connecting;
    }

    method Disconnect()
      modifies this
      ensures sent == old(sent)
      ensures Now() == old(Now()).(intentionalClose := true, timer := None, connected := false, socket := NoSocket,
                                   outbox := [], everConnected := false)
    {
      intentionalClose := true;
      timer := None;
      connected := false;
      socket := NoSocket;
      outbox := [];
      everConnected := false;
    }
  }

  class SupervisorClient {
    const transport: WsTransport
    /** The pending calls; a Map iterates in insertion order, so does this list. */
    var pending: seq<Id>
    var subscribed: bool
    var settled: seq<Settlement>
    ghost var issued: seq<Id>

    ghost function Now(): State
      reads this, transport
    {
      State(transport.Now(), Range(pending), subscribed, issued, transport.sent, settled)
    }

    ghost predicate Valid()
      reads this
    {
      NoDuplicates(issued) && pending == PendingInOrder(issued, Range(pending))
    }

    constructor ()
      ensures Valid() && Now() == Started && fresh(transport)
    {
      transport := new WsTransport();
      pending, subscribed, settled, issued := [], true, [], [];
    }

    method Call(id: Id)
      requires Valid() && id !in issued
      modifies this, transport
      ensures Valid() && Now() == Next(old(Now()), Step.Call(id)) && issued == old(issued) + [id]
    {
      PendingOnly(issued, Range(pending), id);
      pending := pending + [id];
      issued := issued + [id];
      assert Range(pending) == Range(old(pending)) + {id};
      assert issued[..|issued| - 1] == old(issued);
      transport.Send(id);
    }

    /** Settle the call a response belongs to, if it is still pending. */
    method OnFrame(id: Id, ok: bool)
      requires Valid()
      modifies this
      ensures Valid() && Now() == Next(old(Now()), Reply(id, ok))
    {
      if !subscribed || id !in pending {
        return;
      }
      pending := Removed(pending, id);
      settled := settled + [Settlement(id, if ok then Resolved else Rejected)];
      RemovedPending(issued, Range(old(pending)), id);
    }

    /** Reject everything pending, then run the subscribers' handlers, which may call again. */
    method HandleTransportReconnect(calls: seq<Id>)
      requires Valid() && New(Now(), calls)
      modifies this, transport
      ensures Valid() && Now() == CalledAll(RejectedAll(old(Now())), calls)
    {
      hide PendingInOrder, RejectedAll, Sent, Called;
      RejectStale();
      ghost var s := Now();
      for i := 0 to |calls|
        invariant Valid() && Now() == CalledAll(s, calls[..i]) && issued == s.issued + calls[..i]
      {
        assert calls[..i + 1][..i] == calls[..i];
        StillNew(s, calls, i);
        Call(calls[i]);
      }
      assert calls[..|calls|] == calls;
    }

    method RejectStale()
      requires Valid()
      modifies this
      ensures Valid() && Now() == RejectedAll(old(Now())) && issued == old(issued)
    {
      var stale := pending;
      pending := [];
      for i := 0 to |stale|
        invariant settled == old(settled) + AllDisconnected(stale[..i])
        invariant pending == [] && subscribed == old(subscribed) && issued == old(issued)
      {
        settled := settled + [Settlement(stale[i], Disconnected)];
        assert AllDisconnected(stale[..i + 1]) == AllDisconnected(stale[..i]) + [Settlement(stale[i], Disconnected)];
      }
      assert stale[..|stale|] == stale;
      NonePending(issued);
      assert Range([]) == {};
    }

    /** The transport's open event, with this client's handlers attached. */
    method OnTransportOpen(calls: seq<Id>)
      requires Valid() && New(Now(), calls)
      modifies this, transport
      ensures Valid() && Now() == Next(old(Now()), SocketOpens(calls))
    {
      var again := transport.OnOpen();
      if again && subscribed {
        HandleTransportReconnect(calls);
      }
    }

    method Disconnect()
      requires Valid()
      modifies this, transport
      ensures Valid() && Now() == Next(old(Now()), Step.Disconnect)
    {
      subscribed := false;
      transport.Disconnect();
    }
  }

  lemma StillNew(s: State, calls: seq<Id>, i: nat)
    requires New(s, calls) && i < |calls|
    ensures calls[i] !in s.issued + calls[..i]
  {
  }

  function Removed(s: seq<Id>, id: Id): (r: seq<Id>) {
    if s == [] then [] else if s[0] == id then Removed(s[1..], id) else [s[0]] + Removed(s[1..], id)
  }

  lemma {:induction false} RemovedAppend(a: seq<Id>, b: seq<Id>, id: Id)
    ensures Removed(a + b, id) == Removed(a, id) + Removed(b, id)
  {
    if a == [] {
      assert a + b == b;
    } else {
      assert (a + b)[1..] == a[1..] + b;
      RemovedAppend(a[1..], b, id);
    }
  }

  lemma RangeAppend(a: seq<Id>, b: seq<Id>)
    ensures Range(a + b) == Range(a) + Range(b) && forall x :: Range([x]) == {x}
  {
  }

  lemma {:induction false} RemovedRange(s: seq<Id>, id: Id)
    ensures Range(Removed(s, id)) == Range(s) - {id}
  {
    if s != [] {
      RemovedRange(s[1..], id);
      RangeAppend([s[0]], s[1..]);
      assert [s[0]] + s[1..] == s;
      RangeAppend([s[0]], Removed(s[1..], id));
    }
  }

  lemma {:induction false} RemovedPending(issued: seq<Id>, pending: set<Id>, id: Id)
    ensures var p := PendingInOrder(issued, pending);
            Removed(p, id) == PendingInOrder(issued, pending - {id}) && Range(Removed(p, id)) == Range(p) - {id}
    decreases |issued|
  {
    RemovedRange(PendingInOrder(issued, pending), id);
    if issued != [] {
      var n := |issued| - 1;
      RemovedPending(issued[..n], pending, id);
      RemovedAppend(PendingInOrder(issued[..n], pending), if issued[n] in pending then [issued[n]] else [], id);
      assert Removed([issued[n]], id) == if issued[n] == id then [] else [issued[n]];
    }
  }

  lemma {:induction false} PendingOnly(issued: seq<Id>, pending: set<Id>, id: Id)
    requires id !in issued
    ensures PendingInOrder(issued, pending + {id}) == PendingInOrder(issued, pending)
    decreases |issued|
  {
    if issued != [] {
      PendingOnly(issued[..|issued| - 1], pending, id);
    }
  }

  lemma {:induction false} NonePending(issued: seq<Id>)
    ensures PendingInOrder(issued, {}) == []
    decreases |issued|
  {
    if issued != [] {
      NonePending(issued[..|issued| - 1]);
    }
  }
}
