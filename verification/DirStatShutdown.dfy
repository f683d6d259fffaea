/**
 The classifier's shutdown protocol: read loops, the stop signal, and any number
 of concurrent Close calls (supervisor/internal/dirstat/dirstat.go and
 dirstat_linux.go). One event is one atomic step of one goroutine; every
 interleaving of enabled events is a run.
 */
module DirStatShutdown {
  /** A read loop: at the stop check, inside recvfrom, out of the loop, and behind wg.Done. */
  datatype Reader = Checking | Receiving | Returned | Gone

  /**
   A Close call: not called, waiting (`done` once its waiter saw wg at zero), drained,
   inside the once-guarded close (next socket), returned after closing, timed out.
   */
  datatype Closer = Idle | Waiting(done: bool) | Drained | Closing(next: nat) | Closed | TimedOut

  datatype Once = NotRun | Running(runner: nat) | Ran

  /** `closes[i]` counts the close(2) calls on the socket of reader i. */
  datatype State = State(readers: seq<Reader>, closers: seq<Closer>, stop: bool, wg: int, once: Once, closes: seq<nat>)

  datatype Event =
    | Check(i: nat)
    | Receive(i: nat, fatal: bool)
    | Done(i: nat)
    | Begin(c: nat)
    | WaiterSees(c: nat)
    | SelectDone(c: nat)
    | SelectTimeout(c: nat)
    | OnceEnter(c: nat)
    | OnceSkip(c: nat)
    | CloseSocket(c: nat)
    | OnceLeave(c: nat)

  function Opened(sockets: nat, calls: nat): (s: State) {
    State(seq(sockets, _ => Checking), seq(calls, _ => Idle), false, sockets, NotRun, seq(sockets, _ => 0))
  }

  predicate ReaderAt(s: State, i: nat, r: Reader) {
    i < |s.readers| && s.readers[i] == r
  }

  predicate CloserAt(s: State, c: nat, p: Closer) {
    c < |s.closers| && s.closers[c] == p
  }

  predicate Enabled(s: State, e: Event) {
    match e
    case Check(i) => ReaderAt(s, i, Checking)
    case Receive(i, _) => ReaderAt(s, i, Receiving)
    case Done(i) => ReaderAt(s, i, Returned)
    case Begin(c) => CloserAt(s, c, Idle)
    case WaiterSees(c) => CloserAt(s, c, Waiting(false)) && s.wg == 0
    case SelectDone(c) => CloserAt(s, c, Waiting(true))
    case SelectTimeout(c) => c < |s.closers| && s.closers[c].Waiting?
    case OnceEnter(c) => CloserAt(s, c, Drained) && s.once == NotRun
    case OnceSkip(c) => CloserAt(s, c, Drained) && s.once == Ran
    case CloseSocket(c) => c < |s.closers| && s.closers[c].Closing? && s.closers[c].next < |s.closes|
    case OnceLeave(c) => c < |s.closers| && s.closers[c].Closing? && s.closers[c].next >= |s.closes|
  }

  function SetReader(s: State, i: nat, r: Reader): (s': State)
    requires i < |s.readers|
  {
    s.(readers := s.readers[i := r])
  }

  function SetCloser(s: State, c: nat, p: Closer): (s': State)
    requires c < |s.closers|
  {
    s.(closers := s.closers[c := p])
  }

  function Next(s: State, e: Event): (s': State)
    requires Enabled(s, e)
  {
    match e
    case Check(i) => SetReader(s, i, if s.stop then Returned else Receiving)
    case Receive(i, fatal) => SetReader(s, i, if fatal then Returned else Checking)
    case Done(i) => SetReader(s, i, Gone).(wg := s.wg - 1)
    case Begin(c) => SetCloser(s, c, Waiting(false)).(stop := true)
    case WaiterSees(c) => SetCloser(s, c, Waiting(true))
    case SelectDone(c) => SetCloser(s, c, Drained)
    case SelectTimeout(c) => SetCloser(s, c, TimedOut)
    case OnceEnter(c) => SetCloser(s, c, Closing(0)).(once := Running(c))
    case OnceSkip(c) => SetCloser(s, c, Closed)
    case CloseSocket(c) =>
      var k := s.closers[c].next;
      if k < |s.closes| then SetCloser(s, c, Closing(k + 1)).(closes := s.closes[k := s.closes[k] + 1]) else s
    case OnceLeave(c) => SetCloser(s, c, Closed).(once := Ran)
  }

  /** `states` is a run: each state follows from the one before by an enabled event. */
  ghost predicate IsRun(states: seq<State>, events: seq<Event>) {
    && |states| == |events| + 1
    && forall k | 0 <= k < |events| :: Enabled(states[k], events[k]) && states[k + 1] == Next(states[k], events[k])
  }

  // ----- The invariant -----------------------------------------------------------------

  function Live(readers: seq<Reader>): (n: nat) {
    if readers == [] then 0 else Live(readers[1..]) + if readers[0] == Gone then 0 else 1
  }

  predicate AllGone(s: State) {
    forall i | 0 <= i < |s.readers| :: s.readers[i] == Gone
  }

  /** A closer past its wait. */
  predicate PastWait(p: Closer) {
    p == Waiting(true) || p.Drained? || p.Closing? || p.Closed?
  }

  /** How many sockets, from the first, have been closed. */
  function Progress(s: State): (n: nat) {
    match s.once
    case NotRun => 0
    case Running(c) => if c < |s.closers| && s.closers[c].Closing? then s.closers[c].next else 0
    case Ran => |s.closes|
  }

  predicate SomeClosed(s: State) {
    exists c :: 0 <= c < |s.closers| && s.closers[c].Closed?
  }

  /** Closers and the once agree. */
  predicate OnceInv(s: State) {
    && (s.once.Running? ==> s.once.runner < |s.closers| && s.closers[s.once.runner].Closing?)
    && (forall c | 0 <= c < |s.closers| && s.closers[c].Closing? :: s.once == Running(c))
    && (forall c | 0 <= c < |s.closers| && s.closers[c].Closed? :: s.once == Ran)
    && (s.once == Ran ==> SomeClosed(s))
  }

  predicate SocketInv(s: State) {
    && Progress(s) <= |s.closes|
    && (forall k | 0 <= k < |s.closes| :: s.closes[k] == if k < Progress(s) then 1 else 0)
  }

  predicate Inv(s: State) {
    && |s.closes| == |s.readers| && s.wg == Live(s.readers)
    && (forall c | 0 <= c < |s.closers| && PastWait(s.closers[c]) :: s.wg == 0)
    && OnceInv(s) && SocketInv(s)
  }

  lemma {:induction false} LiveSet(readers: seq<Reader>, i: nat, r: Reader)
    requires i < |readers| && readers[i] != Gone
    ensures Live(readers[i := r]) == Live(readers) - if r == Gone then 1 else 0
  {
    if i == 0 {
      assert readers[i := r][1..] == readers[1..];
    } else {
      assert readers[i := r][1..] == readers[1..][i - 1 := r];
      LiveSet(readers[1..], i - 1, r);
    }
  }

  lemma {:induction false} NoneLive(readers: seq<Reader>)
    ensures Live(readers) == 0 <==> forall i | 0 <= i < |readers| :: readers[i] == Gone
  {
    if readers != [] {
      NoneLive(readers[1..]);
      assert forall i | 1 <= i < |readers| :: readers[i] == readers[1..][i - 1];
      assert forall i | 0 <= i < |readers| - 1 :: readers[1..][i] == readers[i + 1];
    }
  }

  lemma {:induction false} AllLive(n: nat)
    ensures Live(seq(n, _ => Checking)) == n
  {
    if n > 0 {
      assert seq<Reader>(n, _ => Checking)[1..] == seq(n - 1, _ => Checking);
      AllLive(n - 1);
    }
  }

  lemma OpenedInv(sockets: nat, calls: nat)
    ensures Inv(Opened(sockets, calls))
  {
    AllLive(sockets);
  }

  predicate ByReader(e: Event) {
    e.Check? || e.Receive? || e.Done?
  }

  lemma StepInv(s: State, e: Event)
    requires Inv(s) && Enabled(s, e)
    ensures Inv(Next(s, e))
  {
    if ByReader(e) {
      ReaderStep(s, e);
    } else {
      OnceStep(s, e);
      SocketStep(s, e);
      hide OnceInv, SocketInv;
    }
  }

  lemma ReaderStep(s: State, e: Event)
    requires Inv(s) && Enabled(s, e) && ByReader(e)
    ensures Inv(Next(s, e))
  {
    hide OnceInv, SocketInv;
    var s' := Next(s, e);
    assert OnceInv(s') by { assert s'.closers == s.closers && s'.once == s.once; SameClosers(s, s'); }
    assert SocketInv(s') by { SameClosers(s, s'); }
    match e
    case Check(i) => LiveSet(s.readers, i, if s.stop then Returned else Receiving);
    case Receive(i, fatal) => LiveSet(s.readers, i, if fatal then Returned else Checking);
    case Done(i) =>
      LiveSet(s.readers, i, Gone);
      NoneLive(s.readers);
  }

  lemma SameClosers(s: State, s': State)
    requires s.closers == s'.closers && s.once == s'.once && s.closes == s'.closes
    ensures OnceInv(s) == OnceInv(s') && SocketInv(s) == SocketInv(s')
  {
  }

  lemma OnceStep(s: State, e: Event)
    requires OnceInv(s) && Enabled(s, e) && !ByReader(e)
    ensures OnceInv(Next(s, e))
  {
    var s' := Next(s, e);
    if e.OnceLeave? {
      assert s'.closers[e.c].Closed?;
    } else if s.once == Ran {
      var c :| 0 <= c < |s.closers| && s.closers[c].Closed?;
      assert s'.closers[c].Closed?;
    }
  }

  lemma SocketStep(s: State, e: Event)
    requires OnceInv(s) && SocketInv(s) && Enabled(s, e) && !ByReader(e)
    ensures SocketInv(Next(s, e))
  {
    hide SomeClosed;
  }

  lemma {:induction false} RunInv(sockets: nat, calls: nat, states: seq<State>, events: seq<Event>, k: nat)
    requires IsRun(states, events) && states[0] == Opened(sockets, calls) && k < |states|
    ensures Inv(states[k])
  {
    if k == 0 {
      OpenedInv(sockets, calls);
    } else {
      RunInv(sockets, calls, states, events, k - 1);
      StepInv(states[k - 1], events[k - 1]);
    }
  }

  // ----- What it means for every run -----------------------------------------------------

  /**
   In every state of every run: a socket is closed only when every read loop has
   returned, at most once, never under a loop that reads it, and only by a call
   whose drain succeeded; a call that returned after draining leaves every socket
   closed.
   */
  lemma SafeShutdown(sockets: nat, calls: nat, states: seq<State>, events: seq<Event>, k: nat)
    requires IsRun(states, events) && states[0] == Opened(sockets, calls) && k < |states|
    ensures var s := states[k];
            && |s.closes| == |s.readers|
            && (forall i | 0 <= i < |s.closes| && s.closes[i] > 0 :: AllGone(s) && s.closes[i] == 1)
            && (forall i | 0 <= i < |s.readers| && s.readers[i] != Gone :: s.closes[i] == 0)
            && ((exists i :: 0 <= i < |s.closes| && s.closes[i] > 0) ==>
                  exists c :: 0 <= c < |s.closers| && (s.closers[c].Closing? || s.closers[c].Closed?))
            && (forall c | 0 <= c < |s.closers| && s.closers[c].Closed? ::
                  forall i | 0 <= i < |s.closes| :: s.closes[i] == 1)
  {
    RunInv(sockets, calls, states, events, k);
    var s := states[k];
    NoneLive(s.readers);
    if i :| 0 <= i < |s.closes| && s.closes[i] > 0 {
      if s.once == Ran {
        var c :| 0 <= c < |s.closers| && s.closers[c].Closed?;
        assert PastWait(s.closers[c]);
      } else {
        assert s.once.Running? && PastWait(s.closers[s.once.runner]);
      }
    }
  }

  /** Calls that have only timed out, or not got past their wait, leave every socket open. */
  lemma TimeoutLeavesOpen(sockets: nat, calls: nat, states: seq<State>, events: seq<Event>, k: nat)
    requires IsRun(states, events) && states[0] == Opened(sockets, calls) && k < |states|
    requires forall c | 0 <= c < |states[k].closers| :: !states[k].closers[c].Closing? && !states[k].closers[c].Closed?
    ensures forall i | 0 <= i < |states[k].closes| :: states[k].closes[i] == 0
  {
    SafeShutdown(sockets, calls, states, events, k);
  }

  /** Timing out is final: the call returns false and never closes anything. */
  lemma {:induction false} TimedOutStays(states: seq<State>, events: seq<Event>, c: nat, j: nat, k: nat)
    requires IsRun(states, events) && j <= k < |states| && CloserAt(states[j], c, TimedOut)
    ensures CloserAt(states[k], c, TimedOut)
    decreases k
  {
    if j < k {
      TimedOutStays(states, events, c, j, k - 1);
    }
  }

  /** Steps a read loop can still take once stop is closed. */
  function StepsLeft(r: Reader): (n: nat) {
    match r
    case Receiving => 3
    case Checking => 2
    case Returned => 1
    case Gone => 0
  }

  predicate StepOf(e: Event, i: nat) {
    (e.Check? && e.i == i) || (e.Receive? && e.i == i) || (e.Done? && e.i == i)
  }

  function StepsTaken(events: seq<Event>, i: nat, j: nat, k: nat): (n: nat)
    requires j <= k <= |events|
  {
    if j == k then 0 else StepsTaken(events, i, j, k - 1) + if StepOf(events[k - 1], i) then 1 else 0
  }

  lemma ReaderProgress(s: State, e: Event, i: nat)
    requires Enabled(s, e) && s.stop && i < |s.readers|
    ensures var s' := Next(s, e);
            && s'.stop && |s'.readers| == |s.readers|
            && StepsLeft(s'.readers[i]) + (if StepOf(e, i) then 1 else 0) <= StepsLeft(s.readers[i])
  {
  }

  /** Once stop is closed a loop ends within one receive: at most three more steps, however busy its socket. */
  lemma {:induction false} LoopsEnd(states: seq<State>, events: seq<Event>, i: nat, j: nat, k: nat)
    requires IsRun(states, events) && j <= k < |states| && states[j].stop && i < |states[j].readers|
    ensures states[k].stop && |states[k].readers| == |states[j].readers|
    ensures StepsTaken(events, i, j, k) + StepsLeft(states[k].readers[i]) <= StepsLeft(states[j].readers[i])
    decreases k
  {
    hide Next, Enabled, StepOf, StepsLeft;
    if j < k {
      LoopsEnd(states, events, i, j, k - 1);
      ReaderProgress(states[k - 1], events[k - 1], i);
    }
  }
}
