/** What the user sees after each operation on the toasts, and when each toast leaves, in plain numbers. */
module ToastsShown {
  import opened Wrappers
  import opened Toasts
  import opened ToastsProofs

  /** Milliseconds shown: what the caller asks for, else by severity. */
  function Lasting(input: Input): (ms: int) {
    if input.duration.Some? then input.duration.value
    else if input.severity == Success then 4000
    else if input.severity == Info then 4500
    else if input.severity == Error then 8000
    else 6000
  }

  /** The toast an input describes. */
  function Described(id: Id, key: string, input: Input, now: int): (x: Toast) {
    Toast(id, key, input.severity, input.message, now, Lasting(input), input.count, false)
  }

  /** Toast i is `x`, leaving at `now + left`, or on its way out, gone 120 ms later, when no time is left. */
  predicate ShownFor(t: State, i: nat, x: Toast, now: int, left: int)
    requires i < |t.toasts|
  {
    && t.toasts[i] == x.(dismissing := left <= 0)
    && x.id !in t.pauses
    && if left <= 0 then x.id !in t.timers && x.id in t.exits && t.exits[x.id] == now + 120
       else x.id !in t.exits && x.id in t.timers && t.timers[x.id] == now + left && At(t.startedAt, x.id) == Some(now)
  }

  /** Every other toast and all it is due for is as before. */
  ghost predicate OthersSame(t: State, t': State, i: nat)
    requires i < |t.toasts|
  {
    && |t'.toasts| == |t.toasts| && OtherSlotsSame(t, t', t.toasts[i].id)
    && forall k | 0 <= k < |t.toasts| && k != i :: t'.toasts[k] == t.toasts[k]
  }

  function TimeLeft(t: State, x: Toast): (ms: int) {
    if x.id in t.remaining then t.remaining[x.id] else x.duration
  }

  lemma StartShows(t: State, i: nat, now: int)
    requires i < |t.toasts| && DistinctIds(t.toasts) && Idle(SlotOf(t, t.toasts[i].id), t.toasts[i])
    ensures var t', x := Started(t, t.toasts[i].id, now), t.toasts[i];
            OthersSame(t, t', i) && ShownFor(t', i, x, now, TimeLeft(t, x)) && t'.queue == t.queue
            && At(t'.remaining, x.id) == At(t.remaining, x.id) && t'.lastId == t.lastId
  {
    Found(t.toasts, i);
    hide DistinctIds, IndexOfId;
    StartOthers(t, i, now);
    hide OtherSlotsSame;
  }

  lemma StartOthers(t: State, i: nat, now: int)
    requires i < |t.toasts| && IndexOfId(t.toasts, t.toasts[i].id) == i
    ensures OtherSlotsSame(t, Started(t, t.toasts[i].id, now), t.toasts[i].id)
  {
    hide IndexOfId;
  }

  // ----- Refreshing ------------------------------------------------------------------------

  lemma DescribedIs(x: Toast, input: Input, now: int)
    ensures Refreshed(x, input, now) == Described(x.id, x.key, input, now) && Duration(input) == Lasting(input)
  {
  }

  lemma KeyAt(s: seq<Toast>, i: nat, key: string)
    requires i < |s| && key != "" && s[i].key == key && DistinctKeys(s)
    ensures IndexOfKey(s, key) == i
  {
  }

  /**
   A toast with the input's key that is visible takes over everything the input
   says, in its place, and starts anew; while it is paused, when it is released.
   */
  lemma RefreshShows(t: State, i: nat, input: Input, now: int)
    requires Inv(t) && i < |t.toasts| && input.key != "" && t.toasts[i].key == input.key
    ensures var t', x := Enqueued(t, input, now), Described(t.toasts[i].id, input.key, input, now);
            && OthersSame(t, t', i) && t'.queue == t.queue && At(t'.remaining, x.id) == Some(Lasting(input))
            && if x.id in t.pauses then t'.toasts[i] == x && OnHold(SlotOf(t', x.id), x)
               else ShownFor(t', i, x, now, Lasting(input))
  {
    NamedVisible(t);
    VisibleKeys(t);
    KeyAt(t.toasts, i, input.key);
    assert ShownAs(t, t.toasts[i], {});
    var id, s := t.toasts[i].id, RefreshedState(t, i, input, now);
    RefreshedSlots(t, i, input, now);
    DescribedIs(t.toasts[i], input, now);
    assert DistinctIds(s.toasts);
    hide Inv, Named, Scheduled, OnlyVisible, Started, IndexOfKey, Lasting, Described;
    if id !in t.pauses {
      StartShows(s, i, now);
      hide OtherSlotsSame;
      OthersChain(t, s, Started(s, id, now), id);
    }
  }

  lemma OthersChain(t: State, s: State, r: State, id: Id)
    requires OtherSlotsSame(t, s, id) && OtherSlotsSame(s, r, id)
    ensures OtherSlotsSame(t, r, id)
  {
  }

  lemma VisibleKeys(t: State)
    requires Named(t)
    ensures DistinctKeys(t.toasts) && DistinctKeys(t.queue)
    ensures forall i, q | 0 <= i < |t.toasts| && 0 <= q < |t.queue| && t.queue[q].key != "" ::
              t.toasts[i].key != t.queue[q].key
  {
    var a, n := All(t), |t.toasts|;
    assert forall i | 0 <= i < n :: a[i] == t.toasts[i];
    assert forall i | 0 <= i < |t.queue| :: a[n + i] == t.queue[i];
  }

  /** A queued one takes it over in its place in the queue. */
  lemma RefreshQueues(t: State, q: nat, input: Input, now: int)
    requires Inv(t) && q < |t.queue| && input.key != "" && t.queue[q].key == input.key
    ensures var t', x := Enqueued(t, input, now), Described(t.queue[q].id, input.key, input, now);
            && t'.toasts == t.toasts && t'.queue == t.queue[q := x] && OtherSlotsSame(t, t', x.id)
            && SlotOf(t', x.id) == Slot(None, None, None, None, Some(Lasting(input)))
  {
    VisibleKeys(t);
    KeyAt(t.queue, q, input.key);
    QueuedNotVisible(t, q);
    assert Unarmed(SlotOf(t, t.queue[q].id));
    assert IndexOfKey(t.toasts, input.key) == |t.toasts|;
    DescribedIs(t.queue[q], input, now);
    hide Inv, Named, Scheduled, OnlyVisible, IndexOfKey, Lasting, Described;
  }

  // ----- A new toast --------------------------------------------------------------------------

  predicate NoneWithKey(t: State, input: Input) {
    input.key == "" || forall i | 0 <= i < |All(t)| :: All(t)[i].key != input.key
  }

  /** Queue entry v is dropped for a newcomer of this severity. */
  predicate Dropped(queue: seq<Toast>, severity: Severity, v: nat) {
    v < |queue| &&
    if forall j | 0 <= j < |queue| :: queue[j].severity == Error then severity == Error && v == 0
    else queue[v].severity != Error && forall j | 0 <= j < v :: queue[j].severity == Error
  }

  /** With fewer than four visible a new toast comes in front of them and starts. */
  lemma NewShows(t: State, input: Input, now: int)
    requires Inv(t) && NoneWithKey(t, input) && |t.toasts| < 4
    ensures var t', x := Enqueued(t, input, now), Described(Id(now, t.lastId + 1), input.key, input, now);
            && |t'.toasts| == |t.toasts| + 1 && ShownFor(t', 0, x, now, Lasting(input))
            && t'.toasts[1..] == t.toasts && t'.queue == t.queue == [] && OtherSlotsSame(t, t', x.id)
  {
    NewIsAdmitted(t, input, now);
    var x, t1 := Described(Id(now, t.lastId + 1), input.key, input, now), t.(lastId := t.lastId + 1);
    NotYetVisible(t, x.id);
    assert MadeRoom(t1, x.severity) == Room(t1, true);
    var s := t1.(remaining := t.remaining[x.id := x.duration], toasts := [x] + t.toasts);
    assert Enqueued(t, input, now) == Started(s, x.id, now);
    NewIds(t, x);
    NewSlot(t, s, x);
    hide Inv, Named, Scheduled, OnlyVisible, Started, Enqueued, Lasting, DistinctIds, MadeRoom, NoneWithKey, Admitted;
    StartShows(s, 0, now);
    NewInFront(t, s, Started(s, x.id, now), x);
  }

  lemma NewInFront(t: State, s: State, r: State, x: Toast)
    requires s.toasts == [x] + t.toasts && OtherSlotsSame(t, s, x.id) && OthersSame(s, r, 0)
    ensures |r.toasts| == |t.toasts| + 1 && r.toasts[1..] == t.toasts && OtherSlotsSame(t, r, x.id)
  {
    OthersChain(t, s, r, x.id);
    hide OtherSlotsSame;
    assert forall k | 0 <= k < |t.toasts| :: r.toasts[k + 1] == s.toasts[k + 1] == t.toasts[k];
  }

  lemma NewIsAdmitted(t: State, input: Input, now: int)
    requires NoneWithKey(t, input)
    ensures Enqueued(t, input, now)
         == Admitted(t.(lastId := t.lastId + 1), Described(Id(now, t.lastId + 1), input.key, input, now), now)
  {
    NoneFound(t, input);
    DescribedIs(NewToast(t, input, now), input, now);
    hide Admitted, Lasting, NoneWithKey, RefreshedVisible, RefreshedQueued, IndexOfKey;
  }

  lemma NoneFound(t: State, input: Input)
    requires NoneWithKey(t, input)
    ensures input.key != "" ==>
              IndexOfKey(t.toasts, input.key) == |t.toasts| && IndexOfKey(t.queue, input.key) == |t.queue|
  {
    var a, n := t.toasts + t.queue, |t.toasts|;
    assert a == All(t);
    assert forall i | 0 <= i < n :: a[i] == t.toasts[i];
    assert forall i | 0 <= i < |t.queue| :: a[n + i] == t.queue[i];
  }

  lemma NotYetVisible(t: State, id: Id)
    requires Inv(t) && id.n == t.lastId + 1
    ensures !HasId(t.toasts, id) && Unarmed(SlotOf(t, id))
  {
    NotYetHeld(t, id);
  }

  lemma NewIds(t: State, x: Toast)
    requires Named(t) && x.id.n == t.lastId + 1
    ensures DistinctIds([x] + t.toasts)
  {
    NamedVisible(t);
    assert forall i | 0 <= i < |t.toasts| :: All(t)[i] == t.toasts[i];
  }

  lemma NewSlot(t: State, s: State, x: Toast)
    requires Unarmed(SlotOf(t, x.id))
    requires s.timers == t.timers && s.startedAt == t.startedAt && s.exits == t.exits && s.pauses == t.pauses
    requires s.remaining == t.remaining[x.id := x.duration]
    ensures Unarmed(SlotOf(s, x.id)) && OtherSlotsSame(t, s, x.id)
  {
  }

  /** Otherwise it waits behind the others; of twenty toasts one is dropped for it, or it is refused. */
  lemma NewQueues(t: State, input: Input, now: int)
    requires Inv(t) && NoneWithKey(t, input) && |t.toasts| == 4
    ensures var t', x := Enqueued(t, input, now), Described(Id(now, t.lastId + 1), input.key, input, now);
            && t'.toasts == t.toasts && t'.timers == t.timers && t'.exits == t.exits && t'.pauses == t.pauses
            && (|t.queue| < 16 ==> t'.queue == t.queue + [x] && At(t'.remaining, x.id) == Some(Lasting(input)))
            && (forall v: nat | |t.queue| == 16 && Dropped(t.queue, input.severity, v) ::
                  t'.queue == t.queue[..v] + t.queue[v + 1..] + [x] && At(t'.remaining, x.id) == Some(Lasting(input)))
            && (|t.queue| == 16 && (forall v: nat | v < |t.queue| :: !Dropped(t.queue, input.severity, v)) ==>
                  t'.queue == t.queue)
  {
    NewIsAdmitted(t, input, now);
    var x, t1 := Described(Id(now, t.lastId + 1), input.key, input, now), t.(lastId := t.lastId + 1);
    assert Bounded(t) && x.severity == input.severity;
    hide Inv, Enqueued, Lasting, NoneWithKey, Described, Admitted, Dropped, Victim, AllErrors;
    AdmittedQueues(t1, x, now);
    if |t.queue| == 16 {
      WhoGoes(t.queue, input.severity);
    }
  }

  lemma AdmittedQueues(t: State, x: Toast, now: int)
    requires Bounded(t) && |t.toasts| == 4
    ensures var t' := Admitted(t, x, now);
            && t'.toasts == t.toasts && t'.timers == t.timers && t'.exits == t.exits && t'.pauses == t.pauses
            && if |t.queue| == 16 && AllErrors(t.queue) && x.severity != Error then t'.queue == t.queue
               else
                 && At(t'.remaining, x.id) == Some(x.duration)
                 && t'.queue == (if |t.queue| < 16 then t.queue else Without(t.queue, Victim(t.queue))) + [x]
  {
    RoomForNewcomer(t, x.severity);
    assert |All(t)| == 4 + |t.queue| && |t.queue| <= 16;
    hide MadeRoom, Victim, AllErrors;
  }

  lemma WhoGoes(queue: seq<Toast>, severity: Severity)
    requires queue != []
    ensures AllErrors(queue) && severity != Error ==> forall v: nat | v < |queue| :: !Dropped(queue, severity, v)
    ensures !(AllErrors(queue) && severity != Error) ==>
              && Dropped(queue, severity, Victim(queue))
              && forall v: nat | v < |queue| :: Dropped(queue, severity, v) <==> v == Victim(queue)
  {
  }

  // ----- Leaving ---------------------------------------------------------------------------------

  /** Dismissing a visible toast, by hand or by its timer, takes it off 120 ms later and stops its timer. */
  lemma DismissShows(t: State, i: nat, now: int)
    requires Inv(t) && i < |t.toasts| && !t.toasts[i].dismissing
    ensures var x, t' := t.toasts[i], Dismissed(t, t.toasts[i].id, now);
            && OthersSame(t, t', i) && t'.queue == t.queue && t'.toasts[i] == x.(dismissing := true)
            && x.id !in t'.timers && x.id !in t'.pauses && At(t'.exits, x.id) == Some(now + 120)
  {
    NamedVisible(t);
    Found(t.toasts, i);
    hide Inv, DistinctIds, IndexOfId;
    DismissedSlots(t, t.toasts[i].id, now);
    hide OtherSlotsSame;
  }

  /** When its exit timer is due it goes; the longest waiting one takes the last place and starts. */
  lemma ExitShows(t: State, i: nat, now: int)
    requires Inv(t) && i < |t.toasts| && t.toasts[i].id in t.exits
    ensures var x, t' := t.toasts[i], Exited(t, t.toasts[i].id, now);
            var rest := t.toasts[..i] + t.toasts[i + 1..];
            if t.queue == [] then t'.toasts == rest && t'.queue == [] && OtherSlotsSame(t, t', x.id)
            else
              var next := t.queue[0];
              && |t'.toasts| == 4 && t'.toasts[..3] == rest && t'.queue == t.queue[1..]
              && ShownFor(t', 3, next, now, TimeLeft(t, next))
              && forall id | id != x.id && id != next.id :: SlotOf(t', id) == SlotOf(t, id)
    ensures SlotOf(Exited(t, t.toasts[i].id, now), t.toasts[i].id) == Slot(None, None, None, None, None)
  {
    NamedVisible(t);
    Found(t.toasts, i);
    var id := t.toasts[i].id;
    assert ShownAs(t, t.toasts[i], {});
    RemovedIdIs(t.toasts, id);
    var rest := Without(t.toasts, i);
    var s := t.(exits := t.exits - {id}, toasts := rest, remaining := t.remaining - {id});
    OneExit(t, s, id);
    assert SlotOf(s, id) == Slot(None, None, None, None, None);
    if t.queue == [] {
      assert Exited(t, id, now) == s;
    } else {
      var next := t.queue[0];
      QueuedNotVisible(t, 0);
      assert !next.dismissing && next.id != id;
      assert Unarmed(SlotOf(t, next.id));
      assert SlotOf(s, next.id) == SlotOf(t, next.id);
      WaitingIds(t, i);
      hide Inv, Named, Scheduled, OnlyVisible, DistinctIds, Without, RemovedId;
      PromotedShows(s, now);
    }
  }

  lemma WaitingIds(t: State, i: nat)
    requires Named(t) && i < |t.toasts| && t.queue != []
    ensures DistinctIds(Without(t.toasts, i) + [t.queue[0]])
  {
    var a, n, r := All(t), |t.toasts|, Without(t.toasts, i);
    assert a[n] == t.queue[0];
    assert forall k | 0 <= k < n - 1 :: r[k] == a[if k < i then k else k + 1];
  }

  lemma PromotedShows(s: State, now: int)
    requires |s.toasts| == 3 && s.queue != [] && DistinctIds(s.toasts + [s.queue[0]])
    requires Idle(SlotOf(s, s.queue[0].id), s.queue[0])
    ensures var t', next := Promoted(s, now), s.queue[0];
            && |t'.toasts| == 4 && t'.toasts[..3] == s.toasts && t'.queue == s.queue[1..]
            && ShownFor(t', 3, next, now, TimeLeft(s, next)) && OtherSlotsSame(s, t', next.id)
  {
    var next := s.queue[0];
    var shown := s.(queue := s.queue[1..], toasts := s.toasts + [next]);
    assert shown.toasts[3] == next;
    SameMaps(s, shown);
    hide DistinctIds;
    StartShows(shown, 3, now);
    var r := Started(shown, next.id, now);
    OthersChain(s, shown, r, next.id);
    hide OtherSlotsSame, Started;
    assert forall k | 0 <= k < 3 :: r.toasts[k] == shown.toasts[k] == s.toasts[k];
    assert Promoted(s, now) == Promoted(r, now) == r;
  }

  lemma SameMaps(s: State, r: State)
    requires s.timers == r.timers && s.startedAt == r.startedAt && s.exits == r.exits
    requires s.pauses == r.pauses && s.remaining == r.remaining
    ensures forall id :: SlotOf(s, id) == SlotOf(r, id)
  {
  }

  // ----- Holding -------------------------------------------------------------------------------------

  /** Held twice, a toast stays until it is released twice; then it has the time it had when first held. */
  lemma HeldTwice(t: State, i: nat, p: int, q: int, r: int, s: int)
    requires Inv(t) && i < |t.toasts| && Running(SlotOf(t, t.toasts[i].id), t.toasts[i])
    requires t.startedAt[t.toasts[i].id] <= p < t.timers[t.toasts[i].id]
    ensures var id := t.toasts[i].id;
            var once := Resumed(Paused(Paused(t, id, p), id, q), id, r);
            var freed := Resumed(once, id, s);
            && id !in once.timers && id !in once.exits && once.toasts == t.toasts
            && id in freed.timers && freed.timers[id] - s == t.timers[id] - p && freed.toasts == t.toasts
  {
    NamedVisible(t);
    Found(t.toasts, i);
  }
}
