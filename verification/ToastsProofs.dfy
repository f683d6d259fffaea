/** What holds of every run of the toast scheduler. */
module ToastsProofs {
  import opened Wrappers
  import opened Toasts

  // ----- The invariant ---------------------------------------------------------------

  function All(t: State): (s: seq<Toast>) {
    t.toasts + t.queue
  }

  predicate Bounded(t: State) {
    && |t.toasts| <= MAX_VISIBLE && |t.toasts| + |t.queue| <= MAX_TOTAL
    && (t.queue != [] ==> |t.toasts| == MAX_VISIBLE)
  }

  predicate DistinctIds(s: seq<Toast>) {
    forall i, j | 0 <= i < j < |s| :: s[i].id != s[j].id
  }

  predicate DistinctKeys(s: seq<Toast>) {
    forall i, j | 0 <= i < j < |s| && s[i].key != "" :: s[i].key != s[j].key
  }

  /** Ids and keys are unique, ids are old, and nothing queued is on its way out. */
  predicate Named(t: State) {
    && DistinctIds(All(t)) && DistinctKeys(All(t))
    && (forall i | 0 <= i < |All(t)| :: All(t)[i].id.n <= t.lastId)
    && (forall i | 0 <= i < |t.queue| :: !t.queue[i].dismissing)
  }

  /** Everything the store's maps say about one id. */
  datatype Slot = Slot(timer: Option<int>, startedAt: Option<int>, exit: Option<int>, pauses: Option<nat>,
                       left: Option<int>)

  function At<T>(m: map<Id, T>, id: Id): (v: Option<T>) {
    if id in m then Some(m[id]) else None
  }

  function SlotOf(t: State, id: Id): (s: Slot) {
    Slot(At(t.timers, id), At(t.startedAt, id), At(t.exits, id), At(t.pauses, id), At(t.remaining, id))
  }

  function Left(s: Slot, x: Toast): (n: int) {
    if s.left.Some? then s.left.value else x.duration
  }

  /** Counting down: one dismissal timer, due when the remaining time is up. */
  predicate Running(s: Slot, x: Toast) {
    && !x.dismissing && s.pauses == None && s.exit == None
    && s.timer.Some? && s.startedAt.Some? && Left(s, x) > 0 && s.timer.value == s.startedAt.value + Left(s, x)
  }

  /** Held by at least one pause: no timer at all. */
  predicate OnHold(s: Slot, x: Toast) {
    && !x.dismissing && s.pauses.Some? && s.pauses.value >= 1
    && s.timer == None && s.startedAt == None && s.exit == None
  }

  /** Dismissed: only the exit timer. */
  predicate Leaving(s: Slot, x: Toast) {
    x.dismissing && s.exit.Some? && s.timer == None && s.startedAt == None && s.pauses == None
  }

  /** About to be started: nothing armed yet. */
  predicate Idle(s: Slot, x: Toast) {
    !x.dismissing && Unarmed(s)
  }

  predicate Unarmed(s: Slot) {
    s.timer == None && s.startedAt == None && s.exit == None && s.pauses == None
  }

  predicate Settled(s: Slot, x: Toast) {
    Running(s, x) || OnHold(s, x) || Leaving(s, x)
  }

  /** No timer, exit timer or pause belongs to anything but a visible toast. */
  ghost predicate OnlyVisible(t: State) {
    forall id | !HasId(t.toasts, id) :: Unarmed(SlotOf(t, id))
  }

  predicate ShownAs(t: State, x: Toast, idle: set<Id>) {
    if x.id in idle then Idle(SlotOf(t, x.id), x) else Settled(SlotOf(t, x.id), x)
  }

  ghost predicate Scheduled(t: State, idle: set<Id>) {
    OnlyVisible(t) && forall i | 0 <= i < |t.toasts| :: ShownAs(t, t.toasts[i], idle)
  }

  ghost predicate Inv(t: State) {
    Bounded(t) && Named(t) && Scheduled(t, {})
  }

  // ----- Looking up ------------------------------------------------------------------

  lemma Found(s: seq<Toast>, i: nat)
    requires i < |s|
    ensures IndexOfId(s, s[i].id) <= i
    ensures DistinctIds(s) ==> IndexOfId(s, s[i].id) == i
  {
  }

  /** The same toasts by id and key, in the same places. */
  predicate SameNames(a: seq<Toast>, b: seq<Toast>) {
    |a| == |b| && forall i | 0 <= i < |a| :: a[i].id == b[i].id && a[i].key == b[i].key
  }

  lemma SameHasId(a: seq<Toast>, b: seq<Toast>, id: Id)
    requires SameNames(a, b)
    ensures IndexOfId(a, id) == IndexOfId(b, id)
  {
    var i, j := IndexOfId(a, id), IndexOfId(b, id);
    if i < |a| { Found(b, i); }
    if j < |b| { Found(a, j); }
  }

  lemma SameNamed(t: State, t': State)
    requires Named(t) && SameNames(t.toasts, t'.toasts) && SameNames(t.queue, t'.queue) && t.lastId <= t'.lastId
    requires forall i | 0 <= i < |t'.queue| :: !t'.queue[i].dismissing
    ensures Named(t')
  {
    var a, b := All(t), All(t');
    assert forall i | 0 <= i < |a| :: a[i].id == b[i].id && a[i].key == b[i].key;
  }

  // ----- The building blocks -----------------------------------------------------------

  /** Only the slot of `id` differs. */
  ghost predicate OtherSlotsSame(t: State, t': State, id: Id) {
    forall x | x != id :: SlotOf(t', x) == SlotOf(t, x)
  }

  /** Changing one visible toast and its slot, so that it is settled, restores the schedule. */
  lemma OneSettled(t: State, t': State, id: Id, idle: set<Id>)
    requires DistinctIds(t.toasts) && Scheduled(t, idle) && idle <= {id}
    requires HasId(t.toasts, id) && SameNames(t.toasts, t'.toasts) && OtherSlotsSame(t, t', id)
    requires forall k | 0 <= k < |t.toasts| && t.toasts[k].id != id :: t'.toasts[k] == t.toasts[k]
    requires ShownAs(t', t'.toasts[IndexOfId(t.toasts, id)], {})
    ensures Scheduled(t', {})
  {
    hide SlotOf, Settled;
    var i := IndexOfId(t.toasts, id);
    forall k | 0 <= k < |t'.toasts|
      ensures ShownAs(t', t'.toasts[k], {})
    {
      if k != i {
        assert ShownAs(t, t.toasts[k], idle);
      }
    }
    forall x | !HasId(t'.toasts, x)
      ensures Unarmed(SlotOf(t', x))
    {
      SameHasId(t.toasts, t'.toasts, x);
    }
  }

  lemma NamedVisible(t: State)
    requires Named(t)
    ensures DistinctIds(t.toasts) && DistinctIds(t.queue)
  {
    assert forall i | 0 <= i < |t.toasts| :: All(t)[i] == t.toasts[i];
    assert forall i | 0 <= i < |t.queue| :: All(t)[|t.toasts| + i] == t.queue[i];
  }

  lemma DismissedSlots(t: State, id: Id, now: int)
    requires HasId(t.toasts, id) && !t.toasts[IndexOfId(t.toasts, id)].dismissing
    ensures var t' := Dismissed(t, id, now);
            && OtherSlotsSame(t, t', id)
            && SlotOf(t', id) == Slot(None, None, Some(now + EXIT_MS), None, SlotOf(t, id).left)
  {
  }

  lemma DismissedOk(t: State, id: Id, now: int, idle: set<Id>)
    requires Named(t) && Scheduled(t, idle) && HasId(t.toasts, id) && idle <= {id}
    ensures var t' := Dismissed(t, id, now);
            Scheduled(t', {}) && SameNames(t.toasts, t'.toasts) && t'.queue == t.queue && t'.lastId == t.lastId
  {
    NamedVisible(t);
    var t', i := Dismissed(t, id, now), IndexOfId(t.toasts, id);
    assert ShownAs(t, t.toasts[i], idle);
    if t.toasts[i].dismissing {
      OneSettled(t, t, id, idle);
    } else {
      DismissedSlots(t, id, now);
      hide SlotOf, OtherSlotsSame, Named;
      OneSettled(t, t', id, idle);
    }
  }

  lemma StartedOk(t: State, id: Id, now: int)
    requires Named(t) && Scheduled(t, {id}) && HasId(t.toasts, id)
    ensures var t' := Started(t, id, now);
            Scheduled(t', {}) && SameNames(t.toasts, t'.toasts) && t'.queue == t.queue && t'.lastId == t.lastId
  {
    NamedVisible(t);
    var i := IndexOfId(t.toasts, id);
    assert ShownAs(t, t.toasts[i], {id});
    assert t.timers - {id} == t.timers && t.startedAt - {id} == t.startedAt;
    assert TimerCleared(t, id) == t;
    StartedNames(t, id, now);
    hide Named, DistinctIds;
    if Remaining(t, id, t.toasts[i]) <= 0 {
      DismissedOk(t, id, now, {id});
    } else {
      OneSettled(t, Started(t, id, now), id, {id});
    }
  }

  /** A toast that was not visible has nothing armed, so showing it leaves it idle. */
  lemma ShownIdle(t: State, s: State, next: Toast)
    requires Scheduled(t, {}) && DistinctIds(s.toasts) && !next.dismissing
    requires s.toasts == t.toasts + [next] || s.toasts == [next] + t.toasts
    requires Unarmed(SlotOf(t, next.id)) ==> Unarmed(SlotOf(s, next.id))
    requires OtherSlotsSame(t, s, next.id)
    ensures Scheduled(s, {next.id}) && HasId(s.toasts, next.id)
  {
    Inserted(t.toasts, s.toasts, next);
    hide SlotOf, Settled, DistinctIds;
    assert forall x | x in t.toasts :: ShownAs(t, x, {});
    forall x | x in s.toasts
      ensures ShownAs(s, x, {next.id})
    {
    }
    assert forall k | 0 <= k < |s.toasts| :: s.toasts[k] in s.toasts;
  }

  lemma Inserted(s: seq<Toast>, r: seq<Toast>, next: Toast)
    requires DistinctIds(r) && (r == s + [next] || r == [next] + s)
    ensures !HasId(s, next.id) && HasId(r, next.id)
    ensures forall x | x in r :: x == next || (x in s && x.id != next.id)
    ensures forall id | HasId(s, id) :: HasId(r, id)
  {
    var at, shift := if r == s + [next] then |s| else 0, if r == s + [next] then 0 else 1;
    assert r[at] == next && forall i | 0 <= i < |s| :: r[i + shift] == s[i];
    Found(r, at);
    forall id | HasId(s, id)
      ensures HasId(r, id)
    {
      Found(r, IndexOfId(s, id) + shift);
    }
  }

  lemma {:induction false} PromotedOk(t: State, now: int)
    requires Named(t) && Scheduled(t, {}) && |t.toasts| <= MAX_VISIBLE && |t.toasts| + |t.queue| <= MAX_TOTAL
    ensures Inv(Promoted(t, now))
    decreases |t.queue|
  {
    if |t.toasts| < MAX_VISIBLE && t.queue != [] {
      var next := t.queue[0];
      var s := t.(queue := t.queue[1..], toasts := t.toasts + [next]);
      assert All(s) == All(t);
      NamedVisible(s);
      ShownIdle(t, s, next);
      hide Scheduled, DistinctIds, DistinctKeys;
      StartedOk(s, next.id, now);
      SameNamed(s, Started(s, next.id, now));
      PromotedOk(Started(s, next.id, now), now);
    }
  }

  // ----- The steps -------------------------------------------------------------------------

  lemma DropOne(s: seq<Toast>, k: nat)
    requires k < |s| && DistinctIds(s) && DistinctKeys(s)
    ensures DistinctIds(Without(s, k)) && DistinctKeys(Without(s, k))
    ensures forall x | x in Without(s, k) :: x in s
  {
    var r := Without(s, k);
    assert forall i | 0 <= i < |r| :: r[i] == s[if i < k then i else i + 1];
  }

  /** Dropping one toast, visible or queued, keeps names unique. */
  lemma NamedDrop(t: State, t': State, k: nat)
    requires Named(t) && k < |All(t)| && All(t') == Without(All(t), k) && t'.lastId == t.lastId
    requires forall x | x in t'.queue :: x in t.queue
    ensures Named(t')
  {
    DropOne(All(t), k);
    forall i | 0 <= i < |All(t')|
      ensures All(t')[i].id.n <= t'.lastId
    {
      assert All(t')[i] in All(t);
    }
    forall i | 0 <= i < |t'.queue|
      ensures !t'.queue[i].dismissing
    {
      assert t'.queue[i] in t.queue;
    }
  }

  lemma QueueDrop(t: State, q: nat)
    requires q < |t.queue|
    ensures All(t.(queue := Without(t.queue, q))) == Without(All(t), |t.toasts| + q)
    ensures forall x | x in Without(t.queue, q) :: x in t.queue
  {
    var r := Without(t.queue, q);
    assert forall i | 0 <= i < |r| :: r[i] == t.queue[if i < q then i else i + 1];
  }

  /** Only the visible toasts and their slots matter to the schedule. */
  lemma SameSchedule(t: State, t': State)
    requires Scheduled(t, {}) && t'.toasts == t.toasts
    requires forall id :: SlotOf(t', id).(left := None) == SlotOf(t, id).(left := None)
    requires forall i | 0 <= i < |t.toasts| :: SlotOf(t', t.toasts[i].id) == SlotOf(t, t.toasts[i].id)
    ensures Scheduled(t', {})
  {
    hide Settled;
    forall id | !HasId(t'.toasts, id)
      ensures Unarmed(SlotOf(t', id))
    {
      assert Unarmed(SlotOf(t, id).(left := None)) && Unarmed(SlotOf(t', id).(left := None));
    }
    forall i | 0 <= i < |t'.toasts|
      ensures ShownAs(t', t'.toasts[i], {})
    {
      assert ShownAs(t, t.toasts[i], {});
    }
  }

  /** No queued toast is visible. */
  lemma QueuedNotVisible(t: State, q: nat)
    requires Named(t) && q < |t.queue|
    ensures forall i | 0 <= i < |t.toasts| :: t.toasts[i].id != t.queue[q].id
    ensures !HasId(t.toasts, t.queue[q].id)
  {
    var a := All(t);
    assert a[|t.toasts| + q] == t.queue[q];
    forall i | 0 <= i < |t.toasts|
      ensures t.toasts[i].id != t.queue[q].id
    {
      assert a[i] == t.toasts[i];
    }
  }

  lemma DropQueued(t: State, q: nat, t': State)
    requires Inv(t) && q < |t.queue|
    requires t' == t.(queue := Without(t.queue, q))
          || t' == t.(queue := Without(t.queue, q), remaining := t.remaining - {t.queue[q].id})
    ensures Inv(t')
  {
    QueueDrop(t, q);
    NamedDrop(t, t', |t.toasts| + q);
    QueuedNotVisible(t, q);
    SameSchedule(t, t');
  }

  lemma DismissInv(t: State, id: Id, now: int)
    requires Inv(t)
    ensures Inv(Dismissed(t, id, now))
  {
    if HasId(t.toasts, id) {
      DismissedOk(t, id, now, {});
      SameNamed(t, Dismissed(t, id, now));
    } else if HasId(t.queue, id) {
      DropQueued(t, IndexOfId(t.queue, id), Dismissed(t, id, now));
    }
  }

  lemma StartInv(t: State, s: State, id: Id, now: int)
    requires Bounded(t) && Named(t) && s.queue == t.queue && s.lastId == t.lastId && SameNames(t.toasts, s.toasts)
    requires Scheduled(s, {id}) && HasId(s.toasts, id)
    ensures Inv(Started(s, id, now))
  {
    SameNamed(t, s);
    hide Scheduled, Named;
    StartedOk(s, id, now);
    SameNamed(s, Started(s, id, now));
  }

  /** Changing one visible toast and its slot, so that it is idle, makes it ready to start. */
  lemma OneIdle(t: State, s: State, id: Id)
    requires DistinctIds(t.toasts) && Scheduled(t, {})
    requires HasId(t.toasts, id) && SameNames(t.toasts, s.toasts) && OtherSlotsSame(t, s, id)
    requires forall k | 0 <= k < |t.toasts| && t.toasts[k].id != id :: s.toasts[k] == t.toasts[k]
    requires ShownAs(s, s.toasts[IndexOfId(t.toasts, id)], {id})
    ensures Scheduled(s, {id}) && HasId(s.toasts, id)
  {
    hide SlotOf, Settled, Idle;
    var i := IndexOfId(t.toasts, id);
    SameHasId(t.toasts, s.toasts, id);
    forall k | 0 <= k < |s.toasts|
      ensures ShownAs(s, s.toasts[k], {id})
    {
      if k != i {
        assert ShownAs(t, t.toasts[k], {});
      }
    }
    forall x | !HasId(s.toasts, x)
      ensures Unarmed(SlotOf(s, x))
    {
      SameHasId(t.toasts, s.toasts, x);
    }
  }

  lemma PauseInv(t: State, id: Id, now: int)
    requires Inv(t)
    ensures Inv(Paused(t, id, now))
  {
    NamedVisible(t);
    var i, t' := IndexOfId(t.toasts, id), Paused(t, id, now);
    if i < |t.toasts| && !t.toasts[i].dismissing {
      assert ShownAs(t, t.toasts[i], {});
      PausedSlots(t, id, now);
      SameNamed(t, t');
      hide SlotOf, OtherSlotsSame, Named;
      OneSettled(t, t', id, {});
    }
  }

  lemma PausedSlots(t: State, id: Id, now: int)
    requires HasId(t.toasts, id) && ShownAs(t, t.toasts[IndexOfId(t.toasts, id)], {})
    requires !t.toasts[IndexOfId(t.toasts, id)].dismissing
    ensures var t' := Paused(t, id, now);
            && OtherSlotsSame(t, t', id) && t'.toasts == t.toasts
            && OnHold(SlotOf(t', id), t.toasts[IndexOfId(t.toasts, id)])
  {
    PausedOthers(t, id, now);
    hide OtherSlotsSame, OnlyVisible;
  }

  /** A pause touches no toast and only its own slot. */
  lemma PausedOthers(t: State, id: Id, now: int)
    ensures OtherSlotsSame(t, Paused(t, id, now), id) && Paused(t, id, now).toasts == t.toasts
  {
    hide Max0, Remaining, HasId, IndexOfId, TimerCleared, OtherSlotsSame;
    SameSlots(t, id);
    if id in t.pauses && t.pauses[id] > 0 {
      SlotChanged(t, id, t.pauses[id] + 1, None);
    } else {
      var i := IndexOfId(t.toasts, id);
      var left := if i < |t.toasts| && id in t.startedAt
                  then Some(Max0(Remaining(t, id, t.toasts[i]) - (now - t.startedAt[id]))) else None;
      SlotChanged(t, id, 1, left);
      ClearedOthers(t, WithSlot(t, id, 1, left), id);
    }
  }

  function WithSlot(t: State, id: Id, pauses: nat, left: Option<int>): (s: State) {
    var s := t.(pauses := t.pauses[id := pauses]);
    if left.Some? then s.(remaining := t.remaining[id := left.value]) else s
  }

  lemma SameSlots(t: State, id: Id)
    ensures OtherSlotsSame(t, t, id)
  {
  }

  lemma SlotChanged(t: State, id: Id, pauses: nat, left: Option<int>)
    ensures OtherSlotsSame(t, WithSlot(t, id, pauses, left), id)
  {
  }

  lemma ClearedOthers(t: State, s: State, id: Id)
    requires OtherSlotsSame(t, s, id)
    ensures OtherSlotsSame(t, TimerCleared(s, id), id) && TimerCleared(s, id).toasts == s.toasts
  {
  }

  lemma ArmedVisible(t: State, id: Id)
    requires OnlyVisible(t) && (id in t.pauses || id in t.exits || id in t.timers)
    ensures HasId(t.toasts, id)
  {
    assert !Unarmed(SlotOf(t, id));
  }

  lemma ResumeInv(t: State, id: Id, now: int)
    requires Inv(t)
    ensures Inv(Resumed(t, id, now))
  {
    NamedVisible(t);
    if id in t.pauses && t.pauses[id] > 0 {
      ArmedVisible(t, id);
      var i := IndexOfId(t.toasts, id);
      assert ShownAs(t, t.toasts[i], {});
      UnpausedSlots(t, id);
      hide SlotOf, OtherSlotsSame, Settled, Idle;
      if t.pauses[id] > 1 {
        SameNamed(t, Resumed(t, id, now));
        OneSettled(t, Resumed(t, id, now), id, {});
      } else {
        var s := t.(pauses := t.pauses - {id});
        OneIdle(t, s, id);
        StartInv(t, s, id, now);
      }
    }
  }

  lemma UnpausedSlots(t: State, id: Id)
    requires id in t.pauses && t.pauses[id] > 0
    requires HasId(t.toasts, id) && ShownAs(t, t.toasts[IndexOfId(t.toasts, id)], {})
    ensures var x := t.toasts[IndexOfId(t.toasts, id)];
            if t.pauses[id] > 1 then
              var s := t.(pauses := t.pauses[id := t.pauses[id] - 1]);
              OtherSlotsSame(t, s, id) && Settled(SlotOf(s, id), x)
            else
              var s := t.(pauses := t.pauses - {id});
              OtherSlotsSame(t, s, id) && Idle(SlotOf(s, id), x)
  {
  }

  lemma RefreshInv(t: State, i: nat, input: Input, now: int)
    requires Inv(t) && i < |t.toasts|
    ensures Inv(RefreshedVisible(t, i, input, now))
  {
    NamedVisible(t);
    var id := t.toasts[i].id;
    Found(t.toasts, i);
    assert ShownAs(t, t.toasts[i], {});
    var s := RefreshedState(t, i, input, now);
    RefreshedSlots(t, i, input, now);
    hide SlotOf, OtherSlotsSame, Settled, Idle;
    assert SameNames(t.toasts, s.toasts);
    if id in t.pauses && t.pauses[id] > 0 {
      SameNamed(t, s);
      hide Named;
      OneSettled(t, s, id, {});
    } else {
      hide Named;
      OneIdle(t, s, id);
      StartInv(t, s, id, now);
    }
  }

  /** A refreshed visible toast before its timer is started again. */
  function RefreshedState(t: State, i: nat, input: Input, now: int): (s: State)
    requires i < |t.toasts|
  {
    var id := t.toasts[i].id;
    TimerCleared(t.(exits := t.exits - {id}, remaining := t.remaining[id := Duration(input)]), id)
    .(toasts := t.toasts[i := Refreshed(t.toasts[i], input, now)])
  }

  lemma RefreshedSlots(t: State, i: nat, input: Input, now: int)
    requires i < |t.toasts| && ShownAs(t, t.toasts[i], {})
    ensures var id, s := t.toasts[i].id, RefreshedState(t, i, input, now);
            && OtherSlotsSame(t, s, id)
            && if id in t.pauses && t.pauses[id] > 0 then Settled(SlotOf(s, id), s.toasts[i])
               else Idle(SlotOf(s, id), s.toasts[i])
  {
  }

  lemma RefreshQueuedInv(t: State, q: nat, input: Input, now: int)
    requires Inv(t) && q < |t.queue|
    ensures Inv(RefreshedQueued(t, q, input, now))
  {
    var t' := RefreshedQueued(t, q, input, now);
    QueuedNotVisible(t, q);
    assert Unarmed(SlotOf(t, t.queue[q].id));
    SameSchedule(t, t');
    SameNamed(t, t');
  }

  // ----- Room for a newcomer --------------------------------------------------------------

  /** Which queued toast makes room: the first that is not an error, else the oldest error. */
  function Victim(queue: seq<Toast>): (i: nat)
    requires queue != []
    ensures i < |queue|
  {
    if FirstNonError(queue) < |queue| then FirstNonError(queue) else 0
  }

  predicate AllErrors(queue: seq<Toast>) {
    forall i | 0 <= i < |queue| :: queue[i].severity == Error
  }

  /**
   A newcomer is refused exactly when the store is full, everything queued is an
   error and it is none itself; otherwise at most one queued toast makes room, and
   that is an error only if everything queued is.
   */
  lemma RoomForNewcomer(t: State, severity: Severity)
    requires Bounded(t)
    ensures var room := MadeRoom(t, severity);
            && (!room.admitted <==> |All(t)| == MAX_TOTAL && AllErrors(t.queue) && severity != Error)
            && (!room.admitted || |All(t)| < MAX_TOTAL ==> room.t == t)
            && (room.admitted && |All(t)| == MAX_TOTAL ==>
                  && t.queue != []
                  && room.t == t.(queue := Without(t.queue, Victim(t.queue)),
                                  remaining := t.remaining - {t.queue[Victim(t.queue)].id})
                  && (t.queue[Victim(t.queue)].severity == Error ==>
                        severity == Error && AllErrors(t.queue) && Victim(t.queue) == 0))
  {
  }

  lemma AdmitInv(t: State, toast: Toast, now: int)
    requires Inv(t) && toast.id.n == t.lastId + 1 && !toast.dismissing
    requires toast.key == "" || forall i | 0 <= i < |All(t)| :: All(t)[i].key != toast.key
    ensures Inv(Admitted(t.(lastId := t.lastId + 1), toast, now))
  {
    var t1 := t.(lastId := t.lastId + 1);
    SameNamed(t, t1);
    SameSchedule(t, t1);
    RoomForNewcomer(t1, toast.severity);
    var room := MadeRoom(t1, toast.severity);
    if room.admitted {
      if |All(t)| == MAX_TOTAL {
        DropQueued(t1, Victim(t.queue), room.t);
        QueueDrop(t1, Victim(t.queue));
        DropOne(All(t1), |t.toasts| + Victim(t.queue));
      }
      NewcomerApart(t, room.t, toast);
      Placed(room.t, toast, now);
    }
  }

  lemma NewcomerApart(t: State, r: State, toast: Toast)
    requires Named(t) && toast.id.n == t.lastId + 1
    requires toast.key == "" || forall i | 0 <= i < |All(t)| :: All(t)[i].key != toast.key
    requires forall x | x in All(r) :: x in All(t)
    ensures forall i | 0 <= i < |All(r)| :: All(r)[i].id != toast.id && (toast.key == "" || All(r)[i].key != toast.key)
  {
    forall i | 0 <= i < |All(r)|
      ensures All(r)[i].id != toast.id && (toast.key == "" || All(r)[i].key != toast.key)
    {
      assert All(r)[i] in All(t);
    }
  }

  /** A newcomer with a new id and key is shown or queued. */
  lemma Placed(r: State, toast: Toast, now: int)
    requires Inv(r) && |All(r)| < MAX_TOTAL && !toast.dismissing && toast.id.n <= r.lastId
    requires forall i | 0 <= i < |All(r)| :: All(r)[i].id != toast.id && (toast.key == "" || All(r)[i].key != toast.key)
    ensures var s := r.(remaining := r.remaining[toast.id := toast.duration]);
            if |s.toasts| < MAX_VISIBLE then Inv(Started(s.(toasts := [toast] + s.toasts), toast.id, now))
            else Inv(s.(queue := s.queue + [toast]))
  {
    var s := r.(remaining := r.remaining[toast.id := toast.duration]);
    if |s.toasts| < MAX_VISIBLE {
      PlacedVisible(r, s.(toasts := [toast] + s.toasts), toast, now);
    } else {
      PlacedQueued(r, s.(queue := s.queue + [toast]), toast);
    }
  }

  lemma NamedCons(r: State, s: State, toast: Toast)
    requires Named(r) && All(s) == [toast] + All(r) && s.queue == r.queue && s.lastId == r.lastId
    requires toast.id.n <= r.lastId
    requires forall i | 0 <= i < |All(r)| :: All(r)[i].id != toast.id && (toast.key == "" || All(r)[i].key != toast.key)
    ensures Named(s)
  {
    var a, b := All(r), All(s);
    hide All;
    assert b[0] == toast && forall i | 1 <= i < |b| :: b[i] == a[i - 1];
  }

  lemma PlacedVisible(r: State, shown: State, toast: Toast, now: int)
    requires Inv(r) && |r.toasts| < MAX_VISIBLE && !toast.dismissing && toast.id.n <= r.lastId
    requires forall i | 0 <= i < |All(r)| :: All(r)[i].id != toast.id && (toast.key == "" || All(r)[i].key != toast.key)
    requires shown == r.(remaining := r.remaining[toast.id := toast.duration], toasts := [toast] + r.toasts)
    ensures Inv(Started(shown, toast.id, now))
  {
    assert All(shown) == [toast] + All(r);
    NamedCons(r, shown, toast);
    NamedVisible(shown);
    hide Named, All;
    ShownIdle(r, shown, toast);
    hide Scheduled, SlotOf;
    StartInv(shown, shown, toast.id, now);
  }

  lemma PlacedQueued(r: State, queued: State, toast: Toast)
    requires Inv(r) && |r.toasts| == MAX_VISIBLE && |All(r)| < MAX_TOTAL && !toast.dismissing && toast.id.n <= r.lastId
    requires forall i | 0 <= i < |All(r)| :: All(r)[i].id != toast.id && (toast.key == "" || All(r)[i].key != toast.key)
    requires queued == r.(remaining := r.remaining[toast.id := toast.duration], queue := r.queue + [toast])
    ensures Inv(queued)
  {
    assert All(queued) == All(r) + [toast];
    assert Named(queued);
    assert forall i | 0 <= i < |r.toasts| :: All(r)[i] == r.toasts[i];
    hide Named, All;
    SameSchedule(r, queued);
  }

  lemma EnqueueInv(t: State, input: Input, now: int)
    requires Inv(t)
    ensures Inv(Enqueued(t, input, now))
  {
    hide Inv, RefreshedVisible, RefreshedQueued, Admitted, All;
    var i := if input.key == "" then |t.toasts| else IndexOfKey(t.toasts, input.key);
    var q := if input.key == "" then |t.queue| else IndexOfKey(t.queue, input.key);
    if i < |t.toasts| {
      RefreshInv(t, i, input, now);
    } else if q < |t.queue| {
      RefreshQueuedInv(t, q, input, now);
    } else {
      NoSuchKey(t, input.key);
      AdmitInv(t, NewToast(t, input, now), now);
    }
  }

  lemma NoSuchKey(t: State, key: string)
    requires key == "" || (IndexOfKey(t.toasts, key) == |t.toasts| && IndexOfKey(t.queue, key) == |t.queue|)
    ensures key == "" || forall i | 0 <= i < |All(t)| :: All(t)[i].key != key
  {
  }

  // ----- Leaving -----------------------------------------------------------------------------

  lemma {:induction false} RemovedIdIs(s: seq<Toast>, id: Id)
    requires DistinctIds(s)
    ensures RemovedId(s, id) == if HasId(s, id) then Without(s, IndexOfId(s, id)) else s
  {
    if s != [] {
      assert forall i | 0 <= i < |s[1..]| :: s[1..][i] == s[i + 1];
      RemovedIdIs(s[1..], id);
      if s[0].id == id {
        assert !HasId(s[1..], id);
      }
    }
  }

  lemma ExitInv(t: State, id: Id, now: int)
    requires Inv(t) && id in t.exits
    ensures Inv(Exited(t, id, now))
  {
    hide Without;
    NamedVisible(t);
    ArmedVisible(t, id);
    var i := IndexOfId(t.toasts, id);
    assert ShownAs(t, t.toasts[i], {});
    RemovedIdIs(t.toasts, id);
    var s := t.(exits := t.exits - {id}, toasts := RemovedId(t.toasts, id), remaining := t.remaining - {id});
    assert All(s) == Without(All(t), i) by { VisibleDrop(t, s, i); }
    NamedDrop(t, s, i);
    hide RemovedId, All;
    OneExit(t, s, id);
    hide SlotOf, OtherSlotsSame, Named, Settled;
    RemovedSchedule(t, s, id);
    PromotedOk(s, now);
  }

  lemma VisibleDrop(t: State, s: State, i: nat)
    requires i < |t.toasts| && s.toasts == Without(t.toasts, i) && s.queue == t.queue
    ensures All(s) == Without(All(t), i)
  {
  }

  lemma OneExit(t: State, s: State, id: Id)
    requires HasId(t.toasts, id) && ShownAs(t, t.toasts[IndexOfId(t.toasts, id)], {}) && id in t.exits
    requires s.timers == t.timers && s.startedAt == t.startedAt && s.pauses == t.pauses
    requires s.exits == t.exits - {id} && s.remaining == t.remaining - {id}
    ensures OtherSlotsSame(t, s, id) && Unarmed(SlotOf(s, id))
  {
  }

  lemma RemovedSchedule(t: State, s: State, id: Id)
    requires DistinctIds(t.toasts) && Scheduled(t, {}) && HasId(t.toasts, id)
    requires s.toasts == Without(t.toasts, IndexOfId(t.toasts, id))
    requires OtherSlotsSame(t, s, id) && Unarmed(SlotOf(s, id))
    ensures Scheduled(s, {})
  {
    var i := IndexOfId(t.toasts, id);
    OthersRemain(t.toasts, i);
    hide SlotOf, Settled, Without, DistinctIds;
    assert forall x | x in t.toasts :: ShownAs(t, x, {});
    forall x | x in s.toasts
      ensures ShownAs(s, x, {})
    {
      assert x.id != id && SlotOf(s, x.id) == SlotOf(t, x.id);
    }
    assert forall k | 0 <= k < |s.toasts| :: s.toasts[k] in s.toasts;
    forall x | !HasId(s.toasts, x)
      ensures Unarmed(SlotOf(s, x))
    {
      if x != id && HasId(t.toasts, x) {
        StillThere(t.toasts, i, x);
      }
    }
  }

  lemma OthersRemain(s: seq<Toast>, i: nat)
    requires i < |s| && DistinctIds(s)
    ensures forall x | x in Without(s, i) :: x in s && x.id != s[i].id
  {
    var r := Without(s, i);
    assert forall k | 0 <= k < |r| :: r[k] == s[if k < i then k else k + 1];
  }

  lemma StillThere(s: seq<Toast>, i: nat, x: Id)
    requires i < |s| && x != s[i].id && HasId(s, x)
    ensures HasId(Without(s, i), x)
  {
    var j := IndexOfId(s, x);
    var k := if j < i then j else j - 1;
    assert Without(s, i)[k] == s[j];
    Found(Without(s, i), k);
  }

  // ----- The id returned -----------------------------------------------------------------------

  lemma StartedNames(t: State, id: Id, now: int)
    ensures var t' := Started(t, id, now);
            SameNames(t.toasts, t'.toasts) && t'.queue == t.queue
  {
    hide Remaining, TimerCleared, Dismissed;
    var i := IndexOfId(t.toasts, id);
    ClearedKeeps(t, id);
    if i < |t.toasts| {
      DismissedNames(TimerCleared(t, id), id, now);
    }
  }

  lemma ClearedKeeps(t: State, id: Id)
    ensures TimerCleared(t, id).toasts == t.toasts && TimerCleared(t, id).queue == t.queue
  {
  }

  lemma DismissedNames(t: State, id: Id, now: int)
    requires IndexOfId(t.toasts, id) < |t.toasts|
    ensures var t' := Dismissed(t, id, now);
            SameNames(t.toasts, t'.toasts) && t'.queue == t.queue
  {
  }

  predicate Holds(t: State, id: Id) {
    HasId(t.toasts, id) || HasId(t.queue, id)
  }

  /** Whether `enqueueToast` turns the input away. */
  predicate Refused(t: State, input: Input) {
    && |All(t)| == MAX_TOTAL && AllErrors(t.queue) && input.severity != Error
    && forall i | 0 <= i < |All(t)| :: !HasKey(input, All(t)[i])
  }

  lemma HeldAt(s: seq<Toast>, i: nat, id: Id)
    requires i < |s| && s[i].id == id
    ensures HasId(s, id)
  {
  }

  lemma KeyFound(s: seq<Toast>, input: Input)
    ensures (exists i :: 0 <= i < |s| && HasKey(input, s[i])) <==> input.key != "" && IndexOfKey(s, input.key) < |s|
  {
    if input.key != "" && IndexOfKey(s, input.key) < |s| {
      assert HasKey(input, s[IndexOfKey(s, input.key)]);
    }
  }

  lemma AdmittedHolds(t: State, toast: Toast, now: int)
    requires Bounded(t)
    ensures MadeRoom(t, toast.severity).admitted ==> Holds(Admitted(t, toast, now), toast.id)
    ensures !MadeRoom(t, toast.severity).admitted ==> Admitted(t, toast, now) == t
  {
    RoomForNewcomer(t, toast.severity);
    hide MadeRoom, Started, HasId;
    var room := MadeRoom(t, toast.severity);
    if room.admitted {
      var s := room.t.(remaining := room.t.remaining[toast.id := toast.duration]);
      if |s.toasts| < MAX_VISIBLE {
        var shown := s.(toasts := [toast] + s.toasts);
        StartedNames(shown, toast.id, now);
        HeldAt(Started(shown, toast.id, now).toasts, 0, toast.id);
      } else {
        HeldAt(s.queue + [toast], |s.queue|, toast.id);
      }
    }
  }

  /** The id `enqueueToast` returns names a toast of the store unless, and only unless, the input was refused. */
  lemma ReturnedExactly(t: State, input: Input, now: int)
    requires Inv(t)
    ensures Holds(Enqueued(t, input, now), ReturnedId(t, input, now)) <==> !Refused(t, input)
  {
    KeyFound(t.toasts, input);
    KeyFound(t.queue, input);
    hide HasId, Admitted, Started, OnlyVisible, Scheduled, HasKey;
    var i, q := IndexOfKey(t.toasts, input.key), IndexOfKey(t.queue, input.key);
    if input.key != "" && i < |t.toasts| {
      VisibleRefreshed(t, i, input, now);
      InAll(t, input);
    } else if input.key != "" && q < |t.queue| {
      HeldAt(RefreshedQueued(t, q, input, now).queue, q, t.queue[q].id);
      InAll(t, input);
    } else {
      NewReturned(t, input, now);
    }
  }

  /** The toasts with the input's key are among the visible or the queued ones. */
  lemma InAll(t: State, input: Input)
    ensures (exists i :: 0 <= i < |All(t)| && HasKey(input, All(t)[i])) <==>
            || (exists i :: 0 <= i < |t.toasts| && HasKey(input, t.toasts[i]))
            || (exists i :: 0 <= i < |t.queue| && HasKey(input, t.queue[i]))
  {
    hide HasKey;
    var all, n := All(t), |t.toasts|;
    forall i | 0 <= i < n && HasKey(input, t.toasts[i]) ensures HasKey(input, all[i]) {
    }
    forall i | 0 <= i < |t.queue| && HasKey(input, t.queue[i]) ensures HasKey(input, all[n + i]) {
    }
  }

  lemma VisibleRefreshed(t: State, i: nat, input: Input, now: int)
    requires i < |t.toasts|
    ensures HasId(RefreshedVisible(t, i, input, now).toasts, t.toasts[i].id)
  {
    hide Started, HasId;
    var id := t.toasts[i].id;
    var s := TimerCleared(t.(exits := t.exits - {id}, remaining := t.remaining[id := Duration(input)]), id)
             .(toasts := t.toasts[i := Refreshed(t.toasts[i], input, now)]);
    StartedNames(s, id, now);
    HeldAt(RefreshedVisible(t, i, input, now).toasts, i, id);
  }

  lemma NewReturned(t: State, input: Input, now: int)
    requires Inv(t)
    requires forall i | 0 <= i < |t.toasts| :: !HasKey(input, t.toasts[i])
    requires forall i | 0 <= i < |t.queue| :: !HasKey(input, t.queue[i])
    ensures Holds(Admitted(t.(lastId := t.lastId + 1), NewToast(t, input, now), now), Id(now, t.lastId + 1))
       <==> !Refused(t, input)
  {
    hide Scheduled, HasKey, Admitted, MadeRoom;
    var s, toast := t.(lastId := t.lastId + 1), NewToast(t, input, now);
    AdmittedHolds(s, toast, now);
    RoomForNewcomer(s, input.severity);
    assert All(s) == All(t);
    InAll(t, input);
    NotYetHeld(t, toast.id);
  }

  lemma NotYetHeld(t: State, id: Id)
    requires Named(t) && id.n == t.lastId + 1
    ensures !Holds(t, id) && !Holds(t.(lastId := t.lastId + 1), id)
  {
    assert forall i | 0 <= i < |t.toasts| :: All(t)[i] == t.toasts[i];
    assert forall i | 0 <= i < |t.queue| :: All(t)[|t.toasts| + i] == t.queue[i];
  }

  // ----- Every run -----------------------------------------------------------------------------

  lemma StepInv(t: State, step: Step)
    requires Inv(t) && Enabled(t, step)
    ensures Inv(Next(t, step))
  {
    match step
    case Enqueue(input, now) => EnqueueInv(t, input, now);
    case Dismiss(id, now) => DismissInv(t, id, now);
    case Pause(id, now) => PauseInv(t, id, now);
    case Resume(id, now) => ResumeInv(t, id, now);
    case TimerFires(id, now) => DismissInv(t, id, now);
    case ExitFires(id, now) => ExitInv(t, id, now);
  }

  ghost predicate IsRun(states: seq<State>, steps: seq<Step>) {
    && |states| == |steps| + 1 && states[0] == Empty
    && forall k | 0 <= k < |steps| :: Enabled(states[k], steps[k]) && states[k + 1] == Next(states[k], steps[k])
  }

  /**
   In every run: at most 4 visible and 20 in all, a non-empty queue behind 4 visible
   ones, unique ids and keys, and each visible toast leaving with its exit timer, on
   hold without a timer, or counting down to its dismissal.
   */
  lemma {:induction false} RunInv(states: seq<State>, steps: seq<Step>, k: nat)
    requires IsRun(states, steps) && k < |states|
    ensures Inv(states[k])
  {
    hide Inv;
    if k == 0 {
      EmptyInv();
    } else {
      RunInv(states, steps, k - 1);
      StepInv(states[k - 1], steps[k - 1]);
    }
  }

  lemma EmptyInv()
    ensures Inv(Empty)
  {
  }

  /** Pausing a running toast and resuming it later postpones its dismissal by exactly the pause. */
  lemma PausePostpones(t: State, i: nat, p: int, r: int)
    requires Inv(t) && i < |t.toasts| && Running(SlotOf(t, t.toasts[i].id), t.toasts[i])
    requires t.startedAt[t.toasts[i].id] <= p < t.timers[t.toasts[i].id]
    ensures var id := t.toasts[i].id;
            var t' := Resumed(Paused(t, id, p), id, r);
            id in t'.timers && t'.timers[id] - t.timers[id] == r - p
  {
    NamedVisible(t);
    Found(t.toasts, i);
  }
}
