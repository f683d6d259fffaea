/**
 The toast scheduler of the lab store (app/src/lib/labStore.svelte.ts): at most
 four visible toasts, a bounded queue, dismissal timers that can be paused, and a
 short exit timer. A timer is represented by its deadline; its callback is a step.
 */
module Toasts {
  import opened Wrappers

  const MAX_VISIBLE: int := 4
  const MAX_TOTAL: int := 20
  const EXIT_MS: int := 120

  datatype Severity = Success | Info | Warning | Danger | Error

  /** The rendered id is `toast-<now>-<n>`. */
  datatype Id = Id(now: int, n: nat)

  /** `key` is empty when there is none. */
  datatype Toast = Toast(id: Id, key: string, severity: Severity, message: string, createdAt: int,
                         duration: int, count: Option<int>, dismissing: bool)

  datatype Input = Input(key: string, severity: Severity, message: string, duration: Option<int>, count: Option<int>)

  datatype State = State(
    toasts: seq<Toast>, queue: seq<Toast>,
    timers: map<Id, int>, exits: map<Id, int>, startedAt: map<Id, int>,
    remaining: map<Id, int>, pauses: map<Id, nat>, lastId: nat)

  const Empty: State := State([], [], map[], map[], map[], map[], map[], 0)

  datatype Step =
    | Enqueue(input: Input, now: int)
    | Dismiss(id: Id, now: int)
    | Pause(id: Id, now: int)
    | Resume(id: Id, now: int)
    | TimerFires(id: Id, now: int)
    | ExitFires(id: Id, now: int)

  // ----- Meaning ---------------------------------------------------------------------

  function DefaultDuration(severity: Severity): (d: nat) {
    match severity
    case Success => 4_000
    case Info => 4_500
    case Warning => 6_000
    case Danger => 6_000
    case Error => 8_000
  }

  /** The first toast with this id; the length when there is none. */
  function IndexOfId(s: seq<Toast>, id: Id): (i: nat)
    ensures i <= |s| && (i < |s| ==> s[i].id == id) && forall j | 0 <= j < i :: s[j].id != id
  {
    if s == [] || s[0].id == id then 0 else 1 + IndexOfId(s[1..], id)
  }

  function IndexOfKey(s: seq<Toast>, key: string): (i: nat)
    ensures i <= |s| && (i < |s| ==> s[i].key == key) && forall j | 0 <= j < i :: s[j].key != key
  {
    if s == [] || s[0].key == key then 0 else 1 + IndexOfKey(s[1..], key)
  }

  function FirstNonError(s: seq<Toast>): (i: nat)
    ensures i <= |s| && (i < |s| ==> s[i].severity != Error) && forall j | 0 <= j < i :: s[j].severity == Error
  {
    if s == [] || s[0].severity != Error then 0 else 1 + FirstNonError(s[1..])
  }

  function Without<T>(s: seq<T>, i: nat): (t: seq<T>)
    requires i < |s|
    ensures |t| == |s| - 1
  {
    s[..i] + s[i + 1..]
  }

  predicate HasId(s: seq<Toast>, id: Id) {
    IndexOfId(s, id) < |s|
  }

  function Remaining(t: State, id: Id, toast: Toast): (r: int) {
    if id in t.remaining then t.remaining[id] else toast.duration
  }

  function TimerCleared(t: State, id: Id): (t': State) {
    t.(timers := t.timers - {id}, startedAt := t.startedAt - {id})
  }

  function Dismissed(t: State, id: Id, now: int): (t': State) {
    var i := IndexOfId(t.toasts, id);
    if i == |t.toasts| then
      var q := IndexOfId(t.queue, id);
      if q < |t.queue| then t.(queue := Without(t.queue, q)) else t
    else if t.toasts[i].dismissing then t
    else
      TimerCleared(t, id).(pauses := t.pauses - {id},
                           toasts := t.toasts[i := t.toasts[i].(dismissing := true)],
                           exits := t.exits[id := now + EXIT_MS])
  }

  function Started(t: State, id: Id, now: int): (t': State) {
    var i := IndexOfId(t.toasts, id);
    if i == |t.toasts| || t.toasts[i].dismissing || (id in t.pauses && t.pauses[id] > 0) then t
    else
      var c := TimerCleared(t, id);
      var left := Remaining(t, id, t.toasts[i]);
      if left <= 0 then Dismissed(c, id, now)
      else c.(startedAt := c.startedAt[id := now], timers := c.timers[id := now + left])
  }

  function Promoted(t: State, now: int): (t': State)
    decreases |t.queue|
  {
    if |t.toasts| >= MAX_VISIBLE || t.queue == [] then t
    else
      var next := t.queue[0];
      var s := t.(queue := t.queue[1..], toasts := t.toasts + [next]);
      assert s.toasts[|t.toasts|] == next;
      StartedKeepsQueue(s, next.id, now);
      Promoted(Started(s, next.id, now), now)
  }

  lemma StartedKeepsQueue(t: State, id: Id, now: int)
    requires HasId(t.toasts, id)
    ensures Started(t, id, now).queue == t.queue
  {
  }

  function Duration(input: Input): (d: int) {
    if input.duration.Some? then input.duration.value else DefaultDuration(input.severity)
  }

  /** Refresh a toast with the input's key. */
  function Refreshed(toast: Toast, input: Input, now: int): (r: Toast) {
    toast.(severity := input.severity, message := input.message, createdAt := now,
           duration := Duration(input), count := input.count, dismissing := false)
  }

  datatype Room = Room(t: State, admitted: bool)

  /** Drop queued toasts, non-errors first, until there is room, or refuse the newcomer. */
  function MadeRoom(t: State, severity: Severity): (r: Room)
    decreases |t.queue|
  {
    if |t.toasts| + |t.queue| < MAX_TOTAL || t.queue == [] then Room(t, true)
    else
      var i := FirstNonError(t.queue);
      if i == |t.queue| && severity != Error then Room(t, false)
      else
        var drop := if i < |t.queue| then i else 0;
        MadeRoom(t.(queue := Without(t.queue, drop), remaining := t.remaining - {t.queue[drop].id}), severity)
  }

  lemma MadeRoomUnfolds(t: State, severity: Severity)
    ensures MadeRoom(t, severity) ==
            if |t.toasts| + |t.queue| < MAX_TOTAL || t.queue == [] then Room(t, true)
            else
              var i := FirstNonError(t.queue);
              var drop := if i < |t.queue| then i else 0;
              if i == |t.queue| && severity != Error then Room(t, false)
              else MadeRoom(t.(queue := t.queue[..drop] + t.queue[drop + 1..],
                               remaining := t.remaining - {t.queue[drop].id}), severity)
  {
  }

  function RefreshedVisible(t: State, i: nat, input: Input, now: int): (t': State)
    requires i < |t.toasts|
  {
    var id := t.toasts[i].id;
    var s := TimerCleared(t.(exits := t.exits - {id}, remaining := t.remaining[id := Duration(input)]), id)
             .(toasts := t.toasts[i := Refreshed(t.toasts[i], input, now)]);
    if id in t.pauses && t.pauses[id] > 0 then s else Started(s, id, now)
  }

  function RefreshedQueued(t: State, q: nat, input: Input, now: int): (t': State)
    requires q < |t.queue|
  {
    var id := t.queue[q].id;
    TimerCleared(t.(exits := t.exits - {id}, remaining := t.remaining[id := Duration(input)]), id)
    .(queue := t.queue[q := Refreshed(t.queue[q], input, now)])
  }

  function Admitted(t: State, toast: Toast, now: int): (t': State) {
    var room := MadeRoom(t, toast.severity);
    if !room.admitted then room.t
    else
      var s := room.t.(remaining := room.t.remaining[toast.id := toast.duration]);
      if |s.toasts| < MAX_VISIBLE then Started(s.(toasts := [toast] + s.toasts), toast.id, now)
      else s.(queue := s.queue + [toast])
  }

  function NewToast(t: State, input: Input, now: int): (toast: Toast) {
    Toast(Id(now, t.lastId + 1), input.key, input.severity, input.message, now, Duration(input), input.count, false)
  }

  function Enqueued(t: State, input: Input, now: int): (t': State) {
    var i := if input.key == "" then |t.toasts| else IndexOfKey(t.toasts, input.key);
    var q := if input.key == "" then |t.queue| else IndexOfKey(t.queue, input.key);
    if i < |t.toasts| then RefreshedVisible(t, i, input, now)
    else if q < |t.queue| then RefreshedQueued(t, q, input, now)
    else Admitted(t.(lastId := t.lastId + 1), NewToast(t, input, now), now)
  }

  /** The id that `enqueueToast` returns: the toast that has the key, else a new one, shown, queued or refused. */
  function ReturnedId(t: State, input: Input, now: int): (id: Id) {
    if exists i :: 0 <= i < |t.toasts| && HasKey(input, t.toasts[i]) then t.toasts[IndexOfKey(t.toasts, input.key)].id
    else if exists i :: 0 <= i < |t.queue| && HasKey(input, t.queue[i]) then t.queue[IndexOfKey(t.queue, input.key)].id
    else Id(now, t.lastId + 1)
  }

  predicate HasKey(input: Input, toast: Toast) {
    input.key != "" && toast.key == input.key
  }

  function Max0(n: int): (m: int) {
    if n < 0 then 0 else n
  }

  function Paused(t: State, id: Id, now: int): (t': State) {
    var i := IndexOfId(t.toasts, id);
    if i == |t.toasts| || t.toasts[i].dismissing then t
    else if id in t.pauses && t.pauses[id] > 0 then t.(pauses := t.pauses[id := t.pauses[id] + 1])
    else
      var s := t.(pauses := t.pauses[id := 1]);
      TimerCleared(
        if id in t.startedAt
        then s.(remaining := t.remaining[id := Max0(Remaining(t, id, t.toasts[i]) - (now - t.startedAt[id]))])
        else s,
        id)
  }

  function Resumed(t: State, id: Id, now: int): (t': State) {
    if id !in t.pauses || t.pauses[id] == 0 then t
    else if t.pauses[id] > 1 then t.(pauses := t.pauses[id := t.pauses[id] - 1])
    else Started(t.(pauses := t.pauses - {id}), id, now)
  }

  function RemovedId(toasts: seq<Toast>, id: Id): (r: seq<Toast>) {
    if toasts == [] then []
    else (if toasts[0].id == id then [] else [toasts[0]]) + RemovedId(toasts[1..], id)
  }

  function Exited(t: State, id: Id, now: int): (t': State) {
    Promoted(t.(exits := t.exits - {id}, toasts := RemovedId(t.toasts, id), remaining := t.remaining - {id}), now)
  }

  /** A timer's callback can only run while the timer is armed. */
  predicate Enabled(t: State, step: Step) {
    match step
    case TimerFires(id, now) => id in t.timers && t.timers[id] <= now
    case ExitFires(id, now) => id in t.exits && t.exits[id] <= now
    case _ => true
  }

  function Next(t: State, step: Step): (t': State) {
    match step
    case Enqueue(input, now) => Enqueued(t, input, now)
    case Dismiss(id, now) => Dismissed(t, id, now)
    case Pause(id, now) => Paused(t, id, now)
    case Resume(id, now) => Resumed(t, id, now)
    case TimerFires(id, now) => Dismissed(t, id, now)
    case ExitFires(id, now) => Exited(t, id, now)
  }

  // ----- The store as written ----------------------------------------------------------

  class ToastStore {
    var toasts: seq<Toast>
    var toastQueue: seq<Toast>
    var toastTimers: map<Id, int>
    var toastExitTimers: map<Id, int>
    var toastTimerStartedAt: map<Id, int>
    var toastRemaining: map<Id, int>
    var toastPauseCounts: map<Id, nat>
    var toastId: nat

    function Now(): State
      reads this
    {
      State(toasts, toastQueue, toastTimers, toastExitTimers, toastTimerStartedAt, toastRemaining, toastPauseCounts,
            toastId)
    }

    constructor ()
      ensures Now() == Empty
    {
      toasts, toastQueue, toastTimers, toastExitTimers := [], [], map[], map[];
      toastTimerStartedAt, toastRemaining, toastPauseCounts, toastId := map[], map[], map[], 0;
    }

    method EnqueueToast(input: Input, now: int) returns (id: Id)
      modifies this
      ensures Now() == Next(old(Now()), Enqueue(input, now)) && id == ReturnedId(old(Now()), input, now)
    {
      hide RefreshedVisible, Admitted;
      var duration := if input.duration.Some? then input.duration.value else DefaultDuration(input.severity);
      var existingIndex := if input.key != "" then IndexOfKey(toasts, input.key) else |toasts|;
      var queuedIndex := if input.key != "" then IndexOfKey(toastQueue, input.key) else |toastQueue|;

      if existingIndex < |toasts| {
        id := RefreshVisible(existingIndex, input, duration, now);
        return;
      }
      if queuedIndex < |toastQueue| {
        var existing := toastQueue[queuedIndex];
        var updated := existing.(severity := input.severity, message := input.message, createdAt := now,
                                 duration := duration, count := input.count, dismissing := false);
        toastExitTimers := toastExitTimers - {existing.id};
        toastRemaining := toastRemaining[existing.id := duration];
        ClearToastTimer(existing.id);
        toastQueue := toastQueue[queuedIndex := updated];
        return existing.id;
      }

      toastId := toastId + 1;
      var toast := Toast(Id(now, toastId), input.key, input.severity, input.message, now, duration, input.count, false);
      Admit(toast, now);
      return toast.id;
    }

    method RefreshVisible(existingIndex: nat, input: Input, duration: int, now: int) returns (id: Id)
      requires existingIndex < |toasts| && duration == Duration(input)
      modifies this
      ensures Now() == RefreshedVisible(old(Now()), existingIndex, input, now) && id == old(toasts)[existingIndex].id
    {
      var existing := toasts[existingIndex];
      var updated := existing.(severity := input.severity, message := input.message, createdAt := now,
                               duration := duration, count := input.count, dismissing := false);
      toastExitTimers := toastExitTimers - {existing.id};
      toastRemaining := toastRemaining[existing.id := duration];
      ClearToastTimer(existing.id);
      toasts := toasts[existingIndex := updated];
      if existing.id !in toastPauseCounts || toastPauseCounts[existing.id] == 0 {
        StartToastTimer(existing.id, now);
      }
      return existing.id;
    }

    /** Make room for a new toast and show or queue it; it is refused when there is none. */
    method Admit(toast: Toast, now: int)
      modifies this
      ensures Now() == Admitted(old(Now()), toast, now)
    {
      hide MadeRoom, Started;
      MadeRoomUnfolds(Now(), toast.severity);
      while |toasts| + |toastQueue| >= MAX_TOTAL && |toastQueue| > 0
        invariant MadeRoom(Now(), toast.severity) == MadeRoom(old(Now()), toast.severity)
        invariant |toasts| + |toastQueue| < MAX_TOTAL || toastQueue == [] ==>
                    MadeRoom(Now(), toast.severity) == Room(Now(), true)
        decreases |toastQueue|
      {
        var dropIndex := FirstNonError(toastQueue);
        MadeRoomUnfolds(Now(), toast.severity);
        if dropIndex == |toastQueue| && toast.severity != Error {
          return;
        }
        var drop := if dropIndex < |toastQueue| then dropIndex else 0;
        var dropped := toastQueue[drop];
        toastQueue := toastQueue[..drop] + toastQueue[drop + 1..];
        toastRemaining := toastRemaining - {dropped.id};
        MadeRoomUnfolds(Now(), toast.severity);
      }
      toastRemaining := toastRemaining[toast.id := toast.duration];
      if |toasts| < MAX_VISIBLE {
        toasts := [toast] + toasts;
        StartToastTimer(toast.id, now);
      } else {
        toastQueue := toastQueue + [toast];
      }
    }

    method DismissToast(id: Id, now: int)
      modifies this
      ensures Now() == Dismissed(old(Now()), id, now)
    {
      var visibleIndex := IndexOfId(toasts, id);
      if visibleIndex == |toasts| {
        var queuedIndex := IndexOfId(toastQueue, id);
        if queuedIndex < |toastQueue| {
          toastQueue := toastQueue[..queuedIndex] + toastQueue[queuedIndex + 1..];
        }
        return;
      }
      var toast := toasts[visibleIndex];
      if toast.dismissing {
        return;
      }
      ClearToastTimer(id);
      toastPauseCounts := toastPauseCounts - {id};
      toasts := toasts[visibleIndex := toast.(dismissing := true)];
      toastExitTimers := toastExitTimers[id := now + EXIT_MS];
    }

    /** The exit timer's callback. */
    method OnExit(id: Id, now: int)
      modifies this
      ensures Now() == Exited(old(Now()), id, now)
    {
      toastExitTimers := toastExitTimers - {id};
      toasts := RemovedId(toasts, id);
      toastRemaining := toastRemaining - {id};
      PromoteToast(now);
    }

    method PauseToast(id: Id, now: int)
      modifies this
      ensures Now() == Paused(old(Now()), id, now)
    {
      var i := IndexOfId(toasts, id);
      if i == |toasts| || toasts[i].dismissing {
        return;
      }
      var toast := toasts[i];
      var count := if id in toastPauseCounts then toastPauseCounts[id] else 0;
      toastPauseCounts := toastPauseCounts[id := count + 1];
      if count > 0 {
        return;
      }
      if id in toastTimerStartedAt {
        var remaining := if id in toastRemaining then toastRemaining[id] else toast.duration;
        var left := remaining - (now - toastTimerStartedAt[id]);
        toastRemaining := toastRemaining[id := if left < 0 then 0 else left];
      }
      ClearToastTimer(id);
    }

    method ResumeToast(id: Id, now: int)
      modifies this
      ensures Now() == Resumed(old(Now()), id, now)
    {
      var count := if id in toastPauseCounts then toastPauseCounts[id] else 0;
      if count == 0 {
        return;
      }
      if count <= 1 {
        toastPauseCounts := toastPauseCounts - {id};
      } else {
        toastPauseCounts := toastPauseCounts[id := count - 1];
      }
      if count > 1 {
        return;
      }
      StartToastTimer(id, now);
    }

    method ClearToastTimer(id: Id)
      modifies this`toastTimers, this`toastTimerStartedAt
      ensures Now() == TimerCleared(old(Now()), id)
    {
      toastTimers := toastTimers - {id};
      toastTimerStartedAt := toastTimerStartedAt - {id};
    }

    method StartToastTimer(id: Id, now: int)
      modifies this
      ensures Now() == Started(old(Now()), id, now)
    {
      var i := IndexOfId(toasts, id);
      if i == |toasts| || toasts[i].dismissing || (id in toastPauseCounts && toastPauseCounts[id] > 0) {
        return;
      }
      var toast := toasts[i];
      ClearToastTimer(id);
      var remaining := if id in toastRemaining then toastRemaining[id] else toast.duration;
      if remaining <= 0 {
        DismissToast(id, now);
        return;
      }
      toastTimerStartedAt := toastTimerStartedAt[id := now];
      toastTimers := toastTimers[id := now + remaining];
    }

    method PromoteToast(now: int)
      modifies this
      ensures Now() == Promoted(old(Now()), now)
    {
      while |toasts| < MAX_VISIBLE && |toastQueue| > 0
        invariant Promoted(Now(), now) == Promoted(old(Now()), now)
        decreases |toastQueue|
      {
        var next := toastQueue[0];
        toastQueue := toastQueue[1..];
        toasts := toasts + [next];
        assert toasts[|toasts| - 1] == next;
        StartedKeepsQueue(Now(), next.id, now);
        StartToastTimer(next.id, now);
      }
    }
  }
}
