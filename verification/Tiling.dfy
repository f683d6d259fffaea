/**
 Tiled panes of the console dock (app/src/lib/consoleUiStore.svelte.ts): which
 panes are shown, which is pinned, and which is evicted when a layout is full.
 */
module Tiling {
  import opened Wrappers

  datatype Pane = ConsolePane(node: int) | CapturePane(link: int) | LensPane(link: int)

  datatype Layout = Tabs | Tile2 | Tile3 | Tile4

  datatype State = State(layout: Layout, tiles: seq<Pane>, focused: Option<Pane>, pinned: Option<Pane>,
                         recency: map<Pane, nat>, clock: nat, labId: Option<string>, lastSeen: Option<int>)

  function Fresh(layout: Layout): (s: State) {
    State(layout, [], None, None, map[], 0, None, None)
  }

  datatype Step =
    | EnsureTiled(pane: Pane)
    | SetFocused(focus: Option<Pane>)
    | Sync(active: Option<int>)
    | SetLayout(layout: Layout)
    | ToggleTile(pane: Pane)
    | SetPinned(pin: Option<Pane>)
    | Reconcile(lab: string, consoles: seq<int>, captures: seq<int>, lenses: seq<int>)

  // ----- Meaning ---------------------------------------------------------------------

  function Capacity(layout: Layout): (n: nat) {
    match layout
    case Tabs => 0
    case Tile2 => 2
    case Tile3 => 3
    case Tile4 => 4
  }

  function LastFocus(recency: map<Pane, nat>, p: Pane): (t: nat) {
    if p in recency then recency[p] else 0
  }

  function Unpinned(tiles: seq<Pane>, pinned: Option<Pane>): (c: seq<Pane>)
    ensures forall p :: p in c <==> p in tiles && pinned != Some(p)
  {
    if tiles == [] then []
    else (if pinned == Some(tiles[0]) then [] else [tiles[0]]) + Unpinned(tiles[1..], pinned)
  }

  /** The candidate focused longest ago, the first of equals. */
  function Oldest(candidates: seq<Pane>, recency: map<Pane, nat>): (p: Pane)
    requires candidates != []
    ensures p in candidates && forall q | q in candidates :: LastFocus(recency, p) <= LastFocus(recency, q)
  {
    var n := |candidates| - 1;
    if n == 0 then candidates[0]
    else
      var p := Oldest(candidates[..n], recency);
      if LastFocus(recency, candidates[n]) < LastFocus(recency, p) then candidates[n] else p
  }

  function IndexOf(tiles: seq<Pane>, p: Pane): (i: nat)
    requires p in tiles
    ensures i < |tiles| && tiles[i] == p && p !in tiles[..i]
  {
    if tiles[0] == p then 0 else 1 + IndexOf(tiles[1..], p)
  }

  function Evicted(tiles: seq<Pane>, p: Pane): (r: seq<Pane>)
    requires p in tiles
    ensures |r| == |tiles| - 1
  {
    var i := IndexOf(tiles, p);
    tiles[..i] + tiles[i + 1..]
  }

  function Trimmed(tiles: seq<Pane>, pinned: Option<Pane>, recency: map<Pane, nat>, max: nat): (r: seq<Pane>)
    decreases |tiles|
  {
    var candidates := Unpinned(tiles, pinned);
    if |tiles| <= max || candidates == [] then tiles
    else Trimmed(Evicted(tiles, Oldest(candidates, recency)), pinned, recency, max)
  }

  lemma TrimmedUnfolds(tiles: seq<Pane>, pinned: Option<Pane>, recency: map<Pane, nat>, max: nat)
    ensures var candidates := Unpinned(tiles, pinned);
            Trimmed(tiles, pinned, recency, max) ==
            if |tiles| <= max || candidates == [] then tiles
            else
              var i := IndexOf(tiles, Oldest(candidates, recency));
              Trimmed(tiles[..i] + tiles[i + 1..], pinned, recency, max)
  {
  }

  function TrimTiles(s: State): (s': State) {
    if s.layout == Tabs then s else s.(tiles := Trimmed(s.tiles, s.pinned, s.recency, Capacity(s.layout)))
  }

  function Noted(s: State, p: Pane): (s': State) {
    s.(clock := s.clock + 1, recency := s.recency[p := s.clock + 1])
  }

  /** The tiles with the pin in front and `p` behind, each only if missing. */
  function WithPinAnd(tiles: seq<Pane>, pinned: Option<Pane>, p: Pane): (r: seq<Pane>) {
    var t := WithPin(tiles, pinned);
    if p in t then t else t + [p]
  }

  function WithPin(tiles: seq<Pane>, pinned: Option<Pane>): (r: seq<Pane>) {
    if pinned.Some? && pinned.value !in tiles then [pinned.value] + tiles else tiles
  }

  function Tiled(s: State, p: Pane): (s': State) {
    if s.layout == Tabs then s else TrimTiles(Noted(s, p).(tiles := WithPinAnd(s.tiles, s.pinned, p)))
  }

  function Focused(s: State, focus: Option<Pane>): (s': State) {
    if focus.None? then s.(focused := None)
    else
      var p := focus.value;
      var f := Noted(s.(focused := focus), p);
      Tiled(if p.ConsolePane? then f.(lastSeen := Some(p.node)) else f, p)
  }

  function Synced(s: State, active: Option<int>): (s': State) {
    if active == s.lastSeen then s
    else if active.None? then s.(lastSeen := None)
    else
      var p := ConsolePane(active.value);
      Tiled(Noted(s.(lastSeen := active, focused := Some(p)), p), p)
  }

  /** The layouts' common ending: pin in front, trim, and bring the focused pane in. */
  function LaidOut(s: State, layout: Layout): (s': State) {
    var l := s.(layout := layout);
    if layout == Tabs then l
    else
      var t := TrimTiles(l.(tiles := WithPin(l.tiles, l.pinned)));
      if t.focused.Some? then Tiled(t, t.focused.value) else t
  }

  function Toggled(s: State, p: Pane): (s': State) {
    if s.layout == Tabs then s
    else if p in s.tiles then
      if s.pinned == Some(p) then s else s.(tiles := Unpinned(s.tiles, Some(p)))
    else Tiled(s, p)
  }

  function Pinned(s: State, pin: Option<Pane>): (s': State) {
    var q := s.(pinned := pin);
    if pin.None? || s.layout == Tabs then q
    else TrimTiles(q.(tiles := [pin.value] + Unpinned(s.tiles, pin)))
  }

  predicate IsOpen(p: Pane, consoles: seq<int>, captures: seq<int>, lenses: seq<int>) {
    match p
    case ConsolePane(node) => node in consoles
    case CapturePane(link) => link in captures
    case LensPane(link) => link in lenses
  }

  function StillOpen(tiles: seq<Pane>, consoles: seq<int>, captures: seq<int>, lenses: seq<int>): (r: seq<Pane>)
    ensures forall p :: p in r <==> p in tiles && IsOpen(p, consoles, captures, lenses)
  {
    if tiles == [] then []
    else (if IsOpen(tiles[0], consoles, captures, lenses) then [tiles[0]] else [])
         + StillOpen(tiles[1..], consoles, captures, lenses)
  }

  function KeptOpen(p: Option<Pane>, consoles: seq<int>, captures: seq<int>, lenses: seq<int>): (r: Option<Pane>) {
    if p.Some? && IsOpen(p.value, consoles, captures, lenses) then p else None
  }

  function DefaultFocus(focused: Option<Pane>, consoles: seq<int>, captures: seq<int>): (r: Option<Pane>) {
    if focused.Some? then focused
    else if consoles != [] then Some(ConsolePane(consoles[0]))
    else if captures != [] then Some(CapturePane(captures[0]))
    else None
  }

  function Reconciled(s: State, lab: string, consoles: seq<int>, captures: seq<int>, lenses: seq<int>): (s': State) {
    var s0 := if s.labId == Some(lab) then s else State(s.layout, [], None, None, map[], 0, Some(lab), None);
    var s1 := s0.(tiles := StillOpen(s0.tiles, consoles, captures, lenses),
                  focused := DefaultFocus(KeptOpen(s0.focused, consoles, captures, lenses), consoles, captures),
                  pinned := KeptOpen(s0.pinned, consoles, captures, lenses));
    if s1.layout == Tabs then s1
    else
      var s2 := s1.(tiles := WithPin(s1.tiles, s1.pinned));
      TrimTiles(if s2.focused.Some? then Tiled(s2, s2.focused.value) else s2)
  }

  function Next(s: State, step: Step): (s': State) {
    match step
    case EnsureTiled(p) => Tiled(s, p)
    case SetFocused(focus) => Focused(s, focus)
    case Sync(active) => Synced(s, active)
    case SetLayout(layout) => LaidOut(s, layout)
    case ToggleTile(p) => Toggled(s, p)
    case SetPinned(pin) => Pinned(s, pin)
    case Reconcile(lab, consoles, captures, lenses) => Reconciled(s, lab, consoles, captures, lenses)
  }

  // ----- The store as written ----------------------------------------------------------

  class ConsoleUiStore {
    var layout: Layout
    var tiles: seq<Pane>
    var focused: Option<Pane>
    var pinned: Option<Pane>
    var focusRecency: map<Pane, nat>
    var focusClock: nat
    var lastLabId: Option<string>
    var lastSeenActiveConsole: Option<int>

    function Now(): State
      reads this
    {
      State(layout, tiles, focused, pinned, focusRecency, focusClock, lastLabId, lastSeenActiveConsole)
    }

    constructor (initial: Layout)
      ensures Now() == Fresh(initial)
    {
      layout, tiles, focused, pinned := initial, [], None, None;
      focusRecency, focusClock, lastLabId, lastSeenActiveConsole := map[], 0, None, None;
    }

    method NoteFocus(p: Pane)
      modifies this`focusClock, this`focusRecency
      ensures Now() == Noted(old(Now()), p)
    {
      focusClock := focusClock + 1;
      focusRecency := focusRecency[p := focusClock];
    }

    method Trim()
      modifies this`tiles
      ensures Now() == TrimTiles(old(Now()))
    {
      hide Trimmed, Unpinned, Oldest, IndexOf;
      var max := Capacity(layout);
      TrimmedUnfolds(tiles, pinned, focusRecency, max);
      if max == 0 || |tiles| <= max {
        return;
      }
      var kept := tiles;
      while |kept| > max
        invariant Now() == old(Now())
        invariant Trimmed(kept, pinned, focusRecency, max) == Trimmed(tiles, pinned, focusRecency, max)
        invariant |kept| <= max ==> Trimmed(kept, pinned, focusRecency, max) == kept
        decreases |kept|
      {
        TrimmedUnfolds(kept, pinned, focusRecency, max);
        var candidates := Unpinned(kept, pinned);
        if |candidates| == 0 {
          assert Trimmed(kept, pinned, focusRecency, max) == kept;
          break;
        }
        var evicted := LeastRecent(candidates);
        var index := IndexOf(kept, evicted);
        kept := kept[..index] + kept[index + 1..];
        TrimmedUnfolds(kept, pinned, focusRecency, max);
      }
      TrimmedUnfolds(kept, pinned, focusRecency, max);
      tiles := kept;
    }

    method LeastRecent(candidates: seq<Pane>) returns (oldest: Pane)
      requires candidates != []
      ensures oldest == Oldest(candidates, focusRecency)
    {
      oldest := candidates[0];
      assert candidates[..1] == [candidates[0]];
      for i := 1 to |candidates|
        invariant oldest == Oldest(candidates[..i], focusRecency)
      {
        assert candidates[..i + 1][..i] == candidates[..i];
        if LastFocus(focusRecency, candidates[i]) < LastFocus(focusRecency, oldest) {
          oldest := candidates[i];
        }
      }
      assert candidates[..|candidates|] == candidates;
    }

    method EnsureTiled(p: Pane)
      modifies this
      ensures Now() == Next(old(Now()), Step.EnsureTiled(p))
    {
      if layout == Tabs {
        return;
      }
      var next := tiles;
      if pinned.Some? && pinned.value !in next {
        next := [pinned.value] + next;
      }
      if p !in next {
        next := next + [p];
      }
      NoteFocus(p);
      tiles := next;
      Trim();
    }

    method SetFocused(focus: Option<Pane>)
      modifies this
      ensures Now() == Next(old(Now()), Step.SetFocused(focus))
    {
      focused := focus;
      if focus.None? {
        return;
      }
      var p := focus.value;
      NoteFocus(p);
      if p.ConsolePane? {
        lastSeenActiveConsole := Some(p.node);
      }
      if layout != Tabs {
        EnsureTiled(p);
      }
    }

    method SyncFromLabStore(active: Option<int>)
      modifies this
      ensures Now() == Next(old(Now()), Sync(active))
    {
      if active == lastSeenActiveConsole {
        return;
      }
      lastSeenActiveConsole := active;
      if active.None? {
        return;
      }
      var p := ConsolePane(active.value);
      focused := Some(p);
      NoteFocus(p);
      if layout != Tabs {
        EnsureTiled(p);
      }
    }

    method SetLayout(l: Layout)
      modifies this
      ensures Now() == Next(old(Now()), Step.SetLayout(l))
    {
      layout := l;
      if l != Tabs {
        if pinned.Some? && pinned.value !in tiles {
          tiles := [pinned.value] + tiles;
        }
        Trim();
        if focused.Some? {
          EnsureTiled(focused.value);
        }
      }
    }

    method ToggleTile(p: Pane)
      modifies this
      ensures Now() == Next(old(Now()), Step.ToggleTile(p))
    {
      hide Tiled, Unpinned;
      if layout == Tabs {
        return;
      }
      if p in tiles {
        if pinned != Some(p) {
          tiles := Unpinned(tiles, Some(p));
        }
        return;
      }
      EnsureTiled(p);
    }

    method SetPinned(pin: Option<Pane>)
      modifies this
      ensures Now() == Next(old(Now()), Step.SetPinned(pin))
    {
      pinned := pin;
      if pin.None? || layout == Tabs {
        return;
      }
      tiles := Unpinned(tiles, pin);
      tiles := [pin.value] + tiles;
      Trim();
    }

    method Reconcile(lab: string, consoles: seq<int>, captures: seq<int>, lenses: seq<int>)
      modifies this
      ensures Now() == Next(old(Now()), Step.Reconcile(lab, consoles, captures, lenses))
    {
      hide Tiled, TrimTiles, StillOpen;
      if lastLabId != Some(lab) {
        lastLabId := Some(lab);
        tiles, focused, pinned := [], None, None;
        lastSeenActiveConsole, focusRecency, focusClock := None, map[], 0;
      }
      tiles := StillOpen(tiles, consoles, captures, lenses);
      if focused.Some? && !IsOpen(focused.value, consoles, captures, lenses) {
        focused := None;
      }
      if pinned.Some? && !IsOpen(pinned.value, consoles, captures, lenses) {
        pinned := None;
      }
      if focused.None? {
        if |consoles| > 0 {
          focused := Some(ConsolePane(consoles[0]));
        } else if |captures| > 0 {
          focused := Some(CapturePane(captures[0]));
        }
      }
      if layout != Tabs {
        if pinned.Some? && pinned.value !in tiles {
          tiles := [pinned.value] + tiles;
        }
        if focused.Some? {
          EnsureTiled(focused.value);
        }
        Trim();
      }
    }
  }

  // ----- What holds of every run ----------------------------------------------------------

  predicate Distinct(tiles: seq<Pane>) {
    forall i, j | 0 <= i < j < |tiles| :: tiles[i] != tiles[j]
  }

  /** Focus times are past and belong to one pane each. */
  predicate Clocked(recency: map<Pane, nat>, clock: nat) {
    && (forall p | p in recency :: 1 <= recency[p] <= clock)
    && (forall p, q | p in recency && q in recency && p != q :: recency[p] != recency[q])
  }

  predicate Fits(s: State) {
    s.layout != Tabs ==> |s.tiles| <= Capacity(s.layout) && (s.pinned.Some? ==> s.pinned.value in s.tiles)
  }

  predicate Inv(s: State) {
    Distinct(s.tiles) && Clocked(s.recency, s.clock) && Fits(s)
  }

  lemma DistinctWithout(tiles: seq<Pane>, i: nat)
    requires Distinct(tiles) && i < |tiles|
    ensures var r := tiles[..i] + tiles[i + 1..];
            Distinct(r) && forall p :: p in r <==> p in tiles && p != tiles[i]
  {
    var r := tiles[..i] + tiles[i + 1..];
    assert forall k | 0 <= k < |r| :: r[k] == tiles[if k < i then k else k + 1];
    assert forall k | 0 <= k < |tiles| && k != i :: tiles[k] == r[if k < i then k else k - 1];
  }

  lemma {:induction false} UnpinnedDistinct(tiles: seq<Pane>, pinned: Option<Pane>)
    requires Distinct(tiles)
    ensures Distinct(Unpinned(tiles, pinned)) && |Unpinned(tiles, pinned)| >= |tiles| - 1
  {
    if tiles != [] {
      var rest := tiles[1..];
      assert Distinct(rest);
      UnpinnedDistinct(rest, pinned);
      assert tiles[0] !in rest;
      if pinned == Some(tiles[0]) {
        NothingToUnpin(rest, pinned);
      }
    }
  }

  lemma {:induction false} NothingToUnpin(tiles: seq<Pane>, pinned: Option<Pane>)
    requires pinned.None? || pinned.value !in tiles
    ensures Unpinned(tiles, pinned) == tiles
  {
    if tiles != [] {
      NothingToUnpin(tiles[1..], pinned);
    }
  }

  lemma {:induction false} StillOpenDistinct(tiles: seq<Pane>, consoles: seq<int>, captures: seq<int>, lenses: seq<int>)
    requires Distinct(tiles)
    ensures var r := StillOpen(tiles, consoles, captures, lenses); Distinct(r) && |r| <= |tiles|
  {
    if tiles != [] {
      assert tiles[0] !in tiles[1..];
      StillOpenDistinct(tiles[1..], consoles, captures, lenses);
    }
  }

  /** Everything evicted and unpinned was focused no more recently than everything that stays unpinned. */
  ghost predicate EvictsLeastRecent(before: seq<Pane>, after: seq<Pane>, pinned: Option<Pane>,
                                    recency: map<Pane, nat>)
  {
    forall p, q | p in before && p !in after && q in after && pinned != Some(p) && pinned != Some(q) ::
      LastFocus(recency, p) <= LastFocus(recency, q)
  }

  /** The trim loop ends within capacity, keeps the pin, and evicts the least recently focused. */
  lemma {:induction false} TrimmedFits(tiles: seq<Pane>, pinned: Option<Pane>, recency: map<Pane, nat>, max: nat)
    requires Distinct(tiles) && max >= 1
    ensures var r := Trimmed(tiles, pinned, recency, max);
            && Distinct(r) && |r| <= max && (forall p | p in r :: p in tiles)
            && (forall p | p in tiles && pinned == Some(p) :: p in r)
            && (|tiles| <= max ==> r == tiles) && (|tiles| >= max ==> |r| == max)
            && EvictsLeastRecent(tiles, r, pinned, recency)
    decreases |tiles|
  {
    UnpinnedDistinct(tiles, pinned);
    if |tiles| > max {
      var candidates := Unpinned(tiles, pinned);
      var out := Oldest(candidates, recency);
      var fewer := Evicted(tiles, out);
      DistinctWithout(tiles, IndexOf(tiles, out));
      TrimmedFits(fewer, pinned, recency, max);
      hide Oldest, IndexOf, Unpinned;
    }
  }

  lemma WithPinGood(tiles: seq<Pane>, pinned: Option<Pane>)
    requires Distinct(tiles)
    ensures var r := WithPin(tiles, pinned);
            Distinct(r) && (pinned.Some? ==> pinned.value in r)
            && forall p :: p in r <==> p in tiles || pinned == Some(p)
  {
  }

  lemma AppendGood(tiles: seq<Pane>, p: Pane)
    requires Distinct(tiles)
    ensures var r := if p in tiles then tiles else tiles + [p];
            Distinct(r) && forall q :: q in r <==> q in tiles || q == p
  {
  }

  lemma TrimInv(s: State)
    requires Distinct(s.tiles) && Clocked(s.recency, s.clock)
    requires s.layout != Tabs && s.pinned.Some? ==> s.pinned.value in s.tiles
    ensures Inv(TrimTiles(s))
  {
    if s.layout != Tabs {
      TrimmedFits(s.tiles, s.pinned, s.recency, Capacity(s.layout));
    }
  }

  lemma NotedClock(s: State, p: Pane)
    requires Clocked(s.recency, s.clock)
    ensures Clocked(Noted(s, p).recency, Noted(s, p).clock)
    ensures forall q | q != p :: LastFocus(Noted(s, p).recency, q) < LastFocus(Noted(s, p).recency, p)
  {
  }

  /**
   After `ensureTiled(p)` in a tiled layout p is shown, nothing new but p and the
   pin is, and whatever was evicted was focused no more recently than what stays.
   */
  lemma TiledShows(s: State, p: Pane)
    requires Distinct(s.tiles) && Clocked(s.recency, s.clock)
    ensures Inv(Tiled(s, p)) || s.layout == Tabs
    ensures var s' := Tiled(s, p);
            s.layout != Tabs ==>
              && p in s'.tiles
              && (forall q | q in s'.tiles :: q in s.tiles || q == p || s.pinned == Some(q))
              && EvictsLeastRecent(s.tiles, s'.tiles, s.pinned, s'.recency)
  {
    if s.layout != Tabs {
      var n := Noted(s, p);
      var tiles := WithPinAnd(s.tiles, s.pinned, p);
      WithPinGood(s.tiles, s.pinned);
      AppendGood(WithPin(s.tiles, s.pinned), p);
      NotedClock(s, p);
      TrimmedFits(tiles, s.pinned, n.recency, Capacity(s.layout));
      TrimInv(n.(tiles := tiles));
      NewestStays(tiles, s.pinned, n.recency, Capacity(s.layout), p);
    }
  }

  /** With room for the pin and one more, the pane focused last survives a trim. */
  lemma NewestStays(tiles: seq<Pane>, pinned: Option<Pane>, recency: map<Pane, nat>, max: nat, p: Pane)
    requires Distinct(tiles) && max >= 2 && p in tiles
    requires forall q | q != p :: LastFocus(recency, q) < LastFocus(recency, p)
    ensures p in Trimmed(tiles, pinned, recency, max)
  {
    TrimmedFits(tiles, pinned, recency, max);
    var r := Trimmed(tiles, pinned, recency, max);
    if |tiles| >= max {
      // Two panes stay, so one stays that is not the pin: p itself, or one that p outlives.
      var q := if pinned == Some(r[0]) then r[1] else r[0];
      assert q in r && pinned != Some(q);
      assert q == p || LastFocus(recency, q) < LastFocus(recency, p);
    }
  }

  lemma TiledInv(s: State, p: Pane)
    requires Distinct(s.tiles) && Clocked(s.recency, s.clock)
    ensures Inv(Tiled(s, p))
  {
    TiledShows(s, p);
  }

  lemma LaidOutInv(s: State, layout: Layout)
    requires Inv(s)
    ensures Inv(LaidOut(s, layout))
  {
    if layout != Tabs {
      var l := s.(layout := layout);
      WithPinGood(s.tiles, s.pinned);
      TrimInv(l.(tiles := WithPin(s.tiles, s.pinned)));
      var t := TrimTiles(l.(tiles := WithPin(s.tiles, s.pinned)));
      if t.focused.Some? {
        TiledInv(t, t.focused.value);
      }
    }
  }

  lemma ToggledInv(s: State, p: Pane)
    requires Inv(s)
    ensures Inv(Toggled(s, p))
  {
    UnpinnedDistinct(s.tiles, Some(p));
    UnpinnedShorter(s.tiles, Some(p));
    TiledInv(s, p);
  }

  lemma {:induction false} UnpinnedShorter(tiles: seq<Pane>, pinned: Option<Pane>)
    ensures |Unpinned(tiles, pinned)| <= |tiles|
  {
    if tiles != [] {
      UnpinnedShorter(tiles[1..], pinned);
    }
  }

  lemma PinnedInv(s: State, pin: Option<Pane>)
    requires Inv(s)
    ensures Inv(Pinned(s, pin))
  {
    if pin.Some? && s.layout != Tabs {
      UnpinnedDistinct(s.tiles, pin);
      assert pin.value !in Unpinned(s.tiles, pin);
      TrimInv(s.(pinned := pin, tiles := [pin.value] + Unpinned(s.tiles, pin)));
    }
  }

  lemma ReconciledInv(s: State, lab: string, consoles: seq<int>, captures: seq<int>, lenses: seq<int>)
    requires Inv(s)
    ensures Inv(Reconciled(s, lab, consoles, captures, lenses))
  {
    var s0 := if s.labId == Some(lab) then s else State(s.layout, [], None, None, map[], 0, Some(lab), None);
    StillOpenDistinct(s0.tiles, consoles, captures, lenses);
    var s1 := s0.(tiles := StillOpen(s0.tiles, consoles, captures, lenses),
                  focused := DefaultFocus(KeptOpen(s0.focused, consoles, captures, lenses), consoles, captures),
                  pinned := KeptOpen(s0.pinned, consoles, captures, lenses));
    if s1.layout != Tabs {
      WithPinGood(s1.tiles, s1.pinned);
      var s2 := s1.(tiles := WithPin(s1.tiles, s1.pinned));
      if s2.focused.Some? {
        TiledInv(s2, s2.focused.value);
        TrimInv(Tiled(s2, s2.focused.value));
      } else {
        TrimInv(s2);
      }
    }
  }

  lemma StepInv(s: State, step: Step)
    requires Inv(s)
    ensures Inv(Next(s, step))
  {
    match step
    case EnsureTiled(p) => TiledInv(s, p);
    case SetFocused(focus) =>
      if focus.Some? {
        NotedClock(s, focus.value);
        var f := Noted(s.(focused := focus), focus.value);
        TiledInv(if focus.value.ConsolePane? then f.(lastSeen := Some(focus.value.node)) else f, focus.value);
      }
    case Sync(active) =>
      if active.Some? {
        var p := ConsolePane(active.value);
        NotedClock(s, p);
        TiledInv(Noted(s.(lastSeen := active, focused := Some(p)), p), p);
      }
    case SetLayout(layout) => LaidOutInv(s, layout);
    case ToggleTile(p) => ToggledInv(s, p);
    case SetPinned(pin) => PinnedInv(s, pin);
    case Reconcile(lab, consoles, captures, lenses) => ReconciledInv(s, lab, consoles, captures, lenses);
  }

  function Run(s: State, steps: seq<Step>): (s': State)
    decreases |steps|
  {
    if steps == [] then s else Next(Run(s, steps[..|steps| - 1]), steps[|steps| - 1])
  }

  /** In every reachable state tiles are distinct; a tiled layout is within capacity and shows the pin. */
  lemma {:induction false} RunInv(layout: Layout, steps: seq<Step>)
    ensures Inv(Run(Fresh(layout), steps))
    decreases |steps|
  {
    hide Inv, Next;
    if steps == [] {
      FreshInv(layout);
    } else {
      RunInv(layout, steps[..|steps| - 1]);
      StepInv(Run(Fresh(layout), steps[..|steps| - 1]), steps[|steps| - 1]);
    }
  }

  lemma FreshInv(layout: Layout)
    ensures Inv(Fresh(layout))
  {
  }

  /** What `ensureTiled` promises, in every reachable state of a tiled layout. */
  lemma EnsureTiledInRuns(layout: Layout, steps: seq<Step>, p: Pane)
    requires Run(Fresh(layout), steps).layout != Tabs
    ensures var s := Run(Fresh(layout), steps);
            var s' := Next(s, EnsureTiled(p));
            && p in s'.tiles && |s'.tiles| <= Capacity(s.layout)
            && (s.pinned.Some? ==> s.pinned.value in s'.tiles)
            && (forall q | q in s'.tiles :: q in s.tiles || q == p)
            && EvictsLeastRecent(s.tiles, s'.tiles, s.pinned, s'.recency)
  {
    RunInv(layout, steps);
    TiledShows(Run(Fresh(layout), steps), p);
  }
}
