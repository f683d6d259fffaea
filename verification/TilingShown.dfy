/** Which panes are shown, in which order, after each operation, and whose focus counts as recent. */
module TilingShown {
  import opened Wrappers
  import opened Tiling

  function Room(layout: Layout): (n: nat) {
    match layout
    case Tabs => 0
    case Tile2 => 2
    case Tile3 => 3
    case Tile4 => 4
  }

  /** `tiles` in their order, without the panes that left. */
  function Left(tiles: seq<Pane>, gone: set<Pane>): (r: seq<Pane>) {
    if tiles == [] then []
    else Left(tiles[..|tiles| - 1], gone) + if tiles[|tiles| - 1] in gone then [] else [tiles[|tiles| - 1]]
  }

  /** Pane i goes before pane j: focused longer ago, or neither ever again and listed first. */
  predicate GoesBefore(tiles: seq<Pane>, recency: map<Pane, nat>, i: nat, j: nat)
    requires i < |tiles| && j < |tiles|
  {
    var a, b := LastFocus(recency, tiles[i]), LastFocus(recency, tiles[j]);
    a < b || (a == b && i < j)
  }

  /** `gone` are as many unpinned tiles as are too many, those that go first. */
  ghost predicate Surplus(tiles: seq<Pane>, pinned: Option<Pane>, recency: map<Pane, nat>, max: nat, gone: set<Pane>) {
    && (forall p | p in gone :: p in tiles && pinned != Some(p))
    && |gone| == (if |tiles| <= max then 0 else |tiles| - max)
    && forall i, j | 0 <= i < |tiles| && 0 <= j < |tiles| && tiles[i] in gone && tiles[j] !in gone
                     && pinned != Some(tiles[j]) :: GoesBefore(tiles, recency, i, j)
  }

  /** `after` is `before` less its surplus, in the same order. */
  ghost predicate Fitted(before: seq<Pane>, after: seq<Pane>, pinned: Option<Pane>, recency: map<Pane, nat>, max: nat) {
    exists gone: set<Pane> :: Surplus(before, pinned, recency, max, gone) && after == Left(before, gone)
  }

  lemma {:induction false} LeftAll(tiles: seq<Pane>)
    ensures Left(tiles, {}) == tiles
  {
    if tiles != [] {
      LeftAll(tiles[..|tiles| - 1]);
    }
  }

  lemma {:induction false} LeftTwice(tiles: seq<Pane>, a: set<Pane>, b: set<Pane>)
    ensures Left(Left(tiles, a), b) == Left(tiles, a + b)
  {
    if tiles != [] {
      var n := |tiles| - 1;
      LeftTwice(tiles[..n], a, b);
      if tiles[n] in a {
        assert Left(tiles, a) == Left(tiles[..n], a);
      } else {
        var l := Left(tiles, a);
        assert l[..|l| - 1] == Left(tiles[..n], a);
      }
    }
  }

  lemma {:induction false} LeftCons(tiles: seq<Pane>, gone: set<Pane>)
    requires tiles != []
    ensures Left(tiles, gone) == (if tiles[0] in gone then [] else [tiles[0]]) + Left(tiles[1..], gone)
    decreases |tiles|
  {
    var n := |tiles| - 1;
    if n > 0 {
      LeftCons(tiles[..n], gone);
      assert tiles[..n][1..] == tiles[1..][..n - 1];
      var a, b := if tiles[0] in gone then [] else [tiles[0]], if tiles[n] in gone then [] else [tiles[n]];
      var m := Left(tiles[1..][..n - 1], gone);
      assert Left(tiles, gone) == Left(tiles[..n], gone) + b && Left(tiles[1..], gone) == m + b;
      assert a + m + b == a + (m + b);
    }
  }

  lemma {:induction false} LeftOne(tiles: seq<Pane>, i: nat)
    requires Distinct(tiles) && i < |tiles|
    ensures Left(tiles, {tiles[i]}) == tiles[..i] + tiles[i + 1..]
  {
    var n := |tiles| - 1;
    var front := tiles[..n];
    assert Distinct(front);
    if i == n {
      NoneLeft(front, {tiles[i]});
      assert tiles[..i] + tiles[i + 1..] == front;
    } else {
      LeftOne(front, i);
      assert tiles[..i] + tiles[i + 1..] == front[..i] + front[i + 1..] + [tiles[n]];
    }
  }

  lemma {:induction false} NoneLeft(tiles: seq<Pane>, gone: set<Pane>)
    requires forall i | 0 <= i < |tiles| :: tiles[i] !in gone
    ensures Left(tiles, gone) == tiles
  {
    if tiles != [] {
      NoneLeft(tiles[..|tiles| - 1], gone);
    }
  }

  /** The candidate chosen for eviction comes first among those focused as long ago. */
  lemma {:induction false} OldestFirst(c: seq<Pane>, recency: map<Pane, nat>, j: nat)
    requires j < |c| && c[j] != Oldest(c, recency) && LastFocus(recency, c[j]) == LastFocus(recency, Oldest(c, recency))
    ensures IndexOf(c, Oldest(c, recency)) < j
  {
    var n := |c| - 1;
    if n > 0 {
      var p := Oldest(c[..n], recency);
      if j < n {
        OldestFirst(c[..n], recency, j);
      }
      IndexInFront(c, n, p);
    }
  }

  lemma {:induction false} IndexInFront(c: seq<Pane>, n: nat, p: Pane)
    requires n <= |c| && p in c[..n]
    ensures IndexOf(c, p) == IndexOf(c[..n], p) < n
  {
    if c[0] != p {
      assert c[..n][1..] == c[1..][..n - 1];
      IndexInFront(c[1..], n - 1, p);
    }
  }

  /** Candidates keep the order of the tiles. */
  lemma {:induction false} SameOrder(tiles: seq<Pane>, pinned: Option<Pane>, p: Pane, q: Pane)
    requires p in Unpinned(tiles, pinned) && q in Unpinned(tiles, pinned)
    requires IndexOf(Unpinned(tiles, pinned), p) < IndexOf(Unpinned(tiles, pinned), q)
    ensures IndexOf(tiles, p) < IndexOf(tiles, q)
  {
    var c, rest := Unpinned(tiles, pinned), tiles[1..];
    if pinned == Some(tiles[0]) {
      assert c == Unpinned(rest, pinned);
      hide Unpinned;
      SameOrder(rest, pinned, p, q);
      IndexBehind(tiles, p);
      IndexBehind(tiles, q);
    } else {
      assert c[1..] == Unpinned(rest, pinned) && c[0] == tiles[0];
      hide Unpinned;
      if p != tiles[0] {
        IndexBehind(c, p);
        IndexBehind(tiles, p);
        IndexBehind(c, q);
        SameOrder(rest, pinned, p, q);
      }
      IndexBehind(tiles, q);
    }
  }

  lemma IndexBehind(tiles: seq<Pane>, p: Pane)
    requires p in tiles && tiles[0] != p
    ensures p in tiles[1..] && IndexOf(tiles, p) == 1 + IndexOf(tiles[1..], p)
  {
  }

  lemma IndexIs(tiles: seq<Pane>, j: nat)
    requires Distinct(tiles) && j < |tiles|
    ensures IndexOf(tiles, tiles[j]) == j
  {
    var i := IndexOf(tiles, tiles[j]);
    hide IndexOf;
  }

  /** The tile evicted next goes before every other unpinned one. */
  lemma NextGoes(tiles: seq<Pane>, pinned: Option<Pane>, recency: map<Pane, nat>)
    requires Distinct(tiles) && Unpinned(tiles, pinned) != []
    ensures var k := IndexOf(tiles, Oldest(Unpinned(tiles, pinned), recency));
            forall j | 0 <= j < |tiles| && j != k && pinned != Some(tiles[j]) :: GoesBefore(tiles, recency, k, j)
  {
    hide Oldest, Unpinned, LastFocus, IndexOf;
    var c := Unpinned(tiles, pinned);
    var out := Oldest(c, recency);
    var k := IndexOf(tiles, out);
    forall j | 0 <= j < |tiles| && j != k && pinned != Some(tiles[j])
      ensures GoesBefore(tiles, recency, k, j)
    {
      IndexIs(tiles, j);
      if LastFocus(recency, tiles[j]) == LastFocus(recency, out) {
        OldestFirst(c, recency, IndexOf(c, tiles[j]));
        SameOrder(tiles, pinned, out, tiles[j]);
      }
    }
  }

  /** Trimming takes exactly the surplus, and nothing changes places. */
  lemma {:induction false} TrimmedIs(tiles: seq<Pane>, pinned: Option<Pane>, recency: map<Pane, nat>, max: nat)
    requires Distinct(tiles) && max >= 1
    ensures Fitted(tiles, Trimmed(tiles, pinned, recency, max), pinned, recency, max)
    decreases |tiles|
  {
    hide Surplus, Oldest, Unpinned, IndexOf, GoesBefore, Left, Trimmed;
    TrimmedUnfolds(tiles, pinned, recency, max);
    if |tiles| <= max {
      LeftAll(tiles);
      NoSurplus(tiles, pinned, recency, max);
    } else {
      UnpinnedDistinct(tiles, pinned);
      NextGoes(tiles, pinned, recency);
      var k := IndexOf(tiles, Oldest(Unpinned(tiles, pinned), recency));
      var rest := tiles[..k] + tiles[k + 1..];
      DistinctWithout(tiles, k);
      TrimmedIs(rest, pinned, recency, max);
      var gone: set<Pane> :| Surplus(rest, pinned, recency, max, gone)
                             && Trimmed(rest, pinned, recency, max) == Left(rest, gone);
      LeftOne(tiles, k);
      LeftTwice(tiles, {tiles[k]}, gone);
      MoreSurplus(tiles, pinned, recency, max, k, gone);
    }
  }

  lemma NoSurplus(tiles: seq<Pane>, pinned: Option<Pane>, recency: map<Pane, nat>, max: nat)
    requires |tiles| <= max
    ensures Surplus(tiles, pinned, recency, max, {})
  {
  }

  lemma MoreSurplus(tiles: seq<Pane>, pinned: Option<Pane>, recency: map<Pane, nat>, max: nat, k: nat, gone: set<Pane>)
    requires Distinct(tiles) && |tiles| > max && k < |tiles| && pinned != Some(tiles[k])
    requires forall j | 0 <= j < |tiles| && j != k && pinned != Some(tiles[j]) :: GoesBefore(tiles, recency, k, j)
    requires Surplus(tiles[..k] + tiles[k + 1..], pinned, recency, max, gone)
    ensures Surplus(tiles, pinned, recency, max, {tiles[k]} + gone)
  {
    var rest := tiles[..k] + tiles[k + 1..];
    DistinctWithout(tiles, k);
    assert tiles[k] !in gone;
    hide GoesBefore, Distinct;
    forall i, j | 0 <= i < |tiles| && 0 <= j < |tiles| && tiles[i] in {tiles[k]} + gone
                  && tiles[j] !in {tiles[k]} + gone && pinned != Some(tiles[j])
      ensures GoesBefore(tiles, recency, i, j)
    {
      if i != k {
        RestBefore(tiles, pinned, recency, k, gone, i, j);
      }
    }
  }

  lemma RestBefore(tiles: seq<Pane>, pinned: Option<Pane>, recency: map<Pane, nat>, k: nat, gone: set<Pane>,
                   i: nat, j: nat)
    requires k < |tiles| && i < |tiles| && j < |tiles| && i != k && j != k
    requires tiles[i] in gone && tiles[j] !in gone && pinned != Some(tiles[j])
    requires var rest := tiles[..k] + tiles[k + 1..];
             forall i, j | 0 <= i < |rest| && 0 <= j < |rest| && rest[i] in gone && rest[j] !in gone
                           && pinned != Some(rest[j]) :: GoesBefore(rest, recency, i, j)
    ensures GoesBefore(tiles, recency, i, j)
  {
    hide GoesBefore;
    var rest := tiles[..k] + tiles[k + 1..];
    var i', j' := if i < k then i else i - 1, if j < k then j else j - 1;
    assert rest[i'] == tiles[i] && rest[j'] == tiles[j];
    assert GoesBefore(rest, recency, i', j');
    StillBefore(tiles, rest, recency, i, j, i', j');
  }

  lemma StillBefore(a: seq<Pane>, b: seq<Pane>, recency: map<Pane, nat>, i: nat, j: nat, i': nat, j': nat)
    requires i < |a| && j < |a| && i' < |b| && j' < |b| && a[i] == b[i'] && a[j] == b[j'] && (i' < j' ==> i < j)
    requires GoesBefore(b, recency, i', j')
    ensures GoesBefore(a, recency, i, j)
  {
  }

  // ----- The operations -----------------------------------------------------------------------

  /** The focus of p becomes the latest of all; no other pane's changes. */
  ghost predicate Touched(s: State, s': State, p: Pane) {
    forall q | q != p :: LastFocus(s'.recency, q) == LastFocus(s.recency, q) < LastFocus(s'.recency, p)
  }

  predicate SameButTiles(s: State, s': State) {
    && s'.layout == s.layout && s'.focused == s.focused && s'.pinned == s.pinned
    && s'.labId == s.labId && s'.lastSeen == s.lastSeen
  }

  /** The pin in front and p behind, where they are missing. */
  function Wanted(tiles: seq<Pane>, pinned: Option<Pane>, p: Pane): (r: seq<Pane>) {
    (if pinned.Some? && pinned.value !in tiles then [pinned.value] else []) + tiles
    + if p in tiles || pinned == Some(p) then [] else [p]
  }

  lemma WantedIs(tiles: seq<Pane>, pinned: Option<Pane>, p: Pane)
    requires Distinct(tiles)
    ensures Wanted(tiles, pinned, p) == WithPinAnd(tiles, pinned, p) && Distinct(Wanted(tiles, pinned, p))
  {
    WithPinGood(tiles, pinned);
    AppendGood(WithPin(tiles, pinned), p);
    assert [] + tiles + [] == tiles;
  }

  lemma TrimIs(s: State)
    requires Distinct(s.tiles) && s.layout != Tabs
    ensures var s' := TrimTiles(s);
            && Fitted(s.tiles, s'.tiles, s.pinned, s.recency, Room(s.layout))
            && s' == s.(tiles := s'.tiles)
  {
    TrimmedIs(s.tiles, s.pinned, s.recency, Capacity(s.layout));
  }

  /** `ensureTiled` shows the pane behind the others and takes off what has become too much. */
  lemma EnsureTiledIs(s: State, p: Pane)
    requires Distinct(s.tiles) && Clocked(s.recency, s.clock) && s.layout != Tabs
    ensures var s' := Next(s, EnsureTiled(p));
            && Fitted(Wanted(s.tiles, s.pinned, p), s'.tiles, s.pinned, s'.recency, Room(s.layout))
            && Touched(s, s', p) && SameButTiles(s, s')
  {
    WantedIs(s.tiles, s.pinned, p);
    NotedClock(s, p);
    var n := Noted(s, p).(tiles := Wanted(s.tiles, s.pinned, p));
    assert Touched(s, n, p) && SameButTiles(s, n);
    TiledTrims(s, p, n);
    hide *;
    TrimIs(n);
    TiledSame(s, n, TrimTiles(n), p);
  }

  lemma TiledTrims(s: State, p: Pane, n: State)
    requires s.layout != Tabs && n == Noted(s, p).(tiles := WithPinAnd(s.tiles, s.pinned, p))
    ensures Next(s, EnsureTiled(p)) == TrimTiles(n)
  {
    hide TrimTiles, WithPinAnd;
  }

  lemma TiledSame(s: State, n: State, s': State, p: Pane)
    requires Touched(s, n, p) && SameButTiles(s, n) && s' == n.(tiles := s'.tiles)
    ensures Touched(s, s', p) && SameButTiles(s, s') && s'.recency == n.recency && s.layout == n.layout
  {
  }

  /** Focusing a pane in a tiled layout brings it in as well; a console becomes the one last seen. */
  lemma FocusIs(s: State, p: Pane)
    requires Inv(s)
    ensures var s' := Next(s, SetFocused(Some(p)));
            && s'.focused == Some(p) && Touched(s, s', p)
            && s'.layout == s.layout && s'.pinned == s.pinned && s'.labId == s.labId
            && s'.lastSeen == (if p.ConsolePane? then Some(p.node) else s.lastSeen)
            && if s.layout == Tabs then s'.tiles == s.tiles
               else Fitted(Wanted(s.tiles, s.pinned, p), s'.tiles, s.pinned, s'.recency, Room(s.layout))
  {
    hide Trimmed, TrimTiles, Fitted, Wanted;
    NotedClock(s, p);
    var f := Noted(s.(focused := Some(p)), p);
    var g := if p.ConsolePane? then f.(lastSeen := Some(p.node)) else f;
    assert Touched(s, g, p);
    if s.layout != Tabs {
      assert Inv(g) && Next(s, SetFocused(Some(p))) == Next(g, EnsureTiled(p));
      hide Noted, Tiled, Inv, Clocked, LastFocus;
      EnsureTiledIs(g, p);
    }
  }

  /** A console selected elsewhere is focused once; while nothing changes there, nothing does here. */
  lemma SyncIs(s: State, active: Option<int>)
    ensures Next(s, Sync(active)) ==
            if active == s.lastSeen then s
            else if active.None? then s.(lastSeen := None)
            else Next(s, SetFocused(Some(ConsolePane(active.value))))
  {
    hide Tiled;
  }

  /** A tiled layout takes in the pin, then the focused pane. */
  lemma LayoutIs(s: State, layout: Layout) returns (mid: State)
    requires Inv(s)
    ensures mid == s.(layout := layout, tiles := mid.tiles)
    ensures if layout == Tabs then mid.tiles == s.tiles
            else
              var front := if s.pinned.Some? && s.pinned.value !in s.tiles then [s.pinned.value] else [];
              Fitted(front + s.tiles, mid.tiles, s.pinned, s.recency, Room(layout))
    ensures var s' := Next(s, SetLayout(layout));
            s' == if layout == Tabs || s.focused.None? then mid else Next(mid, EnsureTiled(s.focused.value))
  {
    if layout == Tabs {
      mid := s.(layout := layout);
    } else {
      WithPinGood(s.tiles, s.pinned);
      FrontIs(s.tiles, s.pinned);
      var l := s.(layout := layout, tiles := WithPin(s.tiles, s.pinned));
      LaidOutTrims(s, layout, l);
      hide *;
      TrimIs(l);
      mid := TrimTiles(l);
    }
  }

  lemma LaidOutTrims(s: State, layout: Layout, l: State)
    requires layout != Tabs && l == s.(layout := layout, tiles := WithPin(s.tiles, s.pinned))
    ensures var t := TrimTiles(l);
            Next(s, SetLayout(layout)) == if t.focused.None? then t else Next(t, EnsureTiled(t.focused.value))
  {
    hide TrimTiles, Tiled, WithPin;
  }

  lemma FrontIs(tiles: seq<Pane>, pinned: Option<Pane>)
    ensures WithPin(tiles, pinned)
         == (if pinned.Some? && pinned.value !in tiles then [pinned.value] else []) + tiles
  {
    assert [] + tiles == tiles;
  }

  /** Toggling takes a shown pane off, unless it is the pin, and shows a hidden one. */
  lemma ToggleIs(s: State, p: Pane)
    requires Inv(s) && s.layout != Tabs
    ensures var s' := Next(s, ToggleTile(p));
            if p !in s.tiles then s' == Next(s, EnsureTiled(p))
            else if s.pinned == Some(p) then s' == s
            else s' == s.(tiles := Left(s.tiles, {p}))
  {
    UnpinnedIs(s.tiles, p);
    hide Tiled, Unpinned, Left;
  }

  lemma {:induction false} UnpinnedIs(tiles: seq<Pane>, p: Pane)
    ensures Unpinned(tiles, Some(p)) == Left(tiles, {p})
  {
    if tiles != [] {
      UnpinnedIs(tiles[1..], p);
      LeftCons(tiles, {p});
      hide Left;
    }
  }

  /** A new pin stands in front of the others, which keep their order, and is never taken off. */
  lemma PinIs(s: State, p: Pane)
    requires Inv(s)
    ensures var s' := Next(s, SetPinned(Some(p)));
            && s' == s.(pinned := Some(p), tiles := s'.tiles)
            && if s.layout == Tabs then s'.tiles == s.tiles
               else Fitted([p] + Left(s.tiles, {p}), s'.tiles, Some(p), s.recency, Room(s.layout))
  {
    if s.layout != Tabs {
      UnpinnedDistinct(s.tiles, Some(p));
      UnpinnedIs(s.tiles, p);
      var t := s.(pinned := Some(p), tiles := [p] + Left(s.tiles, {p}));
      assert Distinct(t.tiles);
      PinTrims(s, p, t);
      hide *;
      TrimIs(t);
    }
  }

  lemma PinTrims(s: State, p: Pane, t: State)
    requires s.layout != Tabs && t == s.(pinned := Some(p), tiles := [p] + Unpinned(s.tiles, Some(p)))
    ensures Next(s, SetPinned(Some(p))) == TrimTiles(t)
  {
    hide TrimTiles, Unpinned;
  }

  // ----- Reconciling -----------------------------------------------------------------------------

  predicate Open(p: Pane, consoles: seq<int>, captures: seq<int>, lenses: seq<int>) {
    || (p.ConsolePane? && p.node in consoles)
    || (p.CapturePane? && p.link in captures)
    || (p.LensPane? && p.link in lenses)
  }

  function Shut(tiles: seq<Pane>, consoles: seq<int>, captures: seq<int>, lenses: seq<int>): (gone: set<Pane>) {
    set p | p in tiles && !Open(p, consoles, captures, lenses)
  }

  lemma {:induction false} StillOpenIs(tiles: seq<Pane>, consoles: seq<int>, captures: seq<int>, lenses: seq<int>,
                                       gone: set<Pane>)
    requires forall i | 0 <= i < |tiles| :: tiles[i] in gone <==> !Open(tiles[i], consoles, captures, lenses)
    ensures StillOpen(tiles, consoles, captures, lenses) == Left(tiles, gone)
  {
    hide Left;
    if tiles != [] {
      StillOpenIs(tiles[1..], consoles, captures, lenses, gone);
      LeftCons(tiles, gone);
    } else {
      LeftAll([]);
      NoneLeft([], gone);
    }
  }

  /** Another lab starts from nothing. */
  function ForLab(s: State, lab: string): (s': State) {
    if s.labId == Some(lab) then s else State(s.layout, [], None, None, map[], 0, Some(lab), None)
  }

  /** The focus that is open stays; else the first console gets it, else the first capture. */
  function FocusNow(focused: Option<Pane>, consoles: seq<int>, captures: seq<int>, lenses: seq<int>)
    : (p: Option<Pane>)
  {
    if focused.Some? && Open(focused.value, consoles, captures, lenses) then focused
    else if consoles != [] then Some(ConsolePane(consoles[0]))
    else if captures != [] then Some(CapturePane(captures[0]))
    else None
  }

  /** Whatever is closed loses its tile, its pin and its focus; then the layout is filled as a change of layout does. */
  lemma ReconcileIs(s: State, lab: string, consoles: seq<int>, captures: seq<int>, lenses: seq<int>)
    returns (mid: State)
    requires Inv(s)
    ensures var r := ForLab(s, lab);
            mid == r.(tiles := Left(r.tiles, Shut(r.tiles, consoles, captures, lenses)),
                      focused := FocusNow(r.focused, consoles, captures, lenses),
                      pinned := if r.pinned.Some? && Open(r.pinned.value, consoles, captures, lenses) then r.pinned
                                else None)
    ensures var s' := Next(s, Reconcile(lab, consoles, captures, lenses));
            if mid.layout == Tabs then s' == mid
            else
              && s'.layout == mid.layout && s'.focused == mid.focused && s'.pinned == mid.pinned
              && s'.labId == mid.labId && s'.lastSeen == mid.lastSeen
              && Fitted(match mid.focused
                        case Some(p) => Wanted(mid.tiles, mid.pinned, p)
                        case None => Front(mid.tiles, mid.pinned),
                        s'.tiles, mid.pinned, s'.recency, Room(mid.layout))
              && (mid.focused.Some? ==> Touched(mid, s', mid.focused.value))
  {
    var r := ForLab(s, lab);
    mid := r.(tiles := Left(r.tiles, Shut(r.tiles, consoles, captures, lenses)),
              focused := FocusNow(r.focused, consoles, captures, lenses),
              pinned := if r.pinned.Some? && Open(r.pinned.value, consoles, captures, lenses) then r.pinned else None);
    StillOpenDistinct(r.tiles, consoles, captures, lenses);
    StillOpenIs(r.tiles, consoles, captures, lenses, Shut(r.tiles, consoles, captures, lenses));
    Reconciles(s, lab, consoles, captures, lenses, mid);
    assert Distinct(mid.tiles) && Clocked(mid.recency, mid.clock);
    if mid.layout != Tabs {
      Filled(mid);
    }
    hide *;
  }

  function Front(tiles: seq<Pane>, pinned: Option<Pane>): (r: seq<Pane>) {
    (if pinned.Some? && pinned.value !in tiles then [pinned.value] else []) + tiles
  }

  /** What `reconcile` does once closed panes are gone. */
  function Filling(mid: State): (s': State) {
    if mid.layout == Tabs then mid
    else
      var s2 := mid.(tiles := WithPin(mid.tiles, mid.pinned));
      TrimTiles(if s2.focused.Some? then Tiled(s2, s2.focused.value) else s2)
  }

  lemma Reconciles(s: State, lab: string, consoles: seq<int>, captures: seq<int>, lenses: seq<int>, mid: State)
    requires var r := ForLab(s, lab);
             mid == r.(tiles := StillOpen(r.tiles, consoles, captures, lenses),
                       focused := FocusNow(r.focused, consoles, captures, lenses),
                       pinned := if r.pinned.Some? && Open(r.pinned.value, consoles, captures, lenses) then r.pinned
                                 else None)
    ensures Next(s, Reconcile(lab, consoles, captures, lenses)) == Filling(mid)
  {
    hide TrimTiles, Tiled, WithPin, StillOpen;
  }

  lemma Filled(mid: State)
    requires Distinct(mid.tiles) && Clocked(mid.recency, mid.clock) && mid.layout != Tabs
    ensures var s' := Filling(mid);
            && s'.layout == mid.layout && s'.focused == mid.focused && s'.pinned == mid.pinned
            && s'.labId == mid.labId && s'.lastSeen == mid.lastSeen
            && Fitted(match mid.focused
                      case Some(p) => Wanted(mid.tiles, mid.pinned, p)
                      case None => Front(mid.tiles, mid.pinned),
                      s'.tiles, mid.pinned, s'.recency, Room(mid.layout))
            && (mid.focused.Some? ==> Touched(mid, s', mid.focused.value))
  {
    WithPinGood(mid.tiles, mid.pinned);
    FrontIs(mid.tiles, mid.pinned);
    var s2 := mid.(tiles := WithPin(mid.tiles, mid.pinned));
    if mid.focused.Some? {
      var p := mid.focused.value;
      EnsureTiledIs(s2, p);
      TiledInv(s2, p);
      InFront(mid.tiles, mid.pinned, p);
      hide *;
      TrimNothing(Tiled(s2, p));
      FilledFrom(mid, s2);
    } else {
      hide *;
      TrimIs(s2);
      FilledFrom(mid, s2);
    }
  }

  lemma FilledFrom(mid: State, s2: State)
    requires mid.layout != Tabs && s2 == mid.(tiles := WithPin(mid.tiles, mid.pinned))
    ensures Filling(mid) == TrimTiles(if mid.focused.Some? then Tiled(s2, mid.focused.value) else s2)
    ensures mid.focused.Some? ==> Next(s2, EnsureTiled(mid.focused.value)) == Tiled(s2, mid.focused.value)
    ensures SameButTiles(mid, s2) && s2.recency == mid.recency && s2.clock == mid.clock
    ensures forall s', p :: Touched(s2, s', p) ==> Touched(mid, s', p)
    ensures forall s' :: SameButTiles(s2, s') ==> SameButTiles(mid, s')
    ensures Front(mid.tiles, mid.pinned) == s2.tiles
  {
    FrontIs(mid.tiles, mid.pinned);
    hide TrimTiles, Tiled;
  }

  lemma TrimNothing(s: State)
    requires Inv(s)
    ensures TrimTiles(s) == s
  {
  }

  lemma InFront(tiles: seq<Pane>, pinned: Option<Pane>, p: Pane)
    ensures Wanted(WithPin(tiles, pinned), pinned, p) == Wanted(tiles, pinned, p)
  {
    assert [] + WithPin(tiles, pinned) == WithPin(tiles, pinned) && [] + tiles == tiles;
  }
}
