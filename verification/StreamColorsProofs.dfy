/** What holds of every run of the streaming colorizer. */
module StreamColorsProofs {
  import opened Wrappers
  import opened LineColors
  import opened StreamColors

  // ----- The invariant ----------------------------------------------------------

  /** A held tail is part of an untouched line, worth waiting for, and has its timer armed. */
  predicate Inv(cfg: Config, s: State) {
    && '\n' !in s.held && ESC !in s.held
    && (s.held != "" ==> s.emittedInLine == 0 && !cfg.isPrompt(s.held))
    && (s.held != "" <==> s.timer.Some?)
  }

  lemma {:induction false} TailHasNoNewline(text: string)
    ensures '\n' !in Tail(text)
    decreases |text|
  {
    var i := LineEnd(text);
    if i < |text| {
      TailHasNoNewline(text[i + 1..]);
    } else {
      assert text[..i] == text;
    }
  }

  lemma InvStep(cfg: Config, s: State, call: Call)
    requires Usable(cfg) && Inv(cfg, s)
    ensures Inv(cfg, Next(cfg, s, call))
  {
    hide Completed, LineEnd, Colorized, Tail, Later;
    if call.Push? {
      TailHasNoNewline(s.held + call.chunk);
    }
  }

  lemma {:induction false} InvRun(cfg: Config, calls: seq<Call>)
    requires Usable(cfg)
    ensures Inv(cfg, Run(cfg, Initial, calls))
    decreases |calls|
  {
    if calls != [] {
      InvRun(cfg, calls[..|calls| - 1]);
      RunSnoc(cfg, Initial, calls);
      InvStep(cfg, Run(cfg, Initial, calls[..|calls| - 1]), calls[|calls| - 1]);
    }
  }

  lemma {:induction false} RunSnoc(cfg: Config, s: State, calls: seq<Call>)
    requires Usable(cfg) && calls != []
    ensures Run(cfg, s, calls) == Next(cfg, Run(cfg, s, calls[..|calls| - 1]), calls[|calls| - 1])
    decreases |calls|
  {
    hide Next;
    var n := |calls| - 1;
    if n == 0 {
      assert calls[..n] == [] && calls[1..] == [];
    } else {
      RunSnoc(cfg, Next(cfg, s, calls[0]), calls[1..]);
      assert calls[1..][..n - 1] == calls[..n][1..];
    }
  }

  // ----- Conservation -------------------------------------------------------------

  function Input(call: Call): (s: string) {
    if call.Push? then call.chunk else ""
  }

  function Fed(calls: seq<Call>): (s: string) {
    if calls == [] then "" else Fed(calls[..|calls| - 1]) + Input(calls[|calls| - 1])
  }

  lemma {:induction false} CompletedConserves(cfg: Config, text: string, dirty: bool)
    requires Usable(cfg)
    ensures Erase(Completed(cfg, text, dirty)) + Tail(text) == text
    decreases |text|
  {
    hide Completed, Tail, LineTokens, Erase;
    var i := LineEnd(text);
    CompletedUnfolds(cfg, text, dirty);
    if i == |text| {
      assert Erase([]) == "" by { RawText(""); assert RawTokens("") == []; }
      assert "" + text == text;
    } else {
      SplitAt(text, i);
      var seg, rest := text[..i], text[i + 1..];
      LineConserves(cfg, seg, dirty);
      CompletedConserves(cfg, rest, false);
      EraseAppend(LineTokens(cfg, seg, dirty), Completed(cfg, rest, false));
      Regroup(seg + "\n", Erase(Completed(cfg, rest, false)), Tail(rest));
    }
  }

  lemma CompletedUnfolds(cfg: Config, text: string, dirty: bool)
    requires Usable(cfg)
    ensures var i := LineEnd(text);
            if i == |text| then Completed(cfg, text, dirty) == [] && Tail(text) == text
            else
              && Completed(cfg, text, dirty) == LineTokens(cfg, text[..i], dirty) + Completed(cfg, text[i + 1..], false)
              && Tail(text) == Tail(text[i + 1..])
  {
    hide LineTokens;
  }

  lemma SplitAt(text: string, i: nat)
    requires i < |text|
    ensures text == text[..i] + [text[i]] + text[i + 1..]
  {
  }

  lemma LineConserves(cfg: Config, seg: string, dirty: bool)
    requires Usable(cfg)
    ensures Erase(LineTokens(cfg, seg, dirty)) == seg + "\n"
  {
    hide Erase, Text, Colorized;
    RawText(seg + "\n");
    if !dirty {
      var cr := EndsWithCr(seg);
      var body, end := if cr then seg[..|seg| - 1] else seg, if cr then "\r\n" else "\n";
      EraseAppend(Colorized(cfg.rules, body), RawTokens(end));
      ErasedIsLine(cfg.rules, body);
      RawText(end);
    }
  }

  /** One call moves its input behind everything already taken in, and loses nothing. */
  lemma Conserved(cfg: Config, s: State, call: Call)
    requires Usable(cfg) && !call.Reset?
    ensures var s' := Next(cfg, s, call);
            Erase(s'.out) + s'.held == Erase(s.out) + s.held + Input(call)
  {
    hide Settled, Completed, Tail, LineEnd, Colorized, Erase;
    if call.Push? {
      var text, dirty := s.held + call.chunk, s.emittedInLine > 0;
      CompletedConserves(cfg, text, dirty);
      if call.chunk == "" {
        assert s.held + "" == s.held;
      } else {
        var s1 := s.(held := "", timer := None, emittedInLine := if LineEnd(text) < |text| then 0 else s.emittedInLine);
        var since := if LineEnd(text) < |text| then call.t2 else if s.held == "" then call.t1 else s.heldSince;
        SettledConserves(cfg, s1, Completed(cfg, text, dirty), Tail(text), since, call.t3);
        Regroup(Erase(s.out), Erase(Completed(cfg, text, dirty)), Tail(text));
        Regroup(Erase(s.out), s.held, call.chunk);
      }
    } else {
      FlushedConserves(cfg, s);
    }
  }

  lemma Regroup(a: string, b: string, c: string)
    ensures a + b + c == a + (b + c) && a + "" == a
  {
  }

  lemma SettledConserves(cfg: Config, s: State, more: seq<Token>, tail: string, since: int, t3: int)
    requires Usable(cfg) && s.held == ""
    ensures var s' := Settled(cfg, s, more, tail, since, t3);
            Erase(s'.out) + s'.held == Erase(s.out) + Erase(more) + tail
  {
    EraseAppend(s.out, more);
    EraseAppend(s.out + more, RawTokens(tail));
    EraseAppend(s.out + more, Colorized(cfg.rules, tail));
    RawText(tail);
    ErasedIsLine(cfg.rules, tail);
    hide Erase, Text, Colorized;
  }

  lemma FlushedConserves(cfg: Config, s: State)
    requires Usable(cfg)
    ensures var s' := Flushed(cfg, s);
            Erase(s'.out) + s'.held == Erase(s.out) + s.held && Erase(s.out) + s.held + "" == Erase(s.out) + s.held
  {
    EraseAppend(s.out, RawTokens(s.held));
    EraseAppend(s.out, Colorized(cfg.rules, s.held));
    RawText(s.held);
    ErasedIsLine(cfg.rules, s.held);
    hide Erase, Text, Colorized;
  }

  /**
   In every interleaving of pushes, keystrokes, flushes and timer firings: the
   output without inserted colour changes, followed by the held tail, is all the
   input so far.
   */
  lemma {:induction false} ConservedRun(cfg: Config, s: State, calls: seq<Call>)
    requires Usable(cfg) && forall i | 0 <= i < |calls| :: !calls[i].Reset?
    ensures var s' := Run(cfg, s, calls);
            Erase(s'.out) + s'.held == Erase(s.out) + s.held + Fed(calls)
    decreases |calls|
  {
    hide Next, Erase;
    if calls == [] {
      assert Erase(s.out) + s.held + "" == Erase(s.out) + s.held;
    } else {
      var init, last := calls[..|calls| - 1], calls[|calls| - 1];
      ConservedRun(cfg, s, init);
      RunSnoc(cfg, s, calls);
      Conserved(cfg, Run(cfg, s, init), last);
      Regroup(Erase(s.out) + s.held, Fed(init), Input(last));
    }
  }

  /**
   A reset loses exactly what was held: behind the last one, at call k, output and held
   tail continue from what had been written when it came.
   */
  lemma ConservedSinceReset(cfg: Config, calls: seq<Call>, k: nat)
    requires Usable(cfg) && k < |calls| && calls[k].Reset? && forall i | k < i < |calls| :: !calls[i].Reset?
    ensures var s, s' := Run(cfg, Initial, calls[..k]), Run(cfg, Initial, calls);
            Erase(s'.out) + s'.held == Erase(s.out) + Fed(calls[k + 1..])
  {
    hide Erase, Run, Fed;
    var s := Run(cfg, Initial, calls[..k]);
    var cut := Next(cfg, s, Reset);
    RunSnoc(cfg, Initial, calls[..k + 1]);
    assert calls[..k + 1][..k] == calls[..k];
    RunSplit(cfg, Initial, calls, k + 1);
    ConservedRun(cfg, cut, calls[k + 1..]);
    assert Erase(cut.out) + cut.held == Erase(s.out);
  }

  lemma {:induction false} RunSplit(cfg: Config, s: State, calls: seq<Call>, k: nat)
    requires Usable(cfg) && k <= |calls|
    ensures Run(cfg, s, calls) == Run(cfg, Run(cfg, s, calls[..k]), calls[k..])
    decreases k
  {
    hide Next;
    if k == 0 {
      assert calls[..0] == [] && calls[0..] == calls;
    } else {
      RunSplit(cfg, Next(cfg, s, calls[0]), calls[1..], k - 1);
      assert calls[..k][1..] == calls[1..][..k - 1] && calls[1..][k - 1..] == calls[k..];
    }
  }

  /** What a timer or a keystroke releases is never coloured. */
  lemma ReleasedRaw(cfg: Config, calls: seq<Call>)
    requires Usable(cfg)
    ensures var s := Run(cfg, Initial, calls);
            Flushed(cfg, s).out == s.out + RawTokens(s.held)
  {
    InvRun(cfg, calls);
    var s := Run(cfg, Initial, calls);
    if s.held == "" {
      assert s.out + RawTokens(s.held) == s.out;
    }
  }

  // ----- Refinement of the whole-line colorizer --------------------------------------

  /** A line prefix the colorizer waits on: no escape sequence, not a prompt. */
  predicate Waits(cfg: Config, prefix: string) {
    prefix == "" || (ESC !in prefix && !cfg.isPrompt(prefix))
  }

  lemma {:induction false} CompletedAppend(cfg: Config, a: string, b: string, dirty: bool)
    requires Usable(cfg)
    ensures var d := dirty && LineEnd(a) == |a|;
            && Completed(cfg, a + b, dirty) == Completed(cfg, a, dirty) + Completed(cfg, Tail(a) + b, d)
            && Tail(a + b) == Tail(Tail(a) + b)
    decreases |a|
  {
    hide LineTokens, Completed, Tail, LineEnd;
    var i := LineEnd(a);
    if i == |a| {
      assert a[..i] == a;
      NothingCompleted(cfg, a, dirty);
      assert [] + Completed(cfg, a + b, dirty) == Completed(cfg, a + b, dirty);
    } else {
      var rest := a[i + 1..];
      assert forall j | 0 <= j < i :: a[..i][j] == a[j] == (a + b)[j] != '\n';
      NextLine(cfg, a + b, i, dirty);
      NextLine(cfg, a, i, dirty);
      assert (a + b)[..i] == a[..i] && (a + b)[i + 1..] == rest + b;
      CompletedAppend(cfg, rest, b, false);
      Assoc(LineTokens(cfg, a[..i], dirty), Completed(cfg, rest, false), Completed(cfg, Tail(rest) + b, false));
    }
  }

  /**
   Pushes alone, cut so that no boundary leaves a prompt or an escape sequence at
   the end: the output is that of the whole-line colorizer on each finished line
   with its terminator, whatever the cuts.
   */
  lemma {:induction false} RefinesWholeLines(cfg: Config, calls: seq<Call>)
    requires Usable(cfg) && forall i | 0 <= i < |calls| :: calls[i].Push?
    requires forall k | 0 <= k <= |calls| :: Waits(cfg, Tail(Fed(calls[..k])))
    ensures var s := Run(cfg, Initial, calls);
            s.out == Completed(cfg, Fed(calls), false) && s.held == Tail(Fed(calls)) && s.emittedInLine == 0
    decreases |calls|
  {
    hide Completed, Next, Waits;
    if calls == [] {
      NothingCompleted(cfg, "", false);
    } else {
      var n := |calls| - 1;
      var init, last := calls[..n], calls[n];
      assert forall k | 0 <= k <= n :: init[..k] == calls[..k];
      assert calls[..n + 1] == calls;
      RefinesWholeLines(cfg, init);
      RunSnoc(cfg, Initial, calls);
      OnePush(cfg, Run(cfg, Initial, init), Fed(init), last);
    }
  }

  lemma OnePush(cfg: Config, s: State, before: string, call: Call)
    requires Usable(cfg) && call.Push? && Waits(cfg, Tail(before + call.chunk))
    requires s.out == Completed(cfg, before, false) && s.held == Tail(before) && s.emittedInLine == 0
    ensures var s' := Next(cfg, s, call);
            && s'.out == Completed(cfg, before + call.chunk, false) && s'.held == Tail(before + call.chunk)
            && s'.emittedInLine == 0
  {
    if call.chunk == "" {
      assert before + "" == before;
    } else {
      CompletedAppend(cfg, before, call.chunk, false);
      hide Completed, Tail, LineEnd;
    }
  }

  // ----- How long a tail is held -------------------------------------------------------

  /** A push that changes anything. */
  predicate Chunk(call: Call) {
    call.Push? && call.chunk != ""
  }

  /** The time a tail counts from when `call` begins it: a tail behind a newline starts later in the push. */
  function FirstTime(call: Call): (t: int)
    requires call.Push?
  {
    if '\n' in call.chunk then call.t2 else call.t1
  }

  /** `call` begins a held tail: it finishes the line before, or nothing was held. */
  predicate Begins(s: State, call: Call) {
    Chunk(call) && ('\n' in call.chunk || s.held == "")
  }

  /** What a call leaves held: a tail it begins, or one it found, whose start it does not move. */
  lemma HeldAfter(cfg: Config, s: State, call: Call)
    requires Usable(cfg) && Inv(cfg, s) && Next(cfg, s, call).held != ""
    ensures var s' := Next(cfg, s, call);
            if Chunk(call) then
              && s'.held == (if Begins(s, call) then Tail(call.chunk) else s.held + call.chunk)
              && s'.heldSince == (if Begins(s, call) then FirstTime(call) else s.heldSince)
              && s'.timer == Some(Later(call.t3, s'.heldSince + cfg.flushDelayMs))
            else Input(call) == "" && s'.held == s.held && s'.heldSince == s.heldSince && s'.timer == s.timer
  {
    hide Completed, LineEnd, Tail, RawTokens, Colorized;
    if Chunk(call) {
      TailOfPush(s.held, call.chunk);
    }
  }

  lemma TailOfPush(held: string, chunk: string)
    requires '\n' !in held
    ensures LineEnd(held + chunk) < |held + chunk| <==> '\n' in chunk
    ensures Tail(held + chunk) == if '\n' in chunk then Tail(chunk) else held + chunk
    ensures '\n' !in chunk ==> Tail(chunk) == chunk
  {
    hide LineEnd, Tail;
    if '\n' in chunk {
      FirstNewline(held, chunk);
    } else {
      NoNewline(held + chunk);
      NoNewline(chunk);
      TailUnfolds(held + chunk);
      TailUnfolds(chunk);
    }
  }

  lemma FirstNewline(held: string, chunk: string)
    requires '\n' !in held && '\n' in chunk
    ensures LineEnd(held + chunk) == |held| + LineEnd(chunk) < |held + chunk|
    ensures Tail(held + chunk) == Tail(chunk)
  {
    hide LineEnd, Tail;
    var text, i := held + chunk, LineEnd(chunk);
    NewlineAt(chunk, i);
    forall k | 0 <= k < |held| + i ensures text[k] != '\n' {
      assert text[k] == if k < |held| then held[k] else chunk[k - |held|];
    }
    EndHere(text, |held| + i);
    TailUnfolds(chunk);
    TailUnfolds(text);
    assert text[|held| + i + 1..] == chunk[i + 1..];
  }

  lemma NewlineAt(text: string, i: nat)
    requires '\n' in text && i == LineEnd(text)
    ensures i < |text| && text[i] == '\n' && forall k | 0 <= k < i :: text[k] != '\n'
  {
    assert text[..|text|] == text;
    assert forall k | 0 <= k < i :: text[k] == text[..i][k];
  }

  lemma TailUnfolds(text: string)
    ensures var i := LineEnd(text);
            i <= |text| && Tail(text) == if i == |text| then text else Tail(text[i + 1..])
  {
    hide LineEnd;
  }

  /** Since call i began it, something has been held without a break, and no later call began it anew. */
  ghost predicate HeldFrom(cfg: Config, calls: seq<Call>, i: int)
    requires Usable(cfg)
  {
    && 0 <= i < |calls| && Begins(Run(cfg, Initial, calls[..i]), calls[i])
    && forall m | i < m < |calls| ::
         Run(cfg, Initial, calls[..m]).held != "" && !Begins(Run(cfg, Initial, calls[..m]), calls[m])
  }

  /** Call j is the last push that changed anything. */
  predicate LastChunk(calls: seq<Call>, j: int) {
    0 <= j < |calls| && Chunk(calls[j]) && forall m | j < m < |calls| :: !Chunk(calls[m])
  }

  /** The held text: the tail of the push that began it, and everything pushed since. */
  function HeldText(calls: seq<Call>, i: nat): (t: string)
    requires i < |calls| && calls[i].Push?
  {
    Tail(calls[i].chunk) + Fed(calls[i + 1..])
  }

  /** The held text, its start and its timer, as call i began them and call j left them. */
  ghost predicate Holds(cfg: Config, calls: seq<Call>, i: nat, j: nat)
    requires Usable(cfg)
  {
    var s := Run(cfg, Initial, calls);
    && i <= j < |calls| && calls[i].Push? && calls[j].Push?
    && s.held == HeldText(calls, i)
    && s.heldSince == FirstTime(calls[i])
    && s.timer == Some(Later(calls[j].t3, FirstTime(calls[i]) + cfg.flushDelayMs))
  }

  /**
   In every interleaving of pushes, keystrokes, flushes, timers and resets: whatever is
   held began with some push and is what came since; its one timer is due the flush
   delay after that first fragment, or at the last push when that is later.
   */
  lemma {:induction false} DeadlineFromFirstFragment(cfg: Config, calls: seq<Call>) returns (i: nat, j: nat)
    requires Usable(cfg) && Run(cfg, Initial, calls).held != ""
    ensures HeldFrom(cfg, calls, i) && LastChunk(calls, j) && Holds(cfg, calls, i, j)
    decreases |calls|
  {
    hide Next, Run, Begins, HeldFrom, LastChunk, Holds;
    assert calls != [] by {
      NothingHeld(cfg);
    }
    var n := |calls| - 1;
    HeldByLast(cfg, calls);
    if Begins(Run(cfg, Initial, calls[..n]), calls[n]) {
      i, j := n, n;
      BeginsHere(cfg, calls);
    } else {
      i, j := DeadlineFromFirstFragment(cfg, calls[..n]);
      LongerRun(cfg, calls, i);
      LastOf(calls, j);
      LongerHold(cfg, calls, i, j);
      j := if Chunk(calls[n]) then n else j;
    }
  }

  lemma NothingHeld(cfg: Config)
    requires Usable(cfg)
    ensures Run(cfg, Initial, []).held == ""
  {
  }

  /** HeldAfter for the last call of a run. */
  lemma HeldByLast(cfg: Config, calls: seq<Call>)
    requires Usable(cfg) && calls != [] && Run(cfg, Initial, calls).held != ""
    ensures var n := |calls| - 1;
            var s, s', call := Run(cfg, Initial, calls[..n]), Run(cfg, Initial, calls), calls[n];
            && (!Begins(s, call) ==> s.held != "")
            && if Chunk(call) then
                 && s'.held == (if Begins(s, call) then Tail(call.chunk) else s.held + call.chunk)
                 && s'.heldSince == (if Begins(s, call) then FirstTime(call) else s.heldSince)
                 && s'.timer == Some(Later(call.t3, s'.heldSince + cfg.flushDelayMs))
               else Input(call) == "" && s'.held == s.held && s'.heldSince == s.heldSince && s'.timer == s.timer
  {
    hide Next, Run, Inv, Tail, FirstTime;
    var n := |calls| - 1;
    RunSnoc(cfg, Initial, calls);
    InvRun(cfg, calls[..n]);
    HeldAfter(cfg, Run(cfg, Initial, calls[..n]), calls[n]);
  }

  lemma LongerHold(cfg: Config, calls: seq<Call>, i: nat, j: nat)
    requires Usable(cfg) && calls != [] && Run(cfg, Initial, calls).held != ""
    requires !Begins(Run(cfg, Initial, calls[..|calls| - 1]), calls[|calls| - 1])
    requires Holds(cfg, calls[..|calls| - 1], i, j)
    ensures Holds(cfg, calls, i, if Chunk(calls[|calls| - 1]) then |calls| - 1 else j)
  {
    hide Run, Begins, HeldText, FirstTime, Tail;
    HeldByLast(cfg, calls);
    LongerText(calls, i);
    assert Run(cfg, Initial, calls[..|calls| - 1]).held + "" == Run(cfg, Initial, calls[..|calls| - 1]).held;
  }

  lemma BeginsHere(cfg: Config, calls: seq<Call>)
    requires Usable(cfg) && calls != [] && Run(cfg, Initial, calls).held != ""
    requires Begins(Run(cfg, Initial, calls[..|calls| - 1]), calls[|calls| - 1])
    ensures var n := |calls| - 1; HeldFrom(cfg, calls, n) && LastChunk(calls, n) && Holds(cfg, calls, n, n)
  {
    hide Run, Tail, FirstTime;
    HeldByLast(cfg, calls);
    var n := |calls| - 1;
    assert calls[n + 1..] == [] && Fed([]) == "";
    assert Tail(calls[n].chunk) + "" == Tail(calls[n].chunk);
  }

  lemma LongerText(calls: seq<Call>, i: nat)
    requires i < |calls| - 1 && calls[i].Push?
    ensures HeldText(calls, i) == HeldText(calls[..|calls| - 1], i) + Input(calls[|calls| - 1])
  {
    hide Tail, Input;
    var later := calls[i + 1..];
    assert later[..|later| - 1] == calls[..|calls| - 1][i + 1..];
  }

  lemma LastOf(calls: seq<Call>, j: int)
    requires calls != [] && LastChunk(calls[..|calls| - 1], j)
    ensures 0 <= j < |calls| - 1
    ensures LastChunk(calls, if Chunk(calls[|calls| - 1]) then |calls| - 1 else j)
  {
  }

  lemma LongerRun(cfg: Config, calls: seq<Call>, i: nat)
    requires Usable(cfg) && calls != []
    requires var n := |calls| - 1;
             && HeldFrom(cfg, calls[..n], i)
             && Run(cfg, Initial, calls[..n]).held != "" && !Begins(Run(cfg, Initial, calls[..n]), calls[n])
    ensures HeldFrom(cfg, calls, i)
  {
    hide Run, Begins;
    var n := |calls| - 1;
    assert forall m | 0 <= m < n :: calls[..n][..m] == calls[..m];
  }
}
