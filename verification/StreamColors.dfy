/**
 The streaming console colorizer (`ConsoleColorizer`,
 app/src/lib/consoleColorizer.ts).

 `Next` gives the meaning of every call on a value state whose output is a list
 of tokens, so that inserted colour changes stay distinguishable from escape
 sequences of the input. The class does the same in place and writes text.
 A push reads the clock three times, so it carries three times.
 */
module StreamColors {
  import opened Wrappers
  import opened LineColors

  /** What a colorizer is built with; `isPrompt` is the prompt-tail expression. */
  datatype Config = Config(rules: Rules, isPrompt: string -> bool, flushDelayMs: nat)

  ghost predicate Usable(cfg: Config) {
    forall line: string :: AllRespect(cfg.rules, line)
  }

  datatype State = State(emittedInLine: nat, held: string, heldSince: int, timer: Option<int>, out: seq<Token>)

  const Initial: State := State(0, "", 0, None, [])

  datatype Call =
    | Push(chunk: string, t1: int, t2: int, t3: int)
    | NoteInput(data: string)
    | FlushHeld
    | TimerFires
    | Reset

  // ----- Meaning ------------------------------------------------------------

  /** The position of the first newline, or |text|. */
  function LineEnd(text: string): (i: nat)
    ensures i <= |text| && '\n' !in text[..i] && (i < |text| ==> text[i] == '\n')
  {
    if text == "" || text[0] == '\n' then 0 else 1 + LineEnd(text[1..])
  }

  predicate EndsWithCr(seg: string) {
    seg != "" && seg[|seg| - 1] == '\r'
  }

  /** An untouched line in full: coloured body, original terminator. */
  function WholeLine(cfg: Config, seg: string): (tokens: seq<Token>)
    requires Usable(cfg)
  {
    if EndsWithCr(seg) then Colorized(cfg.rules, seg[..|seg| - 1]) + RawTokens("\r\n")
    else Colorized(cfg.rules, seg) + RawTokens("\n")
  }

  /** A finished line; when part of it already went out raw, so does the rest. */
  function LineTokens(cfg: Config, seg: string, dirty: bool): (tokens: seq<Token>)
    requires Usable(cfg)
  {
    if dirty then RawTokens(seg + "\n") else WholeLine(cfg, seg)
  }

  /** The output of every completed line of `text`; only the first can be dirty. */
  function Completed(cfg: Config, text: string, dirty: bool): (tokens: seq<Token>)
    requires Usable(cfg)
    decreases |text|
  {
    var i := LineEnd(text);
    if i == |text| then []
    else LineTokens(cfg, text[..i], dirty) + Completed(cfg, text[i + 1..], false)
  }

  /** What follows the last newline. */
  function Tail(text: string): (t: string)
    decreases |text|
  {
    var i := LineEnd(text);
    if i == |text| then text else Tail(text[i + 1..])
  }

  function Later(a: int, b: int): (m: int) {
    if a < b then b else a
  }

  /** The completed lines' output, then the tail: emitted at once if dirty, ESC-bearing or a prompt, else held. */
  function Settled(cfg: Config, s: State, more: seq<Token>, tail: string, since: int, t3: int): (s': State)
    requires Usable(cfg)
  {
    var s1 := s.(out := s.out + more);
    if tail == "" then s1
    else if s.emittedInLine > 0 || ESC in tail then
      s1.(emittedInLine := s.emittedInLine + |tail|, out := s1.out + RawTokens(tail))
    else if cfg.isPrompt(tail) then
      s1.(emittedInLine := s.emittedInLine + |tail|, out := s1.out + Colorized(cfg.rules, tail))
    else s1.(held := tail, heldSince := since, timer := Some(Later(t3, since + cfg.flushDelayMs)))
  }

  function Pushed(cfg: Config, s: State, chunk: string, t1: int, t2: int, t3: int): (s': State)
    requires Usable(cfg)
  {
    if chunk == "" then s
    else
      var text := s.held + chunk;
      var complete := LineEnd(text) < |text|;
      Settled(cfg, s.(held := "", timer := None, emittedInLine := if complete then 0 else s.emittedInLine),
              Completed(cfg, text, s.emittedInLine > 0), Tail(text),
              if complete then t2 else if s.held == "" then t1 else s.heldSince, t3)
  }

  function Flushed(cfg: Config, s: State): (s': State)
    requires Usable(cfg)
  {
    if s.held == "" then s.(timer := None)
    else
      s.(held := "", timer := None, emittedInLine := s.emittedInLine + |s.held|,
         out := s.out + if s.emittedInLine == 0 && cfg.isPrompt(s.held)
                        then Colorized(cfg.rules, s.held) else RawTokens(s.held))
  }

  predicate HasNonNewline(data: string) {
    exists i :: 0 <= i < |data| && data[i] != '\r' && data[i] != '\n'
  }

  function Next(cfg: Config, s: State, call: Call): (s': State)
    requires Usable(cfg)
  {
    match call
    case Push(chunk, t1, t2, t3) => Pushed(cfg, s, chunk, t1, t2, t3)
    case NoteInput(data) =>
      var f := Flushed(cfg, s);
      if HasNonNewline(data) && f.emittedInLine == 0 then f.(emittedInLine := 1) else f
    case FlushHeld => Flushed(cfg, s)
    case TimerFires => if s.timer.Some? then Flushed(cfg, s) else s
    case Reset => s.(timer := None, held := "", emittedInLine := 0)
  }

  function Run(cfg: Config, s: State, calls: seq<Call>): (s': State)
    requires Usable(cfg)
    decreases |calls|
  {
    if calls == [] then s else Run(cfg, Next(cfg, s, calls[0]), calls[1..])
  }

  // ----- The class as written -------------------------------------------------

  class ConsoleColorizer {
    const cfg: Config
    var emittedInLine: nat
    var held: string
    var heldSince: int
    var timer: Option<int>
    /** Everything given to the sink, and the tokens it was made of. */
    var sunk: string
    ghost var tokens: seq<Token>

    ghost predicate Valid()
      reads this
    {
      Usable(cfg) && sunk == Text(tokens)
    }

    ghost function Now(): State
      reads this
    {
      State(emittedInLine, held, heldSince, timer, tokens)
    }

    constructor (cfg: Config)
      requires Usable(cfg)
      ensures Valid() && this.cfg == cfg && Now() == Initial
    {
      this.cfg := cfg;
      emittedInLine, held, heldSince, timer, sunk, tokens := 0, "", 0, None, "", [];
    }

    method Sink(text: string, ghost more: seq<Token>)
      requires Valid() && text == Text(more)
      modifies this`sunk, this`tokens
      ensures Valid() && tokens == old(tokens) + more
    {
      TextAppend(tokens, more);
      sunk, tokens := sunk + text, tokens + more;
    }

    method NoteInput(data: string)
      requires Valid()
      modifies this
      ensures Valid() && Now() == Next(cfg, old(Now()), Call.NoteInput(data))
    {
      FlushHeld();
      var typed := false;
      for i := 0 to |data|
        invariant typed <==> exists j :: 0 <= j < i && data[j] != '\r' && data[j] != '\n'
      {
        typed := typed || (data[i] != '\r' && data[i] != '\n');
      }
      if typed {
        emittedInLine := if emittedInLine == 0 then 1 else emittedInLine;
      }
    }

    method Push(chunk: string, t1: int, t2: int, t3: int)
      requires Valid()
      modifies this
      ensures Valid() && Now() == Next(cfg, old(Now()), Call.Push(chunk, t1, t2, t3))
    {
      hide Settled, Completed, Tail, LineEnd, Text, Usable;
      if |chunk| == 0 {
        return;
      }
      timer := None;
      var since := if held == "" then t1 else heldSince;
      var text := held + chunk;
      held := "";

      var out, segStart, more := Complete(text);
      Settle(out, text[segStart..], if segStart > 0 then t2 else since, t3, more);
    }

    /** Emit what was completed, then emit or hold the tail. */
    method Settle(out: string, tail: string, since: int, t3: int, ghost more: seq<Token>)
      requires Valid() && out == Text(more) && held == "" && timer == None
      modifies this
      ensures Valid() && Now() == Settled(cfg, old(Now()), more, tail, since, t3)
    {
      hide Text, Colorized;
      if tail == "" {
        Sink(out, more);
      } else if emittedInLine > 0 || ESC in tail {
        RawText(tail);
        TextAppend(more, RawTokens(tail));
        emittedInLine := emittedInLine + |tail|;
        Sink(out + tail, more + RawTokens(tail));
        Assoc(old(tokens), more, RawTokens(tail));
      } else if cfg.isPrompt(tail) {
        emittedInLine := emittedInLine + |tail|;
        var coloured := ColorizeLine(cfg.rules, tail);
        TextAppend(more, Colorized(cfg.rules, tail));
        Sink(out + coloured, more + Colorized(cfg.rules, tail));
        Assoc(old(tokens), more, Colorized(cfg.rules, tail));
      } else {
        Sink(out, more);
        held, heldSince := tail, since;
        var wait := cfg.flushDelayMs - (t3 - heldSince);
        timer := Some(t3 + if wait < 0 then 0 else wait);
      }
    }

    /** The loop over the newlines of `text`: the finished lines' output and where the tail starts. */
    method Complete(text: string) returns (out: string, segStart: nat, ghost more: seq<Token>)
      requires Valid()
      modifies this`emittedInLine
      ensures segStart <= |text| && text[segStart..] == Tail(text) && (segStart > 0 <==> LineEnd(text) < |text|)
      ensures emittedInLine == if segStart > 0 then 0 else old(emittedInLine)
      ensures more == Completed(cfg, text, old(emittedInLine) > 0) && out == Text(more)
    {
      hide Completed, Tail, LineEnd, Text, LineTokens;
      ghost var dirty := emittedInLine > 0;
      out, segStart, more := "", 0, [];
      assert Text([]) == "" by { RawText(""); assert RawTokens("") == []; }
      assert text[0..] == text && [] + Completed(cfg, text, dirty) == Completed(cfg, text, dirty);
      for i := 0 to |text|
        invariant segStart <= i && '\n' !in text[segStart..i]
        invariant segStart == 0 || LineEnd(text) < |text|
        invariant emittedInLine == if segStart > 0 then 0 else old(emittedInLine)
        invariant Valid() && out == Text(more)
        invariant Tail(text) == Tail(text[segStart..])
        invariant more + Completed(cfg, text[segStart..], emittedInLine > 0) == Completed(cfg, text, dirty)
      {
        if text[i] != '\n' {
          continue;
        }
        var seg := text[segStart..i];
        ghost var rest := text[segStart..];
        NextLine(cfg, rest, i - segStart, emittedInLine > 0);
        assert rest[..i - segStart] == seg && rest[i - segStart + 1..] == text[i + 1..];
        var written, line := LineOut(seg);
        Assoc(more, line, Completed(cfg, text[i + 1..], false));
        TextAppend(more, line);
        out, more := out + written, more + line;
        emittedInLine := 0;
        segStart := i + 1;
      }
      NothingCompleted(cfg, text[segStart..], emittedInLine > 0);
      assert more + [] == more;
    }

    method LineOut(seg: string) returns (written: string, ghost line: seq<Token>)
      requires Valid()
      ensures line == LineTokens(cfg, seg, emittedInLine > 0) && written == Text(line)
    {
      if emittedInLine > 0 {
        RawText(seg + "\n");
        return seg + "\n", RawTokens(seg + "\n");
      }
      var hasCr := |seg| > 0 && seg[|seg| - 1] == '\r';
      var body := if hasCr then seg[..|seg| - 1] else seg;
      var end := if hasCr then "\r\n" else "\n";
      written := ColorizeLine(cfg.rules, body);
      TextAppend(Colorized(cfg.rules, body), RawTokens(end));
      RawText(end);
      written := written + end;
      line := Colorized(cfg.rules, body) + RawTokens(end);
    }

    method FlushHeld()
      requires Valid()
      modifies this
      ensures Valid() && Now() == Flushed(cfg, old(Now()))
    {
      timer := None;
      if held == "" {
        return;
      }
      var tail := held;
      held := "";
      var isPrompt := emittedInLine == 0 && cfg.isPrompt(tail);
      emittedInLine := emittedInLine + |tail|;
      RawText(tail);
      if isPrompt {
        var coloured := ColorizeLine(cfg.rules, tail);
        Sink(coloured, Colorized(cfg.rules, tail));
      } else {
        Sink(tail, RawTokens(tail));
      }
    }

    /** The callback of the armed timer. */
    method TimerFires()
      requires Valid() && timer.Some?
      modifies this
      ensures Valid() && Now() == Next(cfg, old(Now()), Call.TimerFires)
    {
      timer := None;
      FlushHeld();
    }

    method Reset()
      requires Valid()
      modifies this
      ensures Valid() && Now() == Next(cfg, old(Now()), Call.Reset)
    {
      timer := None;
      held := "";
      emittedInLine := 0;
    }
  }

  lemma Assoc(a: seq<Token>, b: seq<Token>, c: seq<Token>)
    ensures a + b + c == a + (b + c)
  {
  }

  lemma {:induction false} EndHere(text: string, i: nat)
    requires i < |text| && text[i] == '\n' && forall j | 0 <= j < i :: text[j] != '\n'
    ensures LineEnd(text) == i
  {
    if i > 0 {
      EndHere(text[1..], i - 1);
    }
  }

  /** The first newline splits off one line. */
  lemma NextLine(cfg: Config, text: string, i: nat, dirty: bool)
    requires Usable(cfg) && i < |text| && text[i] == '\n' && forall j | 0 <= j < i :: text[j] != '\n'
    ensures LineEnd(text) == i && Tail(text) == Tail(text[i + 1..])
    ensures Completed(cfg, text, dirty) == LineTokens(cfg, text[..i], dirty) + Completed(cfg, text[i + 1..], false)
  {
    EndHere(text, i);
  }

  lemma NothingCompleted(cfg: Config, text: string, dirty: bool)
    requires Usable(cfg) && '\n' !in text
    ensures LineEnd(text) == |text| && Tail(text) == text && Completed(cfg, text, dirty) == []
  {
    NoNewline(text);
  }

  lemma {:induction false} NoNewline(text: string)
    requires '\n' !in text
    ensures LineEnd(text) == |text| && Tail(text) == text
  {
    if text != "" {
      NoNewline(text[1..]);
    }
  }
}
