/**
 The exec dialogue in the words of someone watching the console: which characters
 make a prompt, what is typed in which mode, when waiting ends, which lines are shown.
 */
module ConsoleDialogue {
  import opened Wrappers
  import opened Text
  import opened ConsoleScript
  import opened ConsoleScriptProofs

  // ----- Prompts -----------------------------------------------------------------------------

  /** Letters, digits and - . _ ( ), by their codes. */
  predicate HostLike(n: int) {
    n == 45 || n == 46 || n == 95 || n == 40 || n == 41 || 65 <= n <= 90 || 97 <= n <= 122 || 48 <= n <= 57
  }

  /** Host name characters with > (62) or # (35) behind them. */
  predicate BarePrompt(t: string) {
    && t != "" && (t[|t| - 1] as int == 62 || t[|t| - 1] as int == 35)
    && forall i | 0 <= i < |t| - 1 :: HostLike(t[i] as int)
  }

  /** Blank, tab or line end. */
  predicate Trailing(n: int) {
    n == 32 || n == 9 || n == 13 || n == 10
  }

  /** Token s[b..c] alone on the line from a but for white space, only trailing characters from d on. */
  predicate StandsAt(s: string, a: int, b: int, c: int, d: int) {
    && 0 <= a <= b < c <= d <= |s| && BarePrompt(s[b..c]) && (a == 0 || s[a - 1] as int == 10)
    && (forall i | a <= i < b :: Space(s[i]) && s[i] as int != 10)
    && (forall i | c <= i < d :: Space(s[i]) && s[i] as int != 10)
    && (forall i | d <= i < |s| :: Trailing(s[i] as int))
  }

  ghost predicate EndsInPrompt(s: string, token: string) {
    exists a, b, c, d :: StandsAt(s, a, b, c, d) && token == s[b..c]
  }

  lemma BareIs(t: string)
    ensures BarePrompt(t) <==> PromptToken(t)
  {
  }

  lemma StandingIs(s: string, a: int, b: int, c: int, d: int)
    ensures PromptAt(s, a, b, c, d) ==> StandsAt(s, a, b, c, d)
    ensures StandsAt(s, a, b, c, d) ==> PromptAt(s, a, b, c, End(s, EndSpace, |s|))
  {
    hide Space, End, PromptToken;
    if 0 <= a <= b < c <= d <= |s| {
      BareIs(s[b..c]);
      hide BarePrompt;
      if StandsAt(s, a, b, c, d) {
        var e := End(s, EndSpace, |s|);
        assert PromptToken(s[b..c]);
        TokenSolid(s[b..c]);
        assert s[b..c][c - b - 1] == s[c - 1];
        assert c <= e <= d;
      }
    }
  }

  /** The prompt read off a buffer is the token the buffer ends in, privileged when that ends in #. */
  lemma PromptSeenIs(s: string, p: Prompt)
    ensures PromptSuffix(s) == Some(p) <==> EndsInPrompt(s, p.text) && (p.priv <==> p.text[|p.text| - 1] as int == 35)
  {
    hide PromptSuffix, StandsAt, PromptAt, End;
    PromptIs(s, p);
    forall a, b, c, d | StandsAt(s, a, b, c, d)
      ensures 0 <= b < c <= |s| && s[b..c][c - b - 1] == s[c - 1]
      ensures PromptAt(s, a, b, c, End(s, EndSpace, |s|))
    {
      StandingIs(s, a, b, c, d);
      PromptBounds(s, a, b, c, End(s, EndSpace, |s|));
    }
    forall a, b, c, d | PromptAt(s, a, b, c, d)
      ensures StandsAt(s, a, b, c, d)
    {
      StandingIs(s, a, b, c, d);
    }
  }

  // ----- What is typed ---------------------------------------------------------------------------

  ghost predicate Holds(t: string, part: string) {
    exists a, b :: t == a + part + b
  }

  /** The prompt at the end shows a configuration mode. */
  ghost predicate AtConfig(heard: string) {
    exists token :: EndsInPrompt(heard, token) && Holds(token, "(config")
  }

  /** The prompt at the end is privileged. */
  ghost predicate AtHash(heard: string) {
    exists token :: EndsInPrompt(heard, token) && token[|token| - 1] as int == 35
  }

  /** What is typed, given what a CR and then `enable` were answered with. */
  ghost function Typed(first: string, second: string, cmd: string): (texts: seq<string>) {
    if AtConfig(first) then ["\r", "do terminal length 0\r", "do " + cmd + "\r"]
    else if AtHash(first) then ["\r", "terminal length 0\r", cmd + "\r"]
    else if AtConfig(second) then ["\r", "enable\r", "do terminal length 0\r", "do " + cmd + "\r"]
    else ["\r", "enable\r", "terminal length 0\r", cmd + "\r"]
  }

  lemma ConfigIs(t: string)
    ensures ConfigPrompt(t) <==> Holds(t, "(config")
  {
    if ConfigPrompt(t) {
      var i :| 0 <= i <= |t| && StartsWith(t[i..], "(config");
      assert t == t[..i] + "(config" + t[i..][7..];
    }
    forall a, b | t == a + "(config" + b
      ensures ConfigPrompt(t)
    {
      assert t[|a|..] == "(config" + b;
    }
  }

  lemma OnePrompt(s: string, token: string)
    requires EndsInPrompt(s, token)
    ensures token != "" && PromptSuffix(s) == Some(Prompt(token, token[|token| - 1] as int == 35))
  {
    PromptSeenIs(s, Prompt(token, token[|token| - 1] as int == 35));
  }

  lemma ModesAre(heard: string)
    ensures InConfig(heard) <==> AtConfig(heard)
    ensures PromptSuffix(heard).Some? && PromptSuffix(heard).value.priv <==> AtHash(heard)
  {
    hide PromptSuffix, EndsInPrompt, ConfigPrompt, Holds;
    var p := PromptSuffix(heard);
    if p.Some? {
      PromptSeenIs(heard, p.value);
      ConfigIs(p.value.text);
    }
    forall token | EndsInPrompt(heard, token)
      ensures token != "" && p == Some(Prompt(token, token[|token| - 1] as int == 35))
    {
      OnePrompt(heard, token);
    }
  }

  lemma ScriptIs(talk: seq<Exchange>, cmd: string)
    requires talk != []
    ensures Script(talk, cmd) == Typed(talk[0].heard, if |talk| > 1 then talk[1].heard else "", cmd)
  {
    var second := if |talk| > 1 then talk[1].heard else "";
    ModesAre(talk[0].heard);
    if |talk| > 1 {
      ModesAre(second);
    } else {
      NoPrompt();
    }
    var asked := !AtConfig(talk[0].heard) && !AtHash(talk[0].heard);
    ModeIs(talk, second, asked);
    hide InMode, Privileged, InConfig, AtConfig, AtHash, PromptSuffix, DoPrefix;
    Prefixed(cmd);
    var prefix := DoPrefix(InMode(talk));
    Concatenated(asked, prefix + "terminal length 0" + "\r", prefix + cmd + "\r");
  }

  lemma ModeIs(talk: seq<Exchange>, second: string, asked: bool)
    requires talk != [] && second == (if |talk| > 1 then talk[1].heard else "")
    requires InConfig(talk[0].heard) <==> AtConfig(talk[0].heard)
    requires PromptSuffix(talk[0].heard).Some? && PromptSuffix(talk[0].heard).value.priv <==> AtHash(talk[0].heard)
    requires if |talk| > 1 then InConfig(second) <==> AtConfig(second) else !AtConfig(second)
    requires asked <==> !AtConfig(talk[0].heard) && !AtHash(talk[0].heard)
    ensures InMode(talk) <==> AtConfig(talk[0].heard) || (asked && AtConfig(second))
    ensures Privileged(talk[0].heard) <==> !asked
  {
    hide InConfig, AtConfig, AtHash, PromptSuffix;
  }

  lemma Concatenated(asked: bool, a: string, b: string)
    ensures ["\r"] + (if asked then ["enable\r"] else []) + [a, b]
         == if asked then ["\r", "enable\r", a, b] else ["\r", a, b]
  {
  }

  lemma Prefixed(cmd: string)
    ensures DoPrefix(true) + "terminal length 0" + "\r" == "do terminal length 0\r"
    ensures DoPrefix(false) + "terminal length 0" + "\r" == "terminal length 0\r"
    ensures DoPrefix(true) == "do " && DoPrefix(false) + cmd + "\r" == cmd + "\r"
  {
  }

  lemma NoPrompt()
    ensures !AtConfig("")
  {
    hide BarePrompt;
  }

  // ----- What counts as an answer ------------------------------------------------------------------

  /** The line without white space at its ends is the command, or a prompt and the command. */
  ghost predicate Echoes(line: string, cmd: string) {
    exists p :: Trim(line) == p + cmd && (p == "" || exists token :: EndsInPrompt(p, token))
  }

  /** Line x..y is the first complete line that echoes the command. */
  ghost predicate EchoedAt(text: string, x: int, y: int, cmd: string) {
    && LineAt(text, x, y) && Echoes(text[x..y], cmd)
    && forall u, v | u < x && LineAt(text, u, v) :: !Echoes(text[u..v], cmd)
  }

  /** An echo of the command, then the reply, at whose end a prompt stands. */
  ghost predicate Replied(heard: string, cmd: string, reply: string) {
    && (exists x, y :: EchoedAt(Normalised(heard), x, y, cmd) && reply == Normalised(heard)[y + 1..])
    && exists token :: EndsInPrompt(reply, token)
  }

  lemma SuffixIs(s: string)
    ensures PromptSuffix(s).Some? <==> exists token :: EndsInPrompt(s, token)
  {
    hide PromptSuffix, EndsInPrompt;
    if PromptSuffix(s).Some? {
      PromptSeenIs(s, PromptSuffix(s).value);
    }
    forall token | EndsInPrompt(s, token)
      ensures PromptSuffix(s).Some?
    {
      OnePrompt(s, token);
    }
  }

  lemma EchoIs(line: string, cmd: string)
    ensures Echo(line, cmd) <==> Echoes(line, cmd)
  {
    hide PromptSuffix, EndsInPrompt, Trim;
    var t := Trim(line);
    if EndsWith(t, cmd) {
      var p := t[..|t| - |cmd|];
      assert t == p + cmd;
      SuffixIs(p);
    }
    forall p | t == p + cmd
      ensures EndsWith(t, cmd) && p == t[..|t| - |cmd|]
    {
    }
  }

  lemma EchoedIs(text: string, x: int, y: int, cmd: string)
    ensures FirstEcho(text, x, y, cmd) <==> EchoedAt(text, x, y, cmd)
  {
    hide Echo, Echoes;
    forall u, v | LineAt(text, u, v)
      ensures Echo(text[u..v], cmd) <==> Echoes(text[u..v], cmd)
    {
      EchoIs(text[u..v], cmd);
    }
  }

  lemma ReplyIs(heard: string, cmd: string, reply: string)
    ensures Answer(heard, cmd) == Some(reply) <==> Replied(heard, cmd, reply)
  {
    hide Normalised, AfterEcho, EchoedAt, FirstEcho, EndsInPrompt, PromptSuffix;
    BoundaryIs(Normalised(heard), reply, cmd);
    SuffixIs(reply);
    forall x, y
      ensures FirstEcho(Normalised(heard), x, y, cmd) <==> EchoedAt(Normalised(heard), x, y, cmd)
    {
      EchoedIs(Normalised(heard), x, y, cmd);
    }
  }

  // ----- The whole dialogue ---------------------------------------------------------------------------

  /** The first write is answered by a prompt, each other by its echo and a reply. */
  ghost predicate Heeded(e: Exchange, first: bool) {
    if first then exists token :: EndsInPrompt(e.heard, token)
    else exists cmd, reply :: e.sent == cmd + "\r" && Replied(e.heard, cmd, reply)
  }

  lemma HeededIs(log: seq<Exchange>, k: nat)
    requires k < |log|
    ensures Answered(log, k) <==> Heeded(log[k], k == 0)
  {
    hide Answer, Replied, EndsInPrompt, PromptSuffix;
    var e := log[k];
    if k == 0 {
      SuffixIs(e.heard);
    } else {
      if EndsWith(e.sent, "\r") {
        var cmd := e.sent[..|e.sent| - 1];
        assert e.sent == cmd + "\r";
        if Answer(e.heard, cmd).Some? {
          ReplyIs(e.heard, cmd, Answer(e.heard, cmd).value);
        }
      }
      forall cmd, reply | e.sent == cmd + "\r" && Replied(e.heard, cmd, reply)
        ensures Answered(log, k)
      {
        assert cmd == e.sent[..|e.sent| - 1];
        ReplyIs(e.heard, cmd, reply);
      }
    }
  }

  /**
   Whatever the console does, what is typed is a beginning of the text its first
   answers call for, each only when the one before was heeded; success means that
   all of it was typed and heeded and returns the last reply, cleaned.
   */
  lemma Dialogue(w: World, cmd: string) returns (talk: seq<Exchange>)
    ensures var o := Executed(w, cmd);
            && o.world.log == w.log + talk && talk != []
            && var typed := Typed(talk[0].heard, if |talk| > 1 then talk[1].heard else "", cmd);
               && |talk| <= |typed| && (forall k | 0 <= k < |talk| :: talk[k].sent == typed[k])
               && (forall k | 0 <= k < |talk| - 1 :: Heeded(talk[k], k == 0))
               && (o.result.Ok? ==>
                     && |talk| == |typed|
                     && exists sent, reply :: typed[|typed| - 1] == sent + "\r"
                          && Replied(talk[|talk| - 1].heard, sent, reply) && o.result.value == Cleaned(reply, sent))
  {
    hide Answer, Script, Typed, Answered, Heeded, Replied, Cleaned, Executed, InMode;
    talk := RunExecScript(w, cmd);
    ScriptIs(talk, cmd);
    forall k | 0 <= k < |talk|
      ensures Answered(talk, k) <==> Heeded(talk[k], k == 0)
    {
      HeededIs(talk, k);
    }
    var sends := Sends(talk);
    assert forall k | 0 <= k < |talk| :: sends[k] == talk[k].sent;
    var o := Executed(w, cmd);
    if o.result.Ok? {
      var sent := DoPrefix(InMode(talk)) + cmd;
      LastTyped(talk, cmd);
      ReplyIs(talk[|talk| - 1].heard, sent, Answer(talk[|talk| - 1].heard, sent).value);
    }
  }

  lemma LastTyped(talk: seq<Exchange>, cmd: string)
    ensures var script := Script(talk, cmd);
            script != [] && script[|script| - 1] == DoPrefix(InMode(talk)) + cmd + "\r"
  {
  }

  // ----- When waiting ends -----------------------------------------------------------------------------

  /** What is buffered after n reads; even events are checks of the deadline, odd ones reads. */
  function BufferAfter(w: World, n: nat): (buf: string)
    requires 2 * n <= |w.tape|
  {
    if n == 0 then w.buf else BufferAfter(w, n - 1) + w.tape[2 * n - 1].chunk
  }

  /** The check in front of read n finds the deadline passed. */
  predicate LateAt(w: World, n: nat) {
    2 * n >= |w.tape| || w.tape[2 * n].expired
  }

  predicate BrokenAt(w: World, n: nat) {
    2 * n + 1 >= |w.tape| || w.tape[2 * n + 1].fails
  }

  lemma {:induction false} BufferShift(w: World, r: World, n: nat)
    requires 2 * n + 2 <= |w.tape| && r.tape == w.tape[2..] && r.buf == w.buf + w.tape[1].chunk
    ensures BufferAfter(r, n) == BufferAfter(w, n + 1)
  {
    if n > 0 {
      BufferShift(w, r, n - 1);
    }
  }

  /**
   Waiting for a command's reply ends at the first round that finds the deadline
   passed, the reply complete, or the read failing, in this order.
   */
  lemma {:induction false} ReplyAwaited(w: World, cmd: string) returns (n: nat)
    ensures 2 * n <= |w.tape|
    ensures forall i | 0 <= i < n :: !LateAt(w, i) && Answer(BufferAfter(w, i), cmd).None? && !BrokenAt(w, i)
    ensures var r, a := CommandAwaited(w, cmd).result, Answer(BufferAfter(w, n), cmd);
            if LateAt(w, n) then r == Err(Expired)
            else if a.Some? then r == Ok(a.value)
            else BrokenAt(w, n) && r == Err(ReadFailed)
    decreases |w.tape|
  {
    hide Answer;
    n := 0;
    if !LateAt(w, 0) && Answer(w.buf, cmd).None? && !BrokenAt(w, 0) {
      var r := Read(Tick(w)).world;
      assert r.tape == w.tape[2..];
      var m := ReplyAwaited(r, cmd);
      n := m + 1;
      Shifted(w, r, m);
      assert CommandAwaited(w, cmd) == CommandAwaited(r, cmd);
    }
  }

  lemma Shifted(w: World, r: World, m: nat)
    requires |w.tape| >= 2 && 2 * m <= |r.tape| && r.tape == w.tape[2..] && r.buf == w.buf + w.tape[1].chunk
    ensures forall i | 1 <= i <= m + 1 :: BufferAfter(w, i) == BufferAfter(r, i - 1)
    ensures forall i | 1 <= i <= m + 1 :: LateAt(w, i) == LateAt(r, i - 1)
    ensures forall i | 1 <= i <= m + 1 :: BrokenAt(w, i) == BrokenAt(r, i - 1)
  {
    forall i | 1 <= i <= m + 1
      ensures BufferAfter(w, i) == BufferAfter(r, i - 1)
    {
      BufferShift(w, r, i - 1);
    }
  }

  /** Waiting for a bare prompt looks for it before it looks at the deadline. */
  lemma {:induction false} PromptWaits(w: World) returns (n: nat)
    ensures 2 * n <= |w.tape|
    ensures forall i | 0 <= i < n :: PromptSuffix(BufferAfter(w, i)).None? && !LateAt(w, i) && !BrokenAt(w, i)
    ensures var r, p := PromptAwaited(w).result, PromptSuffix(BufferAfter(w, n));
            if p.Some? then r == Ok(p.value.priv)
            else if LateAt(w, n) then r == Err(Expired)
            else BrokenAt(w, n) && r == Err(ReadFailed)
    decreases |w.tape|
  {
    hide PromptSuffix;
    n := 0;
    if PromptSuffix(w.buf).None? && !LateAt(w, 0) && !BrokenAt(w, 0) {
      var r := Read(Tick(w)).world;
      assert r.tape == w.tape[2..];
      var m := PromptWaits(r);
      n := m + 1;
      Shifted(w, r, m);
      assert PromptAwaited(w) == PromptAwaited(r);
    }
  }

  // ----- What is shown ----------------------------------------------------------------------------------

  /** Neither the command itself nor a prompt without a blank inside. */
  ghost predicate Visible(line: string, cmd: string) {
    Trim(line) != Trim(cmd) && !((exists token :: EndsInPrompt(line, token)) && ' ' !in Trim(line))
  }

  lemma VisibleIs(line: string, cmd: string)
    ensures Shown(line, cmd) <==> Visible(line, cmd)
  {
    hide EndsInPrompt, PromptSuffix, Trim;
    SuffixIs(line);
  }

  /** `kept` are the visible lines, all of them, in order: those at the increasing positions `at`. */
  ghost predicate Selects(lines: seq<string>, cmd: string, kept: seq<string>, at: seq<nat>) {
    && |at| == |kept|
    && (forall i | 0 <= i < |at| :: at[i] < |lines| && kept[i] == lines[at[i]] && Visible(kept[i], cmd))
    && (forall i, j | 0 <= i < j < |at| :: at[i] < at[j])
    && forall l | 0 <= l < |lines| && Visible(lines[l], cmd) :: exists i | 0 <= i < |at| :: at[i] == l
  }

  lemma SelectsMore(lines: seq<string>, last: string, cmd: string, kept: seq<string>, at: seq<nat>)
    requires Selects(lines, cmd, kept, at)
    ensures Visible(last, cmd) ==> Selects(lines + [last], cmd, kept + [last], at + [|lines|])
    ensures !Visible(last, cmd) ==> Selects(lines + [last], cmd, kept, at)
  {
    hide Visible;
    var at' := if Visible(last, cmd) then at + [|lines|] else at;
    forall l | 0 <= l < |lines + [last]| && Visible((lines + [last])[l], cmd)
      ensures exists i | 0 <= i < |at'| :: at'[i] == l
    {
      if l < |lines| {
        assert (lines + [last])[l] == lines[l];
        var i :| 0 <= i < |at| && at[i] == l;
        assert at'[i] == l;
      } else {
        assert at'[|at|] == l;
      }
    }
  }

  lemma {:induction false} KeptAre(lines: seq<string>, cmd: string) returns (at: seq<nat>)
    ensures Selects(lines, cmd, Kept(lines, cmd), at)
    decreases |lines|
  {
    hide Visible, Shown, Kept, Selects;
    at := [];
    if lines == [] {
      NothingSelected(cmd);
    } else {
      var n := |lines| - 1;
      at := KeptAre(lines[..n], cmd);
      VisibleIs(lines[n], cmd);
      KeptSnoc(lines, cmd);
      assert lines[..n] + [lines[n]] == lines;
      SelectsMore(lines[..n], lines[n], cmd, Kept(lines[..n], cmd), at);
      if Shown(lines[n], cmd) {
        at := at + [n];
      }
    }
  }

  lemma NothingSelected(cmd: string)
    ensures Selects([], cmd, Kept([], cmd), [])
  {
  }

  lemma KeptSnoc(lines: seq<string>, cmd: string)
    requires lines != []
    ensures var front, last := lines[..|lines| - 1], lines[|lines| - 1];
            Kept(lines, cmd) == if Shown(last, cmd) then Kept(front, cmd) + [last] else Kept(front, cmd)
  {
    hide Shown;
    var kept := Kept(lines[..|lines| - 1], cmd);
    assert kept + [] == kept;
  }

  /** No newline is left at either end. */
  lemma CleanedEnds(raw: string, cmd: string)
    ensures var r := Cleaned(raw, cmd);
            r != "" ==> r[0] != '\n' && r[|r| - 1] != '\n'
  {
    hide Normalised, Kept, Lines, Join, Begin, End;
  }
}
