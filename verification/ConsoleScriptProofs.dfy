/** What the console driver promises: a stable echo boundary and a fixed script of writes. */
module ConsoleScriptProofs {
  import opened Wrappers
  import opened Text
  import opened ConsoleScript

  // ----- The echo boundary -----------------------------------------------------------------

  lemma {:induction false} AfterEchoExtends(text: string, more: string, cmd: string)
    requires AfterEcho(text, cmd).Some?
    ensures AfterEcho(text + more, cmd) == Some(AfterEcho(text, cmd).value + more)
    decreases |text|
  {
    hide Echo, Find;
    var i := Find(text, '\n');
    FirstFound(text, more, i);
    if !Echo(text[..i], cmd) {
      AfterEchoExtends(text[i + 1..], more, cmd);
    }
  }

  lemma FirstFound(text: string, more: string, i: nat)
    requires i == Find(text, '\n')
    ensures Find(text + more, '\n') == i
    ensures (text + more)[..i] == text[..i] && (text + more)[i + 1..] == text[i + 1..] + more
  {
    assert (text + more)[..i] == text[..i];
    FindFirst(text + more, '\n', i);
  }

  lemma NormalisedUnfolds(t: string)
    ensures Normalised("") == ""
    ensures t != "" ==>
              (Normalised(t) ==
               if |t| >= 2 && t[0] == '\r' && t[1] == '\n' then "\n" + Normalised(t[2..])
               else [if t[0] == '\r' then '\n' else t[0]] + Normalised(t[1..]))
  {
    if t != "" {
      OneReplaced(t[0], DropCrLf(t[1..]));
      if |t| >= 2 {
        OneReplaced('\n', DropCrLf(t[2..]));
      } else {
        assert t == [t[0]] + "" && t[1..] == "";
      }
    }
  }

  lemma OneReplaced(c: char, rest: string)
    ensures Replaced([c] + rest, '\r', "\n") == [if c == '\r' then '\n' else c] + Replaced(rest, '\r', "\n")
  {
    assert ([c] + rest)[1..] == rest;
  }

  /** What a text reads as when `more` follows it; only a CR at its end waits for its LF. */
  lemma {:induction false} NormalisedExtends(raw: string, more: string)
    ensures Normalised(raw) <= Normalised(raw + more)
    ensures (raw == "" || raw[|raw| - 1] != '\r' || more == "" || more[0] != '\n') ==>
              Normalised(raw + more) == Normalised(raw) + Normalised(more)
    decreases |raw|
  {
    hide Normalised;
    NormalisedUnfolds(raw);
    NormalisedUnfolds(raw + more);
    if raw == "" {
      assert raw + more == more;
    } else if |raw| >= 2 && raw[0] == '\r' && raw[1] == '\n' {
      assert (raw + more)[2..] == raw[2..] + more;
      NormalisedExtends(raw[2..], more);
    } else if |raw| == 1 && raw[0] == '\r' && more != "" && more[0] == '\n' {
      assert (raw + more)[2..] == more[1..] && raw[1..] == "";
    } else {
      assert (raw + more)[1..] == raw[1..] + more;
      NormalisedExtends(raw[1..], more);
    }
  }

  /**
   Once the echo of `cmd` is buffered, whatever arrives next and however it is cut,
   even between CR and LF, the boundary stays and the output only grows.
   */
  lemma BoundaryStable(raw: string, more: string, cmd: string)
    requires AfterEcho(Normalised(raw), cmd).Some?
    ensures Normalised(raw) <= Normalised(raw + more)
    ensures AfterEcho(Normalised(raw + more), cmd) ==
            Some(AfterEcho(Normalised(raw), cmd).value + Normalised(raw + more)[|Normalised(raw)|..])
  {
    NormalisedExtends(raw, more);
    hide Normalised, AfterEcho;
    var grown := Normalised(raw + more)[|Normalised(raw)|..];
    assert Normalised(raw + more) == Normalised(raw) + grown;
    AfterEchoExtends(Normalised(raw), grown, cmd);
  }

  /** A complete line of `text` is text[x..y], a newline at y. */
  ghost predicate LineAt(text: string, x: int, y: int) {
    && 0 <= x <= y < |text| && text[y] == '\n' && (x == 0 || text[x - 1] == '\n')
    && forall i | x <= i < y :: text[i] != '\n'
  }

  /** The first complete line that echoes `cmd`. */
  ghost predicate FirstEcho(text: string, x: int, y: int, cmd: string) {
    && LineAt(text, x, y) && Echo(text[x..y], cmd)
    && forall u, v | u < x && LineAt(text, u, v) :: !Echo(text[u..v], cmd)
  }

  lemma FirstLine(text: string, i: nat)
    requires Find(text, '\n') == i
    ensures LineAt(text, 0, i) && forall v | LineAt(text, 0, v) :: v == i
  {
    forall j | 0 <= j < i ensures text[j] != '\n' {
      assert text[j] == text[..i][j];
    }
  }

  /** Lines of what follows a line are lines of the whole. */
  lemma LinesShift(text: string, i: nat, rest: string)
    requires i < |text| && text[i] == '\n' && rest == text[i + 1..]
    ensures forall u, v | 0 <= u :: LineAt(rest, u, v) <==> LineAt(text, i + 1 + u, i + 1 + v)
    ensures forall u, v | 0 <= u <= v < |rest| :: rest[u..v] == text[i + 1 + u..i + 1 + v]
  {
    assert forall j | 0 <= j < |rest| :: rest[j] == text[i + 1 + j];
    forall u, v | 0 <= u ensures LineAt(rest, u, v) <==> LineAt(text, i + 1 + u, i + 1 + v) {
      if LineAt(text, i + 1 + u, i + 1 + v) {
        assert forall j | u <= j < v :: rest[j] == text[i + 1 + j];
      }
      if LineAt(rest, u, v) {
        assert forall j | i + 1 + u <= j < i + 1 + v :: text[j] == rest[j - i - 1];
      }
    }
  }

  lemma {:induction false} BoundaryFound(text: string, cmd: string) returns (x: int, y: int)
    requires AfterEcho(text, cmd).Some?
    ensures 0 <= x <= y < |text| && FirstEcho(text, x, y, cmd) && AfterEcho(text, cmd) == Some(text[y + 1..])
    decreases |text|
  {
    hide Echo, Find, FirstEcho;
    var i := Find(text, '\n');
    x, y := 0, i;
    if Echo(text[..i], cmd) {
      AtOnce(text, i, cmd);
    } else {
      var u, v := BoundaryFound(text[i + 1..], cmd);
      x, y := i + 1 + u, i + 1 + v;
      FirstShift(text, i, text[i + 1..], u, v, cmd);
    }
  }

  lemma AtOnce(text: string, i: nat, cmd: string)
    requires Find(text, '\n') == i && Echo(text[..i], cmd)
    ensures FirstEcho(text, 0, i, cmd)
  {
    hide Echo, Find;
    FirstLine(text, i);
    assert text[0..i] == text[..i];
  }

  lemma FirstShift(text: string, i: nat, rest: string, u: int, v: int, cmd: string)
    requires Find(text, '\n') == i && rest == text[i + 1..] && !Echo(text[..i], cmd)
    requires FirstEcho(rest, u, v, cmd)
    ensures 0 <= u <= v < |rest| && FirstEcho(text, i + 1 + u, i + 1 + v, cmd) && rest[v + 1..] == text[i + 1 + v + 1..]
  {
    hide Echo, Find, LineAt;
    LineBounds(rest);
    LinesShift(text, i, rest);
    NoneBefore(text, i, rest, u, cmd);
  }

  lemma LineBounds(text: string)
    ensures forall x, y | LineAt(text, x, y) :: 0 <= x <= y < |text|
  {
  }

  lemma NoneBefore(text: string, i: nat, rest: string, u: nat, cmd: string)
    requires Find(text, '\n') == i && rest == text[i + 1..] && !Echo(text[..i], cmd)
    requires forall p, q | p < u && LineAt(rest, p, q) :: !Echo(rest[p..q], cmd)
    ensures forall p, q | p < i + 1 + u && LineAt(text, p, q) :: !Echo(text[p..q], cmd)
  {
    FirstLine(text, i);
    LinesShift(text, i, rest);
    hide Echo, Find;
    forall p, q | p < i + 1 + u && LineAt(text, p, q) ensures !Echo(text[p..q], cmd) {
      if p == 0 {
        assert q == i && text[0..i] == text[..i];
      } else {
        assert p > i || (p - 1 < i && LineAt(text, 0, i));
        assert LineAt(rest, p - i - 1, q - i - 1);
      }
    }
  }

  lemma {:induction false} BoundaryUnique(text: string, x: int, y: int, cmd: string)
    requires FirstEcho(text, x, y, cmd)
    ensures AfterEcho(text, cmd) == Some(text[y + 1..])
    decreases |text|
  {
    hide Echo, Find;
    assert text[y] == '\n';
    var i := Find(text, '\n');
    FirstLine(text, i);
    assert text[0..i] == text[..i];
    if x > 0 {
      assert LineAt(text, 0, i);
      assert x > i;
      LinesShift(text, i, text[i + 1..]);
      BoundaryUnique(text[i + 1..], x - i - 1, y - i - 1, cmd);
    }
  }

  /** What AfterEcho cuts at, without saying how it looks for it. */
  lemma BoundaryIs(text: string, output: string, cmd: string)
    ensures AfterEcho(text, cmd) == Some(output) <==>
            exists x, y :: FirstEcho(text, x, y, cmd) && output == text[y + 1..]
  {
    if AfterEcho(text, cmd) == Some(output) {
      var x, y := BoundaryFound(text, cmd);
    }
    hide AfterEcho, Echo;
    forall x, y | FirstEcho(text, x, y, cmd)
      ensures AfterEcho(text, cmd) == Some(text[y + 1..])
    {
      BoundaryUnique(text, x, y, cmd);
    }
  }

  // ----- Prompts -----------------------------------------------------------------------------

  ghost predicate Blank(s: string, from: int, to: int) {
    0 <= from <= to <= |s| && forall i | from <= i < to :: Space(s[i]) && s[i] != '\n'
  }

  ghost predicate EndsBlank(s: string, from: int) {
    0 <= from <= |s| && forall i | from <= i < |s| :: EndSpace(s[i])
  }

  /**
   Where a prompt stands: token s[b..c] alone on the line from a but for white space,
   with only the four trailing blanks from d on.
   */
  ghost predicate PromptAt(s: string, a: int, b: int, c: int, d: int) {
    && 0 <= a <= b < c <= d <= |s|
    && Blank(s, a, b) && PromptToken(s[b..c]) && Blank(s, c, d)
    && (a == 0 || s[a - 1] == '\n')
    && (c < d ==> !EndSpace(s[d - 1])) && EndsBlank(s, d)
  }

  lemma TokenSolid(t: string)
    requires PromptToken(t)
    ensures forall i | 0 <= i < |t| :: !Space(t[i]) && t[i] != '\n' && !EndSpace(t[i])
  {
    assert forall i | 0 <= i < |t| - 1 :: HostChar(t[i]);
  }

  lemma TokenRead(s: string)
    ensures var token := Trim(PromptLine(s));
            PromptSuffix(s) == if PromptToken(token) then Some(Prompt(token, token[|token| - 1] == '#')) else None
  {
    hide PromptLine, Trim, HostChar;
  }

  ghost predicate OnOneLine(s: string, a: int, d: int) {
    && 0 <= a <= d <= |s| && (a == 0 || s[a - 1] == '\n')
    && forall i | a <= i < d :: s[i] != '\n'
  }

  lemma PromptFound(s: string) returns (a: int, b: int, c: int, d: int)
    requires PromptSuffix(s).Some?
    ensures PromptAt(s, a, b, c, d) && PromptSuffix(s).value.text == s[b..c]
  {
    hide PromptSuffix, PromptLine, Trim, PromptToken, Space, EndSpace, Blank, EndsBlank, OnOneLine;
    TokenRead(s);
    a, d := LineFound(s);
    b, c := TokenFound(s, a, d);
    TokenSome(s[b..c]);
  }

  lemma TokenSome(t: string)
    requires PromptToken(t)
    ensures t != ""
  {
  }

  lemma LineFound(s: string) returns (a: int, d: int)
    ensures 0 <= a <= d <= |s| && (a == 0 || s[a - 1] == '\n')
    ensures OnOneLine(s, a, d) && PromptLine(s) == s[a..d]
    ensures EndsBlank(s, d) && (d > 0 ==> !EndSpace(s[d - 1]))
  {
    hide End, LineStart, EndSpace;
    d := End(s, EndSpace, |s|);
    a := LineStart(s, d);
  }

  lemma TokenFound(s: string, a: int, d: int) returns (b: int, c: int)
    requires OnOneLine(s, a, d)
    ensures a <= b <= c <= d && Trim(s[a..d]) == s[b..c] && Blank(s, a, b) && Blank(s, c, d)
  {
    hide Trim, Space;
    var line := s[a..d];
    var x, y := TrimFound(line);
    b, c := a + x, a + y;
    Slice(s, a, d, b, c);
    BlankIn(s, a, d, 0, x);
    BlankIn(s, a, d, y, d - a);
  }

  lemma BlankIn(s: string, a: int, d: int, x: int, y: int)
    requires 0 <= a <= d <= |s| && 0 <= x <= y <= d - a
    requires forall i | x <= i < y :: Space(s[a..d][i])
    requires OnOneLine(s, a, d)
    ensures Blank(s, a + x, a + y)
  {
    hide Space;
    forall i | a + x <= i < a + y ensures Space(s[i]) && s[i] != '\n' {
      assert s[i] == s[a..d][i - a];
    }
  }

  /** Where the steps of PromptSuffix find the parts of a prompt that stands at b..c. */
  lemma PromptLineAt(s: string, a: int, b: int, c: int, d: int)
    requires PromptAt(s, a, b, c, d)
    ensures PromptLine(s) == s[a..d]
    ensures forall i | b <= i < c :: !Space(s[i]) && s[i] != '\n' && !EndSpace(s[i])
  {
    var token := s[b..c];
    hide End, LineStart, PromptToken, EndSpace, Space;
    TokenSolid(token);
    forall i | b <= i < c ensures !Space(s[i]) && s[i] != '\n' && !EndSpace(s[i]) {
      assert s[i] == token[i - b];
    }
    assert End(s, EndSpace, |s|) == d;
    assert LineStart(s, d) == a;
  }

  lemma PromptSeen(s: string, a: int, b: int, c: int, d: int)
    requires PromptAt(s, a, b, c, d)
    ensures PromptSuffix(s) == Some(Prompt(s[b..c], s[c - 1] == '#'))
  {
    hide PromptSuffix, PromptLine, PromptToken, EndSpace, Trim, Space;
    var token := s[b..c];
    assert token[|token| - 1] == s[c - 1];
    TokenRead(s);
    PromptLineAt(s, a, b, c, d);
    assert Trim(s[a..d]) == token by {
      TrimIn(s, a, b, c, d);
    }
  }

  lemma TrimIn(s: string, a: int, b: int, c: int, d: int)
    requires 0 <= a <= b < c <= d <= |s|
    requires Blank(s, a, b) && Blank(s, c, d) && !Space(s[b]) && !Space(s[c - 1])
    ensures Trim(s[a..d]) == s[b..c]
  {
    hide Trim, Space;
    var line := s[a..d];
    forall i | 0 <= i < b - a || c - a <= i < d - a ensures Space(line[i]) {
      assert line[i] == s[a + i];
    }
    TrimAt(line, b - a, c - a);
    Slice(s, a, d, b, c);
  }

  /** A prompt is recognised exactly when it stands alone at the end, and it is read off whole. */
  lemma PromptIs(s: string, p: Prompt)
    ensures PromptSuffix(s) == Some(p) <==>
            exists a, b, c, d :: PromptAt(s, a, b, c, d) && p == Prompt(s[b..c], s[c - 1] == '#')
  {
    hide PromptSuffix, PromptAt;
    if PromptSuffix(s) == Some(p) {
      var a, b, c, d := PromptFound(s);
      PromptSeen(s, a, b, c, d);
    }
    forall a, b, c, d | PromptAt(s, a, b, c, d)
      ensures 0 <= b < c <= |s| && PromptSuffix(s) == Some(Prompt(s[b..c], s[c - 1] == '#'))
    {
      PromptBounds(s, a, b, c, d);
      PromptSeen(s, a, b, c, d);
    }
  }

  lemma PromptBounds(s: string, a: int, b: int, c: int, d: int)
    requires PromptAt(s, a, b, c, d)
    ensures 0 <= b < c <= |s|
  {
  }

  // ----- Echoes behind prompts ---------------------------------------------------------------

  /** An echo behind a delayed prompt still counts. */
  lemma EchoBehindPrompt(prompt: string, cmd: string)
    requires prompt != "" ==> PromptToken(prompt)
    requires cmd != "" && !Space(cmd[|cmd| - 1]) && (prompt == "" ==> !Space(cmd[0]))
    ensures Echo(prompt + cmd, cmd)
  {
    hide PromptSuffix, Space, PromptToken, Trim;
    var line := prompt + cmd;
    assert line[..|line| - |cmd|] == prompt && line[|line| - |cmd|..] == cmd && line[0..|line|] == line;
    if prompt != "" {
      TokenSolid(prompt);
      assert line[0] == prompt[0];
      TokenShown(prompt);
    }
    TrimAt(line, 0, |line|);
  }

  lemma TokenShown(prompt: string)
    requires PromptToken(prompt)
    ensures PromptSuffix(prompt).Some?
  {
    hide PromptSuffix;
    assert prompt[0..|prompt|] == prompt;
    PromptSeen(prompt, 0, 0, |prompt|, |prompt|);
  }

  /** One line, with no white space at its end. */
  predicate Echoable(cmd: string) {
    cmd == "" || (!Space(cmd[|cmd| - 1]) && forall i | 0 <= i < |cmd| :: cmd[i] != '\n' && cmd[i] != '\r')
  }

  /** What the console says can hold a command's echo exactly when the command is one line without trailing space. */
  lemma EchoableExactly(cmd: string)
    ensures (exists raw :: AfterEcho(Normalised(raw), cmd).Some?) <==> Echoable(cmd)
  {
    hide AfterEcho, Normalised, Echoable;
    if Echoable(cmd) {
      var raw := EchoMade(cmd);
    }
    forall raw | AfterEcho(Normalised(raw), cmd).Some? ensures Echoable(cmd) {
      EchoSeen(raw, cmd);
    }
  }

  lemma EchoMade(cmd: string) returns (raw: string)
    requires Echoable(cmd)
    ensures AfterEcho(Normalised(raw), cmd) == Some("")
  {
    hide Echo, AfterEcho, Normalised, Space, PromptToken;
    var echo := if cmd == "" then "" else "#" + cmd;
    if cmd == "" {
      EmptyEchoed();
    } else {
      BarePrompt();
      EchoBehindPrompt("#", cmd);
    }
    raw := "" + echo + ("\n" + "");
    NormalisedWithout(raw);
    EchoAppended("", echo, "", cmd);
  }

  lemma EchoSeen(raw: string, cmd: string)
    requires AfterEcho(Normalised(raw), cmd).Some?
    ensures Echoable(cmd)
  {
    hide AfterEcho, Normalised, Echo, Echoable;
    var text := Normalised(raw);
    NormalisedHasNone(raw);
    var x, y := BoundaryFound(text, cmd);
    forall i | 0 <= i < y - x ensures text[x..y][i] != '\n' && text[x..y][i] != '\r' {
      assert text[x..y][i] == text[x + i];
    }
    EchoedClean(text[x..y], cmd);
  }

  lemma EmptyEchoed()
    ensures Echo("", "")
  {
    TrimAt("", 0, 0);
  }

  lemma BarePrompt()
    ensures PromptToken("#")
  {
  }

  lemma EchoedClean(line: string, cmd: string)
    requires Echo(line, cmd) && forall i | 0 <= i < |line| :: line[i] != '\n' && line[i] != '\r'
    ensures Echoable(cmd)
  {
    hide Echo, Space, Trim, EndsWith, Echoable;
    EchoEnds(line, cmd);
    var a, b := TrimFound(line);
    SuffixChars(line[a..b], cmd);
    EchoedPart(line, a, b, cmd);
  }

  lemma EchoedPart(line: string, a: int, b: int, cmd: string)
    requires 0 <= a <= b <= |line| && |cmd| <= b - a && (a < b ==> !Space(line[b - 1]))
    requires forall i | 0 <= i < |line| :: line[i] != '\n' && line[i] != '\r'
    requires forall i | 0 <= i < |cmd| :: cmd[i] == line[a..b][b - a - |cmd| + i]
    ensures Echoable(cmd)
  {
    hide Space;
    forall i | 0 <= i < |cmd| ensures cmd[i] == line[b - |cmd| + i] {
      assert cmd[i] == line[a..b][b - a - |cmd| + i];
    }
  }

  lemma EchoEnds(line: string, cmd: string)
    requires Echo(line, cmd)
    ensures EndsWith(Trim(line), cmd)
  {
    hide Trim, EndsWith, PromptSuffix;
  }

  lemma SuffixChars(t: string, cmd: string)
    requires EndsWith(t, cmd)
    ensures |cmd| <= |t|
    ensures forall i | 0 <= i < |cmd| :: cmd[i] == t[|t| - |cmd| + i]
  {
  }

  /** Whatever complete lines a late reply left, and a prompt behind them, the next echo is found past them. */
  lemma StaleReplySkipped(stale: string, prompt: string, cmd: string, reply: string)
    requires stale == "" || stale[|stale| - 1] == '\n'
    requires forall x, y | LineAt(stale, x, y) :: !Echo(stale[x..y], cmd)
    requires prompt != "" ==> PromptToken(prompt)
    requires cmd != "" && '\n' !in cmd && !Space(cmd[|cmd| - 1]) && (prompt == "" ==> !Space(cmd[0]))
    ensures AfterEcho(stale + (prompt + cmd) + ("\n" + reply), cmd) == Some(reply)
  {
    hide Echo, Space, PromptToken, AfterEcho;
    EchoBehindPrompt(prompt, cmd);
    EchoOneLine(prompt, cmd);
    EchoAppended(stale, prompt + cmd, reply, cmd);
  }

  lemma EchoOneLine(prompt: string, cmd: string)
    requires prompt != "" ==> PromptToken(prompt)
    requires '\n' !in cmd
    ensures forall i | 0 <= i < |prompt + cmd| :: (prompt + cmd)[i] != '\n'
  {
    hide PromptToken;
    if prompt != "" {
      TokenSolid(prompt);
    }
  }

  lemma EchoAppended(stale: string, echo: string, reply: string, cmd: string)
    requires stale == "" || stale[|stale| - 1] == '\n'
    requires forall x, y | LineAt(stale, x, y) :: !Echo(stale[x..y], cmd)
    requires Echo(echo, cmd) && forall i | 0 <= i < |echo| :: echo[i] != '\n'
    ensures AfterEcho(stale + echo + ("\n" + reply), cmd) == Some(reply)
  {
    hide Echo, AfterEcho;
    var tail := "\n" + reply;
    var text := stale + echo + tail;
    var x, y := |stale|, |stale| + |echo|;
    assert text[y] == '\n' && text[x..y] == echo;
    assert text[y + 1..] == reply by {
      assert text[y..] == tail;
    }
    forall i | x <= i < y ensures text[i] != '\n' {
      assert text[i] == echo[i - x];
    }
    StaleLines(stale, echo + tail, cmd);
    assert text == stale + (echo + tail);
    BoundaryUnique(text, x, y, cmd);
  }

  lemma StaleLines(stale: string, more: string, cmd: string)
    requires stale == "" || stale[|stale| - 1] == '\n'
    requires forall x, y | LineAt(stale, x, y) :: !Echo(stale[x..y], cmd)
    ensures forall u, v | u < |stale| && LineAt(stale + more, u, v) :: !Echo((stale + more)[u..v], cmd)
  {
    hide Echo;
    var text := stale + more;
    forall u, v | u < |stale| && LineAt(text, u, v) ensures !Echo(text[u..v], cmd) {
      assert text[|stale| - 1] == stale[|stale| - 1] == '\n';
      assert forall i | 0 <= i < |stale| :: text[i] == stale[i];
      assert LineAt(stale, u, v) && text[u..v] == stale[u..v];
    }
  }

  // ----- The script ----------------------------------------------------------------------------

  /** The session's buffer is what was heard since the last write. */
  predicate Listening(w: World) {
    w.log != [] && w.log[|w.log| - 1].heard == w.buf
  }

  function Before(w: World): (log: seq<Exchange>)
    requires w.log != []
  {
    w.log[..|w.log| - 1]
  }

  lemma {:induction false} PromptAwaitedHears(w: World)
    requires Listening(w)
    ensures var o := PromptAwaited(w);
            && o.world.log == Before(w) + [Exchange(w.log[|w.log| - 1].sent, o.world.buf)]
            && (o.result.Ok? ==>
                  PromptSuffix(o.world.buf).Some? && PromptSuffix(o.world.buf).value.priv == o.result.value)
    decreases |w.tape|
  {
    hide PromptSuffix;
    if PromptSuffix(w.buf).None? && !HasExpired(w) {
      var r := Read(Tick(w));
      if r.result.Ok? {
        assert Before(r.world) == Before(w);
        PromptAwaitedHears(r.world);
      }
    }
  }

  lemma {:induction false} CommandAwaitedHears(w: World, cmd: string)
    requires Listening(w)
    ensures var o := CommandAwaited(w, cmd);
            && o.world.log == Before(w) + [Exchange(w.log[|w.log| - 1].sent, o.world.buf)]
            && (o.result.Ok? ==> Answer(o.world.buf, cmd) == Some(o.result.value))
    decreases |w.tape|
  {
    hide Answer;
    if !HasExpired(w) && Answer(w.buf, cmd).None? {
      var r := Read(Tick(w));
      if r.result.Ok? {
        assert Before(r.world) == Before(w);
        CommandAwaitedHears(r.world, cmd);
      }
    }
  }

  lemma SyncedHears(w: World)
    ensures var o := Synced(w);
            && o.world.log == w.log + [Exchange("\r", o.world.buf)]
            && (o.result.Ok? ==>
                  PromptSuffix(o.world.buf).Some? && PromptSuffix(o.world.buf).value.priv == o.result.value)
  {
    hide PromptSuffix, PromptAwaited;
    var s := Sent(w, "\r").world;
    assert Before(s) == w.log;
    PromptAwaitedHears(s);
  }

  lemma CommandRunHears(w: World, cmd: string)
    ensures var o := CommandRun(w, cmd);
            && o.world.log == w.log + [Exchange(cmd + "\r", o.world.buf)]
            && (o.result.Ok? ==> Answer(o.world.buf, cmd) == Some(o.result.value))
  {
    hide Answer, CommandAwaited;
    var s := Sent(w, cmd + "\r").world;
    assert Before(s) == w.log;
    CommandAwaitedHears(s, cmd);
  }

  /** The k-th write was answered: the first by a prompt, a command by its echo and a prompt behind it. */
  ghost predicate Answered(log: seq<Exchange>, k: nat)
    requires k < |log|
  {
    var e := log[k];
    if k == 0 then PromptSuffix(e.heard).Some?
    else EndsWith(e.sent, "\r") && Answer(e.heard, e.sent[..|e.sent| - 1]).Some?
  }

  lemma AnsweredBy(log: seq<Exchange>, k: nat, cmd: string)
    requires 0 < k < |log| && log[k].sent == cmd + "\r"
    ensures Answered(log, k) == Answer(log[k].heard, cmd).Some?
  {
    assert log[k].sent[..|log[k].sent| - 1] == cmd;
  }

  /** Whether the first prompt heard already has the privilege to run commands. */
  predicate Privileged(heard: string) {
    InConfig(heard) || (PromptSuffix(heard).Some? && PromptSuffix(heard).value.priv)
  }

  /** Whether the exec commands need `do `: the mode that the last prompt before them shows. */
  predicate InMode(log: seq<Exchange>) {
    log != [] &&
    if Privileged(log[0].heard) then InConfig(log[0].heard) else |log| > 1 && InConfig(log[1].heard)
  }

  /** The writes a whole run makes, given what it hears. */
  function Script(log: seq<Exchange>, cmd: string): (sends: seq<string>) {
    var prefix := DoPrefix(InMode(log));
    ["\r"] + (if log != [] && Privileged(log[0].heard) then [] else ["enable\r"])
    + [prefix + "terminal length 0" + "\r", prefix + cmd + "\r"]
  }

  function Sends(log: seq<Exchange>): (sends: seq<string>) {
    seq(|log|, i requires 0 <= i < |log| => log[i].sent)
  }

  /** The console is enabled: what the first one or two exchanges are then. */
  ghost predicate Opened(talk: seq<Exchange>) {
    && 1 <= |talk| <= 2 && talk[0].sent == "\r" && Answered(talk, 0)
    && (|talk| == 1 <==> Privileged(talk[0].heard))
    && (|talk| == 2 ==> talk[1].sent == "enable\r" && Answered(talk, 1))
  }

  /** The writes are the script's, as far as they go, and all but the last are answered. */
  ghost predicate Scripted(talk: seq<Exchange>, cmd: string) {
    talk != [] && Sends(talk) <= Script(talk, cmd) && forall k | 0 <= k < |talk| - 1 :: Answered(talk, k)
  }

  /** The script is complete, everything is answered, and the last answer is the output. */
  ghost predicate Completed(talk: seq<Exchange>, cmd: string, output: string) {
    && talk != [] && Sends(talk) == Script(talk, cmd)
    && (forall k | 0 <= k < |talk| :: Answered(talk, k))
    && var sent := DoPrefix(InMode(talk)) + cmd;
    && var answer := Answer(talk[|talk| - 1].heard, sent);
    && answer.Some? && output == Cleaned(answer.value, sent)
  }

  /** What the run hears up to and including the enabling prompt. */
  lemma EnabledHears(w: World, cmd: string) returns (talk: seq<Exchange>)
    ensures Enabled(w).world.log == w.log + talk && Scripted(talk, cmd)
    ensures var o := Enabled(w); o.result.Ok? ==> Opened(talk) && o.result.value == InMode(talk)
  {
    hide PromptSuffix, Answer, CommandRun, Synced, InConfig, Script;
    SyncedHears(w);
    var p := Synced(w);
    talk := [Exchange("\r", p.world.buf)];
    ScriptStarts(talk, cmd);
    assert p.result.Ok? ==> Answered(talk, 0);
    if p.result.Ok? && !Privileged(p.world.buf) {
      assert "enable" + "\r" == "enable\r";
      CommandRunHears(p.world, "enable");
      talk := talk + [Exchange("enable\r", CommandRun(p.world, "enable").world.buf)];
      ScriptStarts(talk, cmd);
      AnsweredBy(talk, 1, "enable");
    }
  }

  lemma ScriptStarts(talk: seq<Exchange>, cmd: string)
    requires talk != []
    ensures var script := Script(talk, cmd);
            script[0] == "\r" && |script| >= 3 && (!Privileged(talk[0].heard) ==> script[1] == "enable\r")
  {
    hide Privileged, InMode;
  }

  function FirstExec(talk: seq<Exchange>): (cmd: string) {
    DoPrefix(InMode(talk)) + "terminal length 0"
  }

  lemma ModeStays(talk: seq<Exchange>, more: seq<Exchange>, cmd: string)
    requires Opened(talk)
    ensures InMode(talk + more) == InMode(talk) && Script(talk + more, cmd) == Script(talk, cmd)
    ensures |talk| + 2 == |Script(talk, cmd)|
    ensures Script(talk, cmd) == Sends(talk) + [FirstExec(talk) + "\r", DoPrefix(InMode(talk)) + cmd + "\r"]
  {
    hide Privileged, InConfig, Answered, Answer;
  }

  lemma AnswersStay(talk: seq<Exchange>, more: seq<Exchange>)
    ensures forall k | 0 <= k < |talk| :: Answered(talk + more, k) <==> Answered(talk, k)
  {
    hide Answer;
  }

  lemma FirstScripted(talk: seq<Exchange>, heard: string, cmd: string)
    requires Opened(talk)
    ensures Scripted(talk + [Exchange(FirstExec(talk) + "\r", heard)], cmd)
  {
    hide Privileged, InConfig, Answered, Answer, InMode, Script;
    var more := [Exchange(FirstExec(talk) + "\r", heard)];
    ModeStays(talk, more, cmd);
    AnswersStay(talk, more);
    assert Sends(talk + more) == Sends(talk) + [FirstExec(talk) + "\r"];
  }

  lemma LastScripted(talk: seq<Exchange>, e: Exchange, last: Exchange, cmd: string)
    requires Opened(talk) && e.sent == FirstExec(talk) + "\r" && last.sent == DoPrefix(InMode(talk)) + cmd + "\r"
    requires Answer(e.heard, FirstExec(talk)).Some?
    ensures Scripted(talk + [e, last], cmd)
    ensures var answer := Answer(last.heard, DoPrefix(InMode(talk)) + cmd);
            answer.Some? ==> Completed(talk + [e, last], cmd, Cleaned(answer.value, DoPrefix(InMode(talk)) + cmd))
  {
    hide Privileged, InConfig, Answer, InMode, Script, Cleaned, DoPrefix, FirstExec, Answered;
    var all := talk + [e, last];
    ModeStays(talk, [e, last], cmd);
    AnswersStay(talk, [e, last]);
    AnsweredBy(all, |talk|, FirstExec(talk));
    AnsweredBy(all, |talk| + 1, DoPrefix(InMode(talk)) + cmd);
    assert Sends(all) == Sends(talk) + [e.sent, last.sent];
  }

  /**
   For every tape, `RunExec` writes a prefix of its script, each write only after the
   one before it was answered; it succeeds only once all are, and then returns the last answer.
   */
  lemma RunExecScript(w: World, cmd: string) returns (talk: seq<Exchange>)
    ensures var o := Executed(w, cmd);
            && o.world.log == w.log + talk && Scripted(talk, cmd)
            && (o.result.Ok? ==> Completed(talk, cmd, o.result.value))
  {
    hide Answer, CommandRun, Enabled, Cleaned, Opened, Scripted, Completed, DoPrefix;
    talk := EnabledHears(w, cmd);
    var e := Enabled(w);
    if e.result.Ok? {
      var first := FirstExec(talk);
      var sent := DoPrefix(InMode(talk)) + cmd;
      CommandRunHears(e.world, first);
      var t := CommandRun(e.world, first);
      var opening := talk;
      talk := opening + [Exchange(first + "\r", t.world.buf)];
      FirstScripted(opening, t.world.buf, cmd);
      if t.result.Ok? {
        CommandRunHears(t.world, sent);
        var c := CommandRun(t.world, sent);
        var e1, e2 := Exchange(first + "\r", t.world.buf), Exchange(sent + "\r", c.world.buf);
        LastScripted(opening, e1, e2, cmd);
        talk := opening + [e1, e2];
      }
    }
  }

  // ----- No failure without a cause ------------------------------------------------------------

  /** From here on the console never misses a deadline or fails. */
  predicate Quiet(tape: seq<Event>) {
    forall i | 0 <= i < |tape| :: !tape[i].expired && !tape[i].fails
  }

  lemma {:induction false} PromptInTime(w: World)
    requires Quiet(w.tape)
    ensures var o := PromptAwaited(w); Quiet(o.world.tape) && (o.result.Err? ==> o.world.tape == [])
    decreases |w.tape|
  {
    hide PromptSuffix;
    if PromptSuffix(w.buf).None? && !HasExpired(w) {
      var r := Read(Tick(w));
      if r.result.Ok? {
        PromptInTime(r.world);
      }
    }
  }

  lemma {:induction false} CommandInTime(w: World, cmd: string)
    requires Quiet(w.tape)
    ensures var o := CommandAwaited(w, cmd); Quiet(o.world.tape) && (o.result.Err? ==> o.world.tape == [])
    decreases |w.tape|
  {
    hide Answer;
    if !HasExpired(w) && Answer(w.buf, cmd).None? {
      var r := Read(Tick(w));
      if r.result.Ok? {
        CommandInTime(r.world, cmd);
      }
    }
  }

  lemma RunInTime(w: World, cmd: string)
    requires Quiet(w.tape)
    ensures var o := CommandRun(w, cmd); Quiet(o.world.tape) && (o.result.Err? ==> o.world.tape == [])
  {
    hide CommandAwaited;
    CommandInTime(Sent(w, cmd + "\r").world, cmd);
  }

  lemma EnabledInTime(w: World)
    requires Quiet(w.tape)
    ensures var o := Enabled(w); Quiet(o.world.tape) && (o.result.Err? ==> o.world.tape == [])
  {
    hide CommandRun, PromptAwaited, InConfig;
    PromptInTime(Sent(w, "\r").world);
    RunInTime(Synced(w).world, "enable");
  }

  /** On a console that neither fails nor misses a deadline, only an exhausted input stops `RunExec`. */
  lemma FailsOnlyAtTheEnd(w: World, cmd: string)
    requires Quiet(w.tape)
    ensures var o := Executed(w, cmd); o.result.Err? ==> o.world.tape == []
  {
    hide CommandRun, Enabled, Cleaned, DoPrefix, Quiet;
    EnabledInTime(w);
    var e := Enabled(w);
    if e.result.Ok? {
      var prefix := DoPrefix(e.result.value);
      RunInTime(e.world, prefix + "terminal length 0");
      RunInTime(CommandRun(e.world, prefix + "terminal length 0").world, prefix + cmd);
    }
  }

  // ----- Which commands can be run ---------------------------------------------------------------

  lemma RanEchoable(w: World, cmd: string)
    requires CommandRun(w, cmd).result.Ok?
    ensures Echoable(cmd)
  {
    hide CommandRun, Echoable, AfterEcho, Normalised, PromptSuffix;
    CommandRunHears(w, cmd);
    EchoSeen(CommandRun(w, cmd).world.buf, cmd);
  }

  /** Whatever the console does, `RunExec` succeeds only for a command that can be echoed in the mode it is sent in. */
  lemma SuccessNeedsEcho(w: World, cmd: string)
    requires Executed(w, cmd).result.Ok?
    ensures Enabled(w).result.Ok? && Echoable(DoPrefix(Enabled(w).result.value) + cmd)
  {
    hide CommandRun, Enabled, Cleaned, Echoable, DoPrefix;
    var e := Enabled(w);
    var prefix := DoPrefix(e.result.value);
    RanEchoable(CommandRun(e.world, prefix + "terminal length 0").world, prefix + cmd);
  }

  /** An event of a console that does as it is asked. */
  function Says(chunk: string): (e: Event) {
    Event(false, false, chunk)
  }

  /** A command whose whole answer arrives in one chunk. */
  lemma AnsweredAtOnce(w: World, cmd: string, reply: string, rest: seq<Event>)
    requires w.tape == [Says(""), Says(""), Says(reply), Says("")] + rest
    requires Answer(reply, cmd).Some? && Answer("", cmd).None?
    ensures CommandRun(w, cmd).result.Ok? && CommandRun(w, cmd).world.tape == rest
  {
    hide Answer;
    var s := Sent(w, cmd + "\r").world;
    assert s.tape == [Says(""), Says(reply), Says("")] + rest;
    var r := Read(Tick(s));
    assert r.world.tape == [Says("")] + rest && r.world.buf == "" + reply == reply;
    assert CommandAwaited(s, cmd) == CommandAwaited(r.world, cmd);
    assert Tick(r.world).tape == rest;
  }

  lemma NoAnswerYet(cmd: string)
    ensures Answer("", cmd) == None
  {
    hide Echo, PromptSuffix;
    NormalisedUnfolds("");
  }

  /** Every echoable command has an answer. */
  lemma AnswerMade(cmd: string) returns (reply: string)
    requires Echoable(cmd)
    ensures Answer(reply, cmd).Some?
  {
    hide AfterEcho, Normalised, Echoable, PromptSuffix;
    var raw := EchoMade(cmd);
    reply := raw + "#";
    BoundaryStable(raw, "#", cmd);
    NormalisedExtends(raw, "#");
    NormalisedWithout("#");
    BarePrompt();
    TokenShown("#");
    assert "" + "#" == "#";
    var grown := Normalised(reply)[|Normalised(raw)|..];
    assert grown == "#";
  }

  lemma PrivilegedAtOnce(w: World, rest: seq<Event>)
    requires w.tape == [Says(""), Says(""), Says("#")] + rest
    ensures Enabled(w).result == Ok(false) && Enabled(w).world.tape == rest
  {
    BarePrompt();
    BarePromptRead();
    hide PromptSuffix;
    var s := Sent(w, "\r").world;
    assert s.tape == [Says(""), Says("#")] + rest;
    var r := Read(Tick(s));
    assert r.world.tape == rest && r.world.buf == "" + "#" == "#";
    assert PromptAwaited(s) == PromptAwaited(r.world);
  }

  lemma BarePromptRead()
    ensures PromptSuffix("") == None && PromptSuffix("#") == Some(Prompt("#", true)) && !ConfigPrompt("#")
  {
    hide PromptSuffix, ConfigPrompt, PromptAt, PromptLine, Trim, PromptToken;
    TokenRead("");
    EmptyLine();
    TrimAt("", 0, 0);
    NoToken();
    BareAt();
    PromptSeen("#", 0, 0, 1, 1);
    ShortNoConfig("#");
  }

  lemma EmptyLine()
    ensures PromptLine("") == ""
  {
    hide End, LineStart;
  }

  lemma NoToken()
    ensures !PromptToken("")
  {
  }

  lemma BareAt()
    ensures PromptAt("#", 0, 0, 1, 1) && "#"[0..1] == "#" && "#"[0] == '#'
  {
    hide PromptToken;
    BarePrompt();
    assert "#"[0..1] == "#";
  }

  lemma ShortNoConfig(prompt: string)
    requires |prompt| < 7
    ensures !ConfigPrompt(prompt)
  {
    forall i | 0 <= i <= |prompt| ensures !StartsWith(prompt[i..], "(config") {
      assert |prompt[i..]| < 7 == |"(config"|;
    }
  }

  /** A console that runs `cmd`: privileged, and answering both commands at once. */
  lemma TapeMade(cmd: string) returns (w: World)
    requires Echoable(cmd)
    ensures Executed(w, cmd).result.Ok?
  {
    hide CommandRun, Enabled, Cleaned, Echoable, Answer;
    PagerEchoable();
    var pager := AnswerMade("terminal length 0");
    var reply := AnswerMade(cmd);
    NoAnswerYet("terminal length 0");
    NoAnswerYet(cmd);
    var third := [Says(""), Says(""), Says(reply), Says("")];
    var second := [Says(""), Says(""), Says(pager), Says("")] + third;
    w := World("", [], [Says(""), Says(""), Says("#")] + second);
    PrivilegedAtOnce(w, second);
    assert DoPrefix(false) + "terminal length 0" == "terminal length 0" && DoPrefix(false) + cmd == cmd;
    var e := Enabled(w).world;
    AnsweredAtOnce(e, "terminal length 0", pager, third);
    assert third + [] == third;
    AnsweredAtOnce(CommandRun(e, "terminal length 0").world, cmd, reply, []);
  }

  lemma PagerEchoable()
    ensures Echoable("terminal length 0")
  {
  }

  /** With `do ` in front a command is no easier to echo. */
  lemma PrefixedEchoable(config: bool, cmd: string)
    requires Echoable(DoPrefix(config) + cmd)
    ensures Echoable(cmd)
  {
    var sent := DoPrefix(config) + cmd;
    assert forall i | 0 <= i < |cmd| :: cmd[i] == sent[|sent| - |cmd| + i];
    hide Space;
  }

  /** There is a console on which `RunExec` succeeds if and only if the command is one line without trailing space. */
  lemma RunnableExactly(cmd: string)
    ensures (exists w :: Executed(w, cmd).result.Ok?) <==> Echoable(cmd)
  {
    hide Executed, Echoable;
    if Echoable(cmd) {
      var w := TapeMade(cmd);
    }
    forall w | Executed(w, cmd).result.Ok? ensures Echoable(cmd) {
      SuccessNeedsEcho(w, cmd);
      PrefixedEchoable(Enabled(w).result.value, cmd);
    }
  }

  // ----- Cleaning ---------------------------------------------------------------------------------

  predicate Empties(lines: seq<string>) {
    forall i | 0 <= i < |lines| :: lines[i] == ""
  }

  /** A text trimmed of newlines has the same lines, less the empty ones at either end. */
  lemma {:induction false} LeftTrimmed(t: string) returns (pre: seq<string>)
    ensures Empties(pre) && Lines(t) == pre + Lines(DropLeft(t, Newline))
    decreases |t|
  {
    hide Lines, Empties, DropLeft;
    if t != "" && t[0] == '\n' {
      LinesAfterBlank(t);
      var more := LeftTrimmed(t[1..]);
      EmptiesCons(more);
      pre := [""] + more;
    } else {
      DropLeftAt(t, Newline, 0);
      NoEmpties();
      pre := [];
    }
  }

  lemma NoEmpties()
    ensures Empties([])
  {
  }

  lemma EmptiesCons(lines: seq<string>)
    requires Empties(lines)
    ensures Empties([""] + lines) && Empties(lines + [""])
  {
  }

  lemma LinesAfterBlank(t: string)
    requires t != "" && t[0] == '\n'
    ensures Lines(t) == [""] + Lines(t[1..]) && DropLeft(t, Newline) == DropLeft(t[1..], Newline)
  {
    hide Lines;
    assert t == "" + "\n" + t[1..];
    LinesCons("", t[1..]);
  }

  lemma {:induction false} LinesSnoc(t: string)
    ensures Lines(t + "\n") == Lines(t) + [""]
    decreases |t|
  {
    hide Lines, Find;
    var i := Find(t, '\n');
    if i < 0 {
      OneLine(t);
      OneLine("");
      LinesCons(t, "");
      assert t + "\n" + "" == t + "\n";
    } else {
      var head, rest := t[..i], t[i + 1..];
      LinesSnoc(rest);
      assert t == head + "\n" + rest;
      LinesCons(head, rest);
      LinesCons(head, rest + "\n");
      assert head + "\n" + (rest + "\n") == t + "\n";
    }
  }

  lemma LessRight(t: string)
    requires t != "" && t[|t| - 1] == '\n'
    ensures DropRight(t, Newline) == DropRight(t[..|t| - 1], Newline)
  {
    hide End;
    var most := t[..|t| - 1];
    var e := End(most, Newline, |most|);
    forall i | e <= i < |t| ensures Newline(t[i]) {
      assert i < |most| ==> t[i] == most[i];
    }
    assert e > 0 ==> t[e - 1] == most[e - 1];
    DropRightAt(t, Newline, e);
  }

  lemma {:induction false} RightTrimmed(t: string) returns (post: seq<string>)
    ensures Empties(post) && Lines(t) == Lines(DropRight(t, Newline)) + post
    decreases |t|
  {
    hide Lines, DropRight, Empties;
    NoEmpties();
    post := [];
    assert Lines(t) + [] == Lines(t);
    if t != "" && t[|t| - 1] == '\n' {
      var most := t[..|t| - 1];
      post := RightTrimmed(most);
      assert t == most + "\n";
      LinesSnoc(most);
      EmptiesCons(post);
      post := post + [""];
      LessRight(t);
    } else {
      DropRightAt(t, Newline, |t|);
      assert t[..|t|] == t;
    }
  }

  /** The cleaned text is the shown lines of the capture, in order, less empty ones at either end. */
  lemma CleanedLines(raw: string, cmd: string) returns (pre: seq<string>, post: seq<string>)
    ensures Empties(pre) && Empties(post)
    ensures var shown := Kept(Lines(Normalised(raw)), cmd);
            shown != [] ==> shown == pre + Lines(Cleaned(raw, cmd)) + post
  {
    hide Lines, Normalised, Kept, Join, Empties, Shown;
    NoNewlines(Normalised(raw));
    var shown := Kept(Lines(Normalised(raw)), cmd);
    var t := Join(shown, "\n");
    pre := LeftTrimmed(t);
    post := RightTrimmed(DropLeft(t, Newline));
    if shown != [] {
      LinesOfJoin(shown);
    }
  }

  lemma {:induction false} KeptWhole(lines: seq<string>, cmd: string)
    requires forall i | 0 <= i < |lines| :: Shown(lines[i], cmd)
    ensures Kept(lines, cmd) == lines
  {
    hide Shown;
    if lines != [] {
      var most := lines[..|lines| - 1];
      KeptWhole(most, cmd);
      var last := lines[|lines| - 1];
      assert lines == most + [last];
      assert Shown(last, cmd);
    }
  }

  lemma {:induction false} NormalisedWithout(t: string)
    requires '\r' !in t
    ensures Normalised(t) == t
  {
    hide Normalised;
    NormalisedUnfolds(t);
    if t != "" {
      NormalisedWithout(t[1..]);
    }
  }

  lemma {:induction false} NormalisedHasNone(t: string)
    ensures '\r' !in Normalised(t)
    decreases |t|
  {
    hide Normalised;
    NormalisedUnfolds(t);
    if |t| >= 2 && t[0] == '\r' && t[1] == '\n' {
      NormalisedHasNone(t[2..]);
    } else if t != "" {
      NormalisedHasNone(t[1..]);
    }
  }

  lemma LinesUnfolds(t: string)
    ensures var i := Find(t, '\n');
            Lines(t) == if i < 0 then [t] else [t[..i]] + Lines(t[i + 1..])
  {
  }

  lemma {:induction false} LinesWithout(t: string, c: char)
    requires c !in t
    ensures forall l | l in Lines(t) :: c !in l
    decreases |t|
  {
    hide Lines, Find;
    LinesUnfolds(t);
    var i := Find(t, '\n');
    if i >= 0 {
      PartsWithout(t, i, c);
      LinesWithout(t[i + 1..], c);
    }
  }

  lemma PartsWithout(t: string, i: nat, c: char)
    requires i < |t| && c !in t
    ensures c !in t[..i] && c !in t[i + 1..]
  {
  }

  lemma {:induction false} JoinChars(lines: seq<string>, c: char)
    requires c != '\n' && forall l | l in lines :: c !in l
    ensures c !in Join(lines, "\n")
  {
    if lines != [] {
      assert lines[0] in lines;
      JoinChars(lines[1..], c);
    }
  }

  /** Cleaning removes nothing the second time. */
  lemma CleanedTwice(raw: string, cmd: string)
    ensures Cleaned(Cleaned(raw, cmd), cmd) == Cleaned(raw, cmd)
  {
    hide Lines, Normalised, Kept, Join, Shown, TrimNewlines;
    var r := Cleaned(raw, cmd);
    ShownOnly(raw, cmd);
    NormalisedWithout(r);
    if r == "" {
      NothingKept(cmd);
    } else {
      JoinOfLines(r);
      KeptWhole(Lines(r), cmd);
      AlreadyTrimmed(Join(Kept(Lines(Normalised(raw)), cmd), "\n"));
    }
  }

  lemma AlreadyTrimmed(t: string)
    ensures TrimNewlines(TrimNewlines(t)) == TrimNewlines(t)
  {
    hide Begin, End;
    var l := DropLeft(t, Newline);
    var r := DropRight(l, Newline);
    assert r != "" ==> r[0] == l[0] == t[Begin(t, Newline, 0)];
    assert r != "" ==> r[|r| - 1] == l[End(l, Newline, |l|) - 1];
    DropLeftAt(r, Newline, 0);
    DropRightAt(r, Newline, |r|);
    assert r[0..] == r == r[..|r|];
  }

  lemma NothingKept(cmd: string)
    ensures TrimNewlines(Join(Kept(Lines(""), cmd), "\n")) == ""
  {
    hide Shown;
    assert Lines("") == [""];
    assert [""][..0] == [];
    assert Kept([], cmd) == [];
  }

  lemma ShownOnly(raw: string, cmd: string)
    ensures var r := Cleaned(raw, cmd);
            '\r' !in r && (r == "" || forall i | 0 <= i < |Lines(r)| :: Shown(Lines(r)[i], cmd))
  {
    hide Lines, Normalised, Kept, Join, Shown, TrimNewlines;
    var text, r := Normalised(raw), Cleaned(raw, cmd);
    var shown := Kept(Lines(text), cmd);
    NormalisedHasNone(raw);
    LinesWithout(text, '\r');
    JoinChars(shown, '\r');
    TrimmedChars(Join(shown, "\n"));
    var pre, post := CleanedLines(raw, cmd);
    if shown == [] {
      EmptyJoin();
    } else {
      forall i | 0 <= i < |Lines(r)| ensures Shown(Lines(r)[i], cmd) {
        assert shown[|pre| + i] == Lines(r)[i];
      }
    }
  }

  lemma TrimmedChars(t: string)
    ensures forall c | c in TrimNewlines(t) :: c in t
  {
    hide Begin, End;
  }

  lemma EmptyJoin()
    ensures TrimNewlines(Join([], "\n")) == ""
  {
  }
}
