/**
 Driving a shared IOS console by script
 (supervisor/internal/consolescript/consolescript.go): recognising prompts and
 command echoes, and the exec sequence built from them.

 The console's side is a tape: every context check, read and write consumes one
 event and sees what the event says, so any timing of deadlines, failures and
 chunks is some tape.
 */
module ConsoleScript {
  import opened Wrappers
  import opened Text

  datatype Prompt = Prompt(text: string, priv: bool)

  datatype Event = Event(expired: bool, fails: bool, chunk: string)

  datatype Failure = Expired | ReadFailed | WriteFailed

  /** One write and everything heard since, up to the next write. */
  datatype Exchange = Exchange(sent: string, heard: string)

  // ----- Prompts and echoes ------------------------------------------------------------

  predicate EndSpace(c: char) {
    c == ' ' || c == '\t' || c == '\r' || c == '\n'
  }

  predicate HostChar(c: char) {
    c == '-' || c == '.' || c == '(' || c == ')' || c == '_'
    || 'a' <= c <= 'z' || 'A' <= c <= 'Z' || '0' <= c <= '9'
  }

  predicate PromptToken(t: string) {
    t != "" && (t[|t| - 1] == '>' || t[|t| - 1] == '#') && forall i | 0 <= i < |t| - 1 :: HostChar(t[i])
  }

  /** Where the line starts that the first n characters end in. */
  function LineStart(t: string, n: nat): (a: nat)
    requires n <= |t|
    ensures a <= n && (a > 0 ==> t[a - 1] == '\n') && forall i | a <= i < n :: t[i] != '\n'
  {
    if n == 0 || t[n - 1] == '\n' then n else LineStart(t, n - 1)
  }

  /** The last line of `s`, its trailing blanks left out. */
  function PromptLine(s: string): (l: string) {
    var d := End(s, EndSpace, |s|);
    s[LineStart(s, d)..d]
  }

  function PromptSuffix(s: string): (p: Option<Prompt>) {
    var token := Trim(PromptLine(s));
    if token == "" then None
    else
      var last := token[|token| - 1];
      if last != '>' && last != '#' then None
      else if exists i :: 0 <= i < |token| - 1 && !HostChar(token[i]) then None
      else Some(Prompt(token, last == '#'))
  }

  predicate ConfigPrompt(prompt: string) {
    exists i | 0 <= i <= |prompt| :: StartsWith(prompt[i..], "(config")
  }

  function Normalised(raw: string): (t: string) {
    Replaced(DropCrLf(raw), '\r', "\n")
  }

  predicate Echo(line: string, cmd: string) {
    var t := Trim(line);
    EndsWith(t, cmd) && (|t| == |cmd| || PromptSuffix(t[..|t| - |cmd|]).Some?)
  }

  /** What follows the first complete line that echoes `cmd`. */
  function AfterEcho(text: string, cmd: string): (output: Option<string>) {
    var i := Find(text, '\n');
    if i < 0 then None
    else if Echo(text[..i], cmd) then Some(text[i + 1..])
    else AfterEcho(text[i + 1..], cmd)
  }

  method CommandOutput(raw: string, cmd: string) returns (output: Option<string>)
    ensures output == AfterEcho(Normalised(raw), cmd)
  {
    hide Normalised, Echo, AfterEcho, Join, Lines;
    var text := Normalised(raw);
    var lines := Lines(text);
    ghost var rest := text;
    for i := 0 to |lines| - 1
      invariant Lines(rest) == lines[i..]
      invariant AfterEcho(rest, cmd) == AfterEcho(text, cmd)
    {
      AfterEchoByLine(rest, cmd);
      ghost var next := rest[Find(rest, '\n') + 1..];
      assert lines[i] == Lines(rest)[0] && lines[i + 1..] == Lines(rest)[1..];
      if Echo(lines[i], cmd) {
        JoinOfLines(next);
        return Some(Join(lines[i + 1..], "\n"));
      }
      rest := next;
    }
    AfterEchoByLine(rest, cmd);
    return None;
  }

  lemma AfterEchoByLine(text: string, cmd: string)
    ensures var i := Find(text, '\n');
            var rest := text[i + 1..];
            if |Lines(text)| == 1 then AfterEcho(text, cmd) == None
            else
              i >= 0 && Lines(text)[1..] == Lines(rest)
              && AfterEcho(text, cmd) == if Echo(Lines(text)[0], cmd) then Some(rest) else AfterEcho(rest, cmd)
  {
    hide Echo, Find;
    var i := Find(text, '\n');
    assert i >= 0 ==> Lines(text) == [text[..i]] + Lines(text[i + 1..]);
  }

  // ----- The driver, on values -----------------------------------------------------------

  /** The buffer, the exchanges so far and what is left of the tape. */
  datatype World = World(buf: string, log: seq<Exchange>, tape: seq<Event>)

  datatype Outcome<T> = Outcome(world: World, result: Result<T, Failure>)

  function Tick(w: World): (w': World)
    ensures |w'.tape| <= |w.tape| && (w.tape != [] ==> |w'.tape| < |w.tape|)
  {
    if w.tape == [] then w else w.(tape := w.tape[1..])
  }

  predicate HasExpired(w: World) {
    w.tape == [] || w.tape[0].expired
  }

  predicate Fails(w: World) {
    w.tape == [] || w.tape[0].fails
  }

  /** Reset, then one write. */
  function Sent(w: World, text: string): (o: Outcome<()>) {
    var w' := Tick(w).(buf := "", log := w.log + [Exchange(text, "")]);
    Outcome(w', if Fails(w) then Err(WriteFailed) else Ok(()))
  }

  lemma SentForgets(w: World, text: string)
    ensures Sent(w.(buf := ""), text) == Sent(w, text)
  {
  }

  function Heard(log: seq<Exchange>, chunk: string): (log': seq<Exchange>) {
    if log == [] then [] else log[|log| - 1 := log[|log| - 1].(heard := log[|log| - 1].heard + chunk)]
  }

  function Read(w: World): (o: Outcome<()>)
    ensures |o.world.tape| <= |w.tape| && (o.result.Ok? ==> |o.world.tape| < |w.tape|)
  {
    if Fails(w) then Outcome(Tick(w), Err(ReadFailed))
    else Outcome(Tick(w).(buf := w.buf + w.tape[0].chunk, log := Heard(w.log, w.tape[0].chunk)), Ok(()))
  }

  function PromptAwaited(w: World): (o: Outcome<bool>)
    decreases |w.tape|
  {
    var p := PromptSuffix(w.buf);
    if p.Some? then Outcome(w, Ok(p.value.priv))
    else if HasExpired(w) then Outcome(Tick(w), Err(Expired))
    else
      var r := Read(Tick(w));
      if r.result.Err? then Outcome(r.world, Err(r.result.error)) else PromptAwaited(r.world)
  }

  /** The command's output so far, once its echo and then a prompt are there. */
  function Answer(buf: string, cmd: string): (output: Option<string>) {
    var o := AfterEcho(Normalised(buf), cmd);
    if o.Some? && PromptSuffix(o.value).Some? then o else None
  }

  function CommandAwaited(w: World, cmd: string): (o: Outcome<string>)
    decreases |w.tape|
  {
    if HasExpired(w) then Outcome(Tick(w), Err(Expired))
    else
      var a := Answer(w.buf, cmd);
      if a.Some? then Outcome(Tick(w), Ok(a.value))
      else
        var r := Read(Tick(w));
        if r.result.Err? then Outcome(r.world, Err(r.result.error)) else CommandAwaited(r.world, cmd)
  }

  function CommandRun(w: World, cmd: string): (o: Outcome<string>) {
    var s := Sent(w, cmd + "\r");
    if s.result.Err? then Outcome(s.world, Err(s.result.error)) else CommandAwaited(s.world, cmd)
  }

  predicate InConfig(buf: string) {
    PromptSuffix(buf).Some? && ConfigPrompt(PromptSuffix(buf).value.text)
  }

  function Synced(w: World): (o: Outcome<bool>) {
    var s := Sent(w, "\r");
    if s.result.Err? then Outcome(s.world, Err(s.result.error)) else PromptAwaited(s.world)
  }

  function Enabled(w: World): (o: Outcome<bool>) {
    var p := Synced(w);
    if p.result.Err? then p
    else if InConfig(p.world.buf) then Outcome(p.world, Ok(true))
    else if p.result.value then Outcome(p.world, Ok(false))
    else
      var e := CommandRun(p.world, "enable");
      Outcome(e.world, if e.result.Err? then Err(e.result.error) else Ok(InConfig(e.world.buf)))
  }

  function DoPrefix(config: bool): (p: string) {
    if config then "do " else ""
  }

  function Executed(w: World, cmd: string): (o: Outcome<string>) {
    var e := Enabled(w);
    if e.result.Err? then Outcome(e.world, Err(e.result.error))
    else
      var prefix := DoPrefix(e.result.value);
      var t := CommandRun(e.world, prefix + "terminal length 0");
      if t.result.Err? then t
      else
        var c := CommandRun(t.world, prefix + cmd);
        if c.result.Err? then c else c.(result := Ok(Cleaned(c.result.value, prefix + cmd)))
  }

  // ----- Cleaning the captured output -------------------------------------------------------

  predicate Shown(line: string, cmd: string) {
    Trim(line) != Trim(cmd) && !(PromptSuffix(line).Some? && ' ' !in Trim(line))
  }

  function Kept(lines: seq<string>, cmd: string): (kept: seq<string>)
    ensures forall l :: l in kept <==> l in lines && Shown(l, cmd)
  {
    if lines == [] then []
    else Kept(lines[..|lines| - 1], cmd) + (if Shown(lines[|lines| - 1], cmd) then [lines[|lines| - 1]] else [])
  }

  predicate Newline(c: char) {
    c == '\n'
  }

  function TrimNewlines(t: string): (r: string) {
    DropRight(DropLeft(t, Newline), Newline)
  }

  function Cleaned(raw: string, cmd: string): (r: string) {
    TrimNewlines(Join(Kept(Lines(Normalised(raw)), cmd), "\n"))
  }

  method CleanShowOutput(raw: string, cmd: string) returns (r: string)
    ensures r == Cleaned(raw, cmd)
  {
    hide Lines, Normalised, PromptSuffix, Trim, Join, TrimNewlines;
    var lines := Lines(Normalised(raw));
    var out := [];
    for i := 0 to |lines|
      invariant out == Kept(lines[..i], cmd)
    {
      assert lines[..i + 1][..i] == lines[..i];
      var trimmed := Trim(lines[i]);
      if trimmed == Trim(cmd) {
        continue;
      }
      if PromptSuffix(lines[i]).Some? && ' ' !in trimmed {
        continue;
      }
      out := out + [lines[i]];
    }
    assert lines[..|lines|] == lines;
    r := TrimNewlines(Join(out, "\n"));
  }

  // ----- The session as written -----------------------------------------------------------

  class Session {
    var buf: string
    var tape: seq<Event>
    var log: seq<Exchange>

    function Now(): World
      reads this
    {
      World(buf, log, tape)
    }

    constructor (tape: seq<Event>)
      ensures Now() == World("", [], tape)
    {
      this.tape, buf, log := tape, "", [];
    }

    method Write(text: string) returns (r: Result<(), Failure>)
      modifies this`tape, this`log
      ensures Now() == Sent(old(Now()), text).world.(buf := buf) && r == Sent(old(Now()), text).result
    {
      r := if Fails(Now()) then Err(WriteFailed) else Ok(());
      log := log + [Exchange(text, "")];
      tape := Tick(Now()).tape;
    }

    method Feed(clean: string)
      modifies this`buf, this`log
      ensures buf == old(buf) + clean && log == Heard(old(log), clean)
    {
      if |clean| > 0 {
        buf := buf + clean;
      }
      log := Heard(log, clean);
    }

    method Reset()
      modifies this`buf
      ensures buf == ""
    {
      buf := "";
    }

    method Pull() returns (r: Result<(), Failure>)
      modifies this
      ensures Outcome(Now(), r) == Read(old(Now()))
    {
      if Fails(Now()) {
        tape := Tick(Now()).tape;
        return Err(ReadFailed);
      }
      Feed(tape[0].chunk);
      tape := tape[1..];
      return Ok(());
    }

    method CtxErr() returns (expired: bool)
      modifies this`tape
      ensures expired == HasExpired(old(Now())) && Now() == Tick(old(Now()))
    {
      expired := HasExpired(Now());
      tape := Tick(Now()).tape;
    }

    method SyncPrompt() returns (priv: Result<bool, Failure>)
      modifies this
      ensures Outcome(Now(), priv) == Synced(old(Now()))
    {
      hide PromptAwaited;
      Reset();
      var w := Write("\r");
      if w.Err? {
        return Err(w.error);
      }
      priv := AwaitPrompt();
    }

    method AwaitPrompt() returns (priv: Result<bool, Failure>)
      modifies this
      ensures Outcome(Now(), priv) == PromptAwaited(old(Now()))
    {
      while true
        invariant PromptAwaited(Now()) == PromptAwaited(old(Now()))
        decreases |tape|
      {
        var p := PromptSuffix(buf);
        if p.Some? {
          return Ok(p.value.priv);
        }
        var expired := CtxErr();
        if expired {
          return Err(Expired);
        }
        var r := Pull();
        if r.Err? {
          return Err(r.error);
        }
      }
    }

    method AwaitCommand(cmd: string) returns (output: Result<string, Failure>)
      modifies this
      ensures Outcome(Now(), output) == CommandAwaited(old(Now()), cmd)
    {
      while true
        invariant CommandAwaited(Now(), cmd) == CommandAwaited(old(Now()), cmd)
        decreases |tape|
      {
        var expired := CtxErr();
        if expired {
          return Err(Expired);
        }
        var echoed := CommandOutput(buf, cmd);
        if echoed.Some? && PromptSuffix(echoed.value).Some? {
          return Ok(echoed.value);
        }
        var r := Pull();
        if r.Err? {
          return Err(r.error);
        }
      }
    }

    method EnsureEnable() returns (config: Result<bool, Failure>)
      modifies this
      ensures Outcome(Now(), config) == Enabled(old(Now()))
    {
      hide Synced, CommandAwaited, PromptSuffix, ConfigPrompt;
      var priv := SyncPrompt();
      if priv.Err? {
        return Err(priv.error);
      }
      var prompt := PromptSuffix(buf);
      if prompt.Some? && ConfigPrompt(prompt.value.text) {
        return Ok(true);
      }
      if priv.value {
        return Ok(false);
      }
      SentForgets(Now(), "enable" + "\r");
      assert "enable" + "\r" == "enable\r";
      Reset();
      var w := Write("enable\r");
      if w.Err? {
        return Err(w.error);
      }
      var e := AwaitCommand("enable");
      if e.Err? {
        return Err(e.error);
      }
      prompt := PromptSuffix(buf);
      return Ok(prompt.Some? && ConfigPrompt(prompt.value.text));
    }

    method RunExec(cmd: string) returns (output: Result<string, Failure>)
      modifies this
      ensures Outcome(Now(), output) == Executed(old(Now()), cmd)
    {
      hide Enabled, CommandAwaited, Cleaned;
      var config := EnsureEnable();
      if config.Err? {
        return Err(config.error);
      }
      var prefix := if config.value then "do " else "";
      SentForgets(Now(), prefix + "terminal length 0" + "\r");
      assert prefix + "terminal length 0" + "\r" == prefix + "terminal length 0\r";
      Reset();
      var w := Write(prefix + "terminal length 0\r");
      if w.Err? {
        return Err(w.error);
      }
      var t := AwaitCommand(prefix + "terminal length 0");
      if t.Err? {
        return Err(t.error);
      }
      var sent := prefix + cmd;
      SentForgets(Now(), sent + "\r");
      Reset();
      w := Write(sent + "\r");
      if w.Err? {
        return Err(w.error);
      }
      output := AwaitCommand(sent);
      if output.Ok? {
        var clean := CleanShowOutput(output.value, sent);
        output := Ok(clean);
      }
    }
  }
}
