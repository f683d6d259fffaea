/**
 What a terminal shows of a colorized console: the colour of every character, in
 terms of the rules' matches and the characters around them. Nothing here is
 stated through the functions that produce the output.
 */
module ColorsShown {
  import opened Wrappers
  import opened Decimal
  import opened LineColors
  import opened StreamColors
  import opened StreamColorsProofs

  type Cells = seq<(char, Colour)>

  // ----- Which rule a character belongs to -------------------------------------------

  /** ASCII letters, digits and the underscore, by code. */
  predicate WordCode(n: int) {
    48 <= n <= 57 || 65 <= n <= 90 || 97 <= n <= 122 || n == 95
  }

  /** Position i has word characters on both sides. */
  predicate InsideWord(line: string, i: int) {
    0 < i < |line| && WordCode(line[i - 1] as int) && WordCode(line[i] as int)
  }

  /** The places a scan of `rule` starts from: the beginning, then behind each match, past an empty one. */
  ghost predicate ScanStarts(rule: Rule, line: string, starts: seq<nat>) {
    && starts != [] && forall i | 0 <= i < |starts| - 1 ::
         && starts[i] <= |line| && rule.exec(line, starts[i]).Some?
         && var m := rule.exec(line, starts[i]).value;
            starts[i + 1] == m.b + if m.a == m.b then 1 else 0
  }

  /** A match of the scan covers k and splits no word. */
  ghost predicate MatchedAt(rule: Rule, line: string, k: nat, starts: seq<nat>) {
    && ScanStarts(rule, line, starts) && starts[|starts| - 1] <= |line|
    && rule.exec(line, starts[|starts| - 1]).Some?
    && var m := rule.exec(line, starts[|starts| - 1]).value;
       m.a <= k < m.b && !InsideWord(line, m.a) && !InsideWord(line, m.b)
  }

  ghost predicate Matched(rule: Rule, line: string, k: nat) {
    exists starts :: starts != [] && starts[0] == 0 && MatchedAt(rule, line, k, starts)
  }

  /** The colour of character k of a line: that of the first rule that matches it. */
  ghost predicate InColour(rules: Rules, line: string, k: nat, c: Colour) {
    if ESC in line || line == "" || |line| > 1000 then c == None
    else if forall ri | 0 <= ri < |rules| :: !Matched(rules[ri], line, k) then c == None
    else
      exists ri | 0 <= ri < |rules| ::
        && Matched(rules[ri], line, k) && (forall i | 0 <= i < ri :: !Matched(rules[i], line, k))
        && c == Some((rules[ri].r, rules[ri].g, rules[ri].b))
  }

  lemma AcceptedIs(line: string, m: Match)
    requires m.a <= m.b <= |line|
    ensures Accepted(line, m) <==> m.a < m.b && !InsideWord(line, m.a) && !InsideWord(line, m.b)
  {
    assert forall c :: IsWordChar(c) <==> WordCode(c as int);
  }

  lemma {:induction false} CoversIs(rule: Rule, line: string, li: nat, k: nat)
    requires RespectsLastIndex(rule, line)
    ensures CoversFrom(rule, line, li, k)
       <==> exists starts :: starts != [] && starts[0] == li && MatchedAt(rule, line, k, starts)
    decreases |line| + 1 - li
  {
    hide InsideWord, Accepted;
    if li <= |line| && rule.exec(line, li).Some? {
      var m := rule.exec(line, li).value;
      var next := if m.a == m.b then m.b + 1 else m.b;
      AcceptedIs(line, m);
      CoversIs(rule, line, next, k);
      if Accepted(line, m) && m.a <= k < m.b {
        assert MatchedAt(rule, line, k, [li]);
      } else if CoversFrom(rule, line, next, k) {
        var more: seq<nat> :| more != [] && more[0] == next && MatchedAt(rule, line, k, more);
        LongerScan(rule, line, k, li, more);
      }
      forall starts: seq<nat> | starts != [] && starts[0] == li && MatchedAt(rule, line, k, starts)
        ensures CoversFrom(rule, line, li, k)
      {
        ShorterScan(rule, line, k, starts);
      }
    }
  }

  lemma LongerScan(rule: Rule, line: string, k: nat, li: nat, more: seq<nat>)
    requires li <= |line| && rule.exec(line, li).Some? && more != [] && MatchedAt(rule, line, k, more)
    requires var m := rule.exec(line, li).value; more[0] == m.b + if m.a == m.b then 1 else 0
    ensures MatchedAt(rule, line, k, [li] + more)
  {
    hide InsideWord;
    var starts := [li] + more;
    assert forall i | 0 < i < |starts| :: starts[i] == more[i - 1];
  }

  lemma ShorterScan(rule: Rule, line: string, k: nat, starts: seq<nat>)
    requires starts != [] && MatchedAt(rule, line, k, starts)
    ensures |starts| > 1 ==> MatchedAt(rule, line, k, starts[1..])
  {
    hide InsideWord;
  }

  lemma MatchedIs(rules: Rules, line: string, ri: nat, k: nat)
    requires AllRespect(rules, line) && ri < |rules|
    ensures Covers(rules, line, ri, k) <==> Matched(rules[ri], line, k)
  {
    CoversIs(rules[ri], line, 0, k);
  }

  lemma OwnerColour(rules: Rules, line: string, k: nat, owner: int)
    requires AllRespect(rules, line) && IsOwner(rules, line, k, owner) && !PassedThrough(line)
    ensures -1 <= owner < |rules| && InColour(rules, line, k, ColourOf(rules, owner))
  {
    hide Covers, Matched;
    forall ri | 0 <= ri < |rules| ensures Covers(rules, line, ri, k) <==> Matched(rules[ri], line, k) {
      MatchedIs(rules, line, ri, k);
    }
  }

  // ----- Lines -------------------------------------------------------------------------

  /** cells[from..to] are text[from..to] in the default colour. */
  ghost predicate Plain(text: string, cells: Cells, from: int, to: int) {
    0 <= from <= to <= |text| && to <= |cells| && forall k | from <= k < to :: cells[k] == (text[k], None)
  }

  /** cells[from..to] are text[from..to] coloured as one line. */
  ghost predicate Coloured(rules: Rules, text: string, cells: Cells, from: int, to: int) {
    && 0 <= from <= to <= |text| && to <= |cells|
    && forall k | from <= k < to ::
         cells[k].0 == text[k] && InColour(rules, text[from..to], k - from, cells[k].1)
  }

  /** text[x..y] is a finished line, its newline at y. */
  ghost predicate Finished(text: string, x: int, y: int) {
    && 0 <= x <= y < |text| && text[y] == '\n' && (x == 0 || text[x - 1] == '\n')
    && forall i | x <= i < y :: text[i] != '\n'
  }

  /** Where the line from x ends without its terminator. */
  function BodyEnd(text: string, x: int, y: int): (e: int)
    requires 0 <= x <= y < |text|
  {
    if x < y && text[y - 1] == '\r' then y - 1 else y
  }

  /** A finished line is shown in its colours, its terminator in the default colour. */
  ghost predicate LineShown(rules: Rules, text: string, cells: Cells, x: int, y: int)
    requires 0 <= x <= y < |text|
  {
    Coloured(rules, text, cells, x, BodyEnd(text, x, y)) && Plain(text, cells, BodyEnd(text, x, y), y + 1)
  }

  lemma {:induction false} ShownAppend(a: seq<Token>, b: seq<Token>, now: Colour)
    ensures Shown(a + b, now) == Shown(a, now) + Shown(b, ColourAfter(a, now))
    ensures ColourAfter(a + b, now) == ColourAfter(b, ColourAfter(a, now))
  {
    hide Shown, ColourAfter;
    if a == [] {
      assert a + b == b;
      NothingShown(now);
    } else {
      var t, rest := a[0], a[1..];
      var next := if t.Raw? then now else t.colour;
      ShownAppend(rest, b, next);
      ShownCons(t, rest, now);
      ShownCons(t, rest + b, now);
      assert a == [t] + rest && a + b == [t] + (rest + b);
    }
  }

  lemma NothingShown(now: Colour)
    ensures Shown([], now) == [] && ColourAfter([], now) == now
  {
  }

  lemma ShownCons(t: Token, rest: seq<Token>, now: Colour)
    ensures var next := if t.Raw? then now else t.colour;
            && Shown([t] + rest, now) == (if t.Raw? then [(t.c, now)] else []) + Shown(rest, next)
            && ColourAfter([t] + rest, now) == ColourAfter(rest, next)
  {
    assert ([t] + rest)[1..] == rest;
  }

  lemma {:induction false} RawShown(s: string)
    ensures |Shown(RawTokens(s), None)| == |s| && ColourAfter(RawTokens(s), None) == None
    ensures Plain(s, Shown(RawTokens(s), None), 0, |s|)
  {
    if s != "" {
      var rest := s[1..];
      RawShown(rest);
      assert RawTokens(s) == [Raw(s[0])] + RawTokens(rest);
      ShownCons(Raw(s[0]), RawTokens(rest), None);
      hide RawTokens, Shown, ColourAfter;
      var cells := Shown(RawTokens(rest), None);
      forall k | 0 <= k < |s| ensures ([(s[0], None)] + cells)[k] == (s[k], None) {
        assert k > 0 ==> cells[k - 1] == (rest[k - 1], None);
      }
    } else {
      NothingShown(None);
    }
  }

  lemma BodyShown(rules: Rules, body: string)
    requires AllRespect(rules, body)
    ensures var tokens := Colorized(rules, body);
            && |Shown(tokens, None)| == |body| && ColourAfter(tokens, None) == None
            && Coloured(rules, body, Shown(tokens, None), 0, |body|)
  {
    hide Shown, Runs, RawTokens, Matched, IsOwner;
    assert body[0..|body|] == body;
    if PassedThrough(body) {
      RawShown(body);
    } else {
      ShownInOwnersColour(rules, body);
      var owner := OwnerSeq(rules, body);
      forall k | 0 <= k < |body| ensures InColour(rules, body, k, ColourOf(rules, owner[k])) {
        OwnerColour(rules, body, k, owner[k]);
      }
    }
  }

  /** What is shown of a part is shown of the whole behind `head`. */
  lemma ColouredBehind(rules: Rules, head: string, rest: string, c1: Cells, c2: Cells, from: int, to: int)
    requires |head| == |c1| && Coloured(rules, rest, c2, from, to)
    ensures Coloured(rules, head + rest, c1 + c2, |head| + from, |head| + to)
  {
    hide InColour;
    var n, text, cells := |head|, head + rest, c1 + c2;
    assert text[n + from..n + to] == rest[from..to];
    forall k | n + from <= k < n + to
      ensures cells[k].0 == text[k] && InColour(rules, text[n + from..n + to], k - n - from, cells[k].1)
    {
      assert cells[k] == c2[k - n] && text[k] == rest[k - n];
    }
  }

  lemma PlainBehind(head: string, rest: string, c1: Cells, c2: Cells, from: int, to: int)
    requires |head| == |c1| && Plain(rest, c2, from, to)
    ensures Plain(head + rest, c1 + c2, |head| + from, |head| + to)
  {
    forall k | |head| + from <= k < |head| + to ensures (c1 + c2)[k] == ((head + rest)[k], None) {
      assert (c1 + c2)[k] == c2[k - |head|] && (head + rest)[k] == rest[k - |head|];
    }
  }

  /** What is shown of a part is shown of the whole in front of `rest`. */
  lemma ColouredBefore(rules: Rules, head: string, rest: string, c1: Cells, c2: Cells, from: int, to: int)
    requires Coloured(rules, head, c1, from, to)
    ensures Coloured(rules, head + rest, c1 + c2, from, to)
  {
    hide InColour;
    assert (head + rest)[from..to] == head[from..to];
  }

  lemma PlainBefore(head: string, rest: string, c1: Cells, c2: Cells, from: int, to: int)
    requires Plain(head, c1, from, to)
    ensures Plain(head + rest, c1 + c2, from, to)
  {
  }

  lemma WholeLineShown(cfg: Config, seg: string)
    requires Usable(cfg) && '\n' !in seg
    ensures var tokens := WholeLine(cfg, seg);
            && |Shown(tokens, None)| == |seg| + 1 && ColourAfter(tokens, None) == None
            && LineShown(cfg.rules, seg + "\n", Shown(tokens, None), 0, |seg|)
  {
    hide Colorized, RawTokens, Shown, ColourAfter, Coloured, Plain;
    var text, e := seg + "\n", BodyEnd(seg + "\n", 0, |seg|);
    var body, end := seg[..e], text[e..];
    assert EndsWithCr(seg) <==> e == |seg| - 1;
    assert end == if EndsWithCr(seg) then "\r\n" else "\n";
    assert text == body + end && body == if EndsWithCr(seg) then seg[..|seg| - 1] else seg;
    BodyShown(cfg.rules, body);
    RawShown(end);
    ShownAppend(Colorized(cfg.rules, body), RawTokens(end), None);
    var c1, c2 := Shown(Colorized(cfg.rules, body), None), Shown(RawTokens(end), None);
    ColouredBefore(cfg.rules, body, end, c1, c2, 0, e);
    PlainBehind(body, end, c1, c2, 0, |end|);
  }

  /** A finished line as shown: raw when part of it had already gone out, else coloured. */
  ghost predicate ShownAs(rules: Rules, text: string, cells: Cells, dirty: bool, x: int, y: int)
    requires 0 <= x <= y < |text|
  {
    if x == 0 && dirty then Plain(text, cells, 0, y + 1) else LineShown(rules, text, cells, x, y)
  }

  lemma LineTokensShown(cfg: Config, seg: string, dirty: bool)
    requires Usable(cfg) && '\n' !in seg
    ensures var tokens := LineTokens(cfg, seg, dirty);
            && |Shown(tokens, None)| == |seg| + 1 && ColourAfter(tokens, None) == None
            && ShownAs(cfg.rules, seg + "\n", Shown(tokens, None), dirty, 0, |seg|)
  {
    hide WholeLine, RawTokens, Shown, ColourAfter, LineShown, Plain;
    RawShown(seg + "\n");
    WholeLineShown(cfg, seg);
  }

  lemma ShownAsBefore(rules: Rules, head: string, rest: string, c1: Cells, c2: Cells, dirty: bool, y: int)
    requires 0 <= y < |head| && ShownAs(rules, head, c1, dirty, 0, y)
    ensures ShownAs(rules, head + rest, c1 + c2, dirty, 0, y)
  {
    hide Coloured, Plain;
    var e := BodyEnd(head, 0, y);
    assert BodyEnd(head + rest, 0, y) == e;
    if dirty {
      PlainBefore(head, rest, c1, c2, 0, y + 1);
    } else {
      ColouredBefore(rules, head, rest, c1, c2, 0, e);
      PlainBefore(head, rest, c1, c2, e, y + 1);
    }
  }

  lemma LineShownBehind(rules: Rules, head: string, rest: string, c1: Cells, c2: Cells, x: int, y: int)
    requires |head| == |c1| && 0 <= x <= y < |rest| && LineShown(rules, rest, c2, x, y)
    ensures LineShown(rules, head + rest, c1 + c2, |head| + x, |head| + y)
  {
    hide Coloured, Plain;
    var e, n := BodyEnd(rest, x, y), |head|;
    assert BodyEnd(head + rest, n + x, n + y) == n + e;
    ColouredBehind(rules, head, rest, c1, c2, x, e);
    PlainBehind(head, rest, c1, c2, e, y + 1);
  }

  /** Lines behind the first are lines of what follows it. */
  lemma FinishedBehind(text: string, i: int, x: int, y: int)
    requires Finished(text, 0, i) && Finished(text, x, y)
    ensures if x == 0 then y == i else x > i && Finished(text[i + 1..], x - i - 1, y - i - 1)
  {
    if x > 0 {
      assert text[x - 1] == '\n';
      var rest := text[i + 1..];
      assert forall k | i + 1 <= k < |text| :: rest[k - i - 1] == text[k];
    }
  }

  /** Every finished line of a text is shown as it should be, one character after the other. */
  lemma {:induction false} CompletedShown(cfg: Config, text: string, dirty: bool)
    requires Usable(cfg)
    ensures var tokens := Completed(cfg, text, dirty);
            && |Shown(tokens, None)| == |text| - |Tail(text)| && ColourAfter(tokens, None) == None
            && forall x, y | Finished(text, x, y) :: ShownAs(cfg.rules, text, Shown(tokens, None), dirty, x, y)
    decreases |text|
  {
    hide LineTokens, Completed, Tail, LineEnd, Shown, ColourAfter, ShownAs, LineShown, Finished;
    CompletedUnfolds(cfg, text, dirty);
    var i := LineEnd(text);
    if i == |text| {
      NothingShown(None);
      NoneFinished(text);
    } else {
      var head, rest := text[..i + 1], text[i + 1..];
      FirstFinished(text);
      CompletedShown(cfg, rest, false);
      LineTokensShown(cfg, text[..i], dirty);
      ShownAppend(LineTokens(cfg, text[..i], dirty), Completed(cfg, rest, false), None);
      var c1, c2 := Shown(LineTokens(cfg, text[..i], dirty), None), Shown(Completed(cfg, rest, false), None);
      assert head == text[..i] + "\n" && text == head + rest;
      forall x, y | Finished(text, x, y)
        ensures 0 <= x <= y < |text| && ShownAs(cfg.rules, text, c1 + c2, dirty, x, y)
      {
        FinishedBounds(text, x, y);
        FinishedBehind(text, i, x, y);
        if x == 0 {
          ShownAsBefore(cfg.rules, head, rest, c1, c2, dirty, i);
        } else {
          FinishedBounds(rest, x - i - 1, y - i - 1);
          LaterShown(cfg.rules, head, rest, c1, c2, dirty, x - i - 1, y - i - 1);
        }
      }
    }
  }

  lemma LaterShown(rules: Rules, head: string, rest: string, c1: Cells, c2: Cells, dirty: bool, x: int, y: int)
    requires |head| == |c1| > 0 && 0 <= x <= y < |rest| && ShownAs(rules, rest, c2, false, x, y)
    ensures ShownAs(rules, head + rest, c1 + c2, dirty, |head| + x, |head| + y)
  {
    hide LineShown;
    LineShownBehind(rules, head, rest, c1, c2, x, y);
  }

  lemma FinishedBounds(text: string, x: int, y: int)
    requires Finished(text, x, y)
    ensures 0 <= x <= y < |text|
  {
  }

  lemma NoneFinished(text: string)
    requires LineEnd(text) == |text|
    ensures forall x, y :: !Finished(text, x, y)
  {
    hide LineEnd;
    assert text[..|text|] == text;
  }

  lemma FirstFinished(text: string)
    requires LineEnd(text) < |text|
    ensures Finished(text, 0, LineEnd(text)) && '\n' !in text[..LineEnd(text)]
  {
    hide LineEnd;
    var i := LineEnd(text);
    assert forall k | 0 <= k < i :: text[k] == text[..i][k];
  }

  // ----- Calls and runs ------------------------------------------------------------------

  /** The line that `text` ends in starts at z. */
  ghost predicate LastFrom(text: string, z: int) {
    0 <= z <= |text| && (z == 0 || text[z - 1] == '\n') && forall i | z <= i < |text| :: text[i] != '\n'
  }

  lemma {:induction false} TailFrom(text: string)
    ensures |Tail(text)| <= |text| && text[|text| - |Tail(text)|..] == Tail(text)
    ensures LastFrom(text, |text| - |Tail(text)|)
    decreases |text|
  {
    hide LineEnd, Tail;
    TailUnfolds(text);
    var i := LineEnd(text);
    if i == |text| {
      assert text[..|text|] == text;
    } else {
      var rest := text[i + 1..];
      TailFrom(rest);
      assert forall k | i + 1 <= k < |text| :: text[k] == rest[k - i - 1];
    }
  }

  /** A tail that goes out raw: the rest of a line partly written, or one with an escape sequence. */
  predicate GoesRaw(text: string, z: int, dirty: bool)
    requires 0 <= z <= |text|
  {
    z < |text| && ((z == 0 && dirty) || ESC in text[z..])
  }

  predicate GoesAsPrompt(cfg: Config, text: string, z: int, dirty: bool)
    requires 0 <= z <= |text|
  {
    z < |text| && !GoesRaw(text, z, dirty) && cfg.isPrompt(text[z..])
  }

  /** What one push writes: `more`, with the last line of what is in hand starting at z. */
  ghost predicate Writes(cfg: Config, s: State, text: string, s': State, more: seq<Token>, z: int) {
    var cells, dirty := Shown(more, None), s.emittedInLine > 0;
    && LastFrom(text, z) && s'.out == s.out + more && ColourAfter(more, None) == None
    && (forall x, y | Finished(text, x, y) :: ShownAs(cfg.rules, text, cells, dirty, x, y))
    && (if GoesRaw(text, z, dirty) then |cells| == |text| && s'.held == "" && Plain(text, cells, z, |text|)
        else if GoesAsPrompt(cfg, text, z, dirty) then
          |cells| == |text| && s'.held == "" && Coloured(cfg.rules, text, cells, z, |text|)
        else |cells| == z && s'.held == text[z..])
    && (s'.emittedInLine > 0 <==> z < |text| && s'.held == "")
  }

  /**
   One push shows every finished line in its colours with its terminator in the default
   colour, or raw when part of it had gone out before; a prompt at the end in its colours,
   an escape-bearing or partly written line raw; and holds any other rest. The line counts
   as partly written just when its rest was not held.
   */
  lemma PushShows(cfg: Config, s: State, call: Call) returns (more: seq<Token>, z: int)
    requires Usable(cfg) && Inv(cfg, s) && Chunk(call)
    ensures Writes(cfg, s, s.held + call.chunk, Next(cfg, s, call), more, z)
  {
    hide Next, Inv, Completed, Tail, Colorized, RawTokens, Shown, ColourAfter, ShownAs, Coloured, Plain, Finished,
         LastFrom, GoesRaw, GoesAsPrompt;
    var text, dirty := s.held + call.chunk, s.emittedInLine > 0;
    z := |text| - |Tail(text)|;
    TailFrom(text);
    CompletedShown(cfg, text, dirty);
    PushWrites(cfg, s, call, z);
    var done, last := Completed(cfg, text, dirty), LastTokens(cfg, text, z, dirty);
    more := done + last;
    assert s.out + done + last == s.out + more;
    LastShown(cfg, text, z, dirty, done, last);
  }

  /** What follows the finished lines. */
  function LastTokens(cfg: Config, text: string, z: int, dirty: bool): (last: seq<Token>)
    requires Usable(cfg) && 0 <= z <= |text|
  {
    if GoesRaw(text, z, dirty) then RawTokens(text[z..])
    else if GoesAsPrompt(cfg, text, z, dirty) then Colorized(cfg.rules, text[z..]) else []
  }

  lemma PushWrites(cfg: Config, s: State, call: Call, z: int)
    requires Usable(cfg) && Inv(cfg, s) && Chunk(call)
    requires var text := s.held + call.chunk; z == |text| - |Tail(text)| && 0 <= z && text[z..] == Tail(text)
    ensures var s', text, dirty := Next(cfg, s, call), s.held + call.chunk, s.emittedInLine > 0;
            && s'.out == s.out + Completed(cfg, text, dirty) + LastTokens(cfg, text, z, dirty)
            && s'.held == (if GoesRaw(text, z, dirty) || GoesAsPrompt(cfg, text, z, dirty) then "" else text[z..])
            && (s'.emittedInLine > 0 <==> z < |text| && s'.held == "")
  {
    hide Completed, Tail, LineEnd, Colorized, RawTokens;
    var text := s.held + call.chunk;
    CompleteExactly(text);
    assert s.out + Completed(cfg, text, s.emittedInLine > 0) + [] == s.out + Completed(cfg, text, s.emittedInLine > 0);
    assert z < |text| <==> Tail(text) != "";
  }

  lemma CompleteExactly(text: string)
    ensures LineEnd(text) < |text| <==> |Tail(text)| < |text|
  {
    TailUnfolds(text);
    if LineEnd(text) < |text| {
      TailFrom(text[LineEnd(text) + 1..]);
    }
    hide Tail;
  }

  lemma LastShown(cfg: Config, text: string, z: int, dirty: bool, done: seq<Token>, last: seq<Token>)
    requires Usable(cfg) && LastFrom(text, z) && |Shown(done, None)| == z && ColourAfter(done, None) == None
    requires forall x, y | Finished(text, x, y) :: ShownAs(cfg.rules, text, Shown(done, None), dirty, x, y)
    requires last == LastTokens(cfg, text, z, dirty)
    ensures var cells := Shown(done + last, None);
            && ColourAfter(done + last, None) == None && |cells| == z + |Shown(last, None)|
            && (forall x, y | Finished(text, x, y) :: ShownAs(cfg.rules, text, cells, dirty, x, y))
            && (GoesRaw(text, z, dirty) ==> |cells| == |text| && Plain(text, cells, z, |text|))
            && (GoesAsPrompt(cfg, text, z, dirty) ==> |cells| == |text| && Coloured(cfg.rules, text, cells, z, |text|))
            && (!GoesRaw(text, z, dirty) && !GoesAsPrompt(cfg, text, z, dirty) ==> |cells| == z)
  {
    hide Shown, ColourAfter, ShownAs, Coloured, Plain, Finished, Colorized, RawTokens, GoesRaw;
    var head, tail := text[..z], text[z..];
    var c1, c2 := Shown(done, None), Shown(last, None);
    ShownAppend(done, last, None);
    assert head + tail == text;
    NothingShown(None);
    if GoesRaw(text, z, dirty) {
      RawShown(tail);
      PlainBehind(head, tail, c1, c2, 0, |tail|);
    } else if GoesAsPrompt(cfg, text, z, dirty) {
      BodyShown(cfg.rules, tail);
      ColouredBehind(cfg.rules, head, tail, c1, c2, 0, |tail|);
    }
    forall x, y | Finished(text, x, y)
      ensures 0 <= x <= y < |text| && ShownAs(cfg.rules, text, c1 + c2, dirty, x, y)
    {
      FinishedBounds(text, x, y);
      MoreShown(cfg.rules, text, c1, c2, dirty, x, y);
    }
  }

  /** Later cells do not change what is shown of a line. */
  lemma MoreShown(rules: Rules, text: string, c1: Cells, c2: Cells, dirty: bool, x: int, y: int)
    requires 0 <= x <= y < |text| && ShownAs(rules, text, c1, dirty, x, y)
    ensures ShownAs(rules, text, c1 + c2, dirty, x, y)
  {
    hide Coloured, Plain;
    assert text + "" == text;
    var e := BodyEnd(text, x, y);
    if x == 0 && dirty {
      PlainBefore(text, "", c1, c2, 0, y + 1);
    } else {
      ColouredBefore(rules, text, "", c1, c2, x, e);
      PlainBefore(text, "", c1, c2, e, y + 1);
    }
  }

  /** What the other calls do to the mark that the line is partly written. */
  lemma OthersMark(cfg: Config, s: State, call: Call)
    requires Usable(cfg) && !call.Push?
    ensures Next(cfg, s, call).emittedInLine > 0 <==>
              match call
              case Reset => false
              case TimerFires => s.emittedInLine > 0 || (s.timer.Some? && s.held != "")
              case FlushHeld => s.emittedInLine > 0 || s.held != ""
              case NoteInput(data) => s.emittedInLine > 0 || s.held != ""
                                      || exists i :: 0 <= i < |data| && data[i] != '\r' && data[i] != '\n'
              case Push(_, _, _, _) => false
  {
    hide Colorized, RawTokens;
  }

  /**
   Pushes alone, cut so that no boundary leaves a prompt or an escape sequence at the
   end: every finished line of all the input is shown in its colours, its terminator in
   the default colour, whatever the cuts.
   */
  lemma RunShows(cfg: Config, calls: seq<Call>)
    requires Usable(cfg) && forall i | 0 <= i < |calls| :: calls[i].Push?
    requires forall k | 0 <= k <= |calls| :: Waits(cfg, Tail(Fed(calls[..k])))
    ensures var s, text := Run(cfg, Initial, calls), Fed(calls);
            && LastFrom(text, |Shown(s.out, None)|) && s.held == text[|Shown(s.out, None)|..]
            && ColourAfter(s.out, None) == None
            && forall x, y | Finished(text, x, y) :: LineShown(cfg.rules, text, Shown(s.out, None), x, y)
  {
    hide Completed, Run, Tail, Fed, Shown, ColourAfter, LineShown, Finished;
    RefinesWholeLines(cfg, calls);
    CompletedShown(cfg, Fed(calls), false);
    TailFrom(Fed(calls));
  }

  // ----- The text as a terminal reads it ---------------------------------------------------

  /** The end of the digits of `s` from i on. */
  function DigitsEnd(s: string, i: nat): (e: nat)
    requires i <= |s|
    ensures i <= e <= |s| && (forall k | i <= k < e :: IsDigit(s[k])) && (e < |s| ==> !IsDigit(s[e]))
    decreases |s| - i
  {
    if i < |s| && IsDigit(s[i]) then DigitsEnd(s, i + 1) else i
  }

  /** A number from i on that ends in `end`, and the place behind that. */
  function NumberAt(s: string, i: nat, end: char): (r: Option<(nat, nat)>)
    requires i <= |s|
    ensures r.Some? ==> i < r.value.1 <= |s|
  {
    var e := DigitsEnd(s, i);
    if e < |s| && s[e] == end then Some((Value(s[i..e]), e + 1)) else None
  }

  /** CSI 39 m, or CSI 38 ; 2 ; r ; g ; b m: the colour it selects and its length. */
  function SgrAt(s: string): (r: Option<(Colour, nat)>)
    ensures r.Some? ==> 0 < r.value.1 <= |s|
  {
    if |s| >= 5 && s[..5] == [ESC, '[', '3', '9', 'm'] then Some((None, 5))
    else if |s| >= 7 && s[..7] == [ESC, '[', '3', '8', ';', '2', ';'] then
      var r := NumberAt(s, 7, ';');
      if r.None? then None
      else
        var g := NumberAt(s, r.value.1, ';');
        if g.None? then None
        else
          var b := NumberAt(s, g.value.1, 'm');
          if b.None? then None else Some((Some((r.value.0, g.value.0, b.value.0)), b.value.1))
    else None
  }

  /** The cells a terminal fills that starts in colour `now`. */
  function Terminal(s: string, now: Colour): (cells: Cells)
    decreases |s|
  {
    if s == "" then []
    else if SgrAt(s).Some? then Terminal(s[SgrAt(s).value.1..], SgrAt(s).value.0)
    else [(s[0], now)] + Terminal(s[1..], now)
  }

  /** The text written for an escape-free input is read by a terminal as the cells the tokens say. */
  lemma {:induction false} TerminalReads(tokens: seq<Token>, now: Colour)
    requires ESC !in Erase(tokens)
    ensures Terminal(Text(tokens), now) == Shown(tokens, now)
  {
    hide SgrText, SgrAt, Text, Erase, Shown, Terminal;
    if tokens == [] {
      NothingRead(now);
    } else {
      var t, rest := tokens[0], tokens[1..];
      assert tokens == [t] + rest;
      TextCons(t, rest);
      EraseCons(t, rest);
      ShownCons(t, rest, now);
      var next := if t.Raw? then now else t.colour;
      assert forall c | c in Erase(rest) :: c in Erase(tokens);
      TerminalReads(rest, next);
      if t.Raw? {
        assert Erase(tokens)[0] == t.c;
        RawRead(t.c, Text(rest), now);
      } else {
        SgrRead(t.colour, Text(rest), now);
      }
    }
  }

  lemma NothingRead(now: Colour)
    ensures Terminal(Text([]), now) == Shown([], now)
  {
  }

  lemma RawRead(c: char, rest: string, now: Colour)
    requires c != ESC
    ensures Terminal([c] + rest, now) == [(c, now)] + Terminal(rest, now)
  {
    var s := [c] + rest;
    assert s[1..] == rest && s[0] == c;
    assert |s| >= 5 ==> s[..5][0] == c;
    assert |s| >= 7 ==> s[..7][0] == c;
  }

  lemma SgrRead(colour: Colour, rest: string, now: Colour)
    ensures Terminal(SgrText(colour) + rest, now) == Terminal(rest, colour)
  {
    hide SgrAt, SgrText;
    var s := SgrText(colour) + rest;
    SgrIs(colour, rest);
    assert s[|SgrText(colour)|..] == rest;
  }

  lemma SgrIs(colour: Colour, rest: string)
    ensures SgrAt(SgrText(colour) + rest) == Some((colour, |SgrText(colour)|))
  {
    if colour.None? {
      ResetIs(rest);
    } else {
      ColourIs(colour.value.0, colour.value.1, colour.value.2, rest);
    }
    hide SgrAt, SgrText;
  }

  lemma ResetIs(rest: string)
    ensures SgrAt(SgrText(None) + rest) == Some((None, |SgrText(None)|))
  {
    var s := SgrText(None) + rest;
    assert s[..5] == [ESC, '[', '3', '9', 'm'];
    hide NumberAt;
  }

  lemma ColourIs(r: nat, g: nat, b: nat, rest: string)
    ensures SgrAt(SgrText(Some((r, g, b))) + rest) == Some((Some((r, g, b)), |SgrText(Some((r, g, b)))|))
  {
    hide Itoa, SgrAt, SgrText;
    var sr, sg, sb := Itoa(r), Itoa(g), Itoa(b);
    var i, j := 7 + |sr| + 1, 7 + |sr| + 1 + |sg| + 1;
    SgrParts(sr, sg, sb, rest);
    SgrTextIs(r, g, b);
    hide SgrForm;
    var t := SgrForm(sr, sg, sb) + rest;
    NumberRead(t, 7, r, ';');
    NumberRead(t, i, g, ';');
    NumberRead(t, j, b, 'm');
    hide NumberAt;
    SgrFound(t, i, j, j + |sb| + 1);
  }

  function SgrForm(r: string, g: string, b: string): (s: string) {
    [ESC, '[', '3', '8', ';', '2', ';'] + r + ";" + g + ";" + b + "m"
  }

  lemma SgrTextIs(r: nat, g: nat, b: nat)
    ensures SgrText(Some((r, g, b))) == SgrForm(Itoa(r), Itoa(g), Itoa(b))
    ensures |SgrForm(Itoa(r), Itoa(g), Itoa(b))| == 7 + |Itoa(r)| + 1 + |Itoa(g)| + 1 + |Itoa(b)| + 1
  {
    hide Itoa;
    assert [ESC] + "[38;2;" == [ESC, '[', '3', '8', ';', '2', ';'];
  }

  lemma SgrParts(r: string, g: string, b: string, rest: string)
    ensures var t, i, j := SgrForm(r, g, b) + rest, 7 + |r| + 1, 7 + |r| + 1 + |g| + 1;
            && |t| == j + |b| + 1 + |rest| && t[..7] == [ESC, '[', '3', '8', ';', '2', ';']
            && t[..5] != [ESC, '[', '3', '9', 'm']
            && t[7..7 + |r|] == r && t[i - 1] == ';' && t[i..i + |g|] == g && t[j - 1] == ';'
            && t[j..j + |b|] == b && t[j + |b|] == 'm'
  {
    var t := SgrForm(r, g, b) + rest;
    assert t[..5][3] == t[3] == '8';
  }

  lemma NumberRead(t: string, i: nat, n: nat, end: char)
    requires i + |Itoa(n)| < |t| && t[i..i + |Itoa(n)|] == Itoa(n) && t[i + |Itoa(n)|] == end && !IsDigit(end)
    ensures NumberAt(t, i, end) == Some((n, i + |Itoa(n)| + 1))
  {
    var e := i + |Itoa(n)|;
    ValueOfItoa(n);
    hide Itoa, DigitsEnd;
    forall k | i <= k < e ensures IsDigit(t[k]) {
      assert t[k] == Itoa(n)[k - i];
    }
    assert DigitsEnd(t, i) == e;
  }

  lemma SgrFound(t: string, i: nat, j: nat, n: nat)
    requires |t| >= 7 && t[..7] == [ESC, '[', '3', '8', ';', '2', ';'] && t[..5] != [ESC, '[', '3', '9', 'm']
    requires NumberAt(t, 7, ';').Some? && NumberAt(t, 7, ';').value.1 == i
    requires NumberAt(t, i, ';').Some? && NumberAt(t, i, ';').value.1 == j
    requires NumberAt(t, j, 'm').Some? && NumberAt(t, j, 'm').value.1 == n
    ensures SgrAt(t) == Some((Some((NumberAt(t, 7, ';').value.0, NumberAt(t, i, ';').value.0,
                                    NumberAt(t, j, 'm').value.0)), n))
  {
    hide NumberAt;
  }
}
