/**
 Colouring one complete console line (`colorizeLine`,
 app/src/lib/consoleColorizer.ts). The fifty regular expressions are match
 oracles: all that is asked of them is that a match found from `lastIndex` lies
 at or behind it and inside the line.
 */
module LineColors {
  import opened Wrappers
  import opened Decimal

  const ESC: char := '\U{1B}'

  /** A non-empty or zero-width match, [a, b) in the line. */
  datatype Match = Match(a: nat, b: nat)

  datatype Rule = Rule(exec: (string, nat) -> Option<Match>, r: nat, g: nat, b: nat)

  ghost predicate RespectsLastIndex(rule: Rule, line: string) {
    forall li: nat | li <= |line| ::
      rule.exec(line, li).Some? ==>
        li <= rule.exec(line, li).value.a <= rule.exec(line, li).value.b <= |line|
  }

  type Rules = seq<Rule>

  ghost predicate AllRespect(rules: Rules, line: string) {
    forall i | 0 <= i < |rules| :: RespectsLastIndex(rules[i], line)
  }

  predicate IsWordChar(c: char) {
    '0' <= c <= '9' || 'A' <= c <= 'Z' || 'a' <= c <= 'z' || c == '_'
  }

  /** A match counts when it is not empty and neither end splits a word. */
  predicate Accepted(line: string, m: Match)
    requires m.a <= m.b <= |line|
  {
    && m.a < m.b
    && !(m.a > 0 && IsWordChar(line[m.a - 1]) && IsWordChar(line[m.a]))
    && !(m.b < |line| && IsWordChar(line[m.b]) && IsWordChar(line[m.b - 1]))
  }

  /** Whether a scan of `rule` from `li` meets an accepted match covering character k. */
  predicate CoversFrom(rule: Rule, line: string, li: nat, k: nat)
    requires RespectsLastIndex(rule, line)
    decreases |line| + 1 - li
  {
    if li > |line| then false
    else
      match rule.exec(line, li)
      case None => false
      case Some(m) =>
        || (Accepted(line, m) && m.a <= k < m.b)
        || CoversFrom(rule, line, if m.a == m.b then m.b + 1 else m.b, k)
  }

  predicate Covers(rules: Rules, line: string, ri: nat, k: nat)
    requires AllRespect(rules, line) && ri < |rules|
  {
    CoversFrom(rules[ri], line, 0, k)
  }

  /** `owner` is the least covering rule of character k, or -1 when there is none. */
  ghost predicate IsOwner(rules: Rules, line: string, k: nat, owner: int)
    requires AllRespect(rules, line)
  {
    if owner == -1 then forall ri | 0 <= ri < |rules| :: !Covers(rules, line, ri, k)
    else
      && 0 <= owner < |rules| && Covers(rules, line, owner, k)
      && forall ri | 0 <= ri < owner :: !Covers(rules, line, ri, k)
  }

  /** The owner array after every rule has claimed what is still free. */
  method Owners(rules: Rules, line: string) returns (owner: array<int>)
    requires AllRespect(rules, line)
    ensures fresh(owner) && owner.Length == |line|
    ensures forall k | 0 <= k < |line| :: IsOwner(rules, line, k, owner[k])
  {
    var n := |line|;
    owner := new int[n](_ => -1);
    for ri := 0 to |rules|
      invariant forall k | 0 <= k < n :: IsOwner(rules[..ri], line, k, owner[k])
    {
      ghost var before := owner[..];
      ScanRule(rules[ri], ri, line, owner);
      forall k | 0 <= k < n
        ensures IsOwner(rules[..ri + 1], line, k, owner[k])
      {
        OneMoreRule(rules, line, ri, k, before[k], owner[k]);
      }
    }
    assert rules[..|rules|] == rules;
  }

  lemma OneMoreRule(rules: Rules, line: string, ri: nat, k: nat, before: int, after: int)
    requires AllRespect(rules, line) && ri < |rules| && IsOwner(rules[..ri], line, k, before)
    requires after == if before == -1 && CoversFrom(rules[ri], line, 0, k) then ri else before
    ensures IsOwner(rules[..ri + 1], line, k, after)
  {
    var some, more := rules[..ri], rules[..ri + 1];
    assert forall i | 0 <= i < ri :: more[i] == some[i];
    assert more[ri] == rules[ri];
    assert forall i | 0 <= i < ri :: Covers(more, line, i, k) == Covers(some, line, i, k);
    assert Covers(more, line, ri, k) == CoversFrom(rules[ri], line, 0, k);
    if after == -1 {
      assert forall i | 0 <= i < ri :: !Covers(some, line, i, k);
    }
  }

  /** Claim for rule `ri` every free character its scan covers. */
  method ScanRule(rule: Rule, ri: nat, line: string, owner: array<int>)
    requires RespectsLastIndex(rule, line) && owner.Length == |line|
    modifies owner
    ensures forall k | 0 <= k < |line| ::
              owner[k] == if old(owner[k]) == -1 && CoversFrom(rule, line, 0, k) then ri else old(owner[k])
  {
    var n := |line|;
    var lastIndex := 0;
    while true
      invariant 0 <= lastIndex <= n + 1
      invariant forall k | 0 <= k < n ::
                  && (owner[k] == old(owner[k]) || (owner[k] == ri && old(owner[k]) == -1))
                  && ((old(owner[k]) == -1 && CoversFrom(rule, line, 0, k))
                       <==> (old(owner[k]) == -1 && (owner[k] == ri || CoversFrom(rule, line, lastIndex, k))))
      decreases n + 1 - lastIndex
    {
      var m := if lastIndex > n then None else rule.exec(line, lastIndex);
      if m.None? {
        return;
      }
      var a, b := m.value.a, m.value.b;
      if b == a {
        lastIndex := b + 1;
        continue;
      }
      lastIndex := b;
      if a > 0 && IsWordChar(line[a - 1]) && IsWordChar(line[a]) {
        continue;
      }
      if b < n && IsWordChar(line[b]) && IsWordChar(line[b - 1]) {
        continue;
      }
      Claim(owner, a, b, ri);
    }
  }

  method Claim(owner: array<int>, a: nat, b: nat, ri: nat)
    requires a <= b <= owner.Length
    modifies owner
    ensures forall k | 0 <= k < owner.Length ::
              owner[k] == if a <= k < b && old(owner[k]) == -1 then ri else old(owner[k])
  {
    for k := a to b
      invariant forall j | 0 <= j < owner.Length ::
                  owner[j] == if a <= j < k && old(owner[j]) == -1 then ri else old(owner[j])
    {
      if owner[k] == -1 {
        owner[k] := ri;
      }
    }
  }

  // ----- The output -----------------------------------------------------------

  type Colour = Option<(nat, nat, nat)>

  /** One piece of output: a character of the input, or an inserted colour change (None resets). */
  datatype Token = Raw(c: char) | Sgr(colour: Colour)

  function SgrText(colour: Colour): (s: string)
    ensures |s| >= 2 && s[0] == ESC
  {
    match colour
    case None => [ESC] + "[39m"
    case Some((r, g, b)) => [ESC] + "[38;2;" + Itoa(r) + ";" + Itoa(g) + ";" + Itoa(b) + "m"
  }

  /** The characters written for `tokens`. */
  function Text(tokens: seq<Token>): (s: string) {
    if tokens == [] then ""
    else (if tokens[0].Raw? then [tokens[0].c] else SgrText(tokens[0].colour)) + Text(tokens[1..])
  }

  /** The input characters among `tokens`. */
  function Erase(tokens: seq<Token>): (s: string) {
    if tokens == [] then ""
    else (if tokens[0].Raw? then [tokens[0].c] else "") + Erase(tokens[1..])
  }

  /** What a terminal in colour `now` shows: each character with the colour it appears in. */
  function Shown(tokens: seq<Token>, now: Colour): (cells: seq<(char, Colour)>) {
    if tokens == [] then []
    else if tokens[0].Raw? then [(tokens[0].c, now)] + Shown(tokens[1..], now)
    else Shown(tokens[1..], tokens[0].colour)
  }

  /** The colour a terminal is left in. */
  function ColourAfter(tokens: seq<Token>, now: Colour): (c: Colour) {
    if tokens == [] then now
    else ColourAfter(tokens[1..], if tokens[0].Raw? then now else tokens[0].colour)
  }

  function RawTokens(s: string): (tokens: seq<Token>)
    ensures |tokens| == |s|
  {
    seq(|s|, i requires 0 <= i < |s| => Raw(s[i]))
  }

  function ColourOf(rules: Rules, owner: int): (c: Colour)
    requires -1 <= owner < |rules|
  {
    if owner == -1 then None else Some((rules[owner].r, rules[owner].g, rules[owner].b))
  }

  /** The colour changes in front of a character owned by `next` while `cur` is in force. */
  function Change(rules: Rules, cur: int, next: int): (tokens: seq<Token>)
    requires -1 <= cur < |rules| && -1 <= next < |rules|
  {
    if next == cur then []
    else (if cur != -1 then [Sgr(None)] else []) + (if next != -1 then [Sgr(ColourOf(rules, next))] else [])
  }

  predicate OwnersOf(rules: Rules, line: string, owner: seq<int>) {
    |owner| == |line| && forall k | 0 <= k < |owner| :: -1 <= owner[k] < |rules|
  }

  function Runs(rules: Rules, line: string, owner: seq<int>, k: nat, cur: int): (tokens: seq<Token>)
    requires OwnersOf(rules, line, owner) && k <= |line| && -1 <= cur < |rules|
    decreases |line| - k
  {
    if k == |line| then Change(rules, cur, -1)
    else Change(rules, cur, owner[k]) + [Raw(line[k])] + Runs(rules, line, owner, k + 1, owner[k])
  }

  function LeastOwner(rules: Rules, line: string, k: nat, ri: nat): (owner: int)
    requires AllRespect(rules, line) && ri <= |rules|
    requires forall i | 0 <= i < ri :: !Covers(rules, line, i, k)
    ensures IsOwner(rules, line, k, owner)
    decreases |rules| - ri
  {
    if ri == |rules| then -1
    else if Covers(rules, line, ri, k) then ri
    else LeastOwner(rules, line, k, ri + 1)
  }

  lemma OwnerUnique(rules: Rules, line: string, k: nat, o: int, o': int)
    requires AllRespect(rules, line) && IsOwner(rules, line, k, o) && IsOwner(rules, line, k, o')
    ensures o == o'
  {
  }

  function OwnerSeq(rules: Rules, line: string): (owner: seq<int>)
    requires AllRespect(rules, line)
    ensures OwnersOf(rules, line, owner)
    ensures forall k | 0 <= k < |line| :: IsOwner(rules, line, k, owner[k])
  {
    seq(|line|, k requires 0 <= k < |line| => LeastOwner(rules, line, k, 0))
  }

  /** Empty, over-long and ESC-bearing lines are passed through. */
  predicate PassedThrough(line: string) {
    ESC in line || line == "" || |line| > 1000
  }

  function Colorized(rules: Rules, line: string): (tokens: seq<Token>)
    requires AllRespect(rules, line)
  {
    if PassedThrough(line) then RawTokens(line)
    else Runs(rules, line, OwnerSeq(rules, line), 0, -1)
  }

  method ColorizeLine(rules: Rules, line: string) returns (out: string)
    requires AllRespect(rules, line)
    ensures out == Text(Colorized(rules, line))
  {
    if ESC in line {
      RawText(line);
      return line;
    }
    var n := |line|;
    if n == 0 || n > 1000 {
      RawText(line);
      return line;
    }
    var owner := Owners(rules, line);
    ghost var os := OwnerSeq(rules, line);
    forall k | 0 <= k < n
      ensures owner[k] == os[k]
    {
      OwnerUnique(rules, line, k, owner[k], os[k]);
    }

    assert owner[..] == os;
    out := PaintRuns(rules, line, owner);
  }

  /** Emit the line with a colour change wherever the owner changes. */
  method PaintRuns(rules: Rules, line: string, owner: array<int>) returns (out: string)
    requires OwnersOf(rules, line, owner[..])
    ensures out == Text(Runs(rules, line, owner[..], 0, -1))
  {
    hide SgrText, Text, Change;
    ghost var os := owner[..];
    var n := |line|;
    out := "";
    var cur := -1;
    assert [] + Text(Runs(rules, line, os, 0, cur)) == Text(Runs(rules, line, os, 0, cur));
    for k := 0 to n
      invariant -1 <= cur < |rules|
      invariant out + Text(Runs(rules, line, os, k, cur)) == Text(Runs(rules, line, os, 0, -1))
    {
      ghost var before, was := out, cur;
      if owner[k] != cur {
        if cur != -1 {
          out := out + SgrText(None);
        }
        cur := owner[k];
        if cur != -1 {
          out := out + SgrText(ColourOf(rules, cur));
        }
      }
      assert out == before + Text(Change(rules, was, cur)) by { TextOfChange(rules, was, cur); }
      out := out + [line[k]];
      OneCharacter(rules, line, os, k, was, before);
    }
    TextOfChange(rules, cur, -1);
    if cur != -1 {
      out := out + SgrText(None);
    }
  }

  // ----- What the output means -------------------------------------------------

  lemma {:induction false} TextAppend(a: seq<Token>, b: seq<Token>)
    ensures Text(a + b) == Text(a) + Text(b)
  {
    hide Text;
    if a == [] {
      assert a + b == b;
      TextCons(Raw(ESC), []);
    } else {
      var t, rest := a[0], a[1..];
      TextAppend(rest, b);
      TextCons(t, rest);
      TextCons(t, rest + b);
      assert a == [t] + rest && a + b == [t] + (rest + b);
    }
  }

  lemma TextCons(t: Token, rest: seq<Token>)
    ensures Text([t] + rest) == (if t.Raw? then [t.c] else SgrText(t.colour)) + Text(rest) && Text([]) == ""
  {
    assert ([t] + rest)[1..] == rest;
  }

  lemma {:induction false} EraseAppend(a: seq<Token>, b: seq<Token>)
    ensures Erase(a + b) == Erase(a) + Erase(b)
  {
    hide Erase;
    if a == [] {
      assert a + b == b;
      EraseCons(Raw(ESC), []);
    } else {
      var t, rest := a[0], a[1..];
      EraseAppend(rest, b);
      EraseCons(t, rest);
      EraseCons(t, rest + b);
      assert a == [t] + rest && a + b == [t] + (rest + b);
    }
  }

  lemma EraseCons(t: Token, rest: seq<Token>)
    ensures Erase([t] + rest) == (if t.Raw? then [t.c] else "") + Erase(rest) && Erase([]) == ""
  {
    assert ([t] + rest)[1..] == rest;
  }

  lemma TextOfChange(rules: Rules, cur: int, next: int)
    requires -1 <= cur < |rules| && -1 <= next < |rules|
    ensures Text(Change(rules, cur, next)) ==
            if next == cur then ""
            else (if cur != -1 then SgrText(None) else "") + (if next != -1 then SgrText(ColourOf(rules, next)) else "")
  {
    var first := if cur != -1 then [Sgr(None)] else [];
    var second := if next != -1 then [Sgr(ColourOf(rules, next))] else [];
    TextAppend(first, second);
    assert first[|first|..] == [] && second[|second|..] == [];
  }

  lemma EraseChange(rules: Rules, cur: int, next: int)
    requires -1 <= cur < |rules| && -1 <= next < |rules|
    ensures Erase(Change(rules, cur, next)) == ""
  {
    var first := if cur != -1 then [Sgr(None)] else [];
    var second := if next != -1 then [Sgr(ColourOf(rules, next))] else [];
    EraseAppend(first, second);
    assert first[|first|..] == [] && second[|second|..] == [];
  }

  lemma TextOfRun(change: seq<Token>, raw: Token, rest: seq<Token>)
    requires raw.Raw?
    ensures Text(change + [raw] + rest) == Text(change) + [raw.c] + Text(rest)
  {
    TextAppend(change + [raw], rest);
    TextAppend(change, [raw]);
    assert Text([raw]) == [raw.c] + Text([raw][1..]) == [raw.c];
  }

  /** Writing a character and its colour change leaves the rest of the run to be written. */
  lemma OneCharacter(rules: Rules, line: string, os: seq<int>, k: nat, cur: int, out: string)
    requires OwnersOf(rules, line, os) && k < |line| && -1 <= cur < |rules|
    ensures out + Text(Change(rules, cur, os[k])) + [line[k]] + Text(Runs(rules, line, os, k + 1, os[k]))
         == out + Text(Runs(rules, line, os, k, cur))
  {
    hide Text, Change;
    var change, rest := Change(rules, cur, os[k]), Runs(rules, line, os, k + 1, os[k]);
    assert Runs(rules, line, os, k, cur) == change + [Raw(line[k])] + rest;
    hide Runs;
    TextOfRun(change, Raw(line[k]), rest);
    assert out + (Text(change) + [line[k]] + Text(rest)) == out + Text(change) + [line[k]] + Text(rest);
  }

  lemma {:induction false} RawText(s: string)
    ensures Text(RawTokens(s)) == s && Erase(RawTokens(s)) == s
  {
    if s != "" {
      assert RawTokens(s)[1..] == RawTokens(s[1..]);
      RawText(s[1..]);
    }
  }

  /** Colouring neither loses, reorders nor invents a character of the line. */
  lemma ErasedIsLine(rules: Rules, line: string)
    requires AllRespect(rules, line)
    ensures Erase(Colorized(rules, line)) == line
  {
    if PassedThrough(line) {
      RawText(line);
    } else {
      ErasedRuns(rules, line, OwnerSeq(rules, line), 0, -1);
    }
  }

  lemma {:induction false} ErasedRuns(rules: Rules, line: string, owner: seq<int>, k: nat, cur: int)
    requires OwnersOf(rules, line, owner) && k <= |line| && -1 <= cur < |rules|
    ensures Erase(Runs(rules, line, owner, k, cur)) == line[k..]
    decreases |line| - k
  {
    if k < |line| {
      var change := Change(rules, cur, owner[k]);
      EraseChange(rules, cur, owner[k]);
      EraseAppend(change + [Raw(line[k])], Runs(rules, line, owner, k + 1, owner[k]));
      EraseAppend(change, [Raw(line[k])]);
      ErasedRuns(rules, line, owner, k + 1, owner[k]);
    }
  }

  /** Every character appears in the colour of its owner, and the colour is reset at the end. */
  lemma ShownInOwnersColour(rules: Rules, line: string)
    requires AllRespect(rules, line) && !PassedThrough(line)
    ensures var cells := Shown(Colorized(rules, line), None);
            |cells| == |line| && forall k | 0 <= k < |line| ::
              cells[k] == (line[k], ColourOf(rules, OwnerSeq(rules, line)[k]))
    ensures ColourAfter(Colorized(rules, line), None) == None
  {
    ShownRuns(rules, line, OwnerSeq(rules, line), 0, -1);
  }

  function Cells(rules: Rules, line: string, owner: seq<int>, k: nat): (cells: seq<(char, Colour)>)
    requires OwnersOf(rules, line, owner) && k <= |line|
    ensures |cells| == |line| - k
    ensures forall i | 0 <= i < |cells| :: cells[i] == (line[k + i], ColourOf(rules, owner[k + i]))
    decreases |line| - k
  {
    if k == |line| then [] else [(line[k], ColourOf(rules, owner[k]))] + Cells(rules, line, owner, k + 1)
  }

  lemma {:induction false} ShownRuns(rules: Rules, line: string, owner: seq<int>, k: nat, cur: int)
    requires OwnersOf(rules, line, owner) && k <= |line| && -1 <= cur < |rules|
    ensures Shown(Runs(rules, line, owner, k, cur), ColourOf(rules, cur)) == Cells(rules, line, owner, k)
    ensures ColourAfter(Runs(rules, line, owner, k, cur), ColourOf(rules, cur)) == None
    decreases |line| - k
  {
    hide Change, Runs, Cells, Shown, ColourAfter;
    RunsUnfold(rules, line, owner, k, cur);
    if k < |line| {
      var rest := Runs(rules, line, owner, k + 1, owner[k]);
      ShownRuns(rules, line, owner, k + 1, owner[k]);
      ShownChange(rules, cur, owner[k], [Raw(line[k])] + rest);
      ShownRaw(line[k], rest, ColourOf(rules, owner[k]));
    } else {
      ShownChange(rules, cur, -1, []);
      ShownNothing();
    }
  }

  lemma RunsUnfold(rules: Rules, line: string, owner: seq<int>, k: nat, cur: int)
    requires OwnersOf(rules, line, owner) && k <= |line| && -1 <= cur < |rules|
    ensures if k == |line| then
              Runs(rules, line, owner, k, cur) == Change(rules, cur, -1) + [] && Cells(rules, line, owner, k) == []
            else
              && Runs(rules, line, owner, k, cur)
                 == Change(rules, cur, owner[k]) + ([Raw(line[k])] + Runs(rules, line, owner, k + 1, owner[k]))
              && Cells(rules, line, owner, k)
                 == [(line[k], ColourOf(rules, owner[k]))] + Cells(rules, line, owner, k + 1)
  {
    hide Change, ColourOf;
    assert Change(rules, cur, -1) + [] == Change(rules, cur, -1);
  }

  lemma ShownNothing()
    ensures forall now :: Shown([], now) == [] && ColourAfter([], now) == now
    ensures forall rules :: ColourOf(rules, -1) == None
  {
  }

  lemma ShownRaw(c: char, rest: seq<Token>, now: Colour)
    ensures Shown([Raw(c)] + rest, now) == [(c, now)] + Shown(rest, now)
    ensures ColourAfter([Raw(c)] + rest, now) == ColourAfter(rest, now)
  {
    assert ([Raw(c)] + rest)[1..] == rest;
  }

  lemma ShownChange(rules: Rules, cur: int, next: int, rest: seq<Token>)
    requires -1 <= cur < |rules| && -1 <= next < |rules|
    ensures Shown(Change(rules, cur, next) + rest, ColourOf(rules, cur)) == Shown(rest, ColourOf(rules, next))
    ensures ColourAfter(Change(rules, cur, next) + rest, ColourOf(rules, cur))
         == ColourAfter(rest, ColourOf(rules, next))
  {
    var change := Change(rules, cur, next);
    if |change| == 0 {
      assert change + rest == rest;
    } else if |change| == 1 {
      assert (change + rest)[1..] == rest;
    } else {
      assert (change + rest)[1..][1..] == rest;
    }
  }

  // ----- Erasing by looking at the text alone -----------------------------------

  /** `s` behind its first 'm'. */
  function BehindM(s: string): (t: string)
    ensures s != "" ==> |t| < |s|
  {
    if s == "" then "" else if s[0] == 'm' then s[1..] else BehindM(s[1..])
  }

  /** Remove every ESC sequence up to its final 'm'. */
  function StripSgr(s: string): (t: string)
    decreases |s|
  {
    if s == "" then ""
    else if s[0] == ESC then StripSgr(BehindM(s))
    else [s[0]] + StripSgr(s[1..])
  }

  lemma {:induction false} BehindFirstM(a: string, b: string)
    requires 'm' !in a
    ensures BehindM(a + "m" + b) == b
  {
    var s := a + "m" + b;
    if a == "" {
      assert s[1..] == b;
    } else {
      assert s[1..] == a[1..] + "m" + b;
      BehindFirstM(a[1..], b);
    }
  }

  lemma SgrHasOneM(colour: Colour)
    ensures var s := SgrText(colour); s[|s| - 1..] == "m" && 'm' !in s[..|s| - 1]
  {
    match colour
    case None => assert SgrText(colour)[..4] == [ESC] + "[39";
    case Some((r, g, b)) =>
      var s := SgrText(colour);
      assert s[..|s| - 1] == [ESC] + "[38;2;" + Itoa(r) + ";" + Itoa(g) + ";" + Itoa(b);
      forall n: nat
        ensures 'm' !in Itoa(n)
      {
      }
  }

  lemma {:induction false} StripText(tokens: seq<Token>)
    requires ESC !in Erase(tokens)
    ensures StripSgr(Text(tokens)) == Erase(tokens)
  {
    if tokens != [] {
      var rest := tokens[1..];
      assert Erase(tokens) == (if tokens[0].Raw? then [tokens[0].c] else "") + Erase(rest);
      StripText(rest);
      if tokens[0].Raw? {
        assert Text(tokens)[1..] == Text(rest);
      } else {
        StripOne(tokens[0].colour, Text(rest));
      }
    }
  }

  lemma StripOne(colour: Colour, rest: string)
    ensures StripSgr(SgrText(colour) + rest) == StripSgr(rest)
  {
    var s := SgrText(colour);
    SgrHasOneM(colour);
    BehindFirstM(s[..|s| - 1], rest);
    assert s[..|s| - 1] + "m" + rest == s + rest;
    assert (s + rest)[0] == ESC;
  }

  /** Deleting the escape sequences from a coloured line that had none gives the line back. */
  lemma StrippedIsLine(rules: Rules, line: string)
    requires AllRespect(rules, line) && ESC !in line
    ensures StripSgr(Text(Colorized(rules, line))) == line
  {
    ErasedIsLine(rules, line);
    StripText(Colorized(rules, line));
  }
}
