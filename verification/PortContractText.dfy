/**
 The port contract as its users meet it: what is asked for and what is complained
 of, the very text printed, and which texts are read alike or refused.
 */
module PortContractText {
  import opened Wrappers
  import opened Decimal
  import opened Text
  import opened PortContract
  import opened PortContractProofs

  // ----- Asking -------------------------------------------------------------------------------

  /** The three arguments are GUI, console and capture port; zero asks for 4001, 9000 and 5500. */
  lemma AskedFor(gui: int, console: int, capture: int)
    ensures var p := Contract(if gui == 0 then 4001 else gui, if console == 0 then 9000 else console,
                              if capture == 0 then 5500 else capture);
            var ports, r := Required(p), NewContract(gui, console, capture);
            && (r.Ok? <==> Distinct(ports) && (forall i | 0 <= i < |ports| :: 1 <= ports[i] <= 65535) && p.gui != 4000)
            && (r.Ok? ==> r.value == p)
            && (r.Err? ==> Grievance(ports, r.error))
  {
    var p := Contract(if gui == 0 then 4001 else gui, if console == 0 then 9000 else console,
                      if capture == 0 then 5500 else capture);
    ValidExactly(p);
    if NewContract(gui, console, capture).Err? {
      ComplaintTrue(p);
    }
    hide Distinct, Required, Validate, Grievance;
  }

  predicate Meet(a: seq<int>, b: seq<int>) {
    exists i, j | 0 <= i < |a| && 0 <= j < |b| :: a[i] == b[j]
  }

  predicate OutOfRange(a: seq<int>) {
    exists i | 0 <= i < |a| :: a[i] < 1 || a[i] > 65535
  }

  /** What a complaint says of the 81 ports: the GUI's, fifty for consoles, thirty for captures. */
  predicate Grievance(ports: seq<int>, c: Complaint) {
    |ports| == 81 &&
    match c
    case GuiOutOfRange => OutOfRange(ports[..1])
    case GuiReserved => ports[0] == 4000
    case ConsoleInvalid => OutOfRange(ports[1..51])
    case CaptureInvalid => OutOfRange(ports[51..])
    case GuiInConsole => Meet(ports[..1], ports[1..51])
    case GuiInCapture => Meet(ports[..1], ports[51..])
    case RangesOverlap => Meet(ports[1..51], ports[51..])
  }

  lemma ComplaintTrue(p: Contract)
    requires Validate(p).Some?
    ensures Grievance(Required(p), Validate(p).value)
  {
    var ports := Required(p);
    var g, a, b := ports[..1], ports[1..51], ports[51..];
    assert g[0] == p.gui && a == Ports(p.console, 50) && b == Ports(p.capture, 30);
    match Validate(p).value
    case GuiOutOfRange =>
    case GuiReserved =>
    case ConsoleInvalid => assert a[0] == p.console && a[49] == ConsoleEnd(p);
    case CaptureInvalid => assert b[0] == p.capture && b[29] == CaptureEnd(p);
    case GuiInConsole => assert a[p.gui - p.console] == g[0];
    case GuiInCapture => assert b[p.gui - p.capture] == g[0];
    case RangesOverlap =>
      if p.console <= p.capture {
        assert a[p.capture - p.console] == b[0];
      } else {
        assert a[0] == b[p.console - p.capture];
      }
  }

  // ----- The printed text -------------------------------------------------------------------------

  function Item(key: string, text: string): (line: string) {
    "  - " + key + ": " + text
  }

  function Entry(key: string, text: string): (line: string) {
    "    " + key + ": " + text
  }

  function Pair(lo: string, hi: string): (text: string) {
    "[" + lo + ", " + hi + "]"
  }

  const LOOPBACK: string := "\"127.0.0.1\""

  function TextLines(p: Contract): (lines: seq<string>) {
    [ "portForwards:",
      Item("guestPort", "4001"), Entry("hostPort", Num(p.gui)),
      Entry("hostIP", LOOPBACK), Entry("proto", "\"tcp\""),
      Item("guestPortRange", "[9000, 9049]"), Entry("hostPortRange", Pair(Num(p.console), Num(p.console + 49))),
      Entry("hostIP", LOOPBACK), Entry("proto", "\"tcp\""),
      Item("guestPortRange", "[5500, 5529]"), Entry("hostPortRange", Pair(Num(p.capture), Num(p.capture + 29))),
      Entry("hostIP", LOOPBACK), Entry("proto", "\"tcp\""),
      Item("guestIP", LOOPBACK), Entry("guestPortRange", "[1, 65535]"),
      Entry("proto", "\"any\""), Entry("ignore", "true") ]
  }

  lemma LineIs(key: string, text: string)
    ensures FieldLine(Columns(2, 4), 0, key + ": " + text) == Item(key, text)
    ensures forall i: nat | i > 0 :: FieldLine(Columns(2, 4), i, key + ": " + text) == Entry(key, text)
  {
  }

  lemma FixedTexts()
    ensures Num(4001) == "4001" && Pair(Num(9000), Num(9049)) == "[9000, 9049]"
    ensures Pair(Num(5500), Num(5529)) == "[5500, 5529]" && Pair(Num(1), Num(65535)) == "[1, 65535]"
  {
    hide Itoa, DigitChar;
    DigitChars();
    FourDigits(4, 0, 0, 1);
    FourDigits(9, 0, 0, 0);
    FourDigits(9, 0, 4, 9);
    FourDigits(5, 5, 0, 0);
    FourDigits(5, 5, 2, 9);
    FourDigits(6, 5, 5, 3);
    MoreDigits(6553, 5);
    OneDigit(1);
  }

  lemma Rule4(a: Field, b: Field, c: Field, d: Field)
    requires a.value.Inline? && b.value.Inline? && c.value.Inline? && d.value.Inline?
    ensures RuleLines(Columns(2, 4), [a, b, c, d], 0)
         == [Item(a.key, a.value.text), Entry(b.key, b.value.text),
             Entry(c.key, c.value.text), Entry(d.key, d.value.text)]
  {
    var fs, lay := [a, b, c, d], Columns(2, 4);
    LineIs(a.key, a.value.text);
    LineIs(b.key, b.value.text);
    LineIs(c.key, c.value.text);
    LineIs(d.key, d.value.text);
    hide FieldLine, Item, Entry;
    assert RuleLines(lay, fs, 4) == [];
    assert RuleLines(lay, fs, 3) == FieldLines(lay, 3, d);
    assert RuleLines(lay, fs, 2) == FieldLines(lay, 2, c) + RuleLines(lay, fs, 3);
    assert RuleLines(lay, fs, 1) == FieldLines(lay, 1, b) + RuleLines(lay, fs, 2);
    assert RuleLines(lay, fs, 0) == FieldLines(lay, 0, a) + RuleLines(lay, fs, 1);
  }

  /** The text printed, line by line. */
  lemma PrintedText(p: Contract)
    ensures YamlPortForwards(p) == Join(TextLines(p), "\n")
  {
    hide Join, Num, Item, Entry;
    var rules := ContractRules(p, Printed());
    FixedTexts();
    RulesText(p, rules);
  }

  lemma BareText(r: nat, key: string, text: string)
    requires key == "guestPort" || key == "hostPort" || key == "ignore"
    ensures Scalar(Printed(), r, key, text) == Field(key, Inline(text))
  {
    assert |"guestPort"| == 9 && |"hostPort"| == 8 && "ignore"[0] == 'i' && |"ignore"| == 6;
    assert |"hostIP"| == 6 && "hostIP"[0] == 'h' && |"guestIP"| == 7 && |"proto"| == 5;
  }

  lemma QuotedText(r: nat, key: string, text: string)
    requires key == "hostIP" || key == "guestIP" || key == "proto"
    ensures Scalar(Printed(), r, key, text) == Field(key, Inline("\"" + text + "\""))
  {
  }

  lemma RangedText(r: nat, key: string, lo: int, hi: int)
    ensures Ranged(Printed(), r, key, lo, hi) == Field(key, Inline(Pair(Num(lo), Num(hi))))
  {
    hide Num;
  }

  lemma QuotedWords()
    ensures "\"" + "127.0.0.1" + "\"" == LOOPBACK
    ensures "\"" + "tcp" + "\"" == "\"tcp\"" && "\"" + "any" + "\"" == "\"any\""
  {
  }

  lemma RulesText(p: Contract, rules: seq<seq<Field>>)
    requires rules == ContractRules(p, Printed()) && Num(4001) == "4001" && Pair(Num(9000), Num(9049)) == "[9000, 9049]"
    requires Pair(Num(5500), Num(5529)) == "[5500, 5529]" && Pair(Num(1), Num(65535)) == "[1, 65535]"
    ensures ContractLines(p, Printed()) == TextLines(p)
  {
    hide Num, Item, Entry, Pair, Scalar, Ranged, RuleLines, RulesLines;
    assert rules == [rules[0], rules[1], rules[2], rules[3]];
    FourTexts(rules[0], rules[1], rules[2], rules[3]);
    GuiText(p);
    RangeText(1, 9000, 9049, p.console, p.console + 49);
    RangeText(2, 5500, 5529, p.capture, p.capture + 29);
    IgnoreText(p);
  }

  lemma FourTexts(a: seq<Field>, b: seq<Field>, c: seq<Field>, d: seq<Field>)
    ensures RulesLines(Columns(2, 4), [a, b, c, d], 0)
         == RuleLines(Columns(2, 4), a, 0) + RuleLines(Columns(2, 4), b, 0) + RuleLines(Columns(2, 4), c, 0)
            + RuleLines(Columns(2, 4), d, 0)
  {
    hide RuleLines;
    var lay, rules := Columns(2, 4), [a, b, c, d];
    assert RulesLines(lay, rules, 4) == [];
    assert RulesLines(lay, rules, 3) == RuleLines(lay, d, 0);
    assert RulesLines(lay, rules, 2) == RuleLines(lay, c, 0) + RulesLines(lay, rules, 3);
    assert RulesLines(lay, rules, 1) == RuleLines(lay, b, 0) + RulesLines(lay, rules, 2);
    assert RulesLines(lay, rules, 0) == RuleLines(lay, a, 0) + RulesLines(lay, rules, 1);
  }

  lemma GuiText(p: Contract)
    requires Num(4001) == "4001"
    ensures RuleLines(Columns(2, 4), ContractRules(p, Printed())[0], 0)
         == [Item("guestPort", "4001"), Entry("hostPort", Num(p.gui)),
             Entry("hostIP", LOOPBACK), Entry("proto", "\"tcp\"")]
  {
    hide Num, Item, Entry, Scalar, Ranged, RuleLines;
    QuotedWords();
    BareText(0, "guestPort", Num(4001));
    BareText(0, "hostPort", Num(p.gui));
    QuotedText(0, "hostIP", "127.0.0.1");
    QuotedText(0, "proto", "tcp");
    Rule4(Field("guestPort", Inline("4001")), Field("hostPort", Inline(Num(p.gui))), Field("hostIP", Inline(LOOPBACK)),
          Field("proto", Inline("\"tcp\"")));
  }

  lemma RangeText(r: nat, lo: int, hi: int, from: int, to: int)
    ensures RuleLines(Columns(2, 4),
                      [Ranged(Printed(), r, "guestPortRange", lo, hi), Ranged(Printed(), r, "hostPortRange", from, to),
                       Scalar(Printed(), r, "hostIP", "127.0.0.1"), Scalar(Printed(), r, "proto", "tcp")], 0)
         == [Item("guestPortRange", Pair(Num(lo), Num(hi))), Entry("hostPortRange", Pair(Num(from), Num(to))),
             Entry("hostIP", LOOPBACK), Entry("proto", "\"tcp\"")]
  {
    hide Num, Item, Entry, Pair, Scalar, Ranged, RuleLines;
    QuotedWords();
    RangedText(r, "guestPortRange", lo, hi);
    RangedText(r, "hostPortRange", from, to);
    QuotedText(r, "hostIP", "127.0.0.1");
    QuotedText(r, "proto", "tcp");
    Rule4(Field("guestPortRange", Inline(Pair(Num(lo), Num(hi)))),
          Field("hostPortRange", Inline(Pair(Num(from), Num(to)))),
          Field("hostIP", Inline(LOOPBACK)), Field("proto", Inline("\"tcp\"")));
  }

  lemma IgnoreText(p: Contract)
    requires Pair(Num(1), Num(65535)) == "[1, 65535]"
    ensures RuleLines(Columns(2, 4), ContractRules(p, Printed())[3], 0)
         == [Item("guestIP", LOOPBACK), Entry("guestPortRange", "[1, 65535]"), Entry("proto", "\"any\""),
             Entry("ignore", "true")]
  {
    hide Num, Item, Entry, Pair, Scalar, Ranged, RuleLines;
    QuotedWords();
    QuotedText(3, "guestIP", "127.0.0.1");
    RangedText(3, "guestPortRange", 1, 65535);
    QuotedText(3, "proto", "any");
    BareText(3, "ignore", "true");
    Rule4(Field("guestIP", Inline(LOOPBACK)), Field("guestPortRange", Inline("[1, 65535]")),
          Field("proto", Inline("\"any\"")), Field("ignore", Inline("true")));
  }

  // ----- Values and columns -------------------------------------------------------------------------

  /** Without blanks and tabs. */
  function Squeezed(t: string): (s: string) {
    if t == "" then ""
    else Squeezed(t[..|t| - 1]) + if t[|t| - 1] == ' ' || t[|t| - 1] == '\t' then "" else [t[|t| - 1]]
  }

  lemma {:induction false} ReplacedSnoc(t: string, c: char, from: char)
    ensures Replaced(t + [c], from, "") == Replaced(t, from, "") + if c == from then "" else [c]
  {
    hide Replaced;
    ReplacedCons(t + [c], from);
    if t == "" {
      assert (t + [c])[1..] == "";
      ReplacedCons("", from);
    } else {
      ReplacedCons(t, from);
      assert (t + [c])[1..] == t[1..] + [c];
      ReplacedSnoc(t[1..], c, from);
    }
  }

  lemma ReplacedCons(t: string, from: char)
    ensures Replaced(t, from, "") ==
            if t == "" then "" else (if t[0] == from then "" else [t[0]]) + Replaced(t[1..], from, "")
  {
  }

  lemma {:induction false} SqueezedIs(t: string)
    ensures Replaced(Replaced(t, ' ', ""), '\t', "") == Squeezed(t)
  {
    hide Replaced;
    if t != "" {
      var u, c := t[..|t| - 1], t[|t| - 1];
      assert t == u + [c];
      SqueezedIs(u);
      ReplacedSnoc(u, c, ' ');
      var r := Replaced(u, ' ', "");
      ReplacedSnoc(r, c, '\t');
      assert r + "" == r && Squeezed(u) + "" == Squeezed(u);
    } else {
      NothingReplaced();
    }
  }

  lemma NothingReplaced()
    ensures Replaced("", ' ', "") == "" && Replaced("", '\t', "") == ""
  {
  }

  /** A value loses the white space and then the quotes around it; in brackets it loses blanks and tabs as well. */
  lemma ValueIs(pre: string, a: string, t: string, b: string, post: string)
    requires forall i | 0 <= i < |pre| :: Space(pre[i])
    requires forall i | 0 <= i < |post| :: Space(post[i])
    requires forall i | 0 <= i < |a| :: a[i] == '"' || a[i] == '\''
    requires forall i | 0 <= i < |b| :: b[i] == '"' || b[i] == '\''
    requires t != "" && !Space(t[0]) && !Space(t[|t| - 1])
    requires t[0] != '"' && t[0] != '\'' && t[|t| - 1] != '"' && t[|t| - 1] != '\''
    ensures Canonical(pre + (a + t + b) + post)
         == if t[0] == '[' && t[|t| - 1] == ']' then Squeezed(t) else t
  {
    var q := a + t + b;
    QuoteSolid();
    hide Space, Trim, DropLeft, DropRight, Squeezed, Replaced;
    Edges(a, t, b);
    Trimmed(pre, q, post);
    assert q[|a|..] == t + b && (t + b)[..|t|] == t;
    DropLeftAt(q, Quote, |a|);
    DropRightAt(t + b, Quote, |t|);
    SqueezedIs(t);
    assert StartsWith(t, "[") <==> t[0] == '[';
    assert EndsWith(t, "]") <==> t[|t| - 1] == ']';
  }

  lemma Edges(a: string, t: string, b: string)
    requires t != ""
    ensures var q := a + t + b;
            && q[0] == (if a == "" then t[0] else a[0])
            && q[|q| - 1] == (if b == "" then t[|t| - 1] else b[|b| - 1])
  {
  }

  lemma Trimmed(pre: string, q: string, post: string)
    requires forall i | 0 <= i < |pre| :: Space(pre[i])
    requires forall i | 0 <= i < |post| :: Space(post[i])
    requires q != "" && !Space(q[0]) && !Space(q[|q| - 1])
    ensures Trim(pre + q + post) == q
  {
    hide Space, Trim;
    var value := pre + q + post;
    assert value[|pre|..|pre| + |q|] == q;
    TrimAt(value, |pre|, |pre| + |q|);
  }

  lemma QuoteSolid()
    ensures !Space('"') && !Space('\'')
  {
  }

  /** A line's column is the number of blanks and tabs it starts with. */
  lemma ColumnIs(pad: string, body: string)
    requires forall i | 0 <= i < |pad| :: pad[i] == ' ' || pad[i] == '\t'
    requires body == "" || (body[0] != ' ' && body[0] != '\t')
    ensures Indent(pad + body) == |pad|
  {
    var line := pad + body;
    assert line[|pad|..] == body;
    DropLeftAt(line, Tabular, |pad|);
  }

  // ----- Comments and blank lines -----------------------------------------------------------------

  /** The lines from k on that are neither empty nor comments. */
  function Significant(lines: seq<string>, k: nat): (s: seq<string>)
    requires k <= |lines|
    decreases |lines| - k
  {
    if k == |lines| then []
    else (if Insignificant(lines[k]) then [] else [lines[k]]) + Significant(lines, k + 1)
  }

  /** The same rules, or an error in both, whatever its line number. */
  predicate ReadAlike(a: Result<seq<Rule>, Failure>, b: Result<seq<Rule>, Failure>) {
    (a.Ok? <==> b.Ok?) && (a.Ok? ==> a.value == b.value)
  }

  /** The first significant line from k on is line s, or there is none and s is the end. */
  lemma {:induction false} NextIs(lines: seq<string>, k: nat)
    requires k <= |lines|
    ensures var s := Next(lines, k);
            && (s < |lines| ==> !Insignificant(lines[s]))
            && Significant(lines, k) == if s == |lines| then [] else [lines[s]] + Significant(lines, s + 1)
    decreases |lines| - k
  {
    hide Insignificant, Significant;
    SignificantFrom(lines, k);
    if k < |lines| && Insignificant(lines[k]) {
      NextIs(lines, k + 1);
    }
  }

  lemma SignificantFrom(lines: seq<string>, k: nat)
    requires k <= |lines|
    ensures Significant(lines, k) ==
            if k == |lines| then []
            else if Insignificant(lines[k]) then Significant(lines, k + 1)
            else [lines[k]] + Significant(lines, k + 1)
  {
    hide Insignificant;
    if k < |lines| {
      assert [] + Significant(lines, k + 1) == Significant(lines, k + 1);
    }
  }

  lemma {:induction false} ItemsSkip(lines: seq<string>, k: nat, indent: int)
    requires k <= |lines|
    ensures Items(lines, k, indent) == Items(lines, Next(lines, k), indent)
    decreases |lines| - k
  {
    hide Insignificant, Indent, Dash, Trim;
    if k < |lines| && Insignificant(lines[k]) {
      ItemsSkip(lines, k + 1, indent);
    }
  }

  /** One significant line of a block sequence. */
  lemma ItemHere(lines: seq<string>, k: nat, indent: int)
    requires k < |lines| && !Insignificant(lines[k])
    ensures var t := Trim(lines[k]);
            Items(lines, k, indent) ==
            if Indent(lines[k]) <= indent || !Dash(t) then Some(([], k))
            else if Trim(t[1..]) == "" then None
            else Behind([Trim(t[1..])], Items(lines, k + 1, indent))
  {
    hide Insignificant, Indent, Trim;
  }

  lemma {:induction false} SameItems(a: seq<string>, i: nat, b: seq<string>, j: nat, indent: int)
    requires i <= |a| && j <= |b| && Significant(a, i) == Significant(b, j)
    ensures var r, s := Items(a, i, indent), Items(b, j, indent);
            && (r.Some? <==> s.Some?)
            && (r.Some? ==> r.value.0 == s.value.0 && Significant(a, r.value.1) == Significant(b, s.value.1))
    decreases |a| - i
  {
    hide Insignificant, Indent, Dash, Trim, Items, Next, Significant;
    var m, n := Next(a, i), Next(b, j);
    NextIs(a, i);
    NextIs(b, j);
    ItemsSkip(a, i, indent);
    ItemsSkip(b, j, indent);
    if m < |a| {
      assert n < |b| && a[m] == b[n] && Significant(a, m + 1) == Significant(b, n + 1) by {
        HeadTail(a[m], Significant(a, m + 1), Significant(b, j));
      }
      ItemHere(a, m, indent);
      ItemHere(b, n, indent);
      SameItems(a, m + 1, b, n + 1, indent);
      SignificantHere(a, m);
      SignificantHere(b, n);
    } else {
      NoItems(a, indent);
      NoItems(b, indent);
    }
  }

  lemma HeadTail(x: string, rest: seq<string>, s: seq<string>)
    requires s == [x] + rest
    ensures s != [] && s[0] == x && s[1..] == rest
  {
  }

  lemma SignificantHere(lines: seq<string>, k: nat)
    requires k < |lines| && !Insignificant(lines[k])
    ensures Significant(lines, k) == [lines[k]] + Significant(lines, k + 1)
  {
    hide Insignificant;
  }

  lemma NoItems(lines: seq<string>, indent: int)
    ensures Items(lines, |lines|, indent) == Some(([], |lines|)) && Significant(lines, |lines|) == []
  {
  }

  /** What one significant line does: go on with a state behind some significant lines, stop, or fail. */
  lemma SameStep(a: seq<string>, i: nat, b: seq<string>, j: nat, st: State)
    requires i < |a| && j < |b| && a[i] == b[j] && Significant(a, i + 1) == Significant(b, j + 1)
    ensures var r, s := LineStep(a, i, st), LineStep(b, j, st);
            && (r.Go? <==> s.Go?) && (r.Done? <==> s.Done?)
            && (r.Go? ==> r.state == s.state && Significant(a, r.next) == Significant(b, s.next))
  {
    hide Insignificant, Indent, Dash, Trim, Items, Significant, Canonical, Find, Join;
    SameItems(a, i + 1, b, j + 1, st.ruleIndent);
    SameItems(a, i + 1, b, j + 1, Opened(st, Indent(a[i])).ruleIndent);
  }

  lemma {:induction false} SameParse(a: seq<string>, i: nat, b: seq<string>, j: nat, st: State)
    requires i <= |a| && j <= |b| && Significant(a, i) == Significant(b, j)
    ensures ReadAlike(ParseFrom(a, i, st), ParseFrom(b, j, st))
    decreases |a| - i
  {
    hide Insignificant, LineStep, ParseFrom, Next, Significant;
    var m, n := Next(a, i), Next(b, j);
    NextIs(a, i);
    NextIs(b, j);
    BlanksSkipped(a, i, st);
    BlanksSkipped(b, j, st);
    if m < |a| {
      HeadTail(a[m], Significant(a, m + 1), Significant(b, j));
      assert n < |b| && a[m] == b[n] && Significant(a, m + 1) == Significant(b, n + 1);
      SameStep(a, m, b, n, st);
      ParseByLine(a, m, st);
      ParseByLine(b, n, st);
      var step := LineStep(a, m, st);
      if step.Go? {
        SameParse(a, step.next, b, LineStep(b, n, st).next, step.state);
      }
    } else {
      ParseEnds(a, st);
      ParseEnds(b, st);
    }
  }

  /** Two texts with the same lines but for comments and blank lines match the same contracts. */
  lemma CommentsIgnored(a: string, b: string, p: Contract)
    requires Significant(Lines(DropCrLf(a)), 0) == Significant(Lines(DropCrLf(b)), 0)
    ensures ReadAlike(Parse(a), Parse(b))
    ensures var r, s := MatchesYaml(a, p), MatchesYaml(b, p); (r.Ok? <==> s.Ok?) && (r.Ok? ==> r.value == s.value)
  {
    hide Significant, ParseFrom, RuleEqual, ExpectedRules, Lines, DropCrLf;
    SameParse(Lines(DropCrLf(a)), 0, Lines(DropCrLf(b)), 0, Start);
  }

  // ----- Texts refused ------------------------------------------------------------------------------

  /** What is left of a line without its dash. */
  function FieldOf(line: string): (body: string) {
    if Dash(Trim(line)) then Trim(Trim(line)[1..]) else Trim(line)
  }

  /** A line that the reader takes for a field of the rules before it, or of a new one. */
  predicate TakenAsField(lay: Layout, rules: seq<seq<Field>>, line: string) {
    && !Insignificant(line) && FieldOf(line) != ""
    && if Dash(Trim(line)) then Indent(line) <= lay.dash else rules != [] && Indent(line) > 0
  }

  /** It has no colon, or nothing in front of it. */
  predicate WithoutKey(line: string) {
    var body := FieldOf(line);
    body != "" && (body[0] == ':' || forall i | 0 <= i < |body| :: body[i] != ':')
  }

  /** Behind any rules a field without a colon or a key is refused with its line number, whatever follows. */
  lemma MalformedField(lay: Layout, lines: seq<string>, h: nat, rules: seq<seq<Field>>, k: nat)
    requires GoodRules(lay, rules) && h < |lines| && lines[h] == "portForwards:"
    requires forall i | 0 <= i < h :: Trim(lines[i]) != "portForwards:"
    requires At(lines, h + 1, RulesLines(lay, rules, 0)) && k == h + 1 + |RulesLines(lay, rules, 0)| < |lines|
    requires TakenAsField(lay, rules, lines[k]) && WithoutKey(lines[k])
    ensures ParseFrom(lines, 0, Start) == Err(BadField(k + 1))
  {
    hide ParseFrom, Trim, RulesLines, GoodRules, At, After, LineStep, Boundary, TakenAsField, WithoutKey;
    BadBoundary(lay, rules, lines, k);
    BadStep(lay, rules, lines, k);
    PreSkipped(lines, 0, h);
    HeaderRead(lay, lines, h, rules);
    RulesRead(lay, lines, h + 1, rules, 0);
    ParseByLine(lines, k, After(lay, rules, |rules|));
  }

  lemma BadBoundary(lay: Layout, rules: seq<seq<Field>>, lines: seq<string>, k: nat)
    requires k < |lines| && TakenAsField(lay, rules, lines[k])
    ensures Boundary(lay, lines, k)
  {
    hide Trim, Indent, Insignificant, Dash, FieldOf;
  }

  lemma BadStep(lay: Layout, rules: seq<seq<Field>>, lines: seq<string>, k: nat)
    requires k < |lines| && TakenAsField(lay, rules, lines[k]) && WithoutKey(lines[k])
    ensures LineStep(lines, k, After(lay, rules, |rules|)) == Fail(BadField(k + 1))
  {
    hide Trim, Indent, Insignificant, Dash, Maps, BlockSequence;
    assert Find(FieldOf(lines[k]), ':') <= 0;
    hide Find;
  }

  /** The reader's complaint of a field outside any list item is never made. */
  lemma {:induction false} NeverOutsideItem(lines: seq<string>, k: nat, st: State)
    requires k <= |lines| && (st.ruleIndent >= 0 ==> st.current.Some?)
    ensures var r := ParseFrom(lines, k, st); r.Err? ==> !r.error.NotUnderItem?
    decreases |lines| - k
  {
    hide ParseFrom, LineStep;
    if k < |lines| {
      ParseByLine(lines, k, st);
      StepInside(lines, k, st);
      if LineStep(lines, k, st).Go? {
        NeverOutsideItem(lines, LineStep(lines, k, st).next, LineStep(lines, k, st).state);
      }
    } else {
      ParseEnds(lines, st);
    }
  }

  lemma StepInside(lines: seq<string>, k: nat, st: State)
    requires k < |lines| && (st.ruleIndent >= 0 ==> st.current.Some?)
    ensures var s := LineStep(lines, k, st);
            && (s.Go? && s.state.ruleIndent >= 0 ==> s.state.current.Some?)
            && (s.Fail? ==> !s.error.NotUnderItem?)
  {
    hide Insignificant, Indent, Dash, Trim, BlockSequence, Canonical, Find, Join;
  }
}
