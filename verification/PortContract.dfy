/**
 The launcher's host-port contract (tools/iolab-launcher/macos_ports.go): which
 contracts are valid, the portForwards fragment that states one, and the reader
 that finds it again in a saved lima.yaml.
 */
module PortContract {
  import opened Wrappers
  import opened Decimal
  import opened Text

  const GUEST_GUI := 4001
  const CONTROL := 4000
  const CONSOLE_START := 9000
  const CONSOLE_END := 9049
  const CAPTURE_START := 5500
  const CAPTURE_END := 5529

  datatype Contract = Contract(gui: int, console: int, capture: int)

  datatype Complaint =
    | GuiOutOfRange | GuiReserved | ConsoleInvalid | CaptureInvalid
    | GuiInConsole | GuiInCapture | RangesOverlap

  // ----- Validity ------------------------------------------------------------------------

  function ConsoleEnd(p: Contract): (e: int) {
    p.console + CONSOLE_END - CONSOLE_START
  }

  function CaptureEnd(p: Contract): (e: int) {
    p.capture + CAPTURE_END - CAPTURE_START
  }

  function Validate(p: Contract): (complaint: Option<Complaint>) {
    if p.gui < 1 || p.gui > 65535 then Some(GuiOutOfRange)
    else if p.gui == CONTROL then Some(GuiReserved)
    else if p.console < 1 || ConsoleEnd(p) > 65535 then Some(ConsoleInvalid)
    else if p.capture < 1 || CaptureEnd(p) > 65535 then Some(CaptureInvalid)
    else if p.console <= p.gui <= ConsoleEnd(p) then Some(GuiInConsole)
    else if p.capture <= p.gui <= CaptureEnd(p) then Some(GuiInCapture)
    else if p.console <= CaptureEnd(p) && p.capture <= ConsoleEnd(p) then Some(RangesOverlap)
    else None
  }

  /** The ports lo, lo + 1, ..., n of them. */
  function Ports(lo: int, n: nat): (ports: seq<int>) {
    seq(n, i => lo + i)
  }

  function Required(p: Contract): (ports: seq<int>) {
    [p.gui] + Ports(p.console, 50) + Ports(p.capture, 30)
  }

  method RequiredPorts(p: Contract) returns (ports: seq<int>)
    ensures ports == Required(p)
  {
    ports := [p.gui];
    for port := p.console to ConsoleEnd(p) + 1
      invariant ports == [p.gui] + Ports(p.console, port - p.console)
    {
      ports := ports + [port];
    }
    for port := p.capture to CaptureEnd(p) + 1
      invariant ports == [p.gui] + Ports(p.console, 50) + Ports(p.capture, port - p.capture)
    {
      ports := ports + [port];
    }
  }

  predicate Distinct(ports: seq<int>) {
    forall i, j | 0 <= i < j < |ports| :: ports[i] != ports[j]
  }

  /** `validate` accepts exactly the contracts whose 81 ports are distinct TCP ports, the GUI's not the control port. */
  lemma ValidExactly(p: Contract)
    ensures |Required(p)| == 81
    ensures Validate(p).None? <==>
            Distinct(Required(p)) && (forall i | 0 <= i < 81 :: 1 <= Required(p)[i] <= 65535) && p.gui != CONTROL
  {
    var ports := Required(p);
    assert ports[0] == p.gui && ports[1] == p.console && ports[51] == p.capture;
    assert ports[50] == ConsoleEnd(p) && ports[80] == CaptureEnd(p);
    if p.console <= p.gui <= ConsoleEnd(p) {
      assert ports[1 + (p.gui - p.console)] == ports[0];
    }
    if p.capture <= p.gui <= CaptureEnd(p) {
      assert ports[51 + (p.gui - p.capture)] == ports[0];
    }
    if p.console <= p.capture <= ConsoleEnd(p) {
      assert ports[1 + (p.capture - p.console)] == ports[51];
    }
    if p.capture <= p.console <= CaptureEnd(p) {
      assert ports[51 + (p.console - p.capture)] == ports[1];
    }
  }

  function Default(n: int, otherwise: int): (m: int) {
    if n == 0 then otherwise else n
  }

  /** The contract asked for, zero meaning the default port. */
  function NewContract(gui: int, console: int, capture: int): (r: Result<Contract, Complaint>)
    ensures r.Ok? ==> Validate(r.value).None?
  {
    var p := Contract(Default(gui, GUEST_GUI), Default(console, CONSOLE_START), Default(capture, CAPTURE_START));
    var complaint := Validate(p);
    if complaint.Some? then Err(complaint.value) else Ok(p)
  }

  // ----- The reader ------------------------------------------------------------------------

  type Rule = map<string, string>

  datatype Failure = NotUnderItem(at: nat) | BadField(at: nat) | BadBlock(at: nat)

  datatype State = State(rules: seq<Rule>, current: Option<Rule>, blockIndent: int, ruleIndent: int, inBlock: bool)

  const Start := State([], None, -1, -1, false)

  predicate Tabular(c: char) {
    c == ' ' || c == '\t'
  }

  predicate Quote(c: char) {
    c == '"' || c == '\''
  }

  function Indent(line: string): (n: nat) {
    |line| - |DropLeft(line, Tabular)|
  }

  predicate Dash(t: string) {
    StartsWith(t, "-")
  }

  /** Empty lines and comments. */
  predicate Insignificant(line: string) {
    Trim(line) == "" || StartsWith(Trim(line), "#")
  }

  function Canonical(value: string): (v: string) {
    var t := DropRight(DropLeft(Trim(value), Quote), Quote);
    if StartsWith(t, "[") && EndsWith(t, "]") then Replaced(Replaced(t, ' ', ""), '\t', "") else t
  }

  /** The items from line i on, and the first line behind them. */
  function Items(lines: seq<string>, i: nat, minIndent: int): (r: Option<(seq<string>, nat)>)
    requires i <= |lines|
    ensures r.Some? ==> i <= r.value.1 <= |lines|
    decreases |lines| - i
  {
    if i == |lines| then Some(([], i))
    else if Insignificant(lines[i]) then Items(lines, i + 1, minIndent)
    else
      var t := Trim(lines[i]);
      if Indent(lines[i]) <= minIndent || !Dash(t) then Some(([], i))
      else
        var item := Trim(t[1..]);
        if item == "" then None else Behind([item], Items(lines, i + 1, minIndent))
  }

  function Behind(items: seq<string>, rest: Option<(seq<string>, nat)>): (r: Option<(seq<string>, nat)>) {
    if rest.None? then None else Some((items + rest.value.0, rest.value.1))
  }

  lemma BehindBoth(items: seq<string>, item: string, rest: Option<(seq<string>, nat)>)
    ensures Behind(items, Behind([item], rest)) == Behind(items + [item], rest)
    ensures Behind([], rest) == rest
  {
    if rest.Some? {
      assert items + ([item] + rest.value.0) == items + [item] + rest.value.0;
      assert [] + rest.value.0 == rest.value.0;
    }
  }

  function BlockSequence(lines: seq<string>, i: nat, minIndent: int): (r: Option<(seq<string>, nat)>)
    requires i <= |lines|
    ensures r.Some? ==> i <= r.value.1 <= |lines|
  {
    var r := Items(lines, i, minIndent);
    if r.Some? && r.value.0 == [] then None else r
  }

  datatype Step = Go(next: nat, state: State) | Done | Fail(error: Failure)

  function Finish(st: State): (rules: seq<Rule>) {
    if st.current.Some? then st.rules + [st.current.value] else st.rules
  }

  /** One field, `key: value` or `key:` with a block sequence below it. */
  function FieldStep(lines: seq<string>, k: nat, st: State, body: string): (s: Step)
    requires k < |lines|
    ensures s.Go? ==> k < s.next <= |lines|
  {
    if st.current.None? then Fail(NotUnderItem(k + 1))
    else
      var colon := Find(body, ':');
      if colon <= 0 then Fail(BadField(k + 1))
      else
        var key, value := Trim(body[..colon]), Trim(body[colon + 1..]);
        if key == "" then Fail(BadField(k + 1))
        else if value != "" then Go(k + 1, st.(current := Some(st.current.value[key := Canonical(value)])))
        else
          var items := BlockSequence(lines, k + 1, st.ruleIndent);
          if items.None? then Fail(BadBlock(k + 1))
          else
            var joined := "[" + Join(items.value.0, ",") + "]";
            Go(items.value.1, st.(current := Some(st.current.value[key := Canonical(joined)])))
  }

  /** The list item that a dash opens. */
  function Opened(st: State, indent: nat): (st': State) {
    st.(rules := Finish(st), current := Some(map[]), ruleIndent := if st.ruleIndent < 0 then indent else st.ruleIndent)
  }

  function LineStep(lines: seq<string>, k: nat, st: State): (s: Step)
    requires k < |lines|
    ensures s.Go? ==> k < s.next <= |lines|
  {
    var t, indent := Trim(lines[k]), Indent(lines[k]);
    if Insignificant(lines[k]) then Go(k + 1, st)
    else if !st.inBlock then
      Go(k + 1, if t == "portForwards:" then st.(blockIndent := indent, inBlock := true) else st)
    else if Dash(t) then
      var item := Opened(st, indent);
      var body := Trim(t[1..]);
      if body == "" then Go(k + 1, item) else FieldStep(lines, k, item, body)
    else if indent <= st.blockIndent then Done
    else if st.ruleIndent < 0 then Go(k + 1, st)
    else FieldStep(lines, k, st, t)
  }

  function ParseFrom(lines: seq<string>, k: nat, st: State): (r: Result<seq<Rule>, Failure>)
    requires k <= |lines|
    decreases |lines| - k
  {
    if k == |lines| then Ok(Finish(st))
    else
      match LineStep(lines, k, st)
      case Go(next, st') => ParseFrom(lines, next, st')
      case Done => Ok(Finish(st))
      case Fail(error) => Err(error)
  }

  lemma ParseByLine(lines: seq<string>, k: nat, st: State)
    requires k < |lines|
    ensures ParseFrom(lines, k, st) ==
            match LineStep(lines, k, st)
            case Go(next, st') => ParseFrom(lines, next, st')
            case Done => Ok(Finish(st))
            case Fail(error) => Err(error)
  {
  }

  lemma ParseEnds(lines: seq<string>, st: State)
    ensures ParseFrom(lines, |lines|, st) == Ok(Finish(st))
  {
  }

  function Parse(text: string): (r: Result<seq<Rule>, Failure>) {
    ParseFrom(Lines(DropCrLf(text)), 0, Start)
  }

  method ParseBlockSequence(lines: seq<string>, start: nat, minIndent: int)
    returns (r: Option<(seq<string>, nat)>)
    requires start <= |lines|
    ensures r.None? <==> BlockSequence(lines, start, minIndent).None?
    ensures r.Some? ==> BlockSequence(lines, start, minIndent) == Some((r.value.0, start + r.value.1))
  {
    hide Trim, Indent, Dash, StartsWith;
    var items: seq<string>, consumed := [], 0;
    var i := start;
    BehindBoth([], "", Items(lines, start, minIndent));
    while i < |lines|
      invariant start <= i <= |lines| && consumed == i - start
      invariant Items(lines, start, minIndent) == Behind(items, Items(lines, i, minIndent))
    {
      var line := lines[i];
      var trimmed := Trim(line);
      if trimmed == "" || StartsWith(trimmed, "#") {
        consumed := i - start + 1;
        i := i + 1;
        continue;
      }
      if Indent(line) <= minIndent || !Dash(trimmed) {
        break;
      }
      var item := Trim(trimmed[1..]);
      if item == "" {
        return None;
      }
      BehindBoth(items, item, Items(lines, i + 1, minIndent));
      items := items + [item];
      consumed := i - start + 1;
      i := i + 1;
    }
    assert items + [] == items;
    if |items| == 0 {
      return None;
    }
    return Some((items, consumed));
  }

  method ParsePortForwardRules(text: string) returns (r: Result<seq<Rule>, Failure>)
    ensures r == Parse(text)
  {
    hide ParseFrom, Trim, Find, Canonical, Lines, DropCrLf, Join, BlockSequence, Indent, Dash, StartsWith;
    var rules: seq<Rule>, current: Option<Rule> := [], None;
    var blockIndent: int, ruleIndent: int, inBlock := -1, -1, false;
    var lines := Lines(DropCrLf(text));
    var lineNo := 0;
    while lineNo < |lines|
      invariant lineNo <= |lines|
      invariant Parse(text) == ParseFrom(lines, lineNo, State(rules, current, blockIndent, ruleIndent, inBlock))
      decreases |lines| - lineNo
    {
      ParseByLine(lines, lineNo, State(rules, current, blockIndent, ruleIndent, inBlock));
      var line := lines[lineNo];
      var trimmed := Trim(line);
      if trimmed == "" || StartsWith(trimmed, "#") {
        lineNo := lineNo + 1;
        continue;
      }
      var indent := Indent(line);
      if !inBlock {
        if trimmed == "portForwards:" {
          blockIndent := indent;
          inBlock := true;
        }
        lineNo := lineNo + 1;
        continue;
      }
      if ruleIndent >= 0 && indent <= blockIndent && !Dash(trimmed) {
        break;
      }
      if ruleIndent < 0 {
        if Dash(trimmed) {
          ruleIndent := indent;
        } else if indent <= blockIndent {
          break;
        } else {
          lineNo := lineNo + 1;
          continue;
        }
      }
      if Dash(trimmed) {
        if current.Some? {
          rules := rules + [current.value];
        }
        current := Some(map[]);
        trimmed := Trim(trimmed[1..]);
        if trimmed == "" {
          lineNo := lineNo + 1;
          continue;
        }
      }
      if current.None? {
        return Err(NotUnderItem(lineNo + 1));
      }
      var colon := Find(trimmed, ':');
      if colon <= 0 {
        return Err(BadField(lineNo + 1));
      }
      var key := Trim(trimmed[..colon]);
      var value := Trim(trimmed[colon + 1..]);
      if key == "" {
        return Err(BadField(lineNo + 1));
      }
      if value == "" {
        var block := ParseBlockSequence(lines, lineNo + 1, ruleIndent);
        if block.None? {
          return Err(BadBlock(lineNo + 1));
        }
        value := "[" + Join(block.value.0, ",") + "]";
        lineNo := lineNo + block.value.1;
      }
      current := Some(current.value[key := Canonical(value)]);
      lineNo := lineNo + 1;
    }
    ParseEnds(lines, State(rules, current, blockIndent, ruleIndent, inBlock));
    if current.Some? {
      rules := rules + [current.value];
    }
    return Ok(rules);
  }

  // ----- The printed contract and the comparison ------------------------------------------------

  function Num(n: int): (s: string) {
    if n < 0 then "-" + Itoa(-n) else Itoa(n)
  }

  /** How a range is written: in flow style, or as a block sequence indented by `pad`. */
  datatype Style = Flow(spaced: bool) | Block(pad: nat)

  datatype Quoting = Bare | Single | Double

  datatype Value = Inline(text: string) | Sequence(items: seq<string>, pad: nat)

  datatype Field = Field(key: string, value: Value)

  /** The columns of a rule's dash and of its further fields, which the top level's column would end. */
  datatype Columns = Columns(dash: nat, field: nat)

  type Layout = c: Columns | c.field > 0 witness Columns(2, 4)

  /** How a writer lays out the rules, and how it writes the value of each key of rule r. */
  datatype Shape = Shape(lay: Layout, range: (nat, string) -> Style, quote: (nat, string) -> Quoting)

  function Spaces(n: nat): (s: string) {
    seq(n, i => ' ')
  }

  function Quoted(quoting: Quoting, text: string): (s: string) {
    match quoting
    case Bare => text
    case Single => "'" + text + "'"
    case Double => "\"" + text + "\""
  }

  function Range(lo: int, hi: int, style: Style): (v: Value) {
    match style
    case Flow(spaced) => Inline("[" + Num(lo) + (if spaced then ", " else ",") + Num(hi) + "]")
    case Block(pad) => Sequence([Num(lo), Num(hi)], pad)
  }

  /** The first field of a rule opens the list item. */
  function FieldLine(lay: Layout, i: nat, content: string): (line: string) {
    if i == 0 then Spaces(lay.dash) + ("- " + content) else Spaces(lay.field) + content
  }

  function ItemLines(items: seq<string>, pad: nat): (lines: seq<string>)
    ensures |lines| == |items|
  {
    seq(|items|, i requires 0 <= i < |items| => Spaces(pad) + ("- " + items[i]))
  }

  function FieldLines(lay: Layout, i: nat, f: Field): (lines: seq<string>) {
    match f.value
    case Inline(text) => [FieldLine(lay, i, f.key + ": " + text)]
    case Sequence(items, pad) => [FieldLine(lay, i, f.key + ":")] + ItemLines(items, pad)
  }

  function RuleLines(lay: Layout, fields: seq<Field>, i: nat): (lines: seq<string>)
    decreases |fields| - i
  {
    if i >= |fields| then [] else FieldLines(lay, i, fields[i]) + RuleLines(lay, fields, i + 1)
  }

  function RulesLines(lay: Layout, rules: seq<seq<Field>>, r: nat): (lines: seq<string>)
    decreases |rules| - r
  {
    if r >= |rules| then [] else RuleLines(lay, rules[r], 0) + RulesLines(lay, rules, r + 1)
  }

  function Scalar(shape: Shape, r: nat, key: string, text: string): (f: Field) {
    Field(key, Inline(Quoted(shape.quote(r, key), text)))
  }

  function Ranged(shape: Shape, r: nat, key: string, lo: int, hi: int): (f: Field) {
    Field(key, Range(lo, hi, shape.range(r, key)))
  }

  function ContractRules(p: Contract, shape: Shape): (rules: seq<seq<Field>>) {
    [[Scalar(shape, 0, "guestPort", Num(GUEST_GUI)), Scalar(shape, 0, "hostPort", Num(p.gui)),
      Scalar(shape, 0, "hostIP", "127.0.0.1"), Scalar(shape, 0, "proto", "tcp")],
     [Ranged(shape, 1, "guestPortRange", CONSOLE_START, CONSOLE_END),
      Ranged(shape, 1, "hostPortRange", p.console, ConsoleEnd(p)),
      Scalar(shape, 1, "hostIP", "127.0.0.1"), Scalar(shape, 1, "proto", "tcp")],
     [Ranged(shape, 2, "guestPortRange", CAPTURE_START, CAPTURE_END),
      Ranged(shape, 2, "hostPortRange", p.capture, CaptureEnd(p)),
      Scalar(shape, 2, "hostIP", "127.0.0.1"), Scalar(shape, 2, "proto", "tcp")],
     [Scalar(shape, 3, "guestIP", "127.0.0.1"), Ranged(shape, 3, "guestPortRange", 1, 65535),
      Scalar(shape, 3, "proto", "any"), Scalar(shape, 3, "ignore", "true")]]
  }

  function ContractLines(p: Contract, shape: Shape): (lines: seq<string>) {
    ["portForwards:"] + RulesLines(shape.lay, ContractRules(p, shape), 0)
  }

  /** The launcher's own writing: dash at column 2, fields at 4, flow ranges, addresses and protocols in quotes. */
  function Printed(): (shape: Shape) {
    Shape(Columns(2, 4), (r, key) => Flow(true),
          (r, key) => if key == "hostIP" || key == "guestIP" || key == "proto" then Double else Bare)
  }

  /** A config that Lima has saved again: dash at column 0, fields and items at 2, nothing quoted. */
  function Resaved(): (shape: Shape) {
    Shape(Columns(0, 2), (r, key) => Block(2), (r, key) => Bare)
  }

  function YamlPortForwards(p: Contract): (text: string) {
    Join(ContractLines(p, Printed()), "\n")
  }

  function Bracketed(lo: int, hi: int): (s: string) {
    "[" + Num(lo) + "," + Num(hi) + "]"
  }

  function ExpectedRules(p: Contract): (rules: seq<Rule>) {
    var q := p.(console := Default(p.console, CONSOLE_START), capture := Default(p.capture, CAPTURE_START));
    [map["guestPort" := Num(GUEST_GUI), "hostPort" := Num(q.gui), "hostIP" := "127.0.0.1", "proto" := "tcp"],
     map["guestPortRange" := "[9000,9049]", "hostPortRange" := Bracketed(q.console, ConsoleEnd(q)),
         "hostIP" := "127.0.0.1", "proto" := "tcp"],
     map["guestPortRange" := "[5500,5529]", "hostPortRange" := Bracketed(q.capture, CaptureEnd(q)),
         "hostIP" := "127.0.0.1", "proto" := "tcp"],
     map["guestIP" := "127.0.0.1", "guestPortRange" := "[1,65535]", "proto" := "any", "ignore" := "true"]]
  }

  predicate RuleEqual(got: Rule, want: Rule) {
    |got| == |want| && forall key | key in want :: (if key in got then got[key] else "") == want[key]
  }

  function MatchesYaml(text: string, p: Contract): (r: Result<bool, Failure>) {
    var rules := Parse(text);
    if rules.Err? then Err(rules.error)
    else
      var want := ExpectedRules(p);
      if |rules.value| < |want| then Ok(false)
      else Ok(forall i | 0 <= i < |want| :: RuleEqual(rules.value[i], want[i]))
  }
}
