/** Printing a port contract and reading it back, whatever document it stands in. */
module PortContractProofs {
  import opened Wrappers
  import opened Decimal
  import opened Text
  import opened PortContract

  // ----- Lines as printed ------------------------------------------------------------------

  /** Without line ends inside. */
  predicate Clean(t: string) {
    forall i | 0 <= i < |t| :: t[i] != '\n' && t[i] != '\r'
  }

  /** Nothing to trim, and on one line. */
  predicate Solid(t: string) {
    t != "" && !Space(t[0]) && !Space(t[|t| - 1]) && Clean(t)
  }

  predicate GoodKey(key: string) {
    key != "" && key[0] != '-' && key[0] != '#' && forall i | 0 <= i < |key| :: !Space(key[i]) && key[i] != ':'
  }

  predicate GoodItems(items: seq<string>) {
    items != [] && forall i | 0 <= i < |items| :: Solid(items[i])
  }

  predicate GoodField(lay: Layout, f: Field) {
    GoodKey(f.key) &&
    match f.value
    case Inline(text) => Solid(text)
    case Sequence(items, pad) => GoodItems(items) && pad > lay.dash
  }

  lemma LineShape(n: nat, body: string)
    requires Solid(body)
    ensures Trim(Spaces(n) + body) == body && Indent(Spaces(n) + body) == n
  {
    var line := Spaces(n) + body;
    assert line[n..|line|] == body && line[n..] == body;
    hide Space;
    BlankIsSpace();
    TrimAt(line, n, |line|);
    DropLeftAt(line, Tabular, n);
  }

  lemma BlankIsSpace()
    ensures Space(' ') && !Space('-') && forall c | Tabular(c) :: Space(c)
  {
  }

  lemma TrimSolid(t: string)
    requires Solid(t)
    ensures Trim(t) == t
  {
    hide Space, Trim;
    assert t[0..|t|] == t;
    TrimAt(t, 0, |t|);
  }

  /** A dash and a blank in front come off again. */
  lemma DashShape(t: string)
    requires Solid(t)
    ensures Solid("- " + t) && Dash("- " + t) && Trim(("- " + t)[1..]) == t
  {
    hide Space, Trim, Indent;
    BlankIsSpace();
    assert ("- " + t)[1..] == Spaces(1) + t;
    LineShape(1, t);
  }

  lemma KeySolid(key: string)
    requires GoodKey(key)
    ensures Solid(key)
  {
  }

  lemma InlineShape(key: string, text: string)
    requires GoodKey(key) && Solid(text)
    ensures var content := key + ": " + text;
            && Solid(content) && content[0] == key[0] && Find(content, ':') == |key|
            && Trim(content[..|key|]) == key && Trim(content[|key| + 1..]) == text
  {
    KeySolid(key);
    hide Trim, Find, Space, Solid, GoodKey;
    var content := key + ": " + text;
    assert content == key + (": " + text);
    KeyColon(key, ": " + text);
    InlineSolid(key, text);
    assert content[|key| + 1..] == Spaces(1) + text;
    TrimSolid(key);
    LineShape(1, text);
  }

  lemma InlineSolid(key: string, text: string)
    requires GoodKey(key) && Solid(text)
    ensures Solid(key + ": " + text)
  {
    KeySolid(key);
    hide Space;
  }

  /** The first colon is the one behind the key. */
  lemma KeyColon(key: string, more: string)
    requires GoodKey(key) && more != "" && more[0] == ':'
    ensures var t := key + more; t[0] == key[0] && t[..|key|] == key && Find(t, ':') == |key|
  {
    hide Find, Space;
    var t := key + more;
    assert t[..|key|] == key;
    FindFirst(t, ':', |key|);
  }

  lemma HeadShape(key: string)
    requires GoodKey(key)
    ensures var content := key + ":";
            && Solid(content) && content[0] == key[0] && Find(content, ':') == |key|
            && Trim(content[..|key|]) == key && Trim(content[|key| + 1..]) == ""
  {
    KeySolid(key);
    hide Trim, Find, Space, GoodKey;
    var content := key + ":";
    KeyColon(key, ":");
    ColonSolid();
    assert content[|key| + 1..] == "";
    TrimSolid(key);
    TrimAt("", 0, 0);
  }

  lemma ColonSolid()
    ensures !Space(':')
  {
  }

  /** `block` stands in `lines` from line k on. */
  ghost predicate At(lines: seq<string>, k: nat, block: seq<string>) {
    k + |block| <= |lines| && forall i | 0 <= i < |block| :: lines[k + i] == block[i]
  }

  lemma AtBoth(lines: seq<string>, k: nat, a: seq<string>, b: seq<string>)
    requires At(lines, k, a + b)
    ensures At(lines, k, a) && At(lines, k + |a|, b)
  {
    forall i | 0 <= i < |a| ensures lines[k + i] == a[i] {
      assert lines[k + i] == (a + b)[i];
    }
    forall i | 0 <= i < |b| ensures lines[k + |a| + i] == b[i] {
      assert lines[k + (|a| + i)] == (a + b)[|a| + i];
    }
  }

  lemma AtHead(lines: seq<string>, k: nat, line: string, rest: seq<string>)
    requires At(lines, k, [line] + rest)
    ensures k < |lines| && lines[k] == line && At(lines, k + 1, rest)
  {
    AtBoth(lines, k, [line], rest);
    assert lines[k + 0] == [line][0];
  }

  // ----- Block sequences ---------------------------------------------------------------------

  /** The first significant line from j on. */
  function Next(lines: seq<string>, j: nat): (s: nat)
    requires j <= |lines|
    ensures j <= s <= |lines|
    decreases |lines| - j
  {
    if j < |lines| && Insignificant(lines[j]) then Next(lines, j + 1) else j
  }

  /** A block sequence read inside a rule ends here. */
  predicate Boundary(lay: Layout, lines: seq<string>, j: nat) {
    j <= |lines| &&
    var s := Next(lines, j);
    s == |lines| || (!Insignificant(lines[s]) && (Indent(lines[s]) <= lay.dash || !Dash(Trim(lines[s]))))
  }

  lemma {:induction false} BoundaryEnds(lay: Layout, lines: seq<string>, j: nat)
    requires Boundary(lay, lines, j)
    ensures Items(lines, j, lay.dash) == Some(([], Next(lines, j)))
    decreases |lines| - j
  {
    hide Insignificant, Indent, Dash, Trim;
    if j < |lines| && Insignificant(lines[j]) {
      BoundaryEnds(lay, lines, j + 1);
    }
  }

  lemma {:induction false} BlanksSkipped(lines: seq<string>, j: nat, st: State)
    requires j <= |lines|
    ensures ParseFrom(lines, j, st) == ParseFrom(lines, Next(lines, j), st)
    decreases |lines| - j
  {
    hide Insignificant, ParseFrom;
    if j < |lines| && Insignificant(lines[j]) {
      BlanksSkipped(lines, j + 1, st);
      ParseByLine(lines, j, st);
    }
  }

  lemma {:induction false} ItemsRead(lay: Layout, lines: seq<string>, k: nat, items: seq<string>, pad: nat)
    requires GoodItems(items) && pad > lay.dash && At(lines, k, ItemLines(items, pad))
    requires Boundary(lay, lines, k + |items|)
    ensures BlockSequence(lines, k, lay.dash) == Some((items, Next(lines, k + |items|)))
  {
    hide Boundary;
    ItemsFrom(lay, lines, k, items, pad, 0);
    assert items[0..] == items;
  }

  lemma {:induction false} ItemsFrom(lay: Layout, lines: seq<string>, k: nat, items: seq<string>, pad: nat, i: nat)
    requires i <= |items| && GoodItems(items) && pad > lay.dash && At(lines, k, ItemLines(items, pad))
    requires Boundary(lay, lines, k + |items|)
    ensures Items(lines, k + i, lay.dash) == Some((items[i..], Next(lines, k + |items|)))
    decreases |items| - i
  {
    hide Boundary, Trim, Indent, Next, Dash, Space;
    if i == |items| {
      BoundaryEnds(lay, lines, k + i);
    } else {
      var line := Spaces(pad) + ("- " + items[i]);
      assert lines[k + i] == ItemLines(items, pad)[i] == line;
      ItemLine(pad, items[i]);
      ItemsFrom(lay, lines, k, items, pad, i + 1);
      assert items[i..] == [items[i]] + items[i + 1..];
    }
  }

  lemma ItemLine(pad: nat, item: string)
    requires Solid(item)
    ensures var line := Spaces(pad) + ("- " + item);
            && !Insignificant(line) && Indent(line) == pad && Dash(Trim(line)) && Trim(Trim(line)[1..]) == item
  {
    hide Trim, Indent, Space;
    DashShape(item);
    LineShape(pad, "- " + item);
  }

  // ----- Fields and rules ----------------------------------------------------------------------

  /** What the reader keeps of a value. */
  function Meant(v: Value): (s: string) {
    match v
    case Inline(text) => Canonical(text)
    case Sequence(items, _) => Canonical("[" + Join(items, ",") + "]")
  }

  function Folded(rule: Rule, fields: seq<Field>, i: nat): (r: Rule)
    decreases |fields| - i
  {
    if i >= |fields| then rule else Folded(rule[fields[i].key := Meant(fields[i].value)], fields, i + 1)
  }

  /** Inside a top-level block whose list items stand at the layout's column. */
  predicate Inside(lay: Layout, st: State) {
    st.inBlock && st.blockIndent == 0 &&
    if st.current.Some? then st.ruleIndent == lay.dash else st.ruleIndent == -1
  }

  function Entered(lay: Layout, st: State, i: nat): (st': State) {
    if i == 0 then Opened(st, lay.dash) else st
  }

  function Put(st: State, f: Field): (st': State)
    requires st.current.Some?
  {
    st.(current := Some(st.current.value[f.key := Meant(f.value)]))
  }

  lemma FieldRead(lay: Layout, lines: seq<string>, k: nat, st: State, i: nat, f: Field)
    requires Inside(lay, st) && (i > 0 ==> st.current.Some?) && GoodField(lay, f)
    requires At(lines, k, FieldLines(lay, i, f)) && Boundary(lay, lines, k + |FieldLines(lay, i, f)|)
    ensures ParseFrom(lines, k, st) == ParseFrom(lines, k + |FieldLines(lay, i, f)|, Put(Entered(lay, st, i), f))
  {
    hide ParseFrom, LineStep, Boundary, At, GoodKey, GoodItems, Solid, FieldLine, ItemLines, Next, Meant, Inside;
    var st' := Put(Entered(lay, st, i), f);
    match f.value
    case Inline(text) =>
      var line := FieldLine(lay, i, f.key + ": " + text);
      assert [line] + [] == FieldLines(lay, i, f);
      AtHead(lines, k, line, []);
      InlineLine(lay, lines, k, st, i, f.key, text);
      ParseByLine(lines, k, st);
    case Sequence(items, pad) =>
      AtHead(lines, k, FieldLine(lay, i, f.key + ":"), ItemLines(items, pad));
      SequenceLine(lay, lines, k, st, i, f.key, items, pad);
      ParseByLine(lines, k, st);
      BlanksSkipped(lines, k + 1 + |items|, st');
  }

  lemma FieldLineRead(lay: Layout, lines: seq<string>, k: nat, st: State, i: nat, content: string)
    requires k < |lines| && lines[k] == FieldLine(lay, i, content) && Solid(content)
    requires content[0] != '-' && content[0] != '#'
    requires Inside(lay, st) && (i > 0 ==> st.current.Some?)
    ensures LineStep(lines, k, st) == FieldStep(lines, k, Entered(lay, st, i), content)
    ensures !Insignificant(lines[k]) && (Indent(lines[k]) <= lay.dash || !Dash(Trim(lines[k])))
  {
    hide Trim, Indent, FieldStep, Space;
    if i == 0 {
      DashShape(content);
      LineShape(lay.dash, "- " + content);
    } else {
      LineShape(lay.field, content);
    }
  }

  lemma InlineLine(lay: Layout, lines: seq<string>, k: nat, st: State, i: nat, key: string, text: string)
    requires Inside(lay, st) && (i > 0 ==> st.current.Some?) && GoodKey(key) && Solid(text)
    requires k < |lines| && lines[k] == FieldLine(lay, i, key + ": " + text)
    ensures LineStep(lines, k, st) == Go(k + 1, Put(Entered(lay, st, i), Field(key, Inline(text))))
  {
    hide Trim, Find, LineStep, FieldLine, Space, Canonical;
    InlineShape(key, text);
    FieldLineRead(lay, lines, k, st, i, key + ": " + text);
  }

  lemma SequenceLine(lay: Layout, lines: seq<string>, k: nat, st: State, i: nat, key: string,
                     items: seq<string>, pad: nat)
    requires Inside(lay, st) && (i > 0 ==> st.current.Some?) && GoodKey(key) && GoodItems(items) && pad > lay.dash
    requires k < |lines| && lines[k] == FieldLine(lay, i, key + ":")
    requires At(lines, k + 1, ItemLines(items, pad)) && Boundary(lay, lines, k + 1 + |items|)
    ensures LineStep(lines, k, st) ==
            Go(Next(lines, k + 1 + |items|), Put(Entered(lay, st, i), Field(key, Sequence(items, pad))))
  {
    hide Trim, Find, LineStep, FieldLine, Space, Canonical, BlockSequence, Next, Boundary, GoodItems, ItemLines, Join;
    HeadShape(key);
    FieldLineRead(lay, lines, k, st, i, key + ":");
    ItemsRead(lay, lines, k + 1, items, pad);
  }

  predicate GoodRule(lay: Layout, fields: seq<Field>) {
    fields != [] && forall i | 0 <= i < |fields| :: GoodField(lay, fields[i])
  }

  lemma FieldStarts(lay: Layout, lines: seq<string>, k: nat, i: nat, f: Field)
    requires GoodField(lay, f) && At(lines, k, FieldLines(lay, i, f))
    ensures Boundary(lay, lines, k)
  {
    hide Trim, Find, Indent, Insignificant, Space;
    var content := if f.value.Inline? then f.key + ": " + f.value.text else f.key + ":";
    if f.value.Inline? {
      InlineShape(f.key, f.value.text);
    } else {
      HeadShape(f.key);
    }
    assert lines[k + 0] == FieldLines(lay, i, f)[0] == FieldLine(lay, i, content);
    FieldLineRead(lay, lines, k, State([], Some(map[]), 0, lay.dash, true), i, content);
  }

  lemma {:induction false} RuleRead(lay: Layout, lines: seq<string>, k: nat, st: State, fields: seq<Field>, i: nat)
    requires 0 < i <= |fields| && GoodRule(lay, fields) && Inside(lay, st) && st.current.Some?
    requires At(lines, k, RuleLines(lay, fields, i)) && Boundary(lay, lines, k + |RuleLines(lay, fields, i)|)
    ensures ParseFrom(lines, k, st) ==
            ParseFrom(lines, k + |RuleLines(lay, fields, i)|, st.(current := Some(Folded(st.current.value, fields, i))))
    decreases |fields| - i
  {
    hide ParseFrom, FieldLines, Boundary, At, GoodField, Folded, RuleLines, Put, Meant;
    RuleUnfolds(lay, fields, i, st);
    if i < |fields| {
      var here, rest := FieldLines(lay, i, fields[i]), RuleLines(lay, fields, i + 1);
      assert |here + rest| == |here| + |rest|;
      AtBoth(lines, k, here, rest);
      RestStarts(lay, lines, k + |here|, fields, i + 1);
      FieldRead(lay, lines, k, st, i, fields[i]);
      RuleRead(lay, lines, k + |here|, Put(st, fields[i]), fields, i + 1);
    }
  }

  lemma RuleUnfolds(lay: Layout, fields: seq<Field>, i: nat, st: State)
    requires i <= |fields| && st.current.Some? && Inside(lay, st)
    ensures i == |fields| ==> RuleLines(lay, fields, i) == [] && Folded(st.current.value, fields, i) == st.current.value
    ensures i < |fields| ==>
              && RuleLines(lay, fields, i) == FieldLines(lay, i, fields[i]) + RuleLines(lay, fields, i + 1)
              && Inside(lay, Put(st, fields[i]))
              && var put := Put(st, fields[i]);
              && put.current.Some? && put == st.(current := put.current)
              && Folded(st.current.value, fields, i) == Folded(put.current.value, fields, i + 1)
  {
    hide Meant, FieldLines;
  }

  lemma RestStarts(lay: Layout, lines: seq<string>, k: nat, fields: seq<Field>, i: nat)
    requires GoodRule(lay, fields) && i <= |fields| && At(lines, k, RuleLines(lay, fields, i))
    requires Boundary(lay, lines, k + |RuleLines(lay, fields, i)|)
    ensures Boundary(lay, lines, k)
  {
    hide FieldLines, Boundary, At, GoodField;
    if i < |fields| {
      AtBoth(lines, k, FieldLines(lay, i, fields[i]), RuleLines(lay, fields, i + 1));
      FieldStarts(lay, lines, k, i, fields[i]);
    }
  }

  function Maps(rules: seq<seq<Field>>): (maps: seq<Rule>) {
    seq(|rules|, r requires 0 <= r < |rules| => Folded(map[], rules[r], 0))
  }

  /** The state after r of the rules. */
  function After(lay: Layout, rules: seq<seq<Field>>, r: nat): (st: State)
    requires r <= |rules|
  {
    if r == 0 then State([], None, 0, -1, true)
    else State(Maps(rules)[..r - 1], Some(Maps(rules)[r - 1]), 0, lay.dash, true)
  }

  predicate GoodRules(lay: Layout, rules: seq<seq<Field>>) {
    forall r | 0 <= r < |rules| :: GoodRule(lay, rules[r])
  }

  lemma RulesStart(lay: Layout, lines: seq<string>, k: nat, rules: seq<seq<Field>>, r: nat)
    requires GoodRules(lay, rules) && r <= |rules| && At(lines, k, RulesLines(lay, rules, r))
    requires Boundary(lay, lines, k + |RulesLines(lay, rules, r)|)
    ensures Boundary(lay, lines, k)
  {
    hide FieldLines, Boundary, At, GoodField;
    if r < |rules| {
      AtBoth(lines, k, RuleLines(lay, rules[r], 0), RulesLines(lay, rules, r + 1));
      AtBoth(lines, k, FieldLines(lay, 0, rules[r][0]), RuleLines(lay, rules[r], 1));
      FieldStarts(lay, lines, k, 0, rules[r][0]);
    }
  }

  lemma {:induction false} RulesRead(lay: Layout, lines: seq<string>, k: nat, rules: seq<seq<Field>>, r: nat)
    requires GoodRules(lay, rules) && r <= |rules|
    requires At(lines, k, RulesLines(lay, rules, r)) && Boundary(lay, lines, k + |RulesLines(lay, rules, r)|)
    ensures ParseFrom(lines, k, After(lay, rules, r)) ==
            ParseFrom(lines, k + |RulesLines(lay, rules, r)|, After(lay, rules, |rules|))
    decreases |rules| - r
  {
    hide ParseFrom, RuleLines, Boundary, At, GoodRule, After;
    if r < |rules| {
      var n := |RuleLines(lay, rules[r], 0)|;
      AtBoth(lines, k, RuleLines(lay, rules[r], 0), RulesLines(lay, rules, r + 1));
      RulesStart(lay, lines, k + n, rules, r + 1);
      OneRuleRead(lay, lines, k, rules, r);
      RulesRead(lay, lines, k + n, rules, r + 1);
    }
  }

  lemma OneRuleRead(lay: Layout, lines: seq<string>, k: nat, rules: seq<seq<Field>>, r: nat)
    requires r < |rules| && GoodRule(lay, rules[r])
    requires At(lines, k, RuleLines(lay, rules[r], 0)) && Boundary(lay, lines, k + |RuleLines(lay, rules[r], 0)|)
    ensures ParseFrom(lines, k, After(lay, rules, r)) ==
            ParseFrom(lines, k + |RuleLines(lay, rules[r], 0)|, After(lay, rules, r + 1))
  {
    hide ParseFrom, FieldLines, Boundary, At, GoodField, Folded, RuleLines, Put, Meant, After, Maps;
    var fields, st := rules[r], After(lay, rules, r);
    AfterNext(lay, rules, r);
    var st1 := Put(Entered(lay, st, 0), fields[0]);
    var here, rest := FieldLines(lay, 0, fields[0]), RuleLines(lay, fields, 1);
    assert |here + rest| == |here| + |rest|;
    AtBoth(lines, k, here, rest);
    RestStarts(lay, lines, k + |here|, fields, 1);
    FieldRead(lay, lines, k, st, 0, fields[0]);
    RuleRead(lay, lines, k + |here|, st1, fields, 1);
  }

  lemma AfterNext(lay: Layout, rules: seq<seq<Field>>, r: nat)
    requires r < |rules| && rules[r] != []
    ensures var fields, st := rules[r], After(lay, rules, r);
            var st1 := Put(Entered(lay, st, 0), fields[0]);
            && RuleLines(lay, fields, 0) == FieldLines(lay, 0, fields[0]) + RuleLines(lay, fields, 1)
            && Inside(lay, st) && Inside(lay, st1) && st1.current.Some?
            && After(lay, rules, r + 1) == st1.(current := Some(Folded(st1.current.value, fields, 1)))
  {
    hide Meant, FieldLines;
    assert Maps(rules)[r] == Folded(map[], rules[r], 0);
    assert r > 0 ==> Maps(rules)[..r] == Maps(rules)[..r - 1] + [Maps(rules)[r - 1]];
  }

  // ----- The surrounding document ---------------------------------------------------------------

  /** What follows is empty, or begins with a line of the top level that is no list item. */
  predicate TopLevel(lines: seq<string>, j: nat) {
    j <= |lines| &&
    var s := Next(lines, j);
    s == |lines| || (!Insignificant(lines[s]) && Indent(lines[s]) == 0 && !Dash(Trim(lines[s])))
  }

  lemma {:induction false} TopLevelShift(lines: seq<string>, n: nat, post: seq<string>, j: nat)
    requires n + |post| == |lines| && lines[n..] == post && j <= |post|
    ensures Next(lines, n + j) == n + Next(post, j)
    decreases |post| - j
  {
    hide Insignificant;
    if j < |post| {
      assert lines[n + j] == post[j];
      TopLevelShift(lines, n, post, j + 1);
    }
  }

  lemma {:induction false} PreSkipped(lines: seq<string>, k: nat, n: nat)
    requires k <= n <= |lines| && forall i | k <= i < n :: Trim(lines[i]) != "portForwards:"
    ensures ParseFrom(lines, k, Start) == ParseFrom(lines, n, Start)
    decreases n - k
  {
    hide ParseFrom, Trim, Indent;
    if k < n {
      ParseByLine(lines, k, Start);
      PreSkipped(lines, k + 1, n);
    }
  }

  lemma HeaderRead(lay: Layout, lines: seq<string>, k: nat, rules: seq<seq<Field>>)
    requires k < |lines| && lines[k] == "portForwards:"
    ensures ParseFrom(lines, k, Start) == ParseFrom(lines, k + 1, After(lay, rules, 0))
  {
    hide ParseFrom, Trim, Indent;
    var header := "portForwards:";
    assert Spaces(0) + header == header && Solid(header);
    LineShape(0, header);
    ParseByLine(lines, k, Start);
  }

  lemma PostEnds(lay: Layout, lines: seq<string>, j: nat, st: State)
    requires TopLevel(lines, j) && Inside(lay, st)
    ensures ParseFrom(lines, j, st) == Ok(Finish(st)) && Boundary(lay, lines, j)
  {
    hide ParseFrom, Trim, Indent, Dash, Insignificant;
    BlanksSkipped(lines, j, st);
    var s := Next(lines, j);
    if s < |lines| {
      ParseByLine(lines, s, st);
    } else {
      ParseEnds(lines, st);
    }
  }

  /**
   Any list of rules, each field in flow or block style, reads back as the maps it
   means, inside any top-level document with no earlier portForwards line.
   */
  lemma RulesReadBack(lay: Layout, pre: seq<string>, rules: seq<seq<Field>>, post: seq<string>)
    requires GoodRules(lay, rules)
    requires forall i | 0 <= i < |pre| :: Trim(pre[i]) != "portForwards:"
    requires TopLevel(post, 0)
    ensures ParseFrom(pre + (["portForwards:"] + RulesLines(lay, rules, 0)) + post, 0, Start) == Ok(Maps(rules))
  {
    hide ParseFrom, Trim, RulesLines, GoodRules, At, TopLevel;
    var body := RulesLines(lay, rules, 0);
    var lines := pre + (["portForwards:"] + body) + post;
    Parts(pre, body, post);
    PostStays(lines, |pre| + 1 + |body|, post);
    BlockAt(pre, body, post);
    ReadBack(lay, lines, |pre|, rules);
  }

  lemma Parts(pre: seq<string>, body: seq<string>, post: seq<string>)
    ensures var lines := pre + (["portForwards:"] + body) + post;
            && |lines| == |pre| + 1 + |body| + |post|
            && lines[|pre|] == "portForwards:" && lines[|pre| + 1 + |body|..] == post
            && forall i | 0 <= i < |pre| :: lines[i] == pre[i]
  {
  }

  lemma ReadBack(lay: Layout, lines: seq<string>, k: nat, rules: seq<seq<Field>>)
    requires GoodRules(lay, rules) && k < |lines| && lines[k] == "portForwards:"
    requires forall i | 0 <= i < k :: Trim(lines[i]) != "portForwards:"
    requires At(lines, k + 1, RulesLines(lay, rules, 0)) && TopLevel(lines, k + 1 + |RulesLines(lay, rules, 0)|)
    ensures ParseFrom(lines, 0, Start) == Ok(Maps(rules))
  {
    hide ParseFrom, Trim, RulesLines, GoodRules, At, Boundary, TopLevel, After, Maps, Finish, Inside;
    PreSkipped(lines, 0, k);
    HeaderRead(lay, lines, k, rules);
    AfterAll(lay, rules);
    PostEnds(lay, lines, k + 1 + |RulesLines(lay, rules, 0)|, After(lay, rules, |rules|));
    RulesRead(lay, lines, k + 1, rules, 0);
  }

  lemma BlockAt(pre: seq<string>, body: seq<string>, post: seq<string>)
    ensures At(pre + (["portForwards:"] + body) + post, |pre| + 1, body)
  {
    var lines := pre + (["portForwards:"] + body) + post;
    forall i | 0 <= i < |body| ensures lines[|pre| + 1 + i] == body[i] {
      assert lines[|pre| + (1 + i)] == (["portForwards:"] + body)[1 + i];
    }
  }

  lemma PostStays(lines: seq<string>, n: nat, post: seq<string>)
    requires n + |post| == |lines| && lines[n..] == post && TopLevel(post, 0)
    ensures TopLevel(lines, n)
  {
    hide Insignificant, Trim, Indent, Dash;
    TopLevelShift(lines, n, post, 0);
    var s := Next(post, 0);
    assert s < |post| ==> lines[n + s] == post[s];
  }

  lemma AfterAll(lay: Layout, rules: seq<seq<Field>>)
    ensures Inside(lay, After(lay, rules, |rules|)) && Finish(After(lay, rules, |rules|)) == Maps(rules)
  {
    assert |rules| > 0 ==> Maps(rules) == Maps(rules)[..|rules| - 1] + [Maps(rules)[|rules| - 1]];
  }

  // ----- Text and lines ---------------------------------------------------------------------------

  /** The lines from i on as text, each but the last ended by CRLF or LF as `crlf` says. */
  function Document(lines: seq<string>, crlf: nat -> bool, i: nat): (t: string)
    decreases |lines| - i
  {
    if i >= |lines| then ""
    else if i == |lines| - 1 then lines[i]
    else lines[i] + ((if crlf(i) then "\r\n" else "\n") + Document(lines, crlf, i + 1))
  }

  /** Each line end becomes a newline, and a clean line stays as it is. */
  lemma {:induction false} LineKept(line: string, rest: string)
    requires Clean(line)
    ensures DropCrLf(line) == line
    ensures DropCrLf(line + ("\n" + rest)) == line + ("\n" + DropCrLf(rest))
    ensures DropCrLf(line + ("\r\n" + rest)) == line + ("\n" + DropCrLf(rest))
  {
    hide DropCrLf;
    EndDropped(rest);
    var lf, crlf, end := "\n" + rest, "\r\n" + rest, "\n" + DropCrLf(rest);
    if line == "" {
      assert line + lf == lf && line + crlf == crlf && line + end == end;
    } else {
      var c, tail := line[0], line[1..];
      LineKept(tail, rest);
      CharKept(c, tail);
      CharKept(c, tail + lf);
      CharKept(c, tail + crlf);
      assert line == [c] + tail;
      Prefixed(c, tail, lf);
      Prefixed(c, tail, crlf);
      Prefixed(c, tail, end);
    }
  }

  lemma Prefixed(c: char, a: string, b: string)
    ensures [c] + (a + b) == [c] + a + b
  {
  }

  lemma EndDropped(rest: string)
    ensures DropCrLf("\n" + rest) == "\n" + DropCrLf(rest) == DropCrLf("\r\n" + rest)
    ensures DropCrLf("") == ""
  {
    CharKept('\n', rest);
    var crlf := "\r\n" + rest;
    assert crlf[0] == '\r' && crlf[1] == '\n' && crlf[2..] == rest;
  }

  lemma CharKept(c: char, rest: string)
    requires c != '\r'
    ensures DropCrLf([c] + rest) == [c] + DropCrLf(rest)
  {
    assert ([c] + rest)[1..] == rest;
  }

  lemma {:induction false} LinesOfDocument(lines: seq<string>, crlf: nat -> bool, i: nat)
    requires i < |lines| && forall j | 0 <= j < |lines| :: Clean(lines[j])
    ensures Lines(DropCrLf(Document(lines, crlf, i))) == lines[i..]
    decreases |lines| - i
  {
    hide Lines, DropCrLf, Clean;
    NoNewline(lines[i]);
    if i == |lines| - 1 {
      LineKept(lines[i], "");
      OneLine(lines[i]);
    } else {
      var rest := Document(lines, crlf, i + 1);
      LineKept(lines[i], rest);
      assert lines[i] + ("\n" + DropCrLf(rest)) == lines[i] + "\n" + DropCrLf(rest);
      LinesCons(lines[i], DropCrLf(rest));
      LinesOfDocument(lines, crlf, i + 1);
    }
  }

  lemma NoNewline(line: string)
    requires Clean(line)
    ensures '\n' !in line
  {
  }

  lemma {:induction false} RuleLinesClean(lay: Layout, fields: seq<Field>, i: nat)
    requires GoodRule(lay, fields)
    ensures forall j | 0 <= j < |RuleLines(lay, fields, i)| :: Clean(RuleLines(lay, fields, i)[j])
    decreases |fields| - i
  {
    if i < |fields| {
      RuleLinesClean(lay, fields, i + 1);
      FieldClean(lay, i, fields[i]);
      hide FieldLines, RuleLines, Clean, GoodField;
      assert RuleLines(lay, fields, i) == FieldLines(lay, i, fields[i]) + RuleLines(lay, fields, i + 1) by {
        RuleByField(lay, fields, i);
      }
    }
  }

  lemma RuleByField(lay: Layout, fields: seq<Field>, i: nat)
    requires i < |fields|
    ensures RuleLines(lay, fields, i) == FieldLines(lay, i, fields[i]) + RuleLines(lay, fields, i + 1)
  {
  }

  lemma FieldClean(lay: Layout, i: nat, f: Field)
    requires GoodField(lay, f)
    ensures forall j | 0 <= j < |FieldLines(lay, i, f)| :: Clean(FieldLines(lay, i, f)[j])
  {
    hide Space, Clean;
    KeySolid(f.key);
    match f.value
    case Inline(text) =>
      CleanPair(f.key, ": ");
      CleanPair(f.key + ": ", text);
      PadClean(lay, i, f.key + ": " + text);
    case Sequence(items, pad) =>
      CleanPair(f.key, ":");
      PadClean(lay, i, f.key + ":");
      forall j | 0 <= j < |items| ensures Clean(ItemLines(items, pad)[j]) {
        DashClean(items[j]);
        SpacesClean(pad, "- " + items[j]);
      }
  }

  lemma CleanPair(a: string, b: string)
    requires Clean(a)
    ensures Clean(": ") && Clean(":")
    ensures Clean(b) ==> Clean(a + b)
  {
  }

  lemma SpacesClean(n: nat, t: string)
    requires Clean(t)
    ensures Clean(Spaces(n) + t)
  {
  }

  lemma PadClean(lay: Layout, i: nat, content: string)
    requires Clean(content)
    ensures Clean(FieldLine(lay, i, content))
  {
    hide Clean, Spaces;
    DashClean(content);
    SpacesClean(lay.dash, "- " + content);
    SpacesClean(lay.field, content);
  }

  lemma DashClean(t: string)
    requires Clean(t)
    ensures Clean("- " + t)
  {
  }

  lemma {:induction false} RulesLinesClean(lay: Layout, rules: seq<seq<Field>>, r: nat)
    requires GoodRules(lay, rules)
    ensures forall j | 0 <= j < |RulesLines(lay, rules, r)| :: Clean(RulesLines(lay, rules, r)[j])
    decreases |rules| - r
  {
    hide RuleLines, Clean, GoodRule;
    if r < |rules| {
      RulesLinesClean(lay, rules, r + 1);
      RuleLinesClean(lay, rules[r], 0);
    }
  }

  // ----- Values -------------------------------------------------------------------------------------

  /** No white space, quote or bracket inside. */
  predicate Plain(t: string) {
    t != "" && forall i | 0 <= i < |t| :: PlainChar(t[i])
  }

  predicate PlainChar(c: char) {
    IsDigit(c) || c == '-' || c == ',' || c == '.' || 'a' <= c <= 'z'
  }

  lemma PlainChars()
    ensures forall c | PlainChar(c) || c == '[' || c == ']' || Quote(c) ::
              !Space(c) && c != '\n' && c != '\r' && c != ' ' && c != '\t'
    ensures forall c | PlainChar(c) || c == '[' || c == ']' :: !Quote(c)
  {
  }

  lemma PlainEach(t: string)
    requires Plain(t)
    ensures t != "" && forall i | 0 <= i < |t| :: PlainChar(t[i])
  {
  }

  lemma PlainSolid(t: string)
    requires Plain(t)
    ensures Solid(t)
  {
    hide Space, Plain, PlainChar;
    PlainChars();
    PlainEach(t);
  }

  /** A plain text means itself, bare or quoted. */
  lemma QuotedMeans(quoting: Quoting, t: string)
    requires Plain(t)
    ensures Solid(Quoted(quoting, t)) && Canonical(Quoted(quoting, t)) == t
  {
    hide Solid, Canonical, Plain, Quote;
    QuoteChars();
    match quoting
    case Bare => BareMeans(t);
    case Single => SurroundedMeans('\'', t);
    case Double => SurroundedMeans('"', t);
  }

  lemma QuoteChars()
    ensures Quote('"') && Quote('\'')
  {
  }

  lemma BareMeans(t: string)
    requires Plain(t)
    ensures Solid(t) && Canonical(t) == t
  {
    hide Trim, DropLeft, DropRight, Space, Solid, PlainChar, Quote, Plain;
    PlainSolid(t);
    PlainEach(t);
    PlainChars();
    TrimSolid(t);
    DropLeftAt(t, Quote, 0);
    DropRightAt(t, Quote, |t|);
    NoBracket();
    assert t[0..] == t && t[..|t|] == t;
  }

  lemma NoBracket()
    ensures !PlainChar('[')
  {
  }

  lemma SurroundedMeans(c: char, t: string)
    requires Plain(t) && Quote(c)
    ensures Solid([c] + t + [c]) && Canonical([c] + t + [c]) == t
  {
    hide Trim, DropLeft, DropRight, Space, Solid, PlainChar, Quote, Plain;
    SurroundedSolid(c, t);
    PlainEach(t);
    PlainChars();
    TrimSolid([c] + t + [c]);
    Unquoted(c, t);
    NoBracket();
  }

  lemma SurroundedSolid(c: char, t: string)
    requires Plain(t) && Quote(c)
    ensures Solid([c] + t + [c])
  {
    hide Space, PlainChar, Plain, Quote;
    PlainChars();
    PlainEach(t);
    var u := [c] + t + [c];
    forall i | 0 <= i < |u| ensures u[i] == c || PlainChar(u[i]) {
      assert 0 < i <= |t| ==> u[i] == t[i - 1];
    }
  }

  lemma Unquoted(c: char, t: string)
    requires Plain(t) && Quote(c)
    ensures DropRight(DropLeft([c] + t + [c], Quote), Quote) == t
  {
    hide DropLeft, DropRight, PlainChar, Plain, Space, Quote;
    PlainEach(t);
    PlainChars();
    var u, rest := [c] + t + [c], t + [c];
    assert u[0] == c && u[1] == t[0] && u[1..] == rest;
    DropLeftAt(u, Quote, 1);
    assert rest[|t| - 1] == t[|t| - 1] && rest[|t|] == c && rest[..|t|] == t;
    DropRightAt(rest, Quote, |t|);
  }

  lemma {:induction false} ReplacedPlain(a: string, b: string, c: char)
    requires c !in a
    ensures Replaced(a + b, c, "") == a + Replaced(b, c, "")
  {
    if a == "" {
      assert a + b == b;
    } else {
      assert (a + b)[1..] == a[1..] + b;
      ReplacedPlain(a[1..], b, c);
    }
  }

  lemma NoneReplaced(a: string, c: char)
    requires c !in a
    ensures Replaced(a, c, "") == a
  {
    ReplacedPlain(a, "", c);
    assert a + "" == a;
  }

  lemma PlainNone(t: string)
    requires Plain(t)
    ensures ' ' !in t && '\t' !in t
  {
    PlainEach(t);
    PlainChars();
    hide Plain, PlainChar;
  }

  /** Flow and block style of one range mean the same. */
  lemma BracketsCanonical(a: string, b: string)
    requires Plain(a) && Plain(b)
    ensures Solid("[" + a + ", " + b + "]") && Solid("[" + a + "," + b + "]")
    ensures Canonical("[" + a + ", " + b + "]") == "[" + a + "," + b + "]" == Canonical("[" + a + "," + b + "]")
  {
    hide Canonical, Solid, Plain, Replaced;
    BracketShape(a, b, ", ");
    BracketShape(a, b, ",");
    PlainNone(a);
    PlainNone(b);
    var flow, head, tail := "[" + a + ", " + b + "]", "[" + a + ",", b + "]";
    assert flow == head + (" " + tail) && "[" + a + "," + b + "]" == head + tail;
    ReplacedPlain(head, " " + tail, ' ');
    BlankGoes(tail);
    NoneReplaced(tail, ' ');
    NoneReplaced(head + tail, ' ');
    NoneReplaced(head + tail, '\t');
  }

  lemma BlankGoes(t: string)
    ensures Replaced(" " + t, ' ', "") == Replaced(t, ' ', "")
  {
    assert (" " + t)[1..] == t;
  }

  lemma BracketShape(a: string, b: string, sep: string)
    requires Plain(a) && Plain(b) && (sep == "," || sep == ", ")
    ensures var t := "[" + a + sep + b + "]";
            Solid(t) && Canonical(t) == Replaced(Replaced(t, ' ', ""), '\t', "")
  {
    BracketSolid(a, b, sep);
    hide Solid, Plain, Replaced, Canonical;
    BracketedCanonical("[" + a + sep + b + "]");
  }

  lemma BracketedCanonical(t: string)
    requires Solid(t) && t[0] == '[' && t[|t| - 1] == ']'
    ensures Canonical(t) == Replaced(Replaced(t, ' ', ""), '\t', "")
  {
    PlainChars();
    hide Trim, DropLeft, DropRight, Space, Replaced, Quote;
    TrimSolid(t);
    DropLeftAt(t, Quote, 0);
    DropRightAt(t, Quote, |t|);
    assert t[0..] == t && t[..|t|] == t;
    assert [t[0]] == t[..1] && t[|t| - 1..] == [t[|t| - 1]];
  }

  lemma BracketSolid(a: string, b: string, sep: string)
    requires Plain(a) && Plain(b) && (sep == "," || sep == ", ")
    ensures Solid("[" + a + sep + b + "]")
  {
    hide Space, PlainChar, Plain, Clean;
    PlainSolid(a);
    PlainSolid(b);
    PlainChars();
    FewClean(a);
    CleanPair("[" + a, sep);
    CleanPair("[" + a + sep, b);
    CleanPair("[" + a + sep + b, "]");
  }

  lemma FewClean(a: string)
    requires Clean(a)
    ensures Clean("[" + a) && Clean(",") && Clean(", ") && Clean("]")
  {
  }

  lemma NumPlain(n: int)
    ensures Plain(Num(n))
  {
  }

  lemma NumInjective(m: int, n: int)
    requires Num(m) == Num(n)
    ensures m == n
  {
    NumSign(m);
    NumSign(n);
    hide Num, Itoa;
    ValueOfItoa(if m < 0 then -m else m);
    ValueOfItoa(if n < 0 then -n else n);
  }

  lemma NumSign(n: int)
    ensures Num(n) != "" && (Num(n)[0] == '-' <==> n < 0)
    ensures if n < 0 then Num(n)[1..] == Itoa(-n) else Num(n) == Itoa(n)
  {
    hide Itoa;
    if n >= 0 {
      assert IsDigit(Itoa(n)[0]);
    }
  }

  /** A range means the same in flow style, with a blank or without, and in block style. */
  lemma RangeMeant(lo: int, hi: int, style: Style)
    ensures Meant(Range(lo, hi, style)) == Bracketed(lo, hi)
    ensures match Range(lo, hi, style)
            case Inline(text) => Solid(text)
            case Sequence(items, _) => GoodItems(items)
  {
    hide Canonical, Solid, Plain, Num, Space, Replaced;
    NumPlain(lo);
    NumPlain(hi);
    PlainSolid(Num(lo));
    PlainSolid(Num(hi));
    BracketsCanonical(Num(lo), Num(hi));
    if style.Block? {
      var items := [Num(lo), Num(hi)];
      assert items[1..] == [Num(hi)];
      assert Join(items, ",") == Num(lo) + "," + Num(hi);
      assert "[" + Join(items, ",") + "]" == "[" + Num(lo) + "," + Num(hi) + "]";
    }
  }

  lemma KeysGood()
    ensures GoodKey("guestPort") && GoodKey("hostPort") && GoodKey("hostIP") && GoodKey("proto")
    ensures GoodKey("guestPortRange") && GoodKey("hostPortRange") && GoodKey("guestIP") && GoodKey("ignore")
  {
    KeyGood("guestPort");
    KeyGood("hostPort");
    KeyGood("hostIP");
    KeyGood("proto");
    KeyGood("guestPortRange");
    KeyGood("hostPortRange");
    KeyGood("guestIP");
    KeyGood("ignore");
  }

  lemma KeyGood(key: string)
    requires key != "" && forall i | 0 <= i < |key| :: 'a' <= key[i] <= 'z' || 'A' <= key[i] <= 'Z'
    ensures GoodKey(key)
  {
  }

  // ----- The contract ---------------------------------------------------------------------------------

  /** Block sequences stand right of the dash of their rule; nothing else is asked of a writer. */
  ghost predicate GoodShape(shape: Shape) {
    forall r, key :: GoodStyle(shape.lay, shape.range(r, key))
  }

  predicate GoodStyle(lay: Layout, style: Style) {
    style.Block? ==> style.pad > lay.dash
  }

  /** What the launcher takes a contract with zero ranges to mean. */
  function Defaulted(p: Contract): (q: Contract) {
    p.(console := Default(p.console, CONSOLE_START), capture := Default(p.capture, CAPTURE_START))
  }

  function Ends(rule: Rule): (r: Rule) {
    rule["hostIP" := "127.0.0.1"]["proto" := "tcp"]
  }

  /** The maps that the printed rules mean. */
  function Meanings(q: Contract): (maps: seq<Rule>) {
    [Ends(map["guestPort" := Num(GUEST_GUI)]["hostPort" := Num(q.gui)]),
     Ends(map["guestPortRange" := Bracketed(CONSOLE_START, CONSOLE_END)]
             ["hostPortRange" := Bracketed(q.console, ConsoleEnd(q))]),
     Ends(map["guestPortRange" := Bracketed(CAPTURE_START, CAPTURE_END)]
             ["hostPortRange" := Bracketed(q.capture, CaptureEnd(q))]),
     map["guestIP" := "127.0.0.1"]["guestPortRange" := Bracketed(1, 65535)]["proto" := "any"]["ignore" := "true"]]
  }

  lemma ScalarMeant(shape: Shape, r: nat, key: string, text: string)
    requires GoodKey(key) && Plain(text)
    ensures var f := Scalar(shape, r, key, text);
            GoodField(shape.lay, f) && f.key == key && Meant(f.value) == text
  {
    hide Canonical, Solid, Plain, GoodKey, Quoted;
    QuotedMeans(shape.quote(r, key), text);
  }

  lemma RangedMeant(shape: Shape, r: nat, key: string, lo: int, hi: int)
    requires GoodKey(key) && GoodShape(shape)
    ensures var f := Ranged(shape, r, key, lo, hi);
            GoodField(shape.lay, f) && f.key == key && Meant(f.value) == Bracketed(lo, hi)
  {
    hide Canonical, Solid, GoodKey, GoodItems, Num, Bracketed, Meant;
    assert GoodStyle(shape.lay, shape.range(r, key));
    RangeMeant(lo, hi, shape.range(r, key));
  }

  lemma PlainWords()
    ensures Plain("127.0.0.1") && Plain("tcp") && Plain("any") && Plain("true")
  {
  }

  lemma FourGood(lay: Layout, a: Field, b: Field, c: Field, d: Field)
    requires GoodField(lay, a) && GoodField(lay, b) && GoodField(lay, c) && GoodField(lay, d)
    ensures GoodRule(lay, [a, b, c, d])
    ensures Folded(map[], [a, b, c, d], 0) ==
            map[a.key := Meant(a.value)][b.key := Meant(b.value)][c.key := Meant(c.value)][d.key := Meant(d.value)]
  {
    hide GoodField, Folded, Meant;
    var fields := [a, b, c, d];
    FoldedFour(fields);
    forall i | 0 <= i < 4 ensures GoodField(lay, fields[i]) {
      assert fields[i] == if i == 0 then a else if i == 1 then b else if i == 2 then c else d;
    }
  }

  lemma GuiRule(q: Contract, shape: Shape)
    ensures var rule := ContractRules(q, shape)[0];
            GoodRule(shape.lay, rule) && Folded(map[], rule, 0) == Meanings(q)[0]
  {
    hide Scalar, GoodRule, GoodField, Folded, Meant, Plain, GoodKey, Num, Bracketed;
    KeysGood();
    PlainWords();
    NumPlain(GUEST_GUI);
    NumPlain(q.gui);
    var a, b := Scalar(shape, 0, "guestPort", Num(GUEST_GUI)), Scalar(shape, 0, "hostPort", Num(q.gui));
    var c, d := Scalar(shape, 0, "hostIP", "127.0.0.1"), Scalar(shape, 0, "proto", "tcp");
    ScalarMeant(shape, 0, "guestPort", Num(GUEST_GUI));
    ScalarMeant(shape, 0, "hostPort", Num(q.gui));
    ScalarMeant(shape, 0, "hostIP", "127.0.0.1");
    ScalarMeant(shape, 0, "proto", "tcp");
    FourGood(shape.lay, a, b, c, d);
  }

  lemma RangeRule(shape: Shape, r: nat, lo: int, hi: int, from: int, to: int)
    requires GoodShape(shape)
    ensures var rule := [Ranged(shape, r, "guestPortRange", lo, hi), Ranged(shape, r, "hostPortRange", from, to),
                         Scalar(shape, r, "hostIP", "127.0.0.1"), Scalar(shape, r, "proto", "tcp")];
            && GoodRule(shape.lay, rule)
            && Folded(map[], rule, 0)
               == Ends(map["guestPortRange" := Bracketed(lo, hi)]["hostPortRange" := Bracketed(from, to)])
  {
    hide Scalar, Ranged, GoodRule, GoodField, GoodShape, Folded, Meant, Plain, GoodKey, Num, Bracketed;
    KeysGood();
    PlainWords();
    var a, b := Ranged(shape, r, "guestPortRange", lo, hi), Ranged(shape, r, "hostPortRange", from, to);
    var c, d := Scalar(shape, r, "hostIP", "127.0.0.1"), Scalar(shape, r, "proto", "tcp");
    RangedMeant(shape, r, "guestPortRange", lo, hi);
    RangedMeant(shape, r, "hostPortRange", from, to);
    ScalarMeant(shape, r, "hostIP", "127.0.0.1");
    ScalarMeant(shape, r, "proto", "tcp");
    FourGood(shape.lay, a, b, c, d);
  }

  lemma IgnoreRule(q: Contract, shape: Shape)
    requires GoodShape(shape)
    ensures var rule := ContractRules(q, shape)[3];
            GoodRule(shape.lay, rule) && Folded(map[], rule, 0) == Meanings(q)[3]
  {
    hide Scalar, Ranged, GoodRule, GoodField, GoodShape, Folded, Meant, Plain, GoodKey, Num, Bracketed;
    KeysGood();
    PlainWords();
    var a, b := Scalar(shape, 3, "guestIP", "127.0.0.1"), Ranged(shape, 3, "guestPortRange", 1, 65535);
    var c, d := Scalar(shape, 3, "proto", "any"), Scalar(shape, 3, "ignore", "true");
    ScalarMeant(shape, 3, "guestIP", "127.0.0.1");
    RangedMeant(shape, 3, "guestPortRange", 1, 65535);
    ScalarMeant(shape, 3, "proto", "any");
    ScalarMeant(shape, 3, "ignore", "true");
    FourGood(shape.lay, a, b, c, d);
  }

  lemma ContractMeans(q: Contract, shape: Shape)
    requires GoodShape(shape)
    ensures GoodRules(shape.lay, ContractRules(q, shape)) && Maps(ContractRules(q, shape)) == Meanings(q)
  {
    GuiRule(q, shape);
    RangeRule(shape, 1, CONSOLE_START, CONSOLE_END, q.console, ConsoleEnd(q));
    RangeRule(shape, 2, CAPTURE_START, CAPTURE_END, q.capture, CaptureEnd(q));
    IgnoreRule(q, shape);
    hide Scalar, Ranged, GoodRule, GoodShape, Folded, Num, Bracketed, Ends;
    var rules, maps := ContractRules(q, shape), Meanings(q);
    assert rules == [rules[0], rules[1], rules[2], rules[3]] && maps == [maps[0], maps[1], maps[2], maps[3]];
    FourMaps(rules[0], rules[1], rules[2], rules[3]);
    FourRules(shape.lay, rules[0], rules[1], rules[2], rules[3]);
  }

  lemma FourMaps(a: seq<Field>, b: seq<Field>, c: seq<Field>, d: seq<Field>)
    ensures Maps([a, b, c, d]) == [Folded(map[], a, 0), Folded(map[], b, 0), Folded(map[], c, 0), Folded(map[], d, 0)]
  {
    hide Folded;
  }

  lemma FourRules(lay: Layout, a: seq<Field>, b: seq<Field>, c: seq<Field>, d: seq<Field>)
    requires GoodRule(lay, a) && GoodRule(lay, b) && GoodRule(lay, c) && GoodRule(lay, d)
    ensures GoodRules(lay, [a, b, c, d])
  {
    hide GoodRule;
    var rules := [a, b, c, d];
    forall r | 0 <= r < 4 ensures GoodRule(lay, rules[r]) {
      assert rules[r] == if r == 0 then a else if r == 1 then b else if r == 2 then c else d;
    }
  }

  lemma FoldedFour(fields: seq<Field>)
    requires |fields| == 4
    ensures Folded(map[], fields, 0) ==
            map[fields[0].key := Meant(fields[0].value)][fields[1].key := Meant(fields[1].value)]
            [fields[2].key := Meant(fields[2].value)][fields[3].key := Meant(fields[3].value)]
  {
    hide Meant;
    var r1: Rule := map[fields[0].key := Meant(fields[0].value)];
    var r2 := r1[fields[1].key := Meant(fields[1].value)];
    var r3 := r2[fields[2].key := Meant(fields[2].value)];
    assert Folded(map[], fields, 0) == Folded(r1, fields, 1);
    assert Folded(r1, fields, 1) == Folded(r2, fields, 2);
    assert Folded(r2, fields, 2) == Folded(r3, fields, 3);
  }

  lemma FixedRanges()
    ensures Bracketed(CONSOLE_START, CONSOLE_END) == "[9000,9049]"
    ensures Bracketed(CAPTURE_START, CAPTURE_END) == "[5500,5529]"
    ensures Bracketed(1, 65535) == "[1,65535]"
  {
    hide Itoa, DigitChar;
    DigitChars();
    FourDigits(9, 0, 0, 0);
    FourDigits(9, 0, 4, 9);
    FourDigits(5, 5, 0, 0);
    FourDigits(5, 5, 2, 9);
    FourDigits(6, 5, 5, 3);
    MoreDigits(6553, 5);
    OneDigit(1);
  }

  lemma DigitChars()
    ensures DigitChar(0) == '0' && DigitChar(1) == '1' && DigitChar(2) == '2' && DigitChar(3) == '3'
    ensures DigitChar(4) == '4' && DigitChar(5) == '5' && DigitChar(6) == '6' && DigitChar(9) == '9'
  {
  }

  lemma OneDigit(d: nat)
    requires d < 10
    ensures Itoa(d) == [DigitChar(d)]
  {
  }

  lemma MoreDigits(n: nat, d: nat)
    requires n > 0 && d < 10
    ensures Itoa(10 * n + d) == Itoa(n) + [DigitChar(d)]
  {
    ItoaUnfolds(10 * n + d);
    hide Itoa;
    assert (10 * n + d) / 10 == n && (10 * n + d) % 10 == d;
  }

  lemma ItoaUnfolds(n: nat)
    ensures Itoa(n) == if n < 10 then [DigitChar(n)] else Itoa(n / 10) + [DigitChar(n % 10)]
  {
    hide DigitChar;
  }

  lemma FourDigits(a: nat, b: nat, c: nat, d: nat)
    requires 0 < a < 10 && b < 10 && c < 10 && d < 10
    ensures Itoa(1000 * a + 100 * b + 10 * c + d) == [DigitChar(a), DigitChar(b), DigitChar(c), DigitChar(d)]
  {
    hide Itoa, DigitChar;
    OneDigit(a);
    MoreDigits(a, b);
    var ab := 10 * a + b;
    MoreDigits(ab, c);
    var abc := 10 * ab + c;
    MoreDigits(abc, d);
    assert 10 * abc + d == 1000 * a + 100 * b + 10 * c + d;
  }

  lemma BracketInjective(lo: int, lo': int, hi: int, hi': int)
    requires Bracketed(lo, hi) == Bracketed(lo', hi')
    ensures lo == lo'
  {
    hide Num, Find, Bracketed;
    CommaAt(lo, hi);
    CommaAt(lo', hi');
    NumInjective(lo, lo');
  }

  lemma CommaAt(lo: int, hi: int)
    ensures var n := Find(Bracketed(lo, hi), ','); n >= 1 && Bracketed(lo, hi)[1..n] == Num(lo)
  {
    NumNoComma(lo);
    hide Num, Find;
    var t := Bracketed(lo, hi);
    var n := 1 + |Num(lo)|;
    assert t[1..n] == Num(lo);
    forall i | 0 <= i < n ensures t[i] != ',' {
      assert i > 0 ==> t[i] == Num(lo)[i - 1];
    }
    FindFirst(t, ',', n);
  }

  lemma NumNoComma(n: int)
    ensures forall i | 0 <= i < |Num(n)| :: Num(n)[i] != ','
  {
  }

  lemma SameRule(rule: Rule)
    ensures RuleEqual(rule, rule)
  {
  }

  /** Two rules that differ in their second field alone are equal exactly when that agrees. */
  lemma SecondFieldDecides(key: string, first: string, second: string, a: string, b: string)
    requires second == "hostPort" || second == "hostPortRange"
    ensures var got, want := Ends(map[key := first][second := a]), Ends(map[key := first][second := b]);
            RuleEqual(got, want) <==> a == b
  {
    var got, want := Ends(map[key := first][second := a]), Ends(map[key := first][second := b]);
    OtherKeys();
    assert got[second] == a && want[second] == b;
    if a == b {
      SameRule(got);
    }
  }

  lemma OtherKeys()
    ensures "hostPort" != "hostIP" && "hostPort" != "proto" && "hostPortRange" != "hostIP" && "hostPortRange" != "proto"
  {
    assert |"hostPort"| == 8 && |"hostPortRange"| == 13 && |"hostIP"| == 6 && |"proto"| == 5;
  }

  lemma ExpectedMeanings(p: Contract)
    ensures ExpectedRules(p) == Meanings(Defaulted(p))
  {
    hide Bracketed, Num;
    FixedRanges();
    assert |ExpectedRules(p)| == 4 == |Meanings(Defaulted(p))|;
    assert forall r | 0 <= r < 4 :: ExpectedRules(p)[r] == Meanings(Defaulted(p))[r];
  }

  /** The reader takes q's rules for p's exactly when q is what p means. */
  lemma RulesDecide(q: Contract, p: Contract)
    ensures (forall i | 0 <= i < 4 :: RuleEqual(Meanings(q)[i], Meanings(p)[i])) <==> q == p
  {
    hide RuleEqual, Bracketed, Num, Ends;
    var a, b := Meanings(q), Meanings(p);
    SecondFieldDecides("guestPort", Num(GUEST_GUI), "hostPort", Num(q.gui), Num(p.gui));
    SecondFieldDecides("guestPortRange", Bracketed(CONSOLE_START, CONSOLE_END), "hostPortRange",
                       Bracketed(q.console, ConsoleEnd(q)), Bracketed(p.console, ConsoleEnd(p)));
    SecondFieldDecides("guestPortRange", Bracketed(CAPTURE_START, CAPTURE_END), "hostPortRange",
                       Bracketed(q.capture, CaptureEnd(q)), Bracketed(p.capture, CaptureEnd(p)));
    SameRule(a[3]);
    if forall i | 0 <= i < 4 :: RuleEqual(a[i], b[i]) {
      assert RuleEqual(a[0], b[0]) && RuleEqual(a[1], b[1]) && RuleEqual(a[2], b[2]);
      NumInjective(q.gui, p.gui);
      BracketInjective(q.console, p.console, ConsoleEnd(q), ConsoleEnd(p));
      BracketInjective(q.capture, p.capture, CaptureEnd(q), CaptureEnd(p));
    }
  }

  /**
   q written in any shape (columns, range styles, quotes), inside any top-level
   document with no earlier portForwards line and with LF or CRLF ends, matches p
   exactly when q is what p means.
   */
  lemma PrintedMatchesExactly(q: Contract, p: Contract, shape: Shape, pre: seq<string>, post: seq<string>,
                              crlf: nat -> bool)
    requires GoodShape(shape) && TopLevel(post, 0)
    requires forall i | 0 <= i < |pre| :: Clean(pre[i]) && Trim(pre[i]) != "portForwards:"
    requires forall i | 0 <= i < |post| :: Clean(post[i])
    ensures MatchesYaml(Document(pre + ContractLines(q, shape) + post, crlf, 0), p) == Ok(q == Defaulted(p))
  {
    hide Clean, Trim, TopLevel, ContractRules, RulesLines, Lines, DropCrLf, Document, ParseFrom, Maps, Meanings,
         ExpectedRules, RuleEqual, GoodRules, GoodShape;
    var rules := ContractRules(q, shape);
    var lines := pre + ContractLines(q, shape) + post;
    ContractMeans(q, shape);
    HeaderClean();
    RulesLinesClean(shape.lay, rules, 0);
    LinesOfDocument(lines, crlf, 0);
    assert lines[0..] == lines;
    RulesReadBack(shape.lay, pre, rules, post);
    ExpectedMeanings(p);
    FourMeanings(q);
    FourMeanings(Defaulted(p));
    RulesDecide(q, Defaulted(p));
  }

  lemma HeaderClean()
    ensures Clean("portForwards:")
  {
  }

  lemma FourMeanings(q: Contract)
    ensures |Meanings(q)| == 4
  {
  }

  lemma ValidIsMeant(p: Contract)
    requires Validate(p).None?
    ensures Defaulted(p) == p
  {
  }

  lemma {:induction false} UnixDocument(lines: seq<string>, i: nat)
    requires i < |lines|
    ensures Document(lines, _ => false, i) == Join(lines[i..], "\n")
    decreases |lines| - i
  {
    if i < |lines| - 1 {
      UnixDocument(lines, i + 1);
      assert lines[i..][1..] == lines[i + 1..];
    }
  }

  /** For valid contracts, what one prints matches the other exactly when they are the same. */
  lemma PrintedAlone(q: Contract, p: Contract)
    requires Validate(p).None?
    ensures MatchesYaml(YamlPortForwards(q), p) == Ok(q == p)
  {
    hide MatchesYaml, ContractRules, RulesLines, Join;
    var lines := ContractLines(q, Printed());
    ValidIsMeant(p);
    UnixDocument(lines, 0);
    assert lines[0..] == lines && [] + lines + [] == lines;
    PrintedMatchesExactly(q, p, Printed(), [], [], _ => false);
  }

  /**
   The same for a config that Lima has saved again, rules at column 0 and ranges as
   block sequences, whatever stands around it.
   */
  lemma ResavedMatchesExactly(q: Contract, p: Contract, pre: seq<string>, post: seq<string>, crlf: nat -> bool)
    requires Validate(p).None? && TopLevel(post, 0)
    requires forall i | 0 <= i < |pre| :: Clean(pre[i]) && Trim(pre[i]) != "portForwards:"
    requires forall i | 0 <= i < |post| :: Clean(post[i])
    ensures MatchesYaml(Document(pre + ContractLines(q, Resaved()) + post, crlf, 0), p) == Ok(q == p)
  {
    hide MatchesYaml, ContractLines, Document, Clean, Trim, TopLevel;
    ValidIsMeant(p);
    PrintedMatchesExactly(q, p, Resaved(), pre, post, crlf);
  }
}
