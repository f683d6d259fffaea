/** The string operations of Go's `strings` package that the models use, on text as characters. */
module Text {
  /** Unicode White_Space, which strings.TrimSpace cuts. */
  predicate Space(c: char) {
    var n := c as int;
    9 <= n <= 13 || n == 0x20 || n == 0x85 || n == 0xA0 || n == 0x1680 || 0x2000 <= n <= 0x200A
    || n == 0x2028 || n == 0x2029 || n == 0x202F || n == 0x205F || n == 0x3000
  }

  function FindFrom(t: string, c: char, i: nat): (r: int)
    requires i <= |t|
    ensures -1 <= r < |t| && (r >= 0 ==> i <= r && t[r] == c)
    ensures forall j | i <= j < (if r < 0 then |t| else r) :: t[j] != c
    decreases |t| - i
  {
    if i == |t| then -1 else if t[i] == c then i else FindFrom(t, c, i + 1)
  }

  /** strings.IndexByte. */
  function Find(t: string, c: char): (i: int)
    ensures -1 <= i < |t| && (i >= 0 ==> t[i] == c)
    ensures forall j | 0 <= j < (if i < 0 then |t| else i) :: t[j] != c
  {
    FindFrom(t, c, 0)
  }

  /** The first character from i on that is not cut. */
  function Begin(t: string, cut: char -> bool, i: nat): (r: nat)
    requires i <= |t|
    ensures i <= r <= |t| && (r < |t| ==> !cut(t[r])) && forall j | i <= j < r :: cut(t[j])
    decreases |t| - i
  {
    if i < |t| && cut(t[i]) then Begin(t, cut, i + 1) else i
  }

  /** Behind the last of the first n characters that is not cut. */
  function End(t: string, cut: char -> bool, n: nat): (r: nat)
    requires n <= |t|
    ensures r <= n && (r > 0 ==> !cut(t[r - 1])) && forall j | r <= j < n :: cut(t[j])
  {
    if n > 0 && cut(t[n - 1]) then End(t, cut, n - 1) else n
  }

  function DropLeft(t: string, cut: char -> bool): (r: string) {
    t[Begin(t, cut, 0)..]
  }

  function DropRight(t: string, cut: char -> bool): (r: string) {
    t[..End(t, cut, |t|)]
  }

  /** strings.TrimSpace. */
  function Trim(t: string): (r: string) {
    var a, b := Begin(t, Space, 0), End(t, Space, |t|);
    if a < b then t[a..b] else ""
  }

  predicate StartsWith(t: string, p: string) {
    p <= t
  }

  predicate EndsWith(t: string, p: string) {
    |p| <= |t| && t[|t| - |p|..] == p
  }

  /** strings.Split at newlines: one line more than there are newlines. */
  function Lines(t: string): (lines: seq<string>)
    ensures lines != []
  {
    var i := Find(t, '\n');
    if i < 0 then [t] else [t[..i]] + Lines(t[i + 1..])
  }

  function Join(parts: seq<string>, sep: string): (t: string) {
    if parts == [] then ""
    else if |parts| == 1 then parts[0]
    else parts[0] + sep + Join(parts[1..], sep)
  }

  function DropCrLf(t: string): (r: string) {
    if |t| < 2 then t
    else if t[0] == '\r' && t[1] == '\n' then "\n" + DropCrLf(t[2..])
    else [t[0]] + DropCrLf(t[1..])
  }

  function Replaced(t: string, from: char, to: string): (r: string) {
    if t == "" then "" else (if t[0] == from then to else [t[0]]) + Replaced(t[1..], from, to)
  }

  // ----- Lines and trimming ----------------------------------------------------------------

  lemma Slice(t: string, a: int, d: int, b: int, c: int)
    requires 0 <= a <= b <= c <= d <= |t|
    ensures t[a..d][b - a..c - a] == t[b..c]
  {
    assert |t[a..d][b - a..c - a]| == c - b == |t[b..c]|;
    assert forall i | 0 <= i < c - b :: t[a..d][b - a..c - a][i] == t[b..c][i];
  }

  lemma DropLeftAt(t: string, cut: char -> bool, n: nat)
    requires n <= |t| && forall i | 0 <= i < n :: cut(t[i])
    requires n == |t| || !cut(t[n])
    ensures DropLeft(t, cut) == t[n..]
  {
    hide Begin;
    assert Begin(t, cut, 0) == n;
  }

  lemma DropRightAt(t: string, cut: char -> bool, n: nat)
    requires n <= |t| && forall i | n <= i < |t| :: cut(t[i])
    requires n == 0 || !cut(t[n - 1])
    ensures DropRight(t, cut) == t[..n]
  {
    hide End;
    assert End(t, cut, |t|) == n;
  }

  /** Trimming takes the white space at both ends and nothing else. */
  lemma TrimAt(t: string, a: nat, b: nat)
    requires a <= b <= |t| && forall i | 0 <= i < a || b <= i < |t| :: Space(t[i])
    requires a < b ==> !Space(t[a]) && !Space(t[b - 1])
    ensures Trim(t) == t[a..b]
  {
    hide Begin, End, Space;
    var x, y := Begin(t, Space, 0), End(t, Space, |t|);
    assert a < b ==> x == a && y == b;
    assert a == b ==> x == |t| && y == 0;
  }

  /** What is trimmed starts and ends with no white space. */
  lemma TrimFound(t: string) returns (a: nat, b: nat)
    ensures a <= b <= |t| && Trim(t) == t[a..b] && forall i | 0 <= i < a || b <= i < |t| :: Space(t[i])
    ensures a < b ==> !Space(t[a]) && !Space(t[b - 1])
  {
    hide Begin, End, Space;
    a, b := Begin(t, Space, 0), End(t, Space, |t|);
    if a >= b {
      b := a;
    }
  }

  lemma FindFirst(t: string, c: char, i: nat)
    requires i < |t| && t[i] == c && forall j | 0 <= j < i :: t[j] != c
    ensures Find(t, c) == i
  {
  }

  lemma LinesCons(line: string, rest: string)
    requires '\n' !in line
    ensures Lines(line + "\n" + rest) == [line] + Lines(rest)
  {
    var t := line + "\n" + rest;
    FindFirst(t, '\n', |line|);
    assert t[..|line|] == line && t[|line| + 1..] == rest;
  }

  lemma {:induction false} JoinOfLines(t: string)
    ensures Join(Lines(t), "\n") == t
    decreases |t|
  {
    var i := Find(t, '\n');
    if i >= 0 {
      JoinOfLines(t[i + 1..]);
      assert t == t[..i] + "\n" + t[i + 1..];
    }
  }

  lemma {:induction false} LinesOfJoin(lines: seq<string>)
    requires lines != [] && forall l | l in lines :: '\n' !in l
    ensures Lines(Join(lines, "\n")) == lines
  {
    hide Lines, Find;
    assert lines[0] in lines;
    if |lines| > 1 {
      var rest := lines[1..];
      assert forall l | l in rest :: l in lines;
      LinesOfJoin(rest);
      LinesCons(lines[0], Join(rest, "\n"));
      assert lines == [lines[0]] + rest;
    } else {
      OneLine(lines[0]);
    }
  }

  lemma OneLine(t: string)
    requires '\n' !in t
    ensures Lines(t) == [t]
  {
  }

  lemma {:induction false} NoNewlines(t: string)
    ensures forall l | l in Lines(t) :: '\n' !in l
    decreases |t|
  {
    var i := Find(t, '\n');
    if i >= 0 {
      NoNewlines(t[i + 1..]);
    }
  }
}
