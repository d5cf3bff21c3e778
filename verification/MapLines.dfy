/** What one line of a structural map is: a heading, a labelled subsection, a table row, or anything else. */
module MapLines {
  import opened Outcomes
  import opened Text

  datatype Line =
    | Heading(level: nat, path: Option<string>)
    | Subsection(dir: string)
    | Row(tokens: seq<string>)
    | Plain

  // ------------------------------------------------------------------ scanning

  predicate IsPathChar(c: char) {
    IsWordChar(c) || c == '.' || c == '/' || c == '-'
  }

  predicate NotStar(c: char) {
    c != '*'
  }

  predicate NotTick(c: char) {
    c != '`'
  }

  predicate IsHash(c: char) {
    c == '#'
  }

  /** How many leading characters satisfy `p`. */
  function RunOf(s: string, p: char -> bool): (n: nat)
    ensures n <= |s| && (forall i :: 0 <= i < n ==> p(s[i])) && (n < |s| ==> !p(s[n]))
  {
    if s == "" || !p(s[0]) then 0 else 1 + RunOf(s[1..], p)
  }

  lemma RunOfAll(a: string, b: string, p: char -> bool)
    requires (forall i :: 0 <= i < |a| ==> p(a[i])) && (b == "" || !p(b[0]))
    ensures RunOf(a + b, p) == |a|
  {
    assert b != "" ==> (a + b)[|a|] == b[0];
    assert forall i :: 0 <= i < |a| ==> p((a + b)[i]);
  }

  lemma RunWithin(a: string, b: string, p: char -> bool)
    requires b != "" && !p(b[0])
    ensures RunOf(a + b, p) <= |a|
  {
    assert (a + b)[|a|] == b[0];
  }

  function RunFrom(s: string, i: nat, p: char -> bool): (n: nat)
    requires i <= |s|
    ensures i + n <= |s| && (forall k :: i <= k < i + n ==> p(s[k])) && (i + n < |s| ==> !p(s[i + n]))
    decreases |s| - i
  {
    if i == |s| || !p(s[i]) then 0 else 1 + RunFrom(s, i + 1, p)
  }

  function RStripSlash(s: string): (r: string)
    ensures r <= s && (r == "" || r[|r| - 1] != '/') && forall i :: |r| <= i < |s| ==> s[i] == '/'
  {
    if s != "" && s[|s| - 1] == '/' then RStripSlash(s[..|s| - 1]) else s
  }

  /** A non-empty path between backticks at the front, and where it ends. */
  function TickedPath(s: string): Option<(string, nat)> {
    if s == "" || s[0] != '`' then None else
      var n := RunFrom(s, 1, IsPathChar);
      var end := 1 + n;
      if n == 0 || end == |s| || s[end] != '`' then None else Some((s[1..end], end + 1))
  }

  /** The first path between backticks, trailing slashes dropped. */
  function HeadingPath(s: string): Option<string>
    decreases |s|
  {
    if s == "" then None else
      var p := TickedPath(s);
      if p.Some? then Some(RStripSlash(p.value.0)) else HeadingPath(s[1..])
  }

  /** A bold label at the front, spaces or none, and where the parenthesis after it opens. */
  function LabelEnd(s: string): Option<nat> {
    if |s| < 2 || s[..2] != "**" then None else
      var bold := RunFrom(s, 2, NotStar);
      var close := 2 + bold;
      if bold == 0 || close + 2 > |s| || s[close..close + 2] != "**" then None else
        var open := close + 2 + RunFrom(s, close + 2, IsSpace);
        if open == |s| || s[open] != '(' then None else Some(open)
  }

  /** A path between backticks, closed by a parenthesis. */
  function ClosedPath(s: string): Option<string> {
    var p := TickedPath(s);
    if p.None? || p.value.1 >= |s| || s[p.value.1] != ')' then None else Some(RStripSlash(p.value.0))
  }

  /** A bold label at the front and the directory in parentheses after it. */
  function SubsectionAt(s: string): Option<string> {
    var open := LabelEnd(s);
    if open.None? || open.value >= |s| then None else
      var inside := open.value + 1;
      ClosedPath(s[inside..])
  }

  function FindSubsection(s: string): Option<string>
    decreases |s|
  {
    if s == "" then None else
      var d := SubsectionAt(s);
      if d.Some? then d else FindSubsection(s[1..])
  }

  /** The code spans of a line, left to right. */
  function CodeSpans(s: string): seq<string>
    decreases |s|
  {
    if s == "" then [] else
      var n := if s[0] == '`' then RunFrom(s, 1, NotTick) else 0;
      var end := 1 + n;
      if n == 0 || end == |s| then CodeSpans(s[1..]) else [s[1..end]] + CodeSpans(s[end + 1..])
  }

  predicate IsPyPath(s: string) {
    |s| > 3 && s[|s| - 3..] == ".py" && forall i :: 0 <= i < |s| ==> IsPathChar(s[i])
  }

  function Slashes(s: string): (r: string)
    ensures |r| == |s| && '\\' !in r
    ensures forall i :: 0 <= i < |s| ==> r[i] == s[i] || (s[i] == '\\' && r[i] == '/')
  {
    seq(|s|, i requires 0 <= i < |s| => if s[i] == '\\' then '/' else s[i])
  }

  function PyTokens(spans: seq<string>): seq<string> {
    if spans == [] then [] else
      var candidate := Slashes(Strip(spans[0]));
      (if IsPyPath(candidate) then [candidate] else []) + PyTokens(spans[1..])
  }

  function Classify(line: string): Line {
    var hashes := RunOf(line, IsHash);
    if 1 <= hashes <= 6 && hashes < |line| && IsSpace(line[hashes]) then
      Heading(hashes, HeadingPath(StripLeft(line[hashes..])))
    else
      var found := FindSubsection(line);
      if found.Some? then Subsection(found.value)
      else
        var body := StripLeft(line);
        if body != "" && body[0] == '|' then Row(PyTokens(CodeSpans(line))) else Plain
  }

  lemma BlankIsPlain()
    ensures Classify("") == Plain
  {
  }
}
