/** The patterns a map line is read with, as the pieces they match. */
module LineForms {
  import opened Outcomes
  import opened Text
  import opened MapLines

  /** The characters of a path, by ASCII code: letters, digits, underscore, hyphen, full stop, slash. */
  predicate IsPathCode(code: int) {
    97 <= code <= 122 || 65 <= code <= 90 || 48 <= code <= 57 || code == 95 || 45 <= code <= 47
  }

  lemma PathCharsExactly(c: char)
    ensures IsPathChar(c) <==> IsPathCode(c as int)
  {
    WordCharsExactly(c);
  }

  ghost predicate IsPath(p: string) {
    p != "" && forall i :: 0 <= i < |p| ==> IsPathCode(p[i] as int)
  }

  lemma PathIsPathChars(p: string)
    ensures IsPath(p) <==> p != "" && forall i :: 0 <= i < |p| ==> IsPathChar(p[i])
  {
    forall c: char
      ensures IsPathChar(c) <==> IsPathCode(c as int)
    {
      PathCharsExactly(c);
    }
  }

  // ------------------------------------------------------- paths between backticks

  /** The path `s[i + 1..j]` stands between backticks at `i` and `j`. */
  ghost predicate Ticked(s: string, i: int, j: int) {
    0 <= i < j < |s| && s[i] == '`' && s[j] == '`' && IsPath(s[i + 1..j])
  }

  lemma BacktickIsNoPathChar()
    ensures !IsPathChar('`')
  {
  }

  /** The path at the front, when there is one, and where it ends. */
  lemma TickedPathExactly(s: string, j: nat)
    ensures Ticked(s, 0, j) <==> TickedPath(s).Some? && TickedPath(s).value.1 == j + 1
    ensures Ticked(s, 0, j) ==> TickedPath(s).value.0 == s[1..j]
  {
    if 1 < j < |s| {
      PathIsPathChars(s[1..j]);
      var n := RunFrom(s, 1, IsPathChar);
      assert forall k :: 0 <= k < |s| - 1 ==> s[1..][k] == s[1 + k];
      if IsPath(s[1..j]) && s[j] == '`' {
        assert forall k :: 0 <= k < j - 1 ==> s[1..][k] == s[1..j][k];
        assert n == j - 1;
      }
    }
  }

  lemma TickedShifts(s: string, i: nat, j: nat, k: nat)
    requires k <= |s|
    ensures Ticked(s[k..], i, j) <==> Ticked(s, i + k, j + k)
  {
    if i < j && j + k < |s| {
      assert s[k..][i + 1..j] == s[i + k + 1..j + k];
    }
  }

  ghost predicate NoneTicked(s: string, low: int, high: int) {
    forall i, j :: low <= i < high ==> !Ticked(s, i, j)
  }

  /** The first path between backticks from `k` on, trailing slashes dropped. */
  ghost predicate FirstPath(s: string, k: int, path: Option<string>) {
    if path.None? then NoneTicked(s, k, |s|)
    else exists i, j :: k <= i && Ticked(s, i, j) && NoneTicked(s, k, i) && path.value == RStripSlash(s[i + 1..j])
  }

  /** The path after some position is read off what follows it. */
  lemma PathAfter(s: string, from: nat, j: int)
    requires from <= |s|
    ensures Ticked(s, from, j) <==> TickedPath(s[from..]).Some? && j == from + TickedPath(s[from..]).value.1 - 1
    ensures Ticked(s, from, j) ==> TickedPath(s[from..]).value.0 == s[from + 1..j]
  {
    var rest := s[from..];
    if from < j < |s| {
      var n := j - from;
      TickedShifts(s, 0, n, from);
      TickedPathExactly(rest, n);
      assert rest[1..n] == s[from + 1..j];
    }
    if TickedPath(rest).Some? {
      TickedPathExactly(rest, TickedPath(rest).value.1 - 1);
    }
  }

  lemma {:induction false} HeadingPathFrom(s: string, k: nat)
    requires k <= |s|
    ensures FirstPath(s, k, HeadingPath(s[k..]))
    decreases |s| - k
  {
    if k < |s| {
      var next, rest := k + 1, s[k..];
      HeadingPathFrom(s, next);
      assert rest[1..] == s[next..];
      forall j
        ensures Ticked(s, k, j) <==> TickedPath(rest).Some? && j == k + TickedPath(rest).value.1 - 1
      {
        PathAfter(s, k, j);
      }
      if TickedPath(rest).Some? {
        var j := k + TickedPath(rest).value.1 - 1;
        PathAfter(s, k, j);
        PathFound(s, k, k, j, HeadingPath(rest));
      } else {
        PathFurther(s, k, next, HeadingPath(rest));
      }
    }
  }

  lemma PathFound(s: string, k: int, i: int, j: int, path: Option<string>)
    requires k <= i && Ticked(s, i, j) && NoneTicked(s, k, i) && path == Some(RStripSlash(s[i + 1..j]))
    ensures FirstPath(s, k, path)
  {
  }

  lemma PathFurther(s: string, k: int, next: int, path: Option<string>)
    requires next == k + 1 && FirstPath(s, next, path) && forall j :: !Ticked(s, k, j)
    ensures FirstPath(s, k, path)
  {
    if path.Some? {
      var i, j :| next <= i && Ticked(s, i, j) && NoneTicked(s, next, i) && path.value == RStripSlash(s[i + 1..j]);
      NoTickFurther(s, k, next, i);
      PathFound(s, k, i, j, path);
    } else {
      NoTickFurther(s, k, next, |s|);
    }
  }

  lemma NoTickFurther(s: string, k: int, next: int, high: int)
    requires next == k + 1 && NoneTicked(s, next, high) && forall j :: !Ticked(s, k, j)
    ensures NoneTicked(s, k, high)
  {
  }

  lemma HeadingPathExactly(s: string)
    ensures FirstPath(s, 0, HeadingPath(s))
  {
    HeadingPathFrom(s, 0);
    assert s[0..] == s;
  }

  // --------------------------------------------------------------- bold labels

  /** A bold label at `i`, closed at `a`, and spaces up to a parenthesis at `b`. */
  ghost predicate Label(s: string, i: int, a: int, b: int) {
    && 0 <= i && i + 2 < a && a + 2 <= b < |s|
    && s[i] == '*' && s[i + 1] == '*' && s[a] == '*' && s[a + 1] == '*' && s[b] == '('
    && (forall k :: i + 2 <= k < a ==> s[k] != '*')
    && (forall k :: a + 2 <= k < b ==> IsSpace(s[k]))
  }

  /** A label, and in parentheses after it a path between backticks at `t` and `j`. */
  ghost predicate Labelled(s: string, i: int, a: int, t: int, j: int) {
    Label(s, i, a, t - 1) && Ticked(s, t, j) && j + 1 < |s| && s[j + 1] == ')'
  }

  lemma PairAt(s: string, i: nat)
    requires i + 2 <= |s|
    ensures s[i..i + 2] == "**" <==> s[i] == '*' && s[i + 1] == '*'
  {
    assert s[i..i + 2] == [s[i], s[i + 1]];
  }

  lemma LabelIsRead(s: string, a: int, b: int)
    requires Label(s, 0, a, b)
    ensures LabelEnd(s) == Some(b)
  {
    PairAt(s, 0);
    PairAt(s, a);
    assert RunFrom(s, 2, NotStar) == a - 2;
    assert RunFrom(s, a + 2, IsSpace) == b - a - 2;
  }

  lemma ReadIsLabel(s: string) returns (a: nat)
    requires LabelEnd(s).Some?
    ensures Label(s, 0, a, LabelEnd(s).value)
  {
    a := 2 + RunFrom(s, 2, NotStar);
    PairAt(s, 0);
    PairAt(s, a);
  }

  lemma ClosedPathExactly(s: string, from: nat, j: int)
    requires from <= |s|
    ensures Ticked(s, from, j) && j + 1 < |s| && s[j + 1] == ')' ==> ClosedPath(s[from..]) == Some(RStripSlash(s[from + 1..j]))
  {
    PathAfter(s, from, j);
  }

  lemma ReadIsClosed(s: string, from: nat) returns (j: int)
    requires from <= |s| && ClosedPath(s[from..]).Some?
    ensures Ticked(s, from, j) && j + 1 < |s| && s[j + 1] == ')'
  {
    j := from + TickedPath(s[from..]).value.1 - 1;
    PathAfter(s, from, j);
  }

  lemma LabelledIsRead(s: string, a: int, t: int, j: int)
    requires Labelled(s, 0, a, t, j)
    ensures SubsectionAt(s) == Some(RStripSlash(s[t + 1..j]))
  {
    LabelIsRead(s, a, t - 1);
    ClosedPathExactly(s, t, j);
    OpenedIsRead(s, t, RStripSlash(s[t + 1..j]));
  }

  lemma OpenedIsRead(s: string, t: nat, path: string)
    requires 0 < t <= |s| && LabelEnd(s) == Some(t - 1) && ClosedPath(s[t..]) == Some(path)
    ensures SubsectionAt(s) == Some(path)
  {
  }

  lemma ReadIsLabelled(s: string) returns (a: int, t: int, j: int)
    requires SubsectionAt(s).Some?
    ensures Labelled(s, 0, a, t, j)
  {
    a := ReadIsLabel(s);
    t := LabelEnd(s).value + 1;
    j := ReadIsClosed(s, t);
  }

  ghost predicate NoneLabelled(s: string, low: int, high: int) {
    forall i, a, t, j :: low <= i < high ==> !Labelled(s, i, a, t, j)
  }

  ghost predicate LabelledAt(s: string, i: int, dir: string) {
    exists a, t, j :: Labelled(s, i, a, t, j) && dir == RStripSlash(s[t + 1..j])
  }

  /** The first labelled directory from `k` on. */
  ghost predicate FirstLabel(s: string, k: nat, dir: Option<string>) {
    if dir.None? then NoneLabelled(s, k, |s|)
    else exists i :: k <= i && LabelledAt(s, i, dir.value) && NoneLabelled(s, k, i)
  }

  lemma LabelShifts(s: string, a: int, b: int, k: nat)
    requires k <= |s|
    ensures Label(s[k..], 0, a, b) <==> Label(s, k, a + k, b + k)
  {
    var rest := s[k..];
    if 2 < a && a + 2 <= b < |rest| {
      assert forall m :: 0 <= m < |rest| ==> rest[m] == s[m + k];
      assert forall m :: k <= m < |s| ==> s[m] == rest[m - k];
    }
  }

  lemma LabelledShifts(s: string, a: int, t: int, j: int, k: nat)
    requires k <= |s|
    ensures Labelled(s[k..], 0, a, t, j) <==> Labelled(s, k, a + k, t + k, j + k)
    ensures Labelled(s[k..], 0, a, t, j) ==> s[k..][t + 1..j] == s[t + k + 1..j + k]
  {
    LabelShifts(s, a, t - 1, k);
    if t >= 0 && j >= 0 {
      TickedShifts(s, t, j, k);
    }
  }

  lemma LabelThere(s: string, k: nat)
    requires k <= |s| && SubsectionAt(s[k..]).Some?
    ensures LabelledAt(s, k, SubsectionAt(s[k..]).value)
  {
    var rest := s[k..];
    var a, t, j := ReadIsLabelled(rest);
    LabelledIsRead(rest, a, t, j);
    LabelledShifts(s, a, t, j, k);
    assert Labelled(s, k, a + k, t + k, j + k);
  }

  lemma LabelDown(s: string, k: nat, a: int, t: int, j: int)
    requires k <= |s| && Labelled(s, k, a, t, j)
    ensures Labelled(s[k..], 0, a - k, t - k, j - k)
  {
    LabelledShifts(s, a - k, t - k, j - k, k);
  }

  lemma LabelIsSeen(rest: string, a: int, t: int, j: int)
    requires Labelled(rest, 0, a, t, j)
    ensures SubsectionAt(rest).Some?
  {
    LabelledIsRead(rest, a, t, j);
  }

  lemma NoLabelThere(s: string, k: nat, a: int, t: int, j: int)
    requires k <= |s| && SubsectionAt(s[k..]).None?
    ensures !Labelled(s, k, a, t, j)
  {
    if Labelled(s, k, a, t, j) {
      LabelStaysSeen(s, k, a, t, j, s[k..]);
    }
  }

  lemma LabelStaysSeen(s: string, k: nat, a: int, t: int, j: int, rest: string)
    requires k <= |s| && rest == s[k..] && Labelled(s, k, a, t, j)
    ensures SubsectionAt(rest).Some?
  {
    LabelDown(s, k, a, t, j);
    LabelIsSeen(rest, a - k, t - k, j - k);
  }

  lemma LabelFurther(s: string, k: nat, next: nat, dir: Option<string>)
    requires next == k + 1 && FirstLabel(s, next, dir) && forall a, t, j :: !Labelled(s, k, a, t, j)
    ensures FirstLabel(s, k, dir)
  {
    if dir.Some? {
      var i :| next <= i && LabelledAt(s, i, dir.value) && NoneLabelled(s, next, i);
      NoneFurther(s, k, next, i);
      assert k <= i && LabelledAt(s, i, dir.value) && NoneLabelled(s, k, i);
    } else {
      NoneFurther(s, k, next, |s|);
    }
  }

  lemma NoneFurther(s: string, k: int, next: int, high: int)
    requires next == k + 1 && NoneLabelled(s, next, high) && forall a, t, j :: !Labelled(s, k, a, t, j)
    ensures NoneLabelled(s, k, high)
  {
  }

  lemma {:induction false} LabelFrom(s: string, k: nat)
    requires k <= |s|
    ensures FirstLabel(s, k, FindSubsection(s[k..]))
    decreases |s| - k
  {
    if k < |s| {
      var next, rest := k + 1, s[k..];
      LabelFrom(s, next);
      assert rest[1..] == s[next..];
      if SubsectionAt(rest).Some? {
        LabelThere(s, k);
        assert LabelledAt(s, k, FindSubsection(rest).value) && NoneLabelled(s, k, k);
      } else {
        forall a, t, j
          ensures !Labelled(s, k, a, t, j)
        {
          NoLabelThere(s, k, a, t, j);
        }
        LabelFurther(s, k, next, FindSubsection(rest));
      }
    }
  }

  lemma FindSubsectionExactly(s: string)
    ensures FirstLabel(s, 0, FindSubsection(s))
  {
    LabelFrom(s, 0);
    assert s[0..] == s;
  }

  // ---------------------------------------------------------------- code spans

  /** Backticks at `i` and `j` with something and no backtick between them. */
  ghost predicate Span(s: string, i: int, j: int) {
    0 <= i && i + 1 < j < |s| && s[i] == '`' && s[j] == '`' && forall k :: i < k < j ==> s[k] != '`'
  }

  ghost predicate NoSpan(s: string, low: int, high: int) {
    forall i, j :: low <= i < high ==> !Span(s, i, j)
  }

  /** The spans from `k` on: each the first after the end of the one before it. */
  ghost predicate Finds(s: string, k: int, spans: seq<string>)
    decreases |spans|
  {
    if spans == [] then NoSpan(s, k, |s|)
    else exists i, j, next :: k <= i && NoSpan(s, k, i) && Span(s, i, j) && s[i + 1..j] == spans[0]
                           && next == j + 1 && Finds(s, next, spans[1..])
  }

  lemma SpanHere(s: string, k: nat, n: nat)
    requires k < |s| && n == (if s[k] == '`' then RunFrom(s, k + 1, NotTick) else 0)
    ensures n > 0 && k + 1 + n < |s| ==> Span(s, k, k + 1 + n)
    ensures n == 0 || k + 1 + n == |s| ==> forall j :: !Span(s, k, j)
  {
    if s[k] == '`' && n > 0 && k + 1 + n == |s| {
      forall j
        ensures !Span(s, k, j)
      {
        assert k < j < |s| ==> NotTick(s[j]);
      }
    }
    if s[k] == '`' && n == 0 && k + 1 < |s| {
      assert s[k + 1] == '`';
    }
  }

  lemma {:induction false} RunFromShifts(s: string, k: nat, i: nat, p: char -> bool)
    requires k + i <= |s|
    ensures RunFrom(s[k..], i, p) == RunFrom(s, k + i, p)
    decreases |s| - k - i
  {
    if k + i < |s| {
      RunFromShifts(s, k, i + 1, p);
    }
  }

  lemma FindsNext(s: string, k: nat, i: nat, j: nat, next: nat, spans: seq<string>)
    requires k <= i && NoSpan(s, k, i) && Span(s, i, j) && next == j + 1 && Finds(s, next, spans)
    ensures Finds(s, k, [s[i + 1..j]] + spans)
  {
    var all := [s[i + 1..j]] + spans;
    assert all[1..] == spans;
    assert k <= i && NoSpan(s, k, i) && Span(s, i, j) && s[i + 1..j] == all[0] && next == j + 1 && Finds(s, next, all[1..]);
  }

  lemma FindsFurther(s: string, k: nat, next: nat, spans: seq<string>)
    requires next == k + 1 && Finds(s, next, spans) && forall j :: !Span(s, k, j)
    ensures Finds(s, k, spans)
  {
    if spans != [] {
      var i, j, after :| next <= i && NoSpan(s, next, i) && Span(s, i, j) && s[i + 1..j] == spans[0]
                      && after == j + 1 && Finds(s, after, spans[1..]);
      assert NoSpan(s, k, i);
      assert [s[i + 1..j]] + spans[1..] == spans;
      FindsNext(s, k, i, j, after, spans[1..]);
    }
  }

  lemma SpanThenRest(s: string, k: nat, j: nat)
    requires Span(s, k, j)
    ensures CodeSpans(s[k..]) == [s[k + 1..j]] + CodeSpans(s[j + 1..])
  {
    var rest, end := s[k..], j - k;
    RunFromShifts(s, k, 1, NotTick);
    SpanEnd(s, k, j);
    SpanInFront(rest, end);
    assert rest[end + 1..] == s[j + 1..] && rest[1..end] == s[k + 1..j];
  }

  lemma SpanEnd(s: string, k: nat, j: nat)
    requires Span(s, k, j)
    ensures RunFrom(s, k + 1, NotTick) == j - k - 1
  {
  }

  lemma SpanInFront(rest: string, end: nat)
    requires 1 < end < |rest| && rest[0] == '`' && RunFrom(rest, 1, NotTick) == end - 1
    ensures CodeSpans(rest) == [rest[1..end]] + CodeSpans(rest[end + 1..])
  {
  }

  lemma NoSpanInFront(rest: string)
    requires rest != "" && (rest[0] == '`' ==> RunFrom(rest, 1, NotTick) == 0 || 1 + RunFrom(rest, 1, NotTick) == |rest|)
    ensures CodeSpans(rest) == CodeSpans(rest[1..])
  {
  }

  lemma {:induction false} CodeSpansFrom(s: string, k: nat)
    requires k <= |s|
    ensures Finds(s, k, CodeSpans(s[k..]))
    decreases |s| - k
  {
    if k < |s| {
      var n := if s[k] == '`' then RunFrom(s, k + 1, NotTick) else 0;
      SpanHere(s, k, n);
      var j := k + 1 + n;
      if n == 0 || j == |s| {
        CodeSpansFrom(s, k + 1);
        FindsPast(s, k, k + 1);
      } else {
        CodeSpansFrom(s, j + 1);
        FindsHere(s, k, j, j + 1);
      }
    }
  }

  lemma FindsPast(s: string, k: nat, next: nat)
    requires next == k + 1 <= |s| && Finds(s, next, CodeSpans(s[next..])) && forall j :: !Span(s, k, j)
    requires s[k] == '`' ==> RunFrom(s, next, NotTick) == 0 || next + RunFrom(s, next, NotTick) == |s|
    ensures Finds(s, k, CodeSpans(s[k..]))
  {
    var rest := s[k..];
    RunFromShifts(s, k, 1, NotTick);
    NoSpanInFront(rest);
    assert rest[1..] == s[next..];
    FindsFurther(s, k, next, CodeSpans(s[next..]));
  }

  lemma FindsHere(s: string, k: nat, j: nat, next: nat)
    requires Span(s, k, j) && next == j + 1 && Finds(s, next, CodeSpans(s[next..]))
    ensures Finds(s, k, CodeSpans(s[k..]))
  {
    SpanThenRest(s, k, j);
    FindsNext(s, k, k, j, next, CodeSpans(s[next..]));
  }

  /** The code spans are found from left to right, none overlapping. */
  lemma CodeSpansExactly(s: string)
    ensures Finds(s, 0, CodeSpans(s))
  {
    CodeSpansFrom(s, 0);
    assert s[0..] == s;
  }

  /** A path that ends in .py. */
  lemma PyPathExactly(s: string)
    ensures IsPyPath(s) <==> exists stem :: IsPath(stem) && s == stem + ".py"
  {
    PathIsPathChars(s);
    if IsPyPath(s) {
      var stem := s[..|s| - 3];
      PathIsPathChars(stem);
      assert s == stem + ".py";
      assert IsPath(stem);
    }
    forall stem | IsPath(stem) && s == stem + ".py"
      ensures IsPyPath(s)
    {
      PathIsPathChars(stem);
      assert IsPathChar('.') && IsPathChar('p') && IsPathChar('y');
    }
  }

  /** `t` is `s` without the spaces around it. */
  ghost predicate Trims(s: string, t: string) {
    exists i, j :: 0 <= i <= j <= |s| && t == s[i..j] && (forall k :: 0 <= k < i || j <= k < |s| ==> IsSpace(s[k]))
                && (i < j ==> !IsSpace(s[i]) && !IsSpace(s[j - 1]))
  }

  /** A code span names a file when, trimmed and with its backslashes turned, it is a path that ends in .py. */
  ghost predicate Names(span: string, path: string) {
    && |path| > 3 && IsPath(path[..|path| - 3]) && path[|path| - 3..] == ".py"
    && exists t :: Trims(span, t) && Turned(t, path)
  }

  ghost predicate Turned(t: string, path: string) {
    |t| == |path| && forall i :: 0 <= i < |t| ==> path[i] == if t[i] == '\\' then '/' else t[i]
  }

  lemma TurnedExactly(t: string, path: string)
    ensures Turned(t, path) <==> path == Slashes(t)
  {
    if Turned(t, path) {
      assert path == Slashes(t);
    }
  }

  /** The files named, in the order of the spans. */
  ghost predicate AllNamed(spans: seq<string>, paths: seq<string>)
    decreases |spans|
  {
    if spans == [] then paths == []
    else if exists path :: Names(spans[0], path) then
      paths != [] && Names(spans[0], paths[0]) && AllNamed(spans[1..], paths[1..])
    else AllNamed(spans[1..], paths)
  }

  lemma TrimsExactly(s: string, t: string)
    ensures Trims(s, t) <==> t == Strip(s)
  {
    var i, j := StripIsTrim(s);
    assert Trims(s, s[i..j]);
    if Trims(s, t) {
      var a, b :| 0 <= a <= b <= |s| && t == s[a..b] && (forall k :: 0 <= k < a || b <= k < |s| ==> IsSpace(s[k]))
               && (a < b ==> !IsSpace(s[a]) && !IsSpace(s[b - 1]));
      if i < j && a < b {
        assert a == i && b == j;
      }
    }
  }

  lemma StemExactly(path: string)
    ensures IsPyPath(path) <==> |path| > 3 && IsPath(path[..|path| - 3]) && path[|path| - 3..] == ".py"
  {
    PyPathExactly(path);
    if IsPyPath(path) {
      var stem :| IsPath(stem) && path == stem + ".py";
      assert stem == path[..|path| - 3];
    }
    if |path| > 3 && path[|path| - 3..] == ".py" {
      assert path == path[..|path| - 3] + ".py";
    }
  }

  lemma NamesExactly(span: string, path: string)
    ensures Names(span, path) <==> path == Slashes(Strip(span)) && IsPyPath(path)
  {
    var t := Strip(span);
    StemExactly(path);
    TrimsExactly(span, t);
    TurnedExactly(t, path);
    if Names(span, path) {
      var u :| Trims(span, u) && Turned(u, path);
      TrimsExactly(span, u);
    }
  }

  lemma {:induction false} PyTokensExactly(spans: seq<string>)
    ensures AllNamed(spans, PyTokens(spans))
  {
    if spans != [] {
      PyTokensExactly(spans[1..]);
      var candidate := Slashes(Strip(spans[0]));
      forall path
        ensures Names(spans[0], path) <==> path == candidate && IsPyPath(path)
      {
        NamesExactly(spans[0], path);
      }
      if IsPyPath(candidate) {
        assert PyTokens(spans)[1..] == PyTokens(spans[1..]);
      } else {
        assert PyTokens(spans) == PyTokens(spans[1..]);
      }
    }
  }

  // -------------------------------------------------------------- the whole line

  /** One to six hashes and a space. */
  ghost predicate HeadingAt(line: string, level: int) {
    1 <= level <= 6 && level < |line| && (forall i :: 0 <= i < level ==> line[i] == '#') && IsSpace(line[level])
  }

  ghost predicate IsHeadingLine(line: string) {
    exists level :: HeadingAt(line, level)
  }

  /** A bar, with nothing but spaces before it. */
  ghost predicate IsRowLine(line: string) {
    exists i :: 0 <= i < |line| && line[i] == '|' && forall k :: 0 <= k < i ==> IsSpace(line[k])
  }

  /** What a line is, by the pieces it is made of. */
  ghost predicate Reads(line: string, what: Line) {
    match what
    case Heading(level, path) => HeadingAt(line, level) && FirstPath(line, 0, path)
    case Subsection(dir) => !IsHeadingLine(line) && FirstLabel(line, 0, Some(dir))
    case Row(tokens) =>
      && !IsHeadingLine(line) && FirstLabel(line, 0, None) && IsRowLine(line)
      && exists spans :: Finds(line, 0, spans) && AllNamed(spans, tokens)
    case Plain => !IsHeadingLine(line) && FirstLabel(line, 0, None) && !IsRowLine(line)
  }

  lemma HeadingExactly(line: string, level: nat)
    requires level == RunOf(line, IsHash)
    ensures IsHeadingLine(line) <==> 1 <= level <= 6 && level < |line| && IsSpace(line[level])
    ensures IsHeadingLine(line) ==> HeadingAt(line, level)
  {
    if IsHeadingLine(line) {
      var k :| HeadingAt(line, k);
      assert !IsHash(line[k]);
      assert k == level;
    } else {
      assert !HeadingAt(line, level);
    }
  }

  /** Hashes and spaces in front hold no path. */
  lemma PathPastSpaces(line: string, from: nat, path: Option<string>)
    requires from <= |line| && FirstPath(line[from..], 0, path)
    requires forall i :: 0 <= i < from ==> line[i] != '`'
    ensures FirstPath(line, 0, path)
  {
    if path.Some? {
      SomePathPast(line, from, path.value);
    } else {
      NoneBefore(line, from, |line| - from);
    }
  }

  lemma SomePathPast(line: string, from: nat, path: string)
    requires from <= |line| && FirstPath(line[from..], 0, Some(path))
    requires forall i :: 0 <= i < from ==> line[i] != '`'
    ensures FirstPath(line, 0, Some(path))
  {
    var i, j := PathPlace(line[from..], path);
    PathMoved(line, from, i, j, i + from, j + from, path);
  }

  lemma PathPlace(s: string, path: string) returns (i: int, j: int)
    requires FirstPath(s, 0, Some(path))
    ensures 0 <= i && Ticked(s, i, j) && NoneTicked(s, 0, i) && path == RStripSlash(s[i + 1..j])
  {
    i, j :| 0 <= i && Ticked(s, i, j) && NoneTicked(s, 0, i) && path == RStripSlash(s[i + 1..j]);
  }

  lemma PathMoved(line: string, from: nat, i: nat, j: nat, m: nat, n: nat, path: string)
    requires from <= |line| && Ticked(line[from..], i, j) && NoneTicked(line[from..], 0, i)
    requires m == i + from && n == j + from && path == RStripSlash(line[from..][i + 1..j])
    requires forall k :: 0 <= k < from ==> line[k] != '`'
    ensures FirstPath(line, 0, Some(path))
  {
    TickedShifts(line, i, j, from);
    NoneBefore(line, from, i);
    assert line[from..][i + 1..j] == line[m + 1..n];
    PathFound(line, 0, m, n, Some(path));
  }

  lemma NoneBefore(line: string, from: nat, i: nat)
    requires from <= |line| && i <= |line| - from && NoneTicked(line[from..], 0, i)
    requires forall k :: 0 <= k < from ==> line[k] != '`'
    ensures NoneTicked(line, 0, i + from)
  {
    forall m, n | 0 <= m < i + from
      ensures !Ticked(line, m, n)
    {
      if m >= from && n >= from {
        TickedShifts(line, m - from, n - from, from);
      }
    }
  }

  lemma RowLineExactly(line: string)
    ensures IsRowLine(line) <==> StripLeft(line) != "" && StripLeft(line)[0] == '|'
  {
    var body := StripLeft(line);
    var n := |line| - |body|;
    StripLeftExactly(line);
    if body != "" {
      assert body[0] == line[n];
    }
    forall i | 0 <= i < |line| && line[i] == '|' && forall k :: 0 <= k < i ==> IsSpace(line[k])
      ensures i == n
    {
    }
  }

  /** Every line is read as what it is. */
  lemma ClassifyExactly(line: string)
    ensures Reads(line, Classify(line))
  {
    var level := RunOf(line, IsHash);
    HeadingExactly(line, level);
    if IsHeadingLine(line) {
      HeadingPathRead(line, level);
    } else {
      FindSubsectionExactly(line);
      if FindSubsection(line).None? {
        UnlabelledExactly(line);
      }
    }
  }

  lemma UnlabelledExactly(line: string)
    requires !IsHeadingLine(line) && FirstLabel(line, 0, None)
    ensures var body := StripLeft(line);
            Reads(line, if body != "" && body[0] == '|' then Row(PyTokens(CodeSpans(line))) else Plain)
  {
    RowLineExactly(line);
    CodeSpansExactly(line);
    PyTokensExactly(CodeSpans(line));
  }

  lemma HeadingPathRead(line: string, level: nat)
    requires HeadingAt(line, level)
    ensures FirstPath(line, 0, HeadingPath(StripLeft(line[level..])))
  {
    var gap := line[level..];
    var text := StripLeft(gap);
    StripLeftExactly(gap);
    var from := |line| - |text|;
    HeadingPathExactly(text);
    assert text == line[from..];
    forall i | 0 <= i < from
      ensures line[i] != '`'
    {
      if i >= level {
        assert gap[i - level] == line[i];
      }
    }
    PathPastSpaces(line, from, HeadingPath(text));
  }
}
