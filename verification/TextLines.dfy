/** Splitting a text into lines and joining lines again; a line ends at a newline character. */
module TextLines {
  /** Where the first line ends. */
  function LineEnd(text: string): (n: nat)
    ensures n <= |text| && '\n' !in text[..n] && (n < |text| ==> text[n] == '\n')
  {
    if text == "" || text[0] == '\n' then 0 else
      var n := LineEnd(text[1..]);
      assert text[..n + 1] == [text[0]] + text[1..][..n];
      1 + n
  }

  function Lines(text: string): seq<string>
    decreases |text|
  {
    if text == "" then [] else
      var n := LineEnd(text);
      var next := n + 1;
      if n == |text| then [text] else [text[..n]] + Lines(text[next..])
  }

  function JoinLines(lines: seq<string>): string {
    if lines == [] then ""
    else if |lines| == 1 then lines[0]
    else lines[0] + ("\n" + JoinLines(lines[1..]))
  }

  predicate EndsWithNewline(text: string) {
    text != "" && text[|text| - 1] == '\n'
  }

  /** Lines written back, with a final newline or without. */
  function Rejoin(lines: seq<string>, newline: bool): string {
    if newline then JoinLines(lines) + "\n" else JoinLines(lines)
  }

  ghost predicate NoNewlines(lines: seq<string>) {
    forall i :: 0 <= i < |lines| ==> '\n' !in lines[i]
  }

  lemma {:induction false} LinesHaveNoNewlines(text: string)
    ensures NoNewlines(Lines(text))
    decreases |text|
  {
    if text != "" {
      var n := LineEnd(text);
      assert text[..|text|] == text;
      if n < |text| {
        var next := n + 1;
        LinesHaveNoNewlines(text[next..]);
      }
    }
  }

  lemma {:induction false} FirstLineEnds(line: string, rest: string)
    requires '\n' !in line
    ensures LineEnd(line + ("\n" + rest)) == |line| && LineEnd(line) == |line|
  {
    if line != "" {
      FirstLineEnds(line[1..], rest);
      assert (line + ("\n" + rest))[1..] == line[1..] + ("\n" + rest);
    }
  }

  lemma LineThenRest(line: string, rest: string)
    requires '\n' !in line
    ensures Lines(line + ("\n" + rest)) == [line] + Lines(rest)
  {
    var text, next := line + ("\n" + rest), |line| + 1;
    FirstLineEnds(line, rest);
    assert text[..|line|] == line && text[next..] == rest;
  }

  /** Two lists of lines that differ at most by one blank line at the end. */
  predicate SameButBlank(a: seq<string>, b: seq<string>) {
    a == b || a == b + [""] || a + [""] == b
  }

  lemma OneLine(line: string)
    requires '\n' !in line
    ensures Lines(line) == (if line == "" then [] else [line])
    ensures Lines(line + "\n") == [line]
  {
    FirstLineEnds(line, "");
    LineThenRest(line, "");
    assert line + ("\n" + "") == line + "\n";
    assert line[..|line|] == line;
  }

  lemma JoinFirst(line: string, rest: seq<string>, newline: bool)
    ensures rest != [] ==> Rejoin([line] + rest, newline) == line + ("\n" + Rejoin(rest, newline))
    ensures rest == [] ==> Rejoin([line] + rest, newline) == if newline then line + "\n" else line
  {
    assert ([line] + rest)[1..] == rest;
  }

  lemma SameButBlankAfter(line: string, a: seq<string>, b: seq<string>)
    requires SameButBlank(a, b)
    ensures SameButBlank([line] + a, [line] + b)
  {
    assert [line] + (a + [""]) == [line] + a + [""] && [line] + (b + [""]) == [line] + b + [""];
  }

  /** Splitting what was joined gives the lines back, but for a blank line at the end. */
  lemma {:induction false} LinesOfRejoined(lines: seq<string>, newline: bool)
    requires NoNewlines(lines)
    ensures SameButBlank(Lines(Rejoin(lines, newline)), lines)
  {
    if lines == [] {
      OneLine("");
      assert "" + "\n" == "\n";
      assert [] + [""] == [""];
    } else {
      var line, rest := lines[0], lines[1..];
      assert lines == [line] + rest;
      JoinFirst(line, rest, newline);
      if rest == [] {
        OneLine(line);
        assert [] + [""] == [""];
      } else {
        LinesOfRejoined(rest, newline);
        LineThenRest(line, Rejoin(rest, newline));
        SameButBlankAfter(line, Lines(Rejoin(rest, newline)), rest);
      }
    }
  }

  lemma RejoinAfterLine(line: string, rest: string)
    requires '\n' !in line && Rejoin(Lines(rest), EndsWithNewline(rest)) == rest
    ensures Rejoin(Lines(line + ("\n" + rest)), EndsWithNewline(line + ("\n" + rest))) == line + ("\n" + rest)
  {
    var text := line + ("\n" + rest);
    LineThenRest(line, rest);
    JoinFirst(line, Lines(rest), EndsWithNewline(text));
    if rest == "" {
      assert text == line + "\n";
    } else {
      assert text[|text| - 1] == rest[|rest| - 1];
    }
  }

  /** Joining what was split gives the text back. */
  lemma {:induction false} RejoinOfLines(text: string)
    ensures Rejoin(Lines(text), EndsWithNewline(text)) == text
    decreases |text|
  {
    if text != "" {
      var n := LineEnd(text);
      var next := n + 1;
      assert text[..|text|] == text;
      if n < |text| {
        var line, rest := text[..n], text[next..];
        assert text == line + ("\n" + rest);
        RejoinOfLines(rest);
        RejoinAfterLine(line, rest);
      }
    }
  }
}
