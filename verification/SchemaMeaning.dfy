/** What the quick-reference fixer reads and writes, line by line and character by character. */
module SchemaMeaning {
  import opened Outcomes
  import opened Ordering
  import opened Text
  import opened TextLines
  import opened MapLines
  import opened SchemaDocs

  // ------------------------------------------------------- a row of the table

  ghost predicate AllSpace(s: string) {
    s != "" && forall i :: 0 <= i < |s| ==> IsSpace(s[i])
  }

  /** A bar, spaces, a word between backticks, spaces, and a bar. */
  ghost predicate Cells(line: string, before: string, name: string, after: string, rest: string) {
    && AllSpace(before) && IsWord(name) && AllSpace(after)
    && line == "|" + (before + ("`" + (name + ("`" + (after + ("|" + rest))))))
  }

  /** A row of the table `name`: its first cell is the name, and it has four bars or more. */
  ghost predicate RowOf(line: string, name: string) {
    multiset(line)['|'] >= 4 && exists before, after, rest :: Cells(line, before, name, after, rest)
  }

  lemma {:induction false} PipesExactly(line: string)
    ensures CountPipes(line) == multiset(line)['|']
  {
    if line != "" {
      PipesExactly(line[1..]);
      assert line == [line[0]] + line[1..];
    }
  }

  lemma CharRead(s: string, c: char)
    requires TakeChar(s, c).Some?
    ensures s == [c] + TakeChar(s, c).value
  {
  }

  lemma SpacesTaken(gap: string, rest: string)
    requires AllSpace(gap) && (rest == "" || !IsSpace(rest[0]))
    ensures TakeSpaces(gap + rest) == Some(rest)
  {
    RunOfAll(gap, rest, IsSpace);
    assert (gap + rest)[|gap|..] == rest;
  }

  lemma SpacesRead(s: string) returns (gap: string)
    requires TakeSpaces(s).Some?
    ensures AllSpace(gap) && s == gap + TakeSpaces(s).value
  {
    gap := s[..RunOf(s, IsSpace)];
  }

  lemma WordRead(s: string)
    requires TakeWord(s).Some?
    ensures IsWord(TakeWord(s).value.0) && s == "`" + (TakeWord(s).value.0 + ("`" + TakeWord(s).value.1))
  {
    WordsAreWords(s);
    var open := TakeChar(s, '`').value;
    CharRead(s, '`');
    var n := RunOf(open, IsWordChar);
    CharRead(open[n..], '`');
    assert open == open[..n] + open[n..];
  }

  lemma CellsAreRead(line: string, before: string, name: string, after: string, rest: string)
    requires Cells(line, before, name, after, rest)
    ensures RowName(line) == Some(name)
  {
    var end := "|" + rest;
    var gap := after + end;
    var word := "`" + (name + ("`" + gap));
    CharTaken('|', before + word);
    SpacesTaken(before, word);
    WordTaken(name, gap);
    SpacesTaken(after, end);
    CharTaken('|', rest);
  }

  lemma ReadHasCells(line: string) returns (before: string, after: string, rest: string)
    requires RowName(line).Some?
    ensures Cells(line, before, RowName(line).value, after, rest)
  {
    var bar := TakeChar(line, '|').value;
    var cell := TakeSpaces(bar).value;
    var word := TakeWord(cell).value;
    var end := TakeSpaces(word.1).value;
    rest := TakeChar(end, '|').value;
    CharRead(line, '|');
    before := SpacesRead(bar);
    WordRead(cell);
    after := SpacesRead(word.1);
    CharRead(end, '|');
  }

  /** The recogniser reads exactly the rows. */
  lemma RowExactly(line: string, name: string)
    ensures QuickRow(line) == Some(name) <==> RowOf(line, name)
  {
    PipesExactly(line);
    if RowName(line).Some? {
      var before, after, rest := ReadHasCells(line);
    }
    forall before, after, rest | Cells(line, before, name, after, rest)
      ensures RowName(line) == Some(name)
    {
      CellsAreRead(line, before, name, after, rest);
    }
  }

  // ------------------------------------------------------- the count of tables

  /** A line that begins with a count of tables. */
  ghost predicate CountLine(line: string, digits: string, rest: string) {
    AllDigits(digits) && line == digits + (" tables." + rest)
  }

  ghost predicate CountsTables(line: string) {
    exists digits, rest :: CountLine(line, digits, rest)
  }

  lemma CountIsRead(line: string, digits: string, rest: string)
    requires CountLine(line, digits, rest)
    ensures CountEnd(line) == |digits| + 8 && line[CountEnd(line)..] == rest
  {
    var tail := " tables." + rest;
    RunOfAll(digits, tail, IsDigit);
    assert line[|digits|..|digits| + 8] == tail[..8] == " tables.";
    assert line[|digits| + 8..] == tail[8..] == rest;
  }

  lemma ReadIsCount(line: string) returns (digits: string, rest: string)
    requires CountEnd(line) > 0
    ensures CountLine(line, digits, rest)
  {
    var n := RunOf(line, IsDigit);
    digits, rest := line[..n], line[CountEnd(line)..];
    assert line == digits + (line[n..CountEnd(line)] + rest);
  }

  lemma CountExactly(line: string)
    ensures CountEnd(line) > 0 <==> CountsTables(line)
  {
    if CountEnd(line) > 0 {
      var digits, rest := ReadIsCount(line);
    }
    if CountsTables(line) {
      var digits, rest :| CountLine(line, digits, rest);
      CountIsRead(line, digits, rest);
    }
  }

  /** `digits` is `n` in decimal, without leading zeros. */
  ghost predicate Writes(digits: string, n: nat) {
    AllDigits(digits) && Value(digits) == n && (digits[0] == '0' ==> digits == "0")
  }

  lemma {:induction false} DecimalExactly(n: nat)
    ensures Writes(Decimal(n), n)
  {
    DecimalDigits(n);
    if n < 10 {
      assert Decimal(n)[..0] == "";
    } else {
      DecimalExactly(n / 10);
      assert Decimal(n)[..|Decimal(n)| - 1] == Decimal(n / 10);
      assert Decimal(n)[0] == Decimal(n / 10)[0];
      assert Value("0") == 0 by {
        assert "0"[..0] == "";
      }
    }
  }

  /** `after` is `line` with its count of tables replaced by `n`. */
  ghost predicate Restates(line: string, n: nat, after: string) {
    exists digits, rest, now :: CountLine(line, digits, rest) && Writes(now, n) && after == now + (" tables." + rest)
  }

  /** The first line that counts tables states `n`, and no other line changes. */
  ghost predicate Recounts(lines: seq<string>, n: nat, out: seq<string>) {
    && |out| == |lines|
    && forall i :: 0 <= i < |lines| ==>
         if CountsTables(lines[i]) && NoneCounts(lines, i) then Restates(lines[i], n, out[i]) else out[i] == lines[i]
  }

  ghost predicate NoneCounts(lines: seq<string>, i: int) {
    i <= |lines| && forall j :: 0 <= j < i ==> !CountsTables(lines[j])
  }

  lemma RestatedExactly(line: string, n: nat)
    requires CountEnd(line) > 0
    ensures Restates(line, n, Recounted(line, n))
  {
    var digits, rest := ReadIsCount(line);
    CountIsRead(line, digits, rest);
    DecimalExactly(n);
    assert Recounted(line, n) == Decimal(n) + (" tables." + rest);
  }

  lemma RecountsFirst(lines: seq<string>, n: nat, first: string)
    requires lines != [] && CountsTables(lines[0]) && Restates(lines[0], n, first)
    ensures Recounts(lines, n, [first] + lines[1..])
  {
  }

  lemma RecountsLater(lines: seq<string>, n: nat, rest: seq<string>)
    requires lines != [] && !CountsTables(lines[0]) && Recounts(lines[1..], n, rest)
    ensures Recounts(lines, n, [lines[0]] + rest)
  {
    var tail, out := lines[1..], [lines[0]] + rest;
    forall i | 0 <= i < |lines|
      ensures if CountsTables(lines[i]) && NoneCounts(lines, i) then Restates(lines[i], n, out[i]) else out[i] == lines[i]
    {
      if i > 0 {
        var j := i - 1;
        assert tail[j] == lines[i] && out[i] == rest[j];
        assert NoneCounts(lines, i) <==> NoneCounts(tail, j) by {
          assert forall k :: 0 <= k < j ==> tail[k] == lines[k + 1];
          assert forall k :: 0 < k < i ==> lines[k] == tail[k - 1];
        }
      }
    }
  }

  lemma {:induction false} RecountExactly(lines: seq<string>, n: nat)
    ensures Recounts(lines, n, Recount(lines, n))
  {
    if lines != [] {
      CountExactly(lines[0]);
      if CountEnd(lines[0]) > 0 {
        RestatedExactly(lines[0], n);
        RecountsFirst(lines, n, Recounted(lines[0], n));
      } else {
        RecountExactly(lines[1..], n);
        RecountsLater(lines, n, Recount(lines[1..], n));
      }
    }
  }

  // ------------------------------------------------------------- rows of a table

  ghost predicate HasRow(lines: seq<string>, name: string) {
    exists i :: 0 <= i < |lines| && RowOf(lines[i], name)
  }

  ghost predicate IsRow(line: string) {
    exists name :: RowOf(line, name)
  }

  lemma IsRowExactly(line: string)
    ensures QuickRow(line).Some? <==> IsRow(line)
    ensures QuickRow(line).Some? ==> forall name :: RowOf(line, name) <==> name == QuickRow(line).value
  {
    forall name
      ensures QuickRow(line) == Some(name) <==> RowOf(line, name)
    {
      RowExactly(line, name);
    }
    if QuickRow(line).Some? {
      assert RowOf(line, QuickRow(line).value);
    }
  }

  lemma HasRowNext(front: seq<string>, line: string, name: string)
    ensures HasRow(front + [line], name) <==> HasRow(front, name) || RowOf(line, name)
  {
    var lines := front + [line];
    assert lines[|front|] == line;
    assert forall i :: 0 <= i < |front| ==> lines[i] == front[i];
  }

  lemma TablesNext(front: seq<string>, line: string, name: string)
    ensures name in Tables(front + [line]) <==> name in Tables(front) || RowOf(line, name)
  {
    TablesAfter(front, line);
    RowExactly(line, name);
  }

  lemma LastSplit(lines: seq<string>) returns (front: seq<string>, line: string)
    requires lines != []
    ensures lines == front + [line] && |front| < |lines|
  {
    var n := |lines| - 1;
    front, line := lines[..n], lines[n];
  }

  /** The checker finds exactly the names with a row. */
  lemma {:induction false} TablesExactly(lines: seq<string>, name: string)
    ensures name in Tables(lines) <==> HasRow(lines, name)
    decreases |lines|
  {
    if lines != [] {
      var front, line := LastSplit(lines);
      TablesExactly(front, name);
      HasRowNext(front, line, name);
      TablesNext(front, line, name);
    }
  }

  /** The row of a table that does not exist. */
  ghost predicate IsStaleRow(line: string, actual: set<string>) {
    exists name :: RowOf(line, name) && name !in actual
  }

  /** `out` has the lines that are not such rows, in order. */
  ghost predicate WithoutStale(lines: seq<string>, actual: set<string>, out: seq<string>) {
    if lines == [] then out == []
    else if IsStaleRow(lines[0], actual) then WithoutStale(lines[1..], actual, out)
    else out != [] && out[0] == lines[0] && WithoutStale(lines[1..], actual, out[1..])
  }

  lemma {:induction false} WithoutStaleNext(front: seq<string>, actual: set<string>, out: seq<string>, line: string, stale: bool)
    requires WithoutStale(front, actual, out) && stale == IsStaleRow(line, actual)
    ensures WithoutStale(front + [line], actual, out + if stale then [] else [line])
  {
    var longer := out + if stale then [] else [line];
    if front == [] {
      OneLineKept(line, actual, stale);
      assert front + [line] == [line] && longer == if stale then [] else [line];
    } else {
      assert (front + [line])[1..] == front[1..] + [line];
      if IsStaleRow(front[0], actual) {
        WithoutStaleNext(front[1..], actual, out, line, stale);
      } else {
        WithoutStaleNext(front[1..], actual, out[1..], line, stale);
        assert longer[1..] == out[1..] + if stale then [] else [line];
      }
    }
  }

  lemma OneLineKept(line: string, actual: set<string>, stale: bool)
    requires stale == IsStaleRow(line, actual)
    ensures WithoutStale([line], actual, if stale then [] else [line])
  {
    assert [line][1..] == [];
  }

  lemma KeptNext(front: seq<string>, line: string, actual: set<string>)
    ensures KeepRows(front + [line], actual) == KeepRows(front, actual) + if IsStaleRow(line, actual) then [] else [line]
  {
    assert (front + [line])[..|front|] == front;
    IsRowExactly(line);
  }

  /** Exactly the rows of tables that do not exist go. */
  lemma {:induction false} KeptExactly(lines: seq<string>, actual: set<string>)
    ensures WithoutStale(lines, actual, KeepRows(lines, actual))
    decreases |lines|
  {
    if lines != [] {
      var front, line := LastSplit(lines);
      KeptExactly(front, actual);
      WithoutStaleNext(front, actual, KeepRows(front, actual), line, IsStaleRow(line, actual));
      KeptNext(front, line, actual);
    }
  }

  // -------------------------------------------------------------- what is reported

  /** How many rows a name has. */
  ghost function RowCount(lines: seq<string>, name: string): nat {
    if lines == [] then 0 else
      var n := |lines| - 1;
      RowCount(lines[..n], name) + if RowOf(lines[n], name) then 1 else 0
  }

  lemma RowCountNext(front: seq<string>, line: string, name: string)
    ensures RowCount(front + [line], name) == RowCount(front, name) + if RowOf(line, name) then 1 else 0
  {
    assert (front + [line])[..|front|] == front;
  }

  lemma StaleNext(front: seq<string>, line: string, actual: set<string>, name: string)
    ensures multiset(StaleNames(front + [line], actual))[name]
         == multiset(StaleNames(front, actual))[name] + if RowOf(line, name) && name !in actual then 1 else 0
  {
    assert (front + [line])[..|front|] == front;
    RowExactly(line, name);
    var row := QuickRow(line);
    if row.Some? && row.value !in actual {
      StaleAppended(StaleNames(front, actual), row.value, name);
    } else {
      assert StaleNames(front, actual) + [] == StaleNames(front, actual);
    }
  }

  lemma StaleAppended(names: seq<string>, last: string, name: string)
    ensures multiset(names + [last])[name] == multiset(names)[name] + if last == name then 1 else 0
  {
  }

  /** A name of no table is reported as often as it has a row, and no other name is. */
  lemma {:induction false} StaleExactly(lines: seq<string>, actual: set<string>, name: string)
    ensures multiset(StaleNames(lines, actual))[name] == if name in actual then 0 else RowCount(lines, name)
    decreases |lines|
  {
    if lines != [] {
      var front, line := LastSplit(lines);
      StaleExactly(front, actual, name);
      StaleNext(front, line, actual, name);
      RowCountNext(front, line, name);
    }
  }

  // ---------------------------------------------------------------- what is added

  /** The row written for a table without one. */
  function RowText(name: string): string {
    "| `" + (name + "` | TODO \U{2014} describe this table | \U{2014} |")
  }

  lemma ScaffoldText(name: string)
    ensures ScaffoldRow(name) == RowText(name)
  {
    var tail := "` | TODO \U{2014} describe this table | \U{2014} |";
    assert "`" + (" " + ("|" + (PURPOSE_CELL + ("|" + (KEY_CELL + ("|" + "")))))) == tail;
    assert "|" + (" " + ("`" + (name + tail))) == "| `" + (name + tail);
  }

  ghost predicate NoRowFrom(lines: seq<string>, low: int) {
    0 <= low && forall j :: low <= j < |lines| ==> !IsRow(lines[j])
  }

  lemma NoRowNext(front: seq<string>, line: string, low: int)
    requires NoRowFrom(front, low) && !IsRow(line)
    ensures NoRowFrom(front + [line], low)
  {
    var lines := front + [line];
    forall j | low <= j < |lines|
      ensures !IsRow(lines[j])
    {
      assert lines[j] == if j < |front| then front[j] else line;
    }
  }

  ghost predicate IsLastRow(lines: seq<string>, last: Option<nat>) {
    if last.None? then NoRowFrom(lines, 0)
    else last.value < |lines| && IsRow(lines[last.value]) && NoRowFrom(lines, last.value + 1)
  }

  lemma LastRowNext(front: seq<string>, line: string)
    requires IsLastRow(front, LastRow(front))
    ensures IsLastRow(front + [line], LastRow(front + [line]))
  {
    LastRowAfter(front, line);
    IsRowExactly(line);
    if !IsRow(line) {
      NoRowNext(front, line, if LastRow(front).None? then 0 else LastRow(front).value + 1);
    }
  }

  lemma {:induction false} LastRowAt(lines: seq<string>)
    ensures IsLastRow(lines, LastRow(lines))
    decreases |lines|
  {
    if lines != [] {
      var front, line := LastSplit(lines);
      LastRowAt(front);
      LastRowNext(front, line);
    }
  }

  /** One row for each name goes in after the last row; without a row nothing changes. */
  ghost predicate RowsAdded(kept: seq<string>, names: seq<string>, out: seq<string>) {
    if NoRowFrom(kept, 0) then out == kept
    else exists i, rows ::
      && 0 <= i < |kept| && IsRow(kept[i]) && NoRowFrom(kept, i + 1)
      && RowsFor(names, rows) && out == kept[..i + 1] + rows + kept[i + 1..]
  }

  ghost predicate RowsFor(names: seq<string>, rows: seq<string>) {
    |rows| == |names| && forall k :: 0 <= k < |names| ==> rows[k] == RowText(names[k])
  }

  lemma ScaffoldsExactly(names: seq<string>)
    ensures RowsFor(names, Scaffolds(names))
  {
    forall k | 0 <= k < |names|
      ensures Scaffolds(names)[k] == RowText(names[k])
    {
      ScaffoldText(names[k]);
    }
  }

  lemma AddedAfter(kept: seq<string>, names: seq<string>, i: int, rows: seq<string>, out: seq<string>)
    requires 0 <= i < |kept| && IsRow(kept[i]) && NoRowFrom(kept, i + 1) && RowsFor(names, rows)
    requires out == kept[..i + 1] + rows + kept[i + 1..]
    ensures RowsAdded(kept, names, out)
  {
    assert !NoRowFrom(kept, 0);
  }

  lemma AddedExactly(kept: seq<string>, names: seq<string>)
    ensures RowsAdded(kept, names, AddRows(kept, names))
  {
    LastRowAt(kept);
    ScaffoldsExactly(names);
    var last := LastRow(kept);
    if last.Some? {
      AddedAfter(kept, names, last.value, Scaffolds(names), AddRows(kept, names));
    }
  }

  // ------------------------------------------------------------------ the document

  /** The tables no row documents, in ascending order. */
  ghost predicate MissingNames(lines: seq<string>, actual: set<string>, names: seq<string>) {
    StrictlyAscending(names, LexLe) && forall name :: name in names <==> name in actual && !HasRow(lines, name)
  }

  lemma MissingExactly(lines: seq<string>, actual: set<string>)
    ensures MissingNames(lines, actual, SortedStrings(Missing(lines, actual)))
  {
    SortedStringsAscend(Missing(lines, actual));
    forall name
      ensures name in Missing(lines, actual) <==> name in actual && !HasRow(lines, name)
    {
      TablesExactly(lines, name);
    }
  }

  /** The document without the rows of tables that do not exist, with the missing rows, recounted. */
  ghost predicate Synced(lines: seq<string>, actual: set<string>, out: seq<string>) {
    exists kept, names, grown ::
      && WithoutStale(lines, actual, kept) && MissingNames(lines, actual, names)
      && RowsAdded(kept, names, grown) && Recounts(grown, |actual|, out)
  }

  /** The fixer, line by line: which rows go, which come where, and which line states the new count. */
  lemma FixMeans(content: string, actual: set<string>)
    ensures exists out :: Synced(Lines(content), actual, out)
                       && FixedContent(content, actual) == Rejoin(out, EndsWithNewline(content))
  {
    var lines := Lines(content);
    var kept, names := KeepRows(lines, actual), SortedStrings(Missing(lines, actual));
    KeptExactly(lines, actual);
    MissingExactly(lines, actual);
    AddedExactly(kept, names);
    RecountExactly(AddRows(kept, names), |actual|);
    assert Synced(lines, actual, FixLines(lines, actual));
  }
}
