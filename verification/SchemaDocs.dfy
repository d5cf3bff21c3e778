/** The schema document's quick-reference table: its checker, and the fixer that syncs it. */
module SchemaDocs {
  import opened Outcomes
  import opened Ordering
  import opened Text
  import opened TextLines
  import opened MapLines

  // --------------------------------------------------------- one line of the table

  function CountPipes(line: string): nat {
    if line == "" then 0 else (if line[0] == '|' then 1 else 0) + CountPipes(line[1..])
  }

  predicate IsWord(name: string) {
    name != "" && forall i :: 0 <= i < |name| ==> IsWordChar(name[i])
  }

  function TakeChar(s: string, c: char): Option<string> {
    if s == "" || s[0] != c then None else Some(s[1..])
  }

  /** One space or more. */
  function TakeSpaces(s: string): Option<string> {
    var n := RunOf(s, IsSpace);
    if n == 0 then None else Some(s[n..])
  }

  /** A backtick, a word and a backtick: the word and what follows. */
  function TakeWord(s: string): Option<(string, string)> {
    var open := TakeChar(s, '`');
    if open.None? then None else
      var n := RunOf(open.value, IsWordChar);
      var close := TakeChar(open.value[n..], '`');
      if n == 0 || close.None? then None else Some((open.value[..n], close.value))
  }

  /** A bar, spaces, a word between backticks, spaces and a bar; the word is the table. */
  function RowName(line: string): Option<string> {
    var bar := TakeChar(line, '|');
    if bar.None? then None else
      var cell := TakeSpaces(bar.value);
      if cell.None? then None else
        var word := TakeWord(cell.value);
        if word.None? then None else
          var end := TakeSpaces(word.value.1);
          if end.None? || TakeChar(end.value, '|').None? then None else Some(word.value.0)
  }

  /** Quick-reference rows have three columns, so at least four bars; shorter note rows do not count. */
  function QuickRow(line: string): Option<string> {
    if CountPipes(line) < 4 then None else RowName(line)
  }

  const PURPOSE_CELL := " TODO \U{2014} describe this table "
  const KEY_CELL := " \U{2014} "

  function ScaffoldRow(table: string): string {
    "|" + (" " + ("`" + (table + ("`" + (" " + ("|" + (PURPOSE_CELL + ("|" + (KEY_CELL + ("|" + ""))))))))))
  }

  // ---------------------------------------------------------------- the checker

  function Tables(lines: seq<string>): set<string> {
    if lines == [] then {} else
      var n := |lines| - 1;
      var row := QuickRow(lines[n]);
      Tables(lines[..n]) + (if row.Some? then {row.value} else {})
  }

  method QuickReferenceTables(content: string) returns (tables: set<string>)
    ensures tables == Tables(Lines(content))
  {
    tables := {};
    var lines := Lines(content);
    for i := 0 to |lines|
      invariant tables == Tables(lines[..i])
    {
      assert lines[..i + 1][..i] == lines[..i];
      if CountPipes(lines[i]) >= 4 {
        var row := RowName(lines[i]);
        if row.Some? {
          tables := tables + {row.value};
        }
      }
    }
    assert lines[..|lines|] == lines;
  }

  // ------------------------------------------------------------------ the fixer

  /** The lines without the rows of tables that do not exist. */
  function KeepRows(lines: seq<string>, actual: set<string>): seq<string> {
    if lines == [] then [] else
      var n := |lines| - 1;
      var row := QuickRow(lines[n]);
      KeepRows(lines[..n], actual) + (if row.Some? && row.value !in actual then [] else [lines[n]])
  }

  function StaleNames(lines: seq<string>, actual: set<string>): seq<string> {
    if lines == [] then [] else
      var n := |lines| - 1;
      var row := QuickRow(lines[n]);
      StaleNames(lines[..n], actual) + (if row.Some? && row.value !in actual then [row.value] else [])
  }

  /** The position of the last quick-reference row. */
  function LastRow(lines: seq<string>): (r: Option<nat>)
    ensures r.Some? ==> r.value < |lines|
  {
    if lines == [] then None else
      var n := |lines| - 1;
      if QuickRow(lines[n]).Some? then Some(n) else LastRow(lines[..n])
  }

  function Scaffolds(names: seq<string>): seq<string> {
    seq(|names|, i requires 0 <= i < |names| => ScaffoldRow(names[i]))
  }

  /** The scaffold rows go after the last row, or nowhere when there is none. */
  function AddRows(kept: seq<string>, names: seq<string>): seq<string> {
    var last := LastRow(kept);
    if last.None? then kept else
      var after := last.value + 1;
      kept[..after] + Scaffolds(names) + kept[after..]
  }

  function Decimal(n: nat): string {
    if n < 10 then [DigitChar(n)] else Decimal(n / 10) + [DigitChar(n % 10)]
  }

  const TABLES := " tables."

  /** The length of a leading count of tables, zero when the line does not begin with one. */
  function CountEnd(line: string): (n: nat)
    ensures n <= |line|
  {
    var digits := RunOf(line, IsDigit);
    var end := digits + |TABLES|;
    if digits > 0 && end <= |line| && line[digits..end] == TABLES then end else 0
  }

  function Recounted(line: string, n: nat): string {
    Decimal(n) + (TABLES + line[CountEnd(line)..])
  }

  /** The first line that begins with a count of tables states the new count. */
  function Recount(lines: seq<string>, n: nat): seq<string> {
    if lines == [] then []
    else if CountEnd(lines[0]) > 0 then [Recounted(lines[0], n)] + lines[1..]
    else [lines[0]] + Recount(lines[1..], n)
  }

  /** The tables no row documents. */
  function Missing(lines: seq<string>, actual: set<string>): set<string> {
    actual - Tables(lines)
  }

  ghost function FixLines(lines: seq<string>, actual: set<string>): seq<string> {
    Recount(AddRows(KeepRows(lines, actual), SortedStrings(Missing(lines, actual))), |actual|)
  }

  ghost function FixedContent(content: string, actual: set<string>): string {
    Rejoin(FixLines(Lines(content), actual), EndsWithNewline(content))
  }

  ghost predicate NoCountBefore(lines: seq<string>, i: nat) {
    i <= |lines| && forall j :: 0 <= j < i ==> CountEnd(lines[j]) == 0
  }

  /** Only the first counting line changes. */
  lemma {:induction false} RecountAt(lines: seq<string>, i: nat, n: nat)
    requires NoCountBefore(lines, i)
    ensures i == |lines| ==> Recount(lines, n) == lines
    ensures i < |lines| && CountEnd(lines[i]) > 0 ==> Recount(lines, n) == lines[i := Recounted(lines[i], n)]
  {
    if i > 0 {
      assert forall j :: 0 <= j < i - 1 ==> lines[1..][j] == lines[j + 1];
      RecountAt(lines[1..], i - 1, n);
    }
  }

  method RefreshCount(lines: seq<string>, n: nat) returns (out: seq<string>)
    ensures out == Recount(lines, n)
  {
    for i := 0 to |lines|
      invariant NoCountBefore(lines, i)
    {
      RecountAt(lines, i, n);
      if CountEnd(lines[i]) > 0 {
        return lines[i := Recounted(lines[i], n)];
      }
    }
    RecountAt(lines, |lines|, n);
    return lines;
  }

  lemma NextLine(lines: seq<string>, i: nat, next: nat, actual: set<string>)
    requires next == i + 1 <= |lines|
    ensures var row := QuickRow(lines[i]);
            var stale := row.Some? && row.value !in actual;
            && Tables(lines[..next]) == Tables(lines[..i]) + (if row.Some? then {row.value} else {})
            && KeepRows(lines[..next], actual) == KeepRows(lines[..i], actual) + (if stale then [] else [lines[i]])
            && StaleNames(lines[..next], actual) == StaleNames(lines[..i], actual) + (if stale then [row.value] else [])
  {
    assert lines[..next][..i] == lines[..i];
  }

  lemma LastRowAfter(kept: seq<string>, line: string)
    ensures LastRow(kept + [line]) == if QuickRow(line).Some? then Some(|kept|) else LastRow(kept)
  {
    assert (kept + [line])[..|kept|] == kept;
  }

  /** Reads the rows: what stays, what is documented, what is stale, where the last row ended up. */
  method SplitRows(lines: seq<string>, actual: set<string>)
    returns (kept: seq<string>, documented: set<string>, removed: seq<string>, lastRow: Option<nat>)
    ensures kept == KeepRows(lines, actual) && documented == Tables(lines)
    ensures removed == StaleNames(lines, actual) && lastRow == LastRow(kept)
  {
    kept, documented, removed, lastRow := [], {}, [], None;
    for i := 0 to |lines|
      invariant kept == KeepRows(lines[..i], actual) && documented == Tables(lines[..i])
      invariant removed == StaleNames(lines[..i], actual) && lastRow == LastRow(kept)
    {
      var line := lines[i];
      NextLine(lines, i, i + 1, actual);
      LastRowAfter(kept, line);
      var row := QuickRow(line);
      if row.Some? {
        documented := documented + {row.value};
      }
      if row.Some? && row.value !in actual {
        removed := removed + [row.value];
      } else {
        lastRow := if row.Some? then Some(|kept|) else lastRow;
        kept := kept + [line];
      }
    }
    assert lines[..|lines|] == lines;
  }

  /** Scaffold rows go in after the last row; without one there is nothing to anchor them. */
  method SpliceRows(kept: seq<string>, lastRow: Option<nat>, names: seq<string>) returns (added: seq<string>, out: seq<string>)
    requires lastRow == LastRow(kept)
    ensures out == AddRows(kept, names)
    ensures added == if lastRow.Some? then names else []
  {
    added, out := names, kept;
    if added != [] {
      if lastRow.None? {
        added := [];
      } else {
        var after := lastRow.value + 1;
        out := kept[..after] + Scaffolds(names) + kept[after..];
      }
    } else if lastRow.Some? {
      var after := lastRow.value + 1;
      assert kept == kept[..after] + Scaffolds(names) + kept[after..];
    }
  }

  method FixQuickReference(content: string, actual: set<string>)
    returns (fixedContent: string, added: seq<string>, removed: seq<string>)
    ensures fixedContent == FixedContent(content, actual)
    ensures multiset(removed) == multiset(StaleNames(Lines(content), actual)) && NeverFalls(removed, LexLe)
    ensures added == if LastRow(KeepRows(Lines(content), actual)).Some? then SortedStrings(Missing(Lines(content), actual)) else []
  {
    var kept, documented, stale, lastRow := SplitRows(Lines(content), actual);
    LexIsTotalOrder();
    removed := SortList(stale, LexLe);
    added := SortStrings(actual - documented);
    added, kept := SpliceRows(kept, lastRow, added);
    kept := RefreshCount(kept, |actual|);
    fixedContent := Rejoin(kept, EndsWithNewline(content));
  }

  // ------------------------------------------------------ what a row's line says

  lemma {:induction false} PipesAdd(a: string, b: string)
    ensures CountPipes(a + b) == CountPipes(a) + CountPipes(b)
  {
    if a == "" {
      assert a + b == b;
    } else {
      assert (a + b)[1..] == a[1..] + b;
      PipesAdd(a[1..], b);
    }
  }

  lemma OnePipe(a: string, b: string)
    ensures CountPipes(a + ("|" + b)) == CountPipes(a) + 1 + CountPipes(b)
  {
    PipesAdd(a, "|" + b);
    assert ("|" + b)[1..] == b;
  }

  lemma FourPipes(first: string, second: string, third: string)
    ensures CountPipes("|" + (first + ("|" + (second + ("|" + (third + ("|" + ""))))))) >= 4
  {
    var afterThird := third + ("|" + "");
    var afterSecond := second + ("|" + afterThird);
    var afterFirst := first + ("|" + afterSecond);
    OnePipe(third, "");
    OnePipe(second, afterThird);
    OnePipe(first, afterSecond);
    OnePipe("", afterFirst);
    assert "" + ("|" + afterFirst) == "|" + afterFirst;
  }

  lemma CharTaken(c: char, rest: string)
    ensures TakeChar([c] + rest, c) == Some(rest)
  {
  }

  lemma SpaceTaken(rest: string)
    requires rest == "" || !IsSpace(rest[0])
    ensures TakeSpaces(" " + rest) == Some(rest)
  {
    RunOfAll(" ", rest, IsSpace);
  }

  lemma WordTaken(name: string, rest: string)
    requires IsWord(name)
    ensures TakeWord("`" + (name + ("`" + rest))) == Some((name, rest))
  {
    var closing := "`" + rest;
    CharTaken('`', name + closing);
    RunOfAll(name, closing, IsWordChar);
    assert (name + closing)[|name|..] == closing && (name + closing)[..|name|] == name;
    CharTaken('`', rest);
  }

  /** A row is recognised by what stands at its five positions. */
  lemma RowNameOf(name: string, rest: string)
    requires IsWord(name)
    ensures RowName("|" + (" " + ("`" + (name + ("`" + (" " + ("|" + rest))))))) == Some(name)
  {
    var end := "|" + rest;
    var gap := " " + end;
    var word := "`" + (name + ("`" + gap));
    CharTaken('|', " " + word);
    SpaceTaken(word);
    WordTaken(name, gap);
    SpaceTaken(end);
    CharTaken('|', rest);
  }

  lemma ScaffoldPipes(table: string, purpose: string, last: string)
    ensures CountPipes("|" + (" " + ("`" + (table + ("`" + (" " + ("|" + (purpose + ("|" + (last + ("|" + ""))))))))))) >= 4
  {
    var rest := "|" + (purpose + ("|" + (last + ("|" + ""))));
    FourPipes(" " + ("`" + (table + ("`" + " "))), purpose, last);
    assert " " + ("`" + (table + ("`" + (" " + rest)))) == " " + ("`" + (table + ("`" + " "))) + rest;
  }

  lemma ScaffoldIsRow(table: string)
    requires IsWord(table)
    ensures QuickRow(ScaffoldRow(table)) == Some(table)
  {
    ScaffoldPipes(table, PURPOSE_CELL, KEY_CELL);
    RowNameOf(table, PURPOSE_CELL + ("|" + (KEY_CELL + ("|" + ""))));
  }

  /** Every recognised table name is a word. */
  lemma RowNamesAreWords(line: string)
    ensures QuickRow(line).Some? ==> IsWord(QuickRow(line).value)
  {
    if RowName(line).Some? {
      WordsAreWords(TakeSpaces(TakeChar(line, '|').value).value);
    }
  }

  lemma WordsAreWords(s: string)
    requires TakeWord(s).Some?
    ensures IsWord(TakeWord(s).value.0)
  {
    var open, name := s[1..], TakeWord(s).value.0;
    assert name == open[..RunOf(open, IsWordChar)];
  }

  // -------------------------------------------------------- the checker's tables

  lemma {:induction false} TablesAdd(a: seq<string>, b: seq<string>)
    ensures Tables(a + b) == Tables(a) + Tables(b)
  {
    if b == [] {
      assert a + b == a;
    } else {
      var n := |b| - 1;
      assert (a + b)[..|a + b| - 1] == a + b[..n];
      TablesAdd(a, b[..n]);
    }
  }

  lemma TablesOfOne(line: string)
    ensures Tables([line]) == if QuickRow(line).Some? then {QuickRow(line).value} else {}
  {
    assert [line][..0] == [];
  }

  lemma TablesAfter(kept: seq<string>, line: string)
    ensures Tables(kept + [line]) == Tables(kept) + (if QuickRow(line).Some? then {QuickRow(line).value} else {})
  {
    assert (kept + [line])[..|kept|] == kept;
  }

  lemma {:induction false} TablesKept(lines: seq<string>, actual: set<string>)
    ensures Tables(KeepRows(lines, actual)) == Tables(lines) * actual
  {
    if lines != [] {
      var n := |lines| - 1;
      var front, line := lines[..n], lines[n];
      TablesKept(front, actual);
      TablesAfter(KeepRows(front, actual), line);
      KeptLine(KeepRows(front, actual), QuickRow(line), line, Tables(front), actual);
    }
  }

  lemma KeptLine(kept: seq<string>, row: Option<string>, line: string, before: set<string>, actual: set<string>)
    requires Tables(kept) == before * actual && row == QuickRow(line)
    requires Tables(kept + [line]) == Tables(kept) + (if row.Some? then {row.value} else {})
    ensures Tables(kept + (if row.Some? && row.value !in actual then [] else [line]))
         == (before + (if row.Some? then {row.value} else {})) * actual
  {
    assert kept + [] == kept;
  }

  lemma {:induction false} LastRowExactly(lines: seq<string>)
    ensures LastRow(lines).Some? <==> Tables(lines) != {}
  {
    if lines != [] {
      LastRowExactly(lines[..|lines| - 1]);
    }
  }

  lemma {:induction false} TablesAreWords(lines: seq<string>, table: string)
    requires table in Tables(lines)
    ensures IsWord(table)
  {
    var n := |lines| - 1;
    RowNamesAreWords(lines[n]);
    if table in Tables(lines[..n]) {
      TablesAreWords(lines[..n], table);
    }
  }

  ghost predicate AllWords(names: set<string>) {
    forall name :: name in names ==> IsWord(name)
  }

  lemma {:induction false} TablesOfRows(rows: seq<string>, names: seq<string>)
    requires |rows| == |names| && forall i :: 0 <= i < |rows| ==> QuickRow(rows[i]) == Some(names[i])
    ensures forall name :: name in Tables(rows) <==> name in names
  {
    if names != [] {
      var n := |names| - 1;
      var front, last := names[..n], names[n];
      TablesOfRows(rows[..n], front);
      assert Tables(rows) == Tables(rows[..n]) + {last};
      LastMember(names, n);
    }
  }

  lemma LastMember<T>(s: seq<T>, n: nat)
    requires n + 1 == |s|
    ensures forall x :: x in s <==> x in s[..n] || x == s[n]
  {
    assert s == s[..n] + [s[n]];
  }

  lemma TablesScaffolded(names: seq<string>)
    requires forall i :: 0 <= i < |names| ==> IsWord(names[i])
    ensures forall name :: name in Tables(Scaffolds(names)) <==> name in names
  {
    var rows := Scaffolds(names);
    forall i | 0 <= i < |names|
      ensures QuickRow(rows[i]) == Some(names[i])
    {
      ScaffoldIsRow(names[i]);
    }
    TablesOfRows(rows, names);
  }

  lemma {:induction false} DecimalDigits(n: nat)
    ensures Decimal(n) != "" && forall i :: 0 <= i < |Decimal(n)| ==> IsDigit(Decimal(n)[i])
  {
    if n >= 10 {
      DecimalDigits(n / 10);
    }
  }

  lemma CountedIsNoRow(line: string, n: nat)
    requires CountEnd(line) > 0
    ensures QuickRow(line).None? && QuickRow(Recounted(line, n)).None?
  {
    DecimalDigits(n);
    assert Recounted(line, n)[0] == Decimal(n)[0];
  }

  /** Stating a new count never changes which tables are documented. */
  lemma {:induction false} RecountKeepsTables(lines: seq<string>, n: nat)
    ensures Tables(Recount(lines, n)) == Tables(lines)
  {
    if lines != [] {
      assert lines == [lines[0]] + lines[1..];
      TablesAdd([lines[0]], lines[1..]);
      TablesOfOne(lines[0]);
      if CountEnd(lines[0]) > 0 {
        CountedIsNoRow(lines[0], n);
        TablesAdd([Recounted(lines[0], n)], lines[1..]);
        TablesOfOne(Recounted(lines[0], n));
      } else {
        RecountKeepsTables(lines[1..], n);
        TablesAdd([lines[0]], Recount(lines[1..], n));
      }
    }
  }

  lemma TablesAdded(kept: seq<string>, names: seq<string>)
    ensures Tables(AddRows(kept, names)) == Tables(kept) + (if LastRow(kept).Some? then Tables(Scaffolds(names)) else {})
  {
    var last := LastRow(kept);
    if last.Some? {
      var after := last.value + 1;
      assert kept == kept[..after] + kept[after..];
      TablesAdd(kept[..after], kept[after..]);
      TablesAdd(kept[..after], Scaffolds(names));
      TablesAdd(kept[..after] + Scaffolds(names), kept[after..]);
    }
  }

  /** What the fixed lines document. */
  lemma TablesFixed(lines: seq<string>, actual: set<string>)
    requires AllWords(Missing(lines, actual))
    ensures Tables(FixLines(lines, actual)) == if Tables(lines) * actual == {} then {} else actual
  {
    var kept, names := KeepRows(lines, actual), SortedStrings(Missing(lines, actual));
    TablesKept(lines, actual);
    LastRowExactly(kept);
    assert forall i :: 0 <= i < |names| ==> names[i] in names;
    TablesScaffolded(names);
    TablesAdded(kept, names);
    RecountKeepsTables(AddRows(kept, names), |actual|);
  }
}
