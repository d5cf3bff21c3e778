/** The schema fixer against its checker, over whole documents. */
module SchemaLaws {
  import opened Outcomes
  import opened Ordering
  import opened Text
  import opened TextLines
  import opened MapLines
  import opened SchemaDocs

  lemma {:induction false} KeptHaveNoNewlines(lines: seq<string>, actual: set<string>)
    requires NoNewlines(lines)
    ensures NoNewlines(KeepRows(lines, actual))
  {
    if lines != [] {
      KeptHaveNoNewlines(lines[..|lines| - 1], actual);
    }
  }

  lemma ScaffoldHasNoNewline(table: string)
    requires '\n' !in table
    ensures '\n' !in ScaffoldRow(table)
  {
    assert '\n' !in PURPOSE_CELL && '\n' !in KEY_CELL;
  }

  lemma {:induction false} RecountHasNoNewlines(lines: seq<string>, n: nat)
    requires NoNewlines(lines)
    ensures NoNewlines(Recount(lines, n))
  {
    if lines != [] {
      RecountHasNoNewlines(lines[1..], n);
      DecimalDigits(n);
      assert '\n' !in TABLES;
    }
  }

  lemma ScaffoldsHaveNoNewlines(names: seq<string>)
    requires forall i :: 0 <= i < |names| ==> '\n' !in names[i]
    ensures NoNewlines(Scaffolds(names))
  {
    forall i | 0 <= i < |names|
      ensures '\n' !in Scaffolds(names)[i]
    {
      ScaffoldHasNoNewline(names[i]);
    }
  }

  lemma SplicedHaveNoNewlines(kept: seq<string>, rows: seq<string>, at: nat)
    requires NoNewlines(kept) && NoNewlines(rows) && at <= |kept|
    ensures NoNewlines(kept[..at] + rows + kept[at..])
  {
  }

  /** Names that stay on one line: a table's name is one in every schema anybody would write. */
  ghost predicate OneLineNames(names: set<string>) {
    forall name :: name in names ==> '\n' !in name
  }

  lemma WordsAreOneLine(names: set<string>)
    requires AllWords(names)
    ensures OneLineNames(names)
  {
    forall name | name in names
      ensures '\n' !in name
    {
      assert IsWord(name);
    }
  }

  lemma AddedHaveNoNewlines(kept: seq<string>, names: seq<string>)
    requires NoNewlines(kept) && (LastRow(kept).None? || forall i :: 0 <= i < |names| ==> '\n' !in names[i])
    ensures NoNewlines(AddRows(kept, names))
  {
    if LastRow(kept).Some? {
      ScaffoldsHaveNoNewlines(names);
      SplicedHaveNoNewlines(kept, Scaffolds(names), LastRow(kept).value + 1);
    }
  }

  lemma OneLineInOrder(names: set<string>)
    requires OneLineNames(names)
    ensures forall i :: 0 <= i < |SortedStrings(names)| ==> '\n' !in SortedStrings(names)[i]
  {
    var sorted := SortedStrings(names);
    assert forall i :: 0 <= i < |sorted| ==> sorted[i] in sorted;
  }

  lemma FixedHaveNoNewlines(lines: seq<string>, actual: set<string>)
    requires NoNewlines(lines) && (OneLineNames(Missing(lines, actual)) || Tables(lines) * actual == {})
    ensures NoNewlines(FixLines(lines, actual))
  {
    var kept, names := KeepRows(lines, actual), SortedStrings(Missing(lines, actual));
    KeptHaveNoNewlines(lines, actual);
    TablesKept(lines, actual);
    LastRowExactly(kept);
    if OneLineNames(Missing(lines, actual)) {
      OneLineInOrder(Missing(lines, actual));
    }
    AddedHaveNoNewlines(kept, names);
    RecountHasNoNewlines(AddRows(kept, names), |actual|);
  }

  lemma TablesOfBlank(lines: seq<string>)
    ensures Tables(lines + [""]) == Tables(lines)
  {
    TablesAdd(lines, [""]);
    TablesOfOne("");
  }

  /** The fixed document's lines are the fixed lines, up to a blank one at the end. */
  lemma LinesFixed(content: string, actual: set<string>)
    requires OneLineNames(Missing(Lines(content), actual)) || Tables(Lines(content)) * actual == {}
    ensures SameButBlank(Lines(FixedContent(content, actual)), FixLines(Lines(content), actual))
    ensures Tables(Lines(FixedContent(content, actual))) == Tables(FixLines(Lines(content), actual))
  {
    var fixedLines := FixLines(Lines(content), actual);
    LinesHaveNoNewlines(content);
    FixedHaveNoNewlines(Lines(content), actual);
    LinesOfRejoined(fixedLines, EndsWithNewline(content));
    TablesOfBlank(fixedLines);
    TablesOfBlank(Lines(FixedContent(content, actual)));
  }

  /**
   After the fix the checker finds exactly the real tables if and only if nothing was missing, or
   some live row was there to anchor the new ones and every missing name is one a row can carry.
   */
  lemma FixSatisfiesCheckExactly(content: string, actual: set<string>)
    ensures var missing := Missing(Lines(content), actual);
            Tables(Lines(FixedContent(content, actual))) == actual
            <==> missing == {} || (Tables(Lines(content)) * actual != {} && AllWords(missing))
  {
    var missing := Missing(Lines(content), actual);
    var found := Tables(Lines(FixedContent(content, actual)));
    if AllWords(missing) {
      WordsAreOneLine(missing);
      TablesFixed(Lines(content), actual);
      LinesFixed(content, actual);
    } else {
      var name :| name in missing && !IsWord(name);
      if name in found {
        TablesAreWords(Lines(FixedContent(content, actual)), name);
      }
    }
  }

  lemma {:induction false} NothingStale(lines: seq<string>, actual: set<string>)
    requires Tables(lines) <= actual
    ensures KeepRows(lines, actual) == lines
  {
    if lines != [] {
      var n := |lines| - 1;
      NothingStale(lines[..n], actual);
    }
  }

  lemma RecountedTwice(line: string, n: nat)
    requires CountEnd(line) > 0
    ensures CountEnd(Recounted(line, n)) > 0 && Recounted(Recounted(line, n), n) == Recounted(line, n)
  {
    var rest := line[CountEnd(line)..];
    var again := Recounted(line, n);
    DecimalDigits(n);
    RunOfAll(Decimal(n), TABLES + rest, IsDigit);
    var digits, end := |Decimal(n)|, |Decimal(n)| + |TABLES|;
    assert again[digits..end] == TABLES && again[end..] == rest;
  }

  lemma {:induction false} RecountTwice(lines: seq<string>, n: nat)
    ensures Recount(Recount(lines, n), n) == Recount(lines, n)
  {
    if lines != [] {
      if CountEnd(lines[0]) > 0 {
        RecountedTwice(lines[0], n);
      } else {
        RecountTwice(lines[1..], n);
      }
    }
  }

  lemma {:induction false} RecountOfBlank(lines: seq<string>, n: nat)
    ensures Recount(lines + [""], n) == Recount(lines, n) + [""]
  {
    if lines == [] {
      assert [] + [""] == [""] && [""][1..] == [];
    } else {
      assert (lines + [""])[1..] == lines[1..] + [""];
      RecountOfBlank(lines[1..], n);
    }
  }

  /** Lines that are complete and counted are left as they are. */
  lemma FixLeavesFixed(lines: seq<string>, actual: set<string>)
    requires Tables(lines) == actual || Tables(lines) == {}
    requires Recount(lines, |actual|) == lines
    ensures FixLines(lines, actual) == lines
  {
    var names := SortedStrings(Missing(lines, actual));
    NothingStale(lines, actual);
    LastRowExactly(lines);
    if LastRow(lines).Some? {
      var after := LastRow(lines).value + 1;
      assert names == [];
      assert lines == lines[..after] + Scaffolds(names) + lines[after..];
    }
  }

  /** Without a live row nothing is added, whatever is missing. */
  lemma NoAnchorNoTables(lines: seq<string>, actual: set<string>)
    requires Tables(lines) * actual == {}
    ensures Tables(FixLines(lines, actual)) == {}
  {
    var kept := KeepRows(lines, actual);
    TablesKept(lines, actual);
    LastRowExactly(kept);
    RecountKeepsTables(kept, |actual|);
  }

  /** Fixing a fixed document changes nothing when rows can carry the missing names or none can be added. */
  lemma SettledAfterOnce(content: string, actual: set<string>)
    requires AllWords(Missing(Lines(content), actual)) || Tables(Lines(content)) * actual == {}
    ensures FixedContent(FixedContent(content, actual), actual) == FixedContent(content, actual)
  {
    var once := FixedContent(content, actual);
    var kept := KeepRows(Lines(content), actual);
    var added := AddRows(kept, SortedStrings(Missing(Lines(content), actual)));
    if Tables(Lines(content)) * actual == {} {
      NoAnchorNoTables(Lines(content), actual);
    } else {
      WordsAreOneLine(Missing(Lines(content), actual));
      TablesFixed(Lines(content), actual);
    }
    LinesFixed(content, actual);
    RecountSettles(added, Lines(once), |actual|);
    FixLeavesFixed(Lines(once), actual);
    RejoinOfLines(once);
  }

  lemma RecountSettles(added: seq<string>, lines: seq<string>, n: nat)
    requires SameButBlank(lines, Recount(added, n))
    ensures Recount(lines, n) == lines
  {
    var settled, again := Recount(added, n), Recount(lines, n);
    RecountTwice(added, n);
    RecountOfBlank(lines, n);
    RecountOfBlank(settled, n);
    if lines + [""] == settled {
      assert again + [""] == lines + [""];
      assert again == (again + [""])[..|lines|] == lines;
    }
  }

  // --------------------------------------------- names a row cannot carry

  /** A name that a row shows as it is: on one line and without a backtick. */
  predicate IsPlain(name: string) {
    '\n' !in name && '`' !in name
  }

  ghost predicate PlainNames(names: set<string>) {
    forall name :: name in names ==> IsPlain(name)
  }

  lemma NoWordTaken(name: string, rest: string)
    requires !IsWord(name) && '`' !in name
    ensures TakeWord("`" + (name + ("`" + rest))).None?
  {
    var closing := "`" + rest;
    CharTaken('`', name + closing);
    RunWithin(name, closing, IsWordChar);
    var n := RunOf(name + closing, IsWordChar);
    if n == |name| && name != "" {
      forall i | 0 <= i < |name|
        ensures IsWordChar(name[i])
      {
        assert (name + closing)[i] == name[i];
      }
      assert false;
    } else if n < |name| {
      assert (name + closing)[n..][0] == name[n];
    }
  }

  lemma NoRowNameOf(name: string, rest: string)
    requires !IsWord(name) && '`' !in name
    ensures RowName("|" + (" " + ("`" + (name + ("`" + rest))))).None?
  {
    var word := "`" + (name + ("`" + rest));
    CharTaken('|', " " + word);
    SpaceTaken(word);
    NoWordTaken(name, rest);
  }

  lemma ScaffoldIsNoRow(table: string)
    requires !IsWord(table) && '`' !in table
    ensures QuickRow(ScaffoldRow(table)).None?
  {
    NoRowNameOf(table, " " + ("|" + (PURPOSE_CELL + ("|" + (KEY_CELL + ("|" + ""))))));
  }

  /** A line that is no row, or one of an actual table. */
  ghost predicate RowWithin(line: string, actual: set<string>) {
    var row := QuickRow(line);
    row.Some? ==> row.value in actual
  }

  lemma {:induction false} TablesWithin(lines: seq<string>, actual: set<string>)
    requires forall i :: 0 <= i < |lines| ==> RowWithin(lines[i], actual)
    ensures Tables(lines) <= actual
  {
    if lines != [] {
      var n := |lines| - 1;
      assert RowWithin(lines[n], actual);
      TablesWithin(lines[..n], actual);
    }
  }

  lemma ScaffoldWithin(table: string, actual: set<string>)
    requires IsPlain(table) && table in actual
    ensures RowWithin(ScaffoldRow(table), actual)
  {
    if IsWord(table) {
      ScaffoldIsRow(table);
    } else {
      ScaffoldIsNoRow(table);
    }
  }

  /** The rows added for plain names are read as nothing but those names. */
  lemma ScaffoldedWithin(names: seq<string>, actual: set<string>)
    requires forall i :: 0 <= i < |names| ==> IsPlain(names[i]) && names[i] in actual
    ensures Tables(Scaffolds(names)) <= actual
  {
    forall i | 0 <= i < |names|
      ensures RowWithin(Scaffolds(names)[i], actual)
    {
      ScaffoldWithin(names[i], actual);
    }
    TablesWithin(Scaffolds(names), actual);
  }

  /** How many lines are not blank. */
  function Inked(lines: seq<string>): nat {
    if lines == [] then 0 else
      var n := |lines| - 1;
      Inked(lines[..n]) + if lines[n] == "" then 0 else 1
  }

  lemma {:induction false} InkedAdd(a: seq<string>, b: seq<string>)
    ensures Inked(a + b) == Inked(a) + Inked(b)
  {
    if b == [] {
      assert a + b == a;
    } else {
      var n := |b| - 1;
      assert (a + b)[..|a + b| - 1] == a + b[..n];
      InkedAdd(a, b[..n]);
    }
  }

  lemma InkedOfOne(line: string)
    ensures Inked([line]) == if line == "" then 0 else 1
  {
    assert [line][..0] == [];
  }

  lemma {:induction false} InkedRecount(lines: seq<string>, n: nat)
    ensures Inked(Recount(lines, n)) == Inked(lines)
  {
    if lines != [] {
      assert lines == [lines[0]] + lines[1..];
      InkedAdd([lines[0]], lines[1..]);
      InkedOfOne(lines[0]);
      if CountEnd(lines[0]) > 0 {
        InkedAdd([Recounted(lines[0], n)], lines[1..]);
        InkedOfOne(Recounted(lines[0], n));
      } else {
        InkedRecount(lines[1..], n);
        InkedAdd([lines[0]], Recount(lines[1..], n));
      }
    }
  }

  lemma {:induction false} InkedScaffolds(names: seq<string>)
    ensures Inked(Scaffolds(names)) == |names|
  {
    if names != [] {
      var n := |names| - 1;
      InkedScaffolds(names[..n]);
      assert Scaffolds(names)[..n] == Scaffolds(names[..n]);
    }
  }

  lemma InkedAdded(kept: seq<string>, names: seq<string>)
    requires LastRow(kept).Some?
    ensures Inked(AddRows(kept, names)) == Inked(kept) + |names|
  {
    var after := LastRow(kept).value + 1;
    assert kept == kept[..after] + kept[after..];
    InkedAdd(kept[..after], kept[after..]);
    InkedAdd(kept[..after], Scaffolds(names));
    InkedAdd(kept[..after] + Scaffolds(names), kept[after..]);
    InkedScaffolds(names);
  }

  lemma InkedBlank(a: seq<string>, b: seq<string>)
    requires SameButBlank(a, b)
    ensures Inked(a) == Inked(b)
  {
    InkedOfOne("");
    InkedAdd(a, [""]);
    InkedAdd(b, [""]);
  }

  /** A document with live rows only grows by one line for every name still missing. */
  lemma FixGrows(lines: seq<string>, actual: set<string>)
    requires Tables(lines) <= actual && Tables(lines) != {}
    ensures Inked(FixLines(lines, actual)) == Inked(lines) + |Missing(lines, actual)|
  {
    var names := SortedStrings(Missing(lines, actual));
    NothingStale(lines, actual);
    LastRowExactly(lines);
    InkedAdded(lines, names);
    InkedRecount(AddRows(lines, names), |actual|);
  }

  /** After one fix every row is live, and the live rows there were are still there. */
  lemma RowsAfterFix(lines: seq<string>, actual: set<string>)
    requires PlainNames(actual)
    ensures Tables(lines) * actual <= Tables(FixLines(lines, actual)) <= actual
  {
    var kept, names := KeepRows(lines, actual), SortedStrings(Missing(lines, actual));
    TablesKept(lines, actual);
    assert forall i :: 0 <= i < |names| ==> names[i] in names;
    ScaffoldedWithin(names, actual);
    TablesAdded(kept, names);
    RecountKeepsTables(AddRows(kept, names), |actual|);
  }

  /** A live row is there to anchor new ones, and some missing plain name is no word. */
  ghost predicate Spoiled(content: string, actual: set<string>, name: string) {
    && PlainNames(actual) && Tables(Lines(content)) * actual != {}
    && name in Missing(Lines(content), actual) && !IsWord(name)
  }

  ghost predicate Fixes(before: string, after: string, actual: set<string>) {
    after == FixedContent(before, actual)
  }

  lemma SpoiledStays(content: string, once: string, actual: set<string>, name: string)
    requires Spoiled(content, actual, name) && Fixes(content, once, actual)
    ensures Spoiled(once, actual, name) && Tables(Lines(once)) <= actual
  {
    var lines := Lines(once);
    LinesFixed(content, actual);
    RowsAfterFix(Lines(content), actual);
    if name in Tables(lines) {
      TablesAreWords(lines, name);
    }
    assert Tables(Lines(content)) * actual <= Tables(lines) * actual;
  }

  /** Fixing a document whose rows are all live adds a line that is not blank. */
  lemma SpoiledGrows(content: string, once: string, actual: set<string>, name: string)
    requires Spoiled(content, actual, name) && Tables(Lines(content)) <= actual && Fixes(content, once, actual)
    ensures Inked(Lines(once)) > Inked(Lines(content))
  {
    FixGrows(Lines(content), actual);
    LinesFixed(content, actual);
    InkedBlank(Lines(once), FixLines(Lines(content), actual));
  }

  /** Each document is the one before it, fixed. */
  ghost predicate FixRuns(docs: seq<string>, actual: set<string>) {
    forall i: nat, j: nat :: j == i + 1 && j < |docs| ==> Fixes(docs[i], docs[j], actual)
  }

  lemma {:induction false} SpoiledThroughout(docs: seq<string>, actual: set<string>, name: string, j: nat)
    requires FixRuns(docs, actual) && j < |docs| && Spoiled(docs[0], actual, name)
    ensures Spoiled(docs[j], actual, name)
    ensures j > 0 || Tables(Lines(docs[0])) <= actual ==> Tables(Lines(docs[j])) <= actual
  {
    if j > 0 {
      var i := j - 1;
      SpoiledThroughout(docs, actual, name, i);
      assert Fixes(docs[i], docs[j], actual);
      SpoiledStays(docs[i], docs[j], actual, name);
    }
  }

  /** The document never settles: every run after the first adds lines, and the first too when no row is stale. */
  lemma GrowsAtEveryRun(docs: seq<string>, actual: set<string>, name: string, i: nat, j: nat)
    requires FixRuns(docs, actual) && j == i + 1 && j < |docs| && Spoiled(docs[0], actual, name)
    requires i > 0 || Tables(Lines(docs[0])) <= actual
    ensures Inked(Lines(docs[j])) > Inked(Lines(docs[i]))
  {
    SpoiledThroughout(docs, actual, name, i);
    assert Fixes(docs[i], docs[j], actual);
    SpoiledGrows(docs[i], docs[j], actual, name);
  }

  /** With a live row, a missing plain name that is no word is appended again. */
  lemma AppendedAgain(content: string, actual: set<string>, name: string)
    requires Spoiled(content, actual, name)
    ensures FixedContent(FixedContent(content, actual), actual) != FixedContent(content, actual)
  {
    var once := FixedContent(content, actual);
    SpoiledStays(content, once, actual, name);
    SpoiledGrows(once, FixedContent(once, actual), actual, name);
  }

  /**
   Among schemas of plain names, fixing a fixed document changes nothing if and only if every missing
   name is a word, or no live row is there to anchor new ones.
   */
  lemma FixIsIdempotentExactly(content: string, actual: set<string>)
    requires PlainNames(actual)
    ensures FixedContent(FixedContent(content, actual), actual) == FixedContent(content, actual)
            <==> AllWords(Missing(Lines(content), actual)) || Tables(Lines(content)) * actual == {}
  {
    if AllWords(Missing(Lines(content), actual)) || Tables(Lines(content)) * actual == {} {
      SettledAfterOnce(content, actual);
    } else {
      var name :| name in Missing(Lines(content), actual) && !IsWord(name);
      AppendedAgain(content, actual, name);
    }
  }

  lemma OneRowDocument(table: string)
    requires IsWord(table)
    ensures Lines(ScaffoldRow(table)) == [ScaffoldRow(table)] && Tables(Lines(ScaffoldRow(table))) == {table}
  {
    assert '\n' !in table;
    ScaffoldHasNoNewline(table);
    OneLine(ScaffoldRow(table));
    ScaffoldIsRow(table);
    TablesOfOne(ScaffoldRow(table));
  }

  lemma OneRowIsSpoiled(live: string, name: string)
    requires IsWord(live) && IsPlain(name) && !IsWord(name)
    ensures Spoiled(ScaffoldRow(live), {live, name}, name) && Tables(Lines(ScaffoldRow(live))) <= {live, name}
  {
    OneRowDocument(live);
    assert IsPlain(live);
    OneTableSpoils(ScaffoldRow(live), live, name);
  }

  lemma OneTableSpoils(content: string, live: string, name: string)
    requires Tables(Lines(content)) == {live} && IsPlain(live) && IsPlain(name) && !IsWord(name) && live != name
    ensures Spoiled(content, {live, name}, name)
  {
    assert live in Tables(Lines(content)) * {live, name};
  }

  /** Every plain name that is no word has a document it spoils, one live row being enough: it grows at every run. */
  lemma NonWordIsAppendedAgain(live: string, name: string, docs: seq<string>, i: nat, j: nat)
    requires IsWord(live) && IsPlain(name) && !IsWord(name)
    requires FixRuns(docs, {live, name}) && j == i + 1 && j < |docs| && docs[0] == ScaffoldRow(live)
    ensures Inked(Lines(docs[j])) > Inked(Lines(docs[i]))
  {
    OneRowIsSpoiled(live, name);
    GrowsAtEveryRun(docs, {live, name}, name, i, j);
  }

  /** A hyphen is enough: the row of a table called a-b is appended at every run. */
  lemma HyphenatedName()
    ensures IsWord("a") && IsPlain("a-b") && !IsWord("a-b")
  {
    assert "a-b"[1] == '-';
  }

  // ------------------------------------------------- why names must be plain

  /** A name that closes its own cell: its row reads as one of another table. */
  function ClosingName(word: string): string {
    word + ("`" + (" " + "|"))
  }

  lemma ClosingNameShown(word: string, rest: string)
    ensures "|" + (" " + ("`" + (ClosingName(word) + ("`" + rest))))
         == "|" + (" " + ("`" + (word + ("`" + (" " + ("|" + ("`" + rest)))))))
  {
    assert ClosingName(word) + ("`" + rest) == word + ("`" + (" " + ("|" + ("`" + rest))));
  }

  lemma ClosingNameIsMisread(word: string)
    requires IsWord(word)
    ensures QuickRow(ScaffoldRow(ClosingName(word))) == Some(word)
  {
    ScaffoldPipes(ClosingName(word), PURPOSE_CELL, KEY_CELL);
    ClosingNameShown(word, " " + ("|" + (PURPOSE_CELL + ("|" + (KEY_CELL + ("|" + ""))))));
    RowNameOf(word, "`" + (" " + ("|" + (PURPOSE_CELL + ("|" + (KEY_CELL + ("|" + "")))))));
  }

  lemma FirstRow(first: string, live: string, actual: set<string>)
    requires QuickRow(first) == Some(live) && live in actual
    ensures KeepRows([first], actual) == [first] && LastRow([first]) == Some(0) && Tables([first]) == {live}
  {
    assert [first][..0] == [];
    assert KeepRows([], actual) + [first] == [first];
  }

  lemma SecondRow(first: string, second: string, live: string, word: string, actual: set<string>)
    requires QuickRow(first) == Some(live) && live in actual
    requires QuickRow(second) == Some(word) && word !in actual
    ensures KeepRows([first, second], actual) == [first] && Tables([first, second]) == {live, word}
  {
    FirstRow(first, live, actual);
    assert [first, second][..1] == [first];
    assert KeepRows([first], actual) + [] == [first];
  }

  predicate StartsWithBar(line: string) {
    line != "" && line[0] == '|'
  }

  lemma BarIsNotCounted(line: string, rest: seq<string>, n: nat)
    requires StartsWithBar(line)
    ensures Recount([line] + rest, n) == [line] + Recount(rest, n)
  {
    assert ([line] + rest)[1..] == rest;
  }

  lemma BarPair(first: string, second: string, n: nat)
    requires StartsWithBar(first) && StartsWithBar(second)
    ensures Recount([first, second], n) == [first, second]
  {
    BarIsNotCounted(first, [second], n);
    BarIsNotCounted(second, [], n);
    assert [first] + [second] == [first, second] && [second] + [] == [second];
  }

  lemma OnlyName(name: string)
    ensures SortedStrings({name}) == [name]
  {
    var sorted := SortedStrings({name});
    assert sorted[0] in sorted;
  }

  lemma AppendedToOne(first: string, second: string, name: string)
    requires LastRow([first]) == Some(0) && Scaffolds([name]) == [second]
    ensures AddRows([first], [name]) == [first, second]
  {
    assert [first][..1] + [second] + [first][1..] == [first, second];
  }

  /** The one missing name's row goes after the first row, whether its old row was dropped or was never there. */
  lemma MisreadAppended(lines: seq<string>, first: string, second: string, name: string, actual: set<string>)
    requires KeepRows(lines, actual) == [first] && AddRows([first], [name]) == [first, second]
    requires Missing(lines, actual) == {name} && SortedStrings({name}) == [name]
    requires Recount([first, second], |actual|) == [first, second]
    ensures FixLines(lines, actual) == [first, second]
  {
  }

  lemma OnlyMissing(lines: seq<string>, live: string, word: string, name: string)
    requires Tables(lines) == {live} || Tables(lines) == {live, word}
    requires name != live && name != word
    ensures Missing(lines, {live, name}) == {name}
  {
  }

  lemma MisreadSettles(first: string, second: string, live: string, word: string, name: string)
    requires QuickRow(first) == Some(live) && QuickRow(second) == Some(word)
    requires live != word && name != live && name != word
    requires AddRows([first], [name]) == [first, second] && StartsWithBar(first) && StartsWithBar(second)
    ensures FixLines([first], {live, name}) == [first, second] == FixLines([first, second], {live, name})
  {
    var actual := {live, name};
    OnlyName(name);
    BarPair(first, second, |actual|);
    FirstRow(first, live, actual);
    OnlyMissing([first], live, word, name);
    MisreadAppended([first], first, second, name, actual);
    SecondRow(first, second, live, word, actual);
    OnlyMissing([first, second], live, word, name);
    MisreadAppended([first, second], first, second, name, actual);
  }

  lemma ClosingNameIsNew(live: string, word: string)
    requires IsWord(live) && IsWord(word)
    ensures ClosingName(word) != live && ClosingName(word) != word && !IsWord(ClosingName(word))
  {
    assert ClosingName(word)[|word|] == '`';
  }

  lemma TwoLines(first: string, second: string)
    requires '\n' !in first && '\n' !in second && second != ""
    ensures Lines(Rejoin([first, second], false)) == [first, second] && !EndsWithNewline(Rejoin([first, second], false))
  {
    JoinFirst(first, [second], false);
    JoinFirst(second, [], false);
    assert [first] + [second] == [first, second] && [second] + [] == [second];
    LineThenRest(first, second);
    OneLine(second);
  }

  /** Lines that settle are a document that settles. */
  lemma SettlesAsText(first: string, second: string, actual: set<string>)
    requires FixLines([first], actual) == [first, second] == FixLines([first, second], actual)
    requires '\n' !in first && '\n' !in second && first != "" && second != ""
    ensures FixedContent(FixedContent(first, actual), actual) == FixedContent(first, actual)
  {
    OneLine(first);
    TwoLines(first, second);
  }

  lemma MisreadDocument(first: string, second: string, live: string, word: string, name: string)
    requires QuickRow(first) == Some(live) && QuickRow(second) == Some(word)
    requires live != word && name != live && name != word
    requires AddRows([first], [name]) == [first, second] && StartsWithBar(first) && StartsWithBar(second)
    requires '\n' !in first && '\n' !in second
    ensures Missing(Lines(first), {live, name}) == {name}
    ensures FixedContent(FixedContent(first, {live, name}), {live, name}) == FixedContent(first, {live, name})
  {
    OneLine(first);
    FirstRow(first, live, {live, name});
    OnlyMissing([first], live, word, name);
    MisreadSettles(first, second, live, word, name);
    SettlesAsText(first, second, {live, name});
  }

  lemma ScaffoldLine(table: string)
    requires '\n' !in table
    ensures '\n' !in ScaffoldRow(table) && StartsWithBar(ScaffoldRow(table))
  {
    ScaffoldHasNoNewline(table);
  }

  lemma ClosingNameIsOneLine(word: string)
    requires IsWord(word)
    ensures '\n' !in word && '\n' !in ClosingName(word)
  {
  }

  /**
   A name that is no word and yet settles: its row reads as one of another table, is dropped as stale
   and appended again in the same place. The plain names of the law above leave such names out.
   */
  lemma MisreadNameSettles(live: string, word: string)
    requires IsWord(live) && IsWord(word) && live != word
    ensures var actual := {live, ClosingName(word)};
            && !IsWord(ClosingName(word)) && Missing(Lines(ScaffoldRow(live)), actual) == {ClosingName(word)}
            && FixedContent(FixedContent(ScaffoldRow(live), actual), actual) == FixedContent(ScaffoldRow(live), actual)
  {
    var name := ClosingName(word);
    var first, second := ScaffoldRow(live), ScaffoldRow(name);
    ScaffoldIsRow(live);
    ClosingNameIsMisread(word);
    ClosingNameIsNew(live, word);
    ClosingNameIsOneLine(live);
    ClosingNameIsOneLine(word);
    ScaffoldLine(live);
    ScaffoldLine(name);
    FirstRow(first, live, {live});
    assert Scaffolds([name]) == [second];
    AppendedToOne(first, second, name);
    MisreadDocument(first, second, live, word, name);
  }
}
