/** The structural-map checker and the fixer that drops rows whose files are all gone. */
module MapDocs {
  import opened TextLines
  import opened MapLines
  import Text

  // ----------------------------------------------------------- section context

  const KNOWN_TOP_DIRS: seq<string> := ["src", "apps", "scripts", "tests", "docs", ".ai", ".github"]

  function TopDir(path: string): (dir: string)
    ensures dir <= path && '/' !in dir && (|dir| < |path| ==> path[|dir|] == '/')
  {
    if path == "" || path[0] == '/' then "" else [path[0]] + TopDir(path[1..])
  }

  predicate IsFullPath(path: string) {
    TopDir(path) in KNOWN_TOP_DIRS
  }

  /** A path taken relative to a directory unless it is a full repository path already. */
  function ResolveToken(token: string, dir: string): string {
    if IsFullPath(token) then token else dir + "/" + token
  }

  /** The directories that rows and subsections resolve against. */
  datatype Context = Context(sectionBase: string, currentDir: string)

  function Start(source: string): Context {
    Context(source, source)
  }

  function Advance(source: string, ctx: Context, line: Line): Context {
    match line
    case Heading(level, path) =>
      if level <= 2 then
        var base := if path.None? then source else ResolveToken(path.value, source);
        Context(base, base)
      else ctx.(currentDir := if path.None? then ctx.sectionBase else ResolveToken(path.value, ctx.sectionBase))
    case Subsection(dir) => ctx.(currentDir := ResolveToken(dir, ctx.sectionBase))
    case _ => ctx
  }

  function ResolveAll(tokens: seq<string>, dir: string): (paths: seq<string>)
    ensures |paths| == |tokens|
  {
    seq(|tokens|, i requires 0 <= i < |tokens| => ResolveToken(tokens[i], dir))
  }

  /** The files a line claims in a context. */
  function PathsOf(line: Line, ctx: Context): seq<string> {
    if line.Row? then ResolveAll(line.tokens, ctx.currentDir) else []
  }

  /** The row a line yields, if any. */
  function RowAt(n: nat, paths: seq<string>): seq<(nat, seq<string>)> {
    if paths == [] then [] else [(n, paths)]
  }

  /** The line number and files of every row that names one, numbering from `n`. */
  function RowPaths(source: string, lines: seq<string>, ctx: Context, n: nat): seq<(nat, seq<string>)> {
    if lines == [] then [] else
      var line := Classify(lines[0]);
      var paths, next := PathsOf(line, ctx), n + 1;
      RowAt(n, paths) + RowPaths(source, lines[1..], Advance(source, ctx, line), next)
  }

  lemma RowsFrom(source: string, lines: seq<string>, n: nat, next: nat, ctx: Context, rows: seq<(nat, seq<string>)>)
    requires n < |lines| && next == n + 1
    ensures rows + RowPaths(source, lines[n..], ctx, n)
         == rows + RowAt(n, PathsOf(Classify(lines[n]), ctx))
            + RowPaths(source, lines[next..], Advance(source, ctx, Classify(lines[n])), next)
  {
    assert lines[n..][1..] == lines[next..];
  }

  method IterTableRowPaths(text: string, source: string) returns (rows: seq<(nat, seq<string>)>)
    ensures rows == RowPaths(source, Lines(text), Start(source), 0)
  {
    rows := [];
    var lines := Lines(text);
    var sectionBase, currentDir := source, source;
    for n := 0 to |lines|
      invariant rows + RowPaths(source, lines[n..], Context(sectionBase, currentDir), n)
             == RowPaths(source, lines, Start(source), 0)
    {
      var line := Classify(lines[n]);
      ghost var ctx := Context(sectionBase, currentDir);
      RowsFrom(source, lines, n, n + 1, ctx, rows);
      rows := rows + RowAt(n, PathsOf(line, Context(sectionBase, currentDir)));
      sectionBase, currentDir := NextDirs(source, line, sectionBase, currentDir);
    }
    assert lines[|lines|..] == [];
  }

  /** Headings of the first two levels start a section; deeper ones and labels a subsection of it. */
  method NextDirs(source: string, line: Line, sectionBase: string, currentDir: string) returns (base: string, dir: string)
    ensures Context(base, dir) == Advance(source, Context(sectionBase, currentDir), line)
  {
    base, dir := sectionBase, currentDir;
    if line.Heading? {
      if line.level <= 2 {
        if line.path.None? {
          base := source;
        } else if IsFullPath(line.path.value) {
          base := line.path.value;
        } else {
          base := source + "/" + line.path.value;
        }
        dir := base;
      } else if line.path.None? {
        dir := sectionBase;
      } else if IsFullPath(line.path.value) {
        dir := line.path.value;
      } else {
        dir := sectionBase + "/" + line.path.value;
      }
    } else if line.Subsection? {
      dir := if IsFullPath(line.dir) then line.dir else sectionBase + "/" + line.dir;
    }
  }

  // ------------------------------------------------------------ check and fix

  /** A claimed file that is not on disk; only slashed paths are claims that can be checked. */
  predicate IsStale(path: string, onDisk: set<string>) {
    '/' in path && path !in onDisk
  }

  function PathSet(paths: seq<string>): set<string> {
    set p | p in paths
  }

  /** A row that names files, every one of them stale. */
  predicate IsDead(paths: seq<string>, onDisk: set<string>) {
    paths != [] && forall p :: p in paths ==> IsStale(p, onDisk)
  }

  /** A row with a stale file and one that is not. */
  predicate IsMixed(paths: seq<string>, onDisk: set<string>) {
    (exists p :: p in paths && IsStale(p, onDisk)) && !IsDead(paths, onDisk)
  }

  /** Everything the rows of the remaining lines claim. */
  function Documented(source: string, lines: seq<string>, ctx: Context): set<string> {
    if lines == [] then {} else
      var line := Classify(lines[0]);
      PathSet(PathsOf(line, ctx)) + Documented(source, lines[1..], Advance(source, ctx, line))
  }

  /** What only the rows mixing stale and live files claim. */
  function MixedClaims(source: string, lines: seq<string>, ctx: Context, onDisk: set<string>): set<string> {
    if lines == [] then {} else
      var line := Classify(lines[0]);
      var paths := PathsOf(line, ctx);
      (if IsMixed(paths, onDisk) then PathSet(paths) else {}) + MixedClaims(source, lines[1..], Advance(source, ctx, line), onDisk)
  }

  /** The claims of each line, in order. */
  function Claims(source: string, lines: seq<string>, ctx: Context): seq<seq<string>> {
    if lines == [] then [] else
      var line := Classify(lines[0]);
      [PathsOf(line, ctx)] + Claims(source, lines[1..], Advance(source, ctx, line))
  }

  function DropDead(claims: seq<seq<string>>, onDisk: set<string>): seq<seq<string>> {
    if claims == [] then [] else
      (if IsDead(claims[0], onDisk) then [] else [claims[0]]) + DropDead(claims[1..], onDisk)
  }

  /** The lines without their dead rows. */
  function KeepLive(source: string, lines: seq<string>, ctx: Context, onDisk: set<string>): seq<string> {
    if lines == [] then [] else
      var line := Classify(lines[0]);
      var rest := KeepLive(source, lines[1..], Advance(source, ctx, line), onDisk);
      if IsDead(PathsOf(line, ctx), onDisk) then rest else [lines[0]] + rest
  }

  /** The dead rows, trimmed, in order. */
  function DeadRows(source: string, lines: seq<string>, ctx: Context, onDisk: set<string>): seq<string> {
    if lines == [] then [] else
      var line := Classify(lines[0]);
      var rest := DeadRows(source, lines[1..], Advance(source, ctx, line), onDisk);
      if IsDead(PathsOf(line, ctx), onDisk) then [Text.Strip(lines[0])] + rest else rest
  }

  function MixedRows(source: string, lines: seq<string>, ctx: Context, onDisk: set<string>): seq<string> {
    if lines == [] then [] else
      var line := Classify(lines[0]);
      var rest := MixedRows(source, lines[1..], Advance(source, ctx, line), onDisk);
      if IsMixed(PathsOf(line, ctx), onDisk) then [Text.Strip(lines[0])] + rest else rest
  }

  // ------------------------------------------------------------------ the laws

  /** Dropping dead rows never changes how the remaining rows resolve. */
  lemma {:induction false} RemainingRowsResolveAlike(source: string, lines: seq<string>, ctx: Context, onDisk: set<string>)
    ensures Claims(source, KeepLive(source, lines, ctx, onDisk), ctx) == DropDead(Claims(source, lines, ctx), onDisk)
  {
    if lines != [] {
      var line := Classify(lines[0]);
      RemainingRowsResolveAlike(source, lines[1..], Advance(source, ctx, line), onDisk);
      KeptThenRest(source, lines, ctx, onDisk);
    }
  }

  /** One line of the fixed map, when the line is kept. */
  lemma KeptThenRest(source: string, lines: seq<string>, ctx: Context, onDisk: set<string>)
    requires lines != []
    ensures !IsDead(PathsOf(Classify(lines[0]), ctx), onDisk) ==>
              var kept := KeepLive(source, lines, ctx, onDisk);
              && kept != [] && kept[0] == lines[0]
              && kept[1..] == KeepLive(source, lines[1..], Advance(source, ctx, Classify(lines[0])), onDisk)
  {
  }

  /** A file that is not stale is documented after the fix exactly when it was before. */
  lemma {:induction false} LiveStayDocumented(source: string, lines: seq<string>, ctx: Context, onDisk: set<string>, p: string)
    requires !IsStale(p, onDisk)
    ensures p in Documented(source, KeepLive(source, lines, ctx, onDisk), ctx) <==> p in Documented(source, lines, ctx)
  {
    if lines != [] {
      var line := Classify(lines[0]);
      LiveStayDocumented(source, lines[1..], Advance(source, ctx, line), onDisk, p);
      KeptThenRest(source, lines, ctx, onDisk);
    }
  }

  /** A stale file is still documented after the fix exactly when a mixed row claims it. */
  lemma {:induction false} OnlyMixedRowsStayStale(source: string, lines: seq<string>, ctx: Context, onDisk: set<string>, p: string)
    requires IsStale(p, onDisk)
    ensures p in Documented(source, KeepLive(source, lines, ctx, onDisk), ctx) <==> p in MixedClaims(source, lines, ctx, onDisk)
  {
    if lines != [] {
      var line := Classify(lines[0]);
      OnlyMixedRowsStayStale(source, lines[1..], Advance(source, ctx, line), onDisk, p);
      KeptThenRest(source, lines, ctx, onDisk);
    }
  }

  /** The fixed map has no dead row left. */
  lemma {:induction false} NothingLeftToDrop(source: string, lines: seq<string>, ctx: Context, onDisk: set<string>)
    ensures DeadRows(source, KeepLive(source, lines, ctx, onDisk), ctx, onDisk) == []
  {
    if lines != [] {
      var line := Classify(lines[0]);
      NothingLeftToDrop(source, lines[1..], Advance(source, ctx, line), onDisk);
      KeptThenRest(source, lines, ctx, onDisk);
    }
  }

  // ----------------------------------------------------------------- the fixer

  function StaleOf(paths: seq<string>, onDisk: set<string>): seq<string> {
    if paths == [] then [] else
      (if IsStale(paths[0], onDisk) then [paths[0]] else []) + StaleOf(paths[1..], onDisk)
  }

  /** None stale, or all of them, can be told from the number of stale ones. */
  lemma {:induction false} StaleCount(paths: seq<string>, onDisk: set<string>)
    ensures |StaleOf(paths, onDisk)| <= |paths|
    ensures StaleOf(paths, onDisk) == [] <==> forall p :: p in paths ==> !IsStale(p, onDisk)
    ensures |StaleOf(paths, onDisk)| == |paths| <==> forall p :: p in paths ==> IsStale(p, onDisk)
  {
    if paths != [] {
      StaleCount(paths[1..], onDisk);
      assert forall p :: p in paths <==> p == paths[0] || p in paths[1..];
    }
  }

  /** The numbers of the dead rows. */
  function DropOf(rows: seq<(nat, seq<string>)>, onDisk: set<string>): set<nat> {
    if rows == [] then {} else
      (if IsDead(rows[0].1, onDisk) then {rows[0].0} else {}) + DropOf(rows[1..], onDisk)
  }

  function DeadIn(rows: seq<(nat, seq<string>)>, lines: seq<string>, onDisk: set<string>): seq<string>
    requires forall i :: 0 <= i < |rows| ==> rows[i].0 < |lines|
  {
    if rows == [] then [] else
      (if IsDead(rows[0].1, onDisk) then [Text.Strip(lines[rows[0].0])] else []) + DeadIn(rows[1..], lines, onDisk)
  }

  function MixedIn(rows: seq<(nat, seq<string>)>, lines: seq<string>, onDisk: set<string>): seq<string>
    requires forall i :: 0 <= i < |rows| ==> rows[i].0 < |lines|
  {
    if rows == [] then [] else
      (if IsMixed(rows[0].1, onDisk) then [Text.Strip(lines[rows[0].0])] else []) + MixedIn(rows[1..], lines, onDisk)
  }

  /** The lines from `n` on whose number is not dropped. */
  function Without(lines: seq<string>, drop: set<nat>, n: nat): seq<string>
    requires n <= |lines|
    decreases |lines| - n
  {
    if n == |lines| then [] else
      var next := n + 1;
      (if n in drop then [] else [lines[n]]) + Without(lines, drop, next)
  }

  ghost predicate NumbersWithin(rows: seq<(nat, seq<string>)>, low: nat, high: nat) {
    forall i :: 0 <= i < |rows| ==> low <= rows[i].0 < high
  }

  lemma {:induction false} RowNumbers(source: string, lines: seq<string>, ctx: Context, n: nat)
    ensures NumbersWithin(RowPaths(source, lines, ctx, n), n, n + |lines|)
  {
    if lines != [] {
      var line, next := Classify(lines[0]), n + 1;
      RowNumbers(source, lines[1..], Advance(source, ctx, line), next);
    }
  }

  lemma {:induction false} DropNumbers(rows: seq<(nat, seq<string>)>, onDisk: set<string>, low: nat, high: nat)
    requires NumbersWithin(rows, low, high)
    ensures forall n :: n in DropOf(rows, onDisk) ==> low <= n < high
  {
    if rows != [] {
      DropNumbers(rows[1..], onDisk, low, high);
    }
  }

  lemma DropFirst(n: nat, paths: seq<string>, rest: seq<(nat, seq<string>)>, onDisk: set<string>)
    ensures DropOf(RowAt(n, paths) + rest, onDisk) == (if IsDead(paths, onDisk) then {n} else {}) + DropOf(rest, onDisk)
  {
    var rows := RowAt(n, paths) + rest;
    if paths == [] {
      assert rows == rest;
    } else {
      assert rows[0] == (n, paths) && rows[1..] == rest;
    }
  }

  /** Dropping by line number is dropping the dead rows. */
  lemma {:induction false} WithoutIsKeepLive(source: string, lines: seq<string>, n: nat, ctx: Context, onDisk: set<string>, drop: set<nat>)
    requires n <= |lines|
    requires forall i :: i >= n ==> (i in drop <==> i in DropOf(RowPaths(source, lines[n..], ctx, n), onDisk))
    ensures Without(lines, drop, n) == KeepLive(source, lines[n..], ctx, onDisk)
    decreases |lines| - n
  {
    if n < |lines| {
      var line, next := Classify(lines[n]), n + 1;
      var after := Advance(source, ctx, line);
      var rest := RowPaths(source, lines[next..], after, next);
      assert lines[n..][1..] == lines[next..];
      RowNumbers(source, lines[next..], after, next);
      DropNumbers(rest, onDisk, next, |lines|);
      DropFirst(n, PathsOf(line, ctx), rest, onDisk);
      WithoutIsKeepLive(source, lines, next, after, onDisk, drop);
    }
  }

  lemma ReportFirst(n: nat, paths: seq<string>, rest: seq<(nat, seq<string>)>, lines: seq<string>, onDisk: set<string>)
    requires n < |lines| && NumbersWithin(rest, 0, |lines|)
    ensures NumbersWithin(RowAt(n, paths) + rest, 0, |lines|)
    ensures DeadIn(RowAt(n, paths) + rest, lines, onDisk)
         == (if IsDead(paths, onDisk) then [Text.Strip(lines[n])] else []) + DeadIn(rest, lines, onDisk)
    ensures MixedIn(RowAt(n, paths) + rest, lines, onDisk)
         == (if IsMixed(paths, onDisk) then [Text.Strip(lines[n])] else []) + MixedIn(rest, lines, onDisk)
  {
    var rows := RowAt(n, paths) + rest;
    if paths == [] {
      assert rows == rest;
    } else {
      assert rows[0] == (n, paths) && rows[1..] == rest;
    }
  }

  /** The rows' reports are the lines' reports. */
  lemma {:induction false} ReportsAgree(source: string, lines: seq<string>, n: nat, ctx: Context, onDisk: set<string>)
    requires n <= |lines|
    ensures NumbersWithin(RowPaths(source, lines[n..], ctx, n), 0, |lines|)
    ensures DeadIn(RowPaths(source, lines[n..], ctx, n), lines, onDisk) == DeadRows(source, lines[n..], ctx, onDisk)
    ensures MixedIn(RowPaths(source, lines[n..], ctx, n), lines, onDisk) == MixedRows(source, lines[n..], ctx, onDisk)
    decreases |lines| - n
  {
    if n < |lines| {
      var line, next := Classify(lines[n]), n + 1;
      var after := Advance(source, ctx, line);
      assert lines[n..][1..] == lines[next..];
      ReportsAgree(source, lines, next, after, onDisk);
      ReportFirst(n, PathsOf(line, ctx), RowPaths(source, lines[next..], after, next), lines, onDisk);
    }
  }

  lemma {:induction false} NoDropNoReport(rows: seq<(nat, seq<string>)>, lines: seq<string>, onDisk: set<string>)
    requires NumbersWithin(rows, 0, |lines|)
    ensures DropOf(rows, onDisk) == {} <==> DeadIn(rows, lines, onDisk) == []
  {
    if rows != [] {
      NoDropNoReport(rows[1..], lines, onDisk);
    }
  }

  /** What the fixer leaves of a map: the text itself when no row is dead. */
  function FixedText(source: string, text: string, onDisk: set<string>): string {
    if DeadRows(source, Lines(text), Start(source), onDisk) == [] then text
    else Rejoin(KeepLive(source, Lines(text), Start(source), onDisk), EndsWithNewline(text))
  }

  lemma RowsSplit(rows: seq<(nat, seq<string>)>, i: nat, next: nat, lines: seq<string>, onDisk: set<string>)
    requires NumbersWithin(rows, 0, |lines|) && next == i + 1 <= |rows|
    ensures var (n, paths) := rows[i];
            && NumbersWithin(rows[i..], 0, |lines|) && NumbersWithin(rows[next..], 0, |lines|)
            && DropOf(rows[i..], onDisk) == (if IsDead(paths, onDisk) then {n} else {}) + DropOf(rows[next..], onDisk)
            && DeadIn(rows[i..], lines, onDisk)
               == (if IsDead(paths, onDisk) then [Text.Strip(lines[n])] else []) + DeadIn(rows[next..], lines, onDisk)
            && MixedIn(rows[i..], lines, onDisk)
               == (if IsMixed(paths, onDisk) then [Text.Strip(lines[n])] else []) + MixedIn(rows[next..], lines, onDisk)
  {
    assert rows[i..][1..] == rows[next..];
  }

  /** A row's kind, read off the number of its stale files. */
  method RowKind(paths: seq<string>, onDisk: set<string>) returns (dead: bool, isMixed: bool)
    ensures dead == IsDead(paths, onDisk) && isMixed == IsMixed(paths, onDisk)
  {
    var stale := StaleOf(paths, onDisk);
    StaleCount(paths, onDisk);
    dead := stale != [] && |stale| == |paths|;
    isMixed := stale != [] && |stale| != |paths|;
  }

  /** The reports so far and those of the rows from `i` on make up the whole. */
  ghost predicate Sorting(rows: seq<(nat, seq<string>)>, i: nat, lines: seq<string>, onDisk: set<string>,
                          drop: set<nat>, removed: seq<string>, mixed: seq<string>)
    requires NumbersWithin(rows, 0, |lines|) && i <= |rows|
  {
    && NumbersWithin(rows[i..], 0, |lines|)
    && drop + DropOf(rows[i..], onDisk) == DropOf(rows, onDisk)
    && removed + DeadIn(rows[i..], lines, onDisk) == DeadIn(rows, lines, onDisk)
    && mixed + MixedIn(rows[i..], lines, onDisk) == MixedIn(rows, lines, onDisk)
  }

  lemma SortStep(rows: seq<(nat, seq<string>)>, i: nat, next: nat, lines: seq<string>, onDisk: set<string>,
                 drop: set<nat>, removed: seq<string>, mixed: seq<string>, dead: bool, isMixed: bool, row: string)
    requires NumbersWithin(rows, 0, |lines|) && next == i + 1 <= |rows|
    requires Sorting(rows, i, lines, onDisk, drop, removed, mixed)
    requires dead == IsDead(rows[i].1, onDisk) && isMixed == IsMixed(rows[i].1, onDisk)
    requires row == Text.Strip(lines[rows[i].0])
    ensures Sorting(rows, next, lines, onDisk, if dead then drop + {rows[i].0} else drop,
                    if dead then removed + [row] else removed, if isMixed then mixed + [row] else mixed)
  {
    RowsSplit(rows, i, next, lines, onDisk);
    SetMoves(drop, rows[i].0, dead, DropOf(rows[next..], onDisk));
    RowMoves(removed, row, dead, DeadIn(rows[next..], lines, onDisk));
    RowMoves(mixed, row, isMixed, MixedIn(rows[next..], lines, onDisk));
  }

  lemma RowMoves(done: seq<string>, row: string, moves: bool, rest: seq<string>)
    ensures done + ((if moves then [row] else []) + rest) == (if moves then done + [row] else done) + rest
  {
  }

  lemma SetMoves(done: set<nat>, n: nat, moves: bool, rest: set<nat>)
    ensures done + ((if moves then {n} else {}) + rest) == (if moves then done + {n} else done) + rest
  {
  }

  method SortRows(rows: seq<(nat, seq<string>)>, lines: seq<string>, onDisk: set<string>)
    returns (drop: set<nat>, removed: seq<string>, mixed: seq<string>)
    requires NumbersWithin(rows, 0, |lines|)
    ensures drop == DropOf(rows, onDisk)
    ensures removed == DeadIn(rows, lines, onDisk) && mixed == MixedIn(rows, lines, onDisk)
  {
    drop, removed, mixed := {}, [], [];
    assert rows[0..] == rows;
    for i := 0 to |rows|
      invariant Sorting(rows, i, lines, onDisk, drop, removed, mixed)
    {
      var (n, paths) := rows[i];
      var dead, isMixed := RowKind(paths, onDisk);
      var row := Text.Strip(lines[n]);
      SortStep(rows, i, i + 1, lines, onDisk, drop, removed, mixed, dead, isMixed, row);
      if dead {
        drop, removed := drop + {n}, removed + [row];
      }
      if isMixed {
        mixed := mixed + [row];
      }
    }
    assert rows[|rows|..] == [];
  }

  method FixMap(source: string, text: string, onDisk: set<string>)
    returns (fixedText: string, removed: seq<string>, mixed: seq<string>)
    ensures fixedText == FixedText(source, text, onDisk)
    ensures removed == DeadRows(source, Lines(text), Start(source), onDisk)
    ensures mixed == MixedRows(source, Lines(text), Start(source), onDisk)
  {
    var lines := Lines(text);
    var rows := IterTableRowPaths(text, source);
    assert lines[0..] == lines;
    ReportsAgree(source, lines, 0, Start(source), onDisk);
    var drop;
    drop, removed, mixed := SortRows(rows, lines, onDisk);
    NoDropNoReport(rows, lines, onDisk);
    fixedText := text;
    if drop != {} {
      WithoutIsKeepLive(source, lines, 0, Start(source), onDisk, drop);
      fixedText := Rejoin(Without(lines, drop, 0), EndsWithNewline(text));
    }
  }

  // ------------------------------------------------- the checker after the fixer

  function DocumentedIn(source: string, text: string): set<string> {
    Documented(source, Lines(text), Start(source))
  }

  lemma {:induction false} DocumentedOfBlank(source: string, lines: seq<string>, ctx: Context)
    ensures Documented(source, lines + [""], ctx) == Documented(source, lines, ctx)
  {
    if lines == [] {
      BlankIsPlain();
      assert Documented(source, [], Advance(source, ctx, Plain)) == {};
      assert [""][1..] == [];
    } else {
      var line := Classify(lines[0]);
      assert (lines + [""])[1..] == lines[1..] + [""];
      DocumentedOfBlank(source, lines[1..], Advance(source, ctx, line));
    }
  }

  lemma {:induction false} NoDeadNothingDropped(source: string, lines: seq<string>, ctx: Context, onDisk: set<string>)
    requires DeadRows(source, lines, ctx, onDisk) == []
    ensures KeepLive(source, lines, ctx, onDisk) == lines
  {
    if lines != [] {
      var line := Classify(lines[0]);
      NoDeadNothingDropped(source, lines[1..], Advance(source, ctx, line), onDisk);
    }
  }

  lemma {:induction false} KeptAreLines(source: string, lines: seq<string>, ctx: Context, onDisk: set<string>)
    requires NoNewlines(lines)
    ensures NoNewlines(KeepLive(source, lines, ctx, onDisk))
  {
    if lines != [] {
      var line := Classify(lines[0]);
      KeptAreLines(source, lines[1..], Advance(source, ctx, line), onDisk);
    }
  }

  /** The fixed text has the kept lines, up to a blank one at the end. */
  lemma FixedLines(source: string, text: string, onDisk: set<string>)
    ensures SameButBlank(Lines(FixedText(source, text, onDisk)), KeepLive(source, Lines(text), Start(source), onDisk))
  {
    var lines := Lines(text);
    LinesHaveNoNewlines(text);
    KeptAreLines(source, lines, Start(source), onDisk);
    if DeadRows(source, lines, Start(source), onDisk) == [] {
      NoDeadNothingDropped(source, lines, Start(source), onDisk);
    } else {
      LinesOfRejoined(KeepLive(source, lines, Start(source), onDisk), EndsWithNewline(text));
    }
  }

  lemma FixedDocuments(source: string, text: string, onDisk: set<string>)
    ensures DocumentedIn(source, FixedText(source, text, onDisk))
         == Documented(source, KeepLive(source, Lines(text), Start(source), onDisk), Start(source))
  {
    FixedLines(source, text, onDisk);
    DocumentedOfBlank(source, KeepLive(source, Lines(text), Start(source), onDisk), Start(source));
    DocumentedOfBlank(source, Lines(FixedText(source, text, onDisk)), Start(source));
  }

  /** The checker's two findings: modules nobody names, and stale files somebody does. */
  function Undocumented(source: string, text: string, modules: set<string>): set<string> {
    modules - DocumentedIn(source, text)
  }

  function StaleIn(source: string, text: string, onDisk: set<string>): set<string> {
    set p | p in DocumentedIn(source, text) && IsStale(p, onDisk)
  }

  /** The fix never makes a module undocumented: the checker's first finding is the same before and after. */
  lemma FixKeepsUndocumented(source: string, text: string, onDisk: set<string>, modules: set<string>)
    requires modules <= onDisk
    ensures Undocumented(source, FixedText(source, text, onDisk), modules) == Undocumented(source, text, modules)
  {
    FixedDocuments(source, text, onDisk);
    forall p | p in modules
      ensures p in DocumentedIn(source, FixedText(source, text, onDisk)) <==> p in DocumentedIn(source, text)
    {
      LiveStayDocumented(source, Lines(text), Start(source), onDisk, p);
    }
  }

  /** After the fix the checker's stale files are exactly those that mixed rows claim. */
  lemma FixLeavesOnlyMixedStale(source: string, text: string, onDisk: set<string>)
    ensures StaleIn(source, FixedText(source, text, onDisk), onDisk)
         == set p | p in MixedClaims(source, Lines(text), Start(source), onDisk) && IsStale(p, onDisk)
  {
    FixedDocuments(source, text, onDisk);
    forall p | IsStale(p, onDisk)
      ensures p in DocumentedIn(source, FixedText(source, text, onDisk))
         <==> p in MixedClaims(source, Lines(text), Start(source), onDisk)
    {
      OnlyMixedRowsStayStale(source, Lines(text), Start(source), onDisk, p);
    }
  }

  lemma {:induction false} DeadRowsOfBlank(source: string, lines: seq<string>, ctx: Context, onDisk: set<string>)
    ensures DeadRows(source, lines + [""], ctx, onDisk) == DeadRows(source, lines, ctx, onDisk)
  {
    if lines == [] {
      BlankIsPlain();
      assert [""][1..] == [];
    } else {
      var line := Classify(lines[0]);
      assert (lines + [""])[1..] == lines[1..] + [""];
      DeadRowsOfBlank(source, lines[1..], Advance(source, ctx, line), onDisk);
    }
  }

  /** Fixing a fixed map changes nothing. */
  lemma FixIsIdempotent(source: string, text: string, onDisk: set<string>)
    ensures FixedText(source, FixedText(source, text, onDisk), onDisk) == FixedText(source, text, onDisk)
  {
    var kept := KeepLive(source, Lines(text), Start(source), onDisk);
    FixedLines(source, text, onDisk);
    NothingLeftToDrop(source, Lines(text), Start(source), onDisk);
    DeadRowsOfBlank(source, kept, Start(source), onDisk);
    DeadRowsOfBlank(source, Lines(FixedText(source, text, onDisk)), Start(source), onDisk);
  }
}
