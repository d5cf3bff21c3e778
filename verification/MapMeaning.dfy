/** What a map's rows claim and what the fixer leaves of it, line by line. */
module MapMeaning {
  import opened TextLines
  import opened MapLines
  import opened MapDocs
  import Text

  /** A path of the repository: one of its top directories, or something below one. */
  ghost predicate FromRoot(path: string) {
    exists dir :: Below(path, dir) && IsTopDir(dir)
  }

  ghost predicate Below(path: string, dir: string) {
    path == dir || (|dir| < |path| && path[..|dir|] == dir && path[|dir|] == '/')
  }

  ghost function Place(token: string, dir: string): string {
    if FromRoot(token) then token else dir + "/" + token
  }

  lemma BelowTop(path: string, dir: string)
    requires '/' !in dir
    ensures Below(path, dir) <==> TopDir(path) == dir
  {
    var top := TopDir(path);
    if Below(path, dir) {
      assert |top| < |path| ==> path[|top|] == '/';
      assert forall i :: 0 <= i < |dir| ==> path[i] == dir[i];
      assert forall i :: 0 <= i < |top| ==> path[i] == top[i];
      assert |top| == |dir|;
    }
  }

  predicate IsTopDir(dir: string) {
    dir in ["src", "apps", "scripts", "tests", "docs", ".ai", ".github"]
  }

  lemma TopDirsAreNames(dir: string)
    requires IsTopDir(dir)
    ensures '/' !in dir && dir in KNOWN_TOP_DIRS
  {
  }

  lemma KnownAreTopDirs(dir: string)
    requires dir in KNOWN_TOP_DIRS
    ensures IsTopDir(dir)
  {
  }

  lemma FullPathExactly(path: string)
    ensures IsFullPath(path) <==> FromRoot(path)
  {
    var top := TopDir(path);
    if IsFullPath(path) {
      KnownAreTopDirs(top);
      BelowTop(path, top);
    }
    if FromRoot(path) {
      var dir :| Below(path, dir) && IsTopDir(dir);
      TopDirsAreNames(dir);
      BelowTop(path, dir);
    }
  }

  lemma ResolvedExactly(token: string, dir: string)
    ensures ResolveToken(token, dir) == Place(token, dir)
  {
    FullPathExactly(token);
  }

  // ------------------------------------------------------------ section context

  function Kinds(lines: seq<string>): (kinds: seq<Line>)
    ensures |kinds| == |lines|
  {
    seq(|lines|, i requires 0 <= i < |lines| => Classify(lines[i]))
  }

  /** A heading of the first two levels. */
  predicate StartsSection(line: Line) {
    line.Heading? && line.level <= 2
  }

  predicate Moves(line: Line) {
    line.Heading? || line.Subsection?
  }

  ghost predicate NoSection(kinds: seq<Line>, low: nat, high: nat) {
    high <= |kinds| && forall k :: low <= k < high ==> !StartsSection(kinds[k])
  }

  ghost predicate NoMove(kinds: seq<Line>, low: nat, high: nat) {
    high <= |kinds| && forall k :: low <= k < high ==> !Moves(kinds[k])
  }

  /** The section's directory before line `n`: that of the last section heading, the source tree when it names none. */
  ghost predicate BaseIs(source: string, kinds: seq<Line>, n: nat, base: string) {
    if NoSection(kinds, 0, n) then base == source
    else exists h: nat, next: nat :: next == h + 1 <= n && NoSection(kinds, next, n) && OpensSection(source, kinds, h, base)
  }

  ghost predicate OpensSection(source: string, kinds: seq<Line>, h: nat, base: string) {
    && h < |kinds| && StartsSection(kinds[h])
    && base == if kinds[h].path.None? then source else Place(kinds[h].path.value, source)
  }

  /** The directory rows resolve against: the section's, or what a deeper heading or a label since then says. */
  ghost predicate DirIs(source: string, kinds: seq<Line>, n: nat, dir: string) {
    if NoMove(kinds, 0, n) then dir == source
    else exists m: nat, next: nat :: next == m + 1 <= n && NoMove(kinds, next, n) && MovesTo(source, kinds, m, dir)
  }

  ghost predicate MovesTo(source: string, kinds: seq<Line>, m: nat, dir: string) {
    && m < |kinds| && Moves(kinds[m])
    && if StartsSection(kinds[m]) then OpensSection(source, kinds, m, dir)
       else exists base :: BaseIs(source, kinds, m, base) && EntersFrom(kinds[m], base, dir)
  }

  ghost predicate EntersFrom(line: Line, base: string, dir: string) {
    match line
    case Heading(_, path) => dir == if path.None? then base else Place(path.value, base)
    case Subsection(sub) => dir == Place(sub, base)
    case _ => false
  }

  function ContextBefore(source: string, kinds: seq<Line>, n: nat): Context
    requires n <= |kinds|
  {
    if n == 0 then Start(source) else
      var m := n - 1;
      Advance(source, ContextBefore(source, kinds, m), kinds[m])
  }

  lemma BaseNext(source: string, kinds: seq<Line>, n: nat, next: nat, base: string, after: string)
    requires next == n + 1 <= |kinds| && BaseIs(source, kinds, n, base)
    requires if StartsSection(kinds[n]) then OpensSection(source, kinds, n, after) else after == base
    ensures BaseIs(source, kinds, next, after)
  {
    if StartsSection(kinds[n]) {
      assert NoSection(kinds, next, next);
      assert !NoSection(kinds, 0, next);
    } else if !NoSection(kinds, 0, n) {
      var h: nat, from: nat :| from == h + 1 <= n && NoSection(kinds, from, n) && OpensSection(source, kinds, h, base);
      assert NoSection(kinds, from, next);
    }
  }

  lemma DirNext(source: string, kinds: seq<Line>, n: nat, next: nat, dir: string, after: string)
    requires next == n + 1 <= |kinds| && DirIs(source, kinds, n, dir)
    requires if Moves(kinds[n]) then MovesTo(source, kinds, n, after) else after == dir
    ensures DirIs(source, kinds, next, after)
  {
    if Moves(kinds[n]) {
      assert NoMove(kinds, next, next);
      assert !NoMove(kinds, 0, next);
    } else if !NoMove(kinds, 0, n) {
      var m: nat, from: nat :| from == m + 1 <= n && NoMove(kinds, from, n) && MovesTo(source, kinds, m, dir);
      assert NoMove(kinds, from, next);
    }
  }

  lemma AdvanceExactly(source: string, ctx: Context, line: Line)
    ensures var after := Advance(source, ctx, line);
            && (StartsSection(line) ==>
                  after.sectionBase == (if line.path.None? then source else Place(line.path.value, source))
                  && after.currentDir == after.sectionBase)
            && (!StartsSection(line) ==> after.sectionBase == ctx.sectionBase)
            && (Moves(line) && !StartsSection(line) ==> EntersFrom(line, ctx.sectionBase, after.currentDir))
            && (!Moves(line) ==> after.currentDir == ctx.currentDir)
  {
    match line {
      case Heading(_, path) =>
        if path.Some? {
          ResolvedExactly(path.value, source);
          ResolvedExactly(path.value, ctx.sectionBase);
        }
      case Subsection(sub) => ResolvedExactly(sub, ctx.sectionBase);
      case _ =>
    }
  }

  /** The context the reader carries is what the headings and labels above a line say. */
  lemma {:induction false} ContextExactly(source: string, kinds: seq<Line>, n: nat)
    requires n <= |kinds|
    ensures BaseIs(source, kinds, n, ContextBefore(source, kinds, n).sectionBase)
    ensures DirIs(source, kinds, n, ContextBefore(source, kinds, n).currentDir)
  {
    if n > 0 {
      var m := n - 1;
      ContextExactly(source, kinds, m);
      var before, after := ContextBefore(source, kinds, m), ContextBefore(source, kinds, n);
      AdvanceExactly(source, before, kinds[m]);
      BaseNext(source, kinds, m, n, before.sectionBase, after.sectionBase);
      DirNext(source, kinds, m, n, before.currentDir, after.currentDir);
    }
  }

  // -------------------------------------------------------------- what a row claims

  /** The files a line claims: those its row names, below the directory it stands under. */
  ghost predicate ClaimsFiles(source: string, kinds: seq<Line>, n: nat, paths: seq<string>) {
    && n < |kinds|
    && if kinds[n].Row? then exists dir :: DirIs(source, kinds, n, dir) && PlacedIn(kinds[n].tokens, dir, paths)
       else paths == []
  }

  ghost predicate PlacedIn(tokens: seq<string>, dir: string, paths: seq<string>) {
    |paths| == |tokens| && forall i :: 0 <= i < |tokens| ==> paths[i] == Place(tokens[i], dir)
  }

  function PathsAt(source: string, kinds: seq<Line>, n: nat): seq<string>
    requires n < |kinds|
  {
    PathsOf(kinds[n], ContextBefore(source, kinds, n))
  }

  ghost predicate ClaimedFrom(source: string, kinds: seq<Line>, n: nat, claims: seq<seq<string>>) {
    && n <= |kinds| && |claims| == |kinds| - n
    && forall i: nat, k: nat :: n <= i < |kinds| && i == n + k ==> claims[k] == PathsAt(source, kinds, i)
  }

  lemma ClaimedNext(source: string, kinds: seq<Line>, n: nat, next: nat, first: seq<string>, rest: seq<seq<string>>)
    requires next == n + 1 <= |kinds| && ClaimedFrom(source, kinds, next, rest) && first == PathsAt(source, kinds, n)
    ensures ClaimedFrom(source, kinds, n, [first] + rest)
  {
    forall i: nat, k: nat | n <= i < |kinds| && i == n + k
      ensures ([first] + rest)[k] == PathsAt(source, kinds, i)
    {
      if k > 0 {
        var j := k - 1;
        assert i == next + j && ([first] + rest)[k] == rest[j];
      }
    }
  }

  lemma {:induction false} ClaimsFollow(source: string, lines: seq<string>, n: nat)
    requires n <= |lines|
    ensures ClaimedFrom(source, Kinds(lines), n, Claims(source, lines[n..], ContextBefore(source, Kinds(lines), n)))
    decreases |lines| - n
  {
    if n < |lines| {
      var next, kinds := n + 1, Kinds(lines);
      var after := Advance(source, ContextBefore(source, kinds, n), kinds[n]);
      assert lines[n..][1..] == lines[next..];
      ClaimsFollow(source, lines, next);
      ClaimedNext(source, kinds, n, next, PathsAt(source, kinds, n), Claims(source, lines[next..], after));
    }
  }

  lemma PathsExactly(line: Line, ctx: Context)
    ensures if line.Row? then PlacedIn(line.tokens, ctx.currentDir, PathsOf(line, ctx)) else PathsOf(line, ctx) == []
  {
    if line.Row? {
      forall i | 0 <= i < |line.tokens|
        ensures PathsOf(line, ctx)[i] == Place(line.tokens[i], ctx.currentDir)
      {
        ResolvedExactly(line.tokens[i], ctx.currentDir);
      }
    }
  }

  lemma ClaimIs(source: string, kinds: seq<Line>, n: nat, claims: seq<seq<string>>)
    requires ClaimedFrom(source, kinds, 0, claims) && n < |kinds|
    ensures ClaimsFiles(source, kinds, n, claims[n])
  {
    ContextExactly(source, kinds, n);
    PathsExactly(kinds[n], ContextBefore(source, kinds, n));
    assert claims[n] == PathsAt(source, kinds, n);
  }

  /** Every line claims exactly what its row names in its section. */
  lemma ClaimsExactly(source: string, lines: seq<string>, n: nat)
    requires n < |lines|
    ensures |Claims(source, lines, Start(source))| == |lines|
    ensures ClaimsFiles(source, Kinds(lines), n, Claims(source, lines, Start(source))[n])
  {
    ClaimsFollow(source, lines, 0);
    assert lines[0..] == lines;
    ClaimIs(source, Kinds(lines), n, Claims(source, lines, Start(source)));
  }

  // --------------------------------------------------------- what the fixer keeps

  /** Every file of the row is gone: named below a directory, and not on disk. */
  ghost predicate AllGone(paths: seq<string>, onDisk: set<string>) {
    |paths| > 0 && forall i :: 0 <= i < |paths| ==> '/' in paths[i] && paths[i] !in onDisk
  }

  /** Some file of the row is gone and some is not. */
  ghost predicate SomeGone(paths: seq<string>, onDisk: set<string>) {
    && (exists i :: 0 <= i < |paths| && '/' in paths[i] && paths[i] !in onDisk)
    && (exists i :: 0 <= i < |paths| && !('/' in paths[i] && paths[i] !in onDisk))
  }

  lemma KindsExactly(paths: seq<string>, onDisk: set<string>)
    ensures IsDead(paths, onDisk) <==> AllGone(paths, onDisk)
    ensures IsMixed(paths, onDisk) <==> SomeGone(paths, onDisk)
  {
    assert forall i :: 0 <= i < |paths| ==> paths[i] in paths;
    if AllGone(paths, onDisk) {
      assert IsStale(paths[0], onDisk);
    }
  }

  /** `out` has the marked items of `items`, in order. */
  ghost predicate Selects(items: seq<string>, marked: seq<bool>, out: seq<string>) {
    if items == [] || marked == [] then items == [] && marked == [] && out == []
    else if marked[0] then out != [] && out[0] == items[0] && Selects(items[1..], marked[1..], out[1..])
    else Selects(items[1..], marked[1..], out)
  }

  lemma SelectsNext(item: string, mark: bool, items: seq<string>, marked: seq<bool>, out: seq<string>)
    requires Selects(items, marked, out)
    ensures Selects([item] + items, [mark] + marked, (if mark then [item] else []) + out)
  {
    assert ([item] + items)[1..] == items && ([mark] + marked)[1..] == marked;
    assert [] + out == out && ([item] + out)[1..] == out;
  }

  /** `out` has the marked lines, trimmed, in order. */
  ghost predicate Reports(lines: seq<string>, marked: seq<bool>, out: seq<string>) {
    if lines == [] || marked == [] then lines == [] && marked == [] && out == []
    else if marked[0] then
      out != [] && out[0] == Text.Strip(lines[0]) && Reports(lines[1..], marked[1..], out[1..])
    else Reports(lines[1..], marked[1..], out)
  }

  lemma ReportsNext(line: string, mark: bool, lines: seq<string>, marked: seq<bool>, out: seq<string>)
    requires Reports(lines, marked, out)
    ensures Reports([line] + lines, [mark] + marked, (if mark then [Text.Strip(line)] else []) + out)
  {
    assert ([line] + lines)[1..] == lines && ([mark] + marked)[1..] == marked;
    assert [] + out == out && ([Text.Strip(line)] + out)[1..] == out;
  }

  lemma {:induction false} NothingReported(lines: seq<string>, marked: seq<bool>, out: seq<string>)
    requires Reports(lines, marked, out)
    ensures out == [] <==> forall n :: 0 <= n < |marked| ==> !marked[n]
  {
    if marked != [] && !marked[0] {
      NothingReported(lines[1..], marked[1..], out);
      assert forall n :: 0 < n < |marked| ==> marked[n] == marked[1..][n - 1];
    }
  }

  /** Which lines have a row whose files are all gone. */
  ghost function Dead(claims: seq<seq<string>>, onDisk: set<string>): (marked: seq<bool>)
    ensures |marked| == |claims| && forall i :: 0 <= i < |claims| ==> marked[i] == AllGone(claims[i], onDisk)
  {
    seq(|claims|, i requires 0 <= i < |claims| => AllGone(claims[i], onDisk))
  }

  ghost function Live(claims: seq<seq<string>>, onDisk: set<string>): (marked: seq<bool>)
    ensures |marked| == |claims| && forall i :: 0 <= i < |claims| ==> marked[i] == !AllGone(claims[i], onDisk)
  {
    seq(|claims|, i requires 0 <= i < |claims| => !AllGone(claims[i], onDisk))
  }

  ghost function Mixed(claims: seq<seq<string>>, onDisk: set<string>): (marked: seq<bool>)
    ensures |marked| == |claims| && forall i :: 0 <= i < |claims| ==> marked[i] == SomeGone(claims[i], onDisk)
  {
    seq(|claims|, i requires 0 <= i < |claims| => SomeGone(claims[i], onDisk))
  }

  lemma {:induction false} KeptFollow(source: string, lines: seq<string>, ctx: Context, onDisk: set<string>)
    ensures Selects(lines, Live(Claims(source, lines, ctx), onDisk), KeepLive(source, lines, ctx, onDisk))
  {
    if lines != [] {
      var line := Classify(lines[0]);
      var after, paths := Advance(source, ctx, line), PathsOf(line, ctx);
      KeptFollow(source, lines[1..], after, onDisk);
      KindsExactly(paths, onDisk);
      MarksNext(paths, Claims(source, lines[1..], after), onDisk);
      SelectsNext(lines[0], !AllGone(paths, onDisk), lines[1..], Live(Claims(source, lines[1..], after), onDisk),
                  KeepLive(source, lines[1..], after, onDisk));
      assert lines == [lines[0]] + lines[1..];
    }
  }

  lemma {:induction false} DeadFollow(source: string, lines: seq<string>, ctx: Context, onDisk: set<string>)
    ensures Reports(lines, Dead(Claims(source, lines, ctx), onDisk), DeadRows(source, lines, ctx, onDisk))
  {
    if lines != [] {
      var line := Classify(lines[0]);
      var after, paths := Advance(source, ctx, line), PathsOf(line, ctx);
      DeadFollow(source, lines[1..], after, onDisk);
      KindsExactly(paths, onDisk);
      MarksNext(paths, Claims(source, lines[1..], after), onDisk);
      ReportsNext(lines[0], AllGone(paths, onDisk), lines[1..], Dead(Claims(source, lines[1..], after), onDisk),
                  DeadRows(source, lines[1..], after, onDisk));
      assert lines == [lines[0]] + lines[1..];
    }
  }

  lemma {:induction false} MixedFollow(source: string, lines: seq<string>, ctx: Context, onDisk: set<string>)
    ensures Reports(lines, Mixed(Claims(source, lines, ctx), onDisk), MixedRows(source, lines, ctx, onDisk))
  {
    if lines != [] {
      var line := Classify(lines[0]);
      var after, paths := Advance(source, ctx, line), PathsOf(line, ctx);
      MixedFollow(source, lines[1..], after, onDisk);
      KindsExactly(paths, onDisk);
      MarksNext(paths, Claims(source, lines[1..], after), onDisk);
      ReportsNext(lines[0], SomeGone(paths, onDisk), lines[1..], Mixed(Claims(source, lines[1..], after), onDisk),
                  MixedRows(source, lines[1..], after, onDisk));
      assert lines == [lines[0]] + lines[1..];
    }
  }

  lemma MarksNext(paths: seq<string>, claims: seq<seq<string>>, onDisk: set<string>)
    ensures Live([paths] + claims, onDisk) == [!AllGone(paths, onDisk)] + Live(claims, onDisk)
    ensures Dead([paths] + claims, onDisk) == [AllGone(paths, onDisk)] + Dead(claims, onDisk)
    ensures Mixed([paths] + claims, onDisk) == [SomeGone(paths, onDisk)] + Mixed(claims, onDisk)
  {
  }

  ghost predicate AllClaimed(source: string, lines: seq<string>, claims: seq<seq<string>>) {
    |claims| == |lines| && forall n :: 0 <= n < |lines| ==> ClaimsFiles(source, Kinds(lines), n, claims[n])
  }

  /** The map without the rows whose files are all gone, the text itself when there is none. */
  ghost predicate Fixed(text: string, claims: seq<seq<string>>, onDisk: set<string>, fixedText: string) {
    if forall n :: 0 <= n < |claims| ==> !AllGone(claims[n], onDisk) then fixedText == text
    else exists kept :: Selects(Lines(text), Live(claims, onDisk), kept) && fixedText == Rejoin(kept, EndsWithNewline(text))
  }

  lemma FixedExactly(source: string, text: string, onDisk: set<string>)
    ensures Fixed(text, Claims(source, Lines(text), Start(source)), onDisk, FixedText(source, text, onDisk))
  {
    var lines, ctx := Lines(text), Start(source);
    KeptFollow(source, lines, ctx, onDisk);
    DeadFollow(source, lines, ctx, onDisk);
    NothingReported(lines, Dead(Claims(source, lines, ctx), onDisk), DeadRows(source, lines, ctx, onDisk));
  }

  /**
   The fixer in terms of the lines of the map: what each row claims in its section, which lines go,
   and which rows are reported as removed and as mixed, trimmed and in order.
   */
  lemma FixMeans(source: string, text: string, onDisk: set<string>)
    ensures exists claims :: AllClaimed(source, Lines(text), claims)
              && Fixed(text, claims, onDisk, FixedText(source, text, onDisk))
              && Reports(Lines(text), Dead(claims, onDisk), DeadRows(source, Lines(text), Start(source), onDisk))
              && Reports(Lines(text), Mixed(claims, onDisk), MixedRows(source, Lines(text), Start(source), onDisk))
  {
    var lines, ctx := Lines(text), Start(source);
    AllAreClaimed(source, lines);
    FixedExactly(source, text, onDisk);
    DeadFollow(source, lines, ctx, onDisk);
    MixedFollow(source, lines, ctx, onDisk);
  }

  lemma AllAreClaimed(source: string, lines: seq<string>)
    ensures AllClaimed(source, lines, Claims(source, lines, Start(source)))
  {
    ClaimsFollow(source, lines, 0);
    assert lines[0..] == lines;
    forall n | 0 <= n < |lines|
      ensures ClaimsFiles(source, Kinds(lines), n, Claims(source, lines, Start(source))[n])
    {
      ClaimsExactly(source, lines, n);
    }
  }
}
