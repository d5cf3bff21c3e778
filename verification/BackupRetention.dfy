/** Pruning of dated backups: a rolling window and one permanent archive per month. */
module BackupRetention {
  import opened Ordering

  /** When a backup was taken: its calendar month, and the seconds into that month. */
  datatype Stamp = Stamp(month: int, second: int)

  /** A file whose name is a stamp, or one the pruner does not recognise. */
  datatype File = Backup(stamp: Stamp) | Other(name: string)

  predicate StampLe(a: Stamp, b: Stamp) {
    a.month < b.month || (a.month == b.month && a.second <= b.second)
  }

  lemma StampOrder()
    ensures TotalOrder(StampLe)
  {
  }

  // ------------------------------------------------------------------- policy

  function Newer(s: set<Stamp>, x: Stamp): set<Stamp> {
    set y | y in s && y != x && StampLe(x, y)
  }

  function Older(s: set<Stamp>, x: Stamp): set<Stamp> {
    set y | y in s && y != x && StampLe(y, x)
  }

  /** Membership of the slice that starts `k` from the end: from the front when `k` is not positive. */
  predicate InSlice(s: set<Stamp>, x: Stamp, k: int) {
    if k > 0 then |Newer(s, x)| < k else |Older(s, x)| >= -k
  }

  predicate OldestOfMonth(s: set<Stamp>, x: Stamp) {
    forall y :: y in s && y.month == x.month ==> StampLe(x, y)
  }

  /** The stamps that pruning keeps. */
  function Keep(s: set<Stamp>, k: int): set<Stamp> {
    set x | x in s && (InSlice(s, x, k) || OldestOfMonth(s, x))
  }

  // -------------------------------------------------------------------- pruner

  ghost predicate Sorted(q: seq<Stamp>) {
    StrictlyAscending(q, StampLe)
  }

  function Members<T>(q: seq<T>): set<T> {
    set x | x in q
  }

  lemma {:induction false} DistinctCount<T>(q: seq<T>)
    requires forall i, j :: 0 <= i < j < |q| ==> q[i] != q[j]
    ensures |Members(q)| == |q|
  {
    if q != [] {
      var n := |q| - 1;
      DistinctCount(q[..n]);
      assert Members(q) == Members(q[..n]) + {q[n]};
    }
  }

  /** In sorted order, what is newer comes after and what is older comes before. */
  lemma RankInOrder(q: seq<Stamp>, i: nat, next: nat)
    requires Sorted(q) && i < |q| && next == i + 1
    ensures |Newer(Members(q), q[i])| == |q| - next && |Older(Members(q), q[i])| == i
  {
    assert Newer(Members(q), q[i]) == Members(q[next..]) by {
      forall y | y in Newer(Members(q), q[i])
        ensures y in q[next..]
      {
        var k :| 0 <= k < |q| && q[k] == y;
        assert k >= next;
        assert q[next..][k - next] == y;
      }
    }
    assert Older(Members(q), q[i]) == Members(q[..i]) by {
      forall y | y in Older(Members(q), q[i])
        ensures y in q[..i]
      {
        var k :| 0 <= k < |q| && q[k] == y;
        assert q[..i][k] == y;
      }
    }
    DistinctCount(q[next..]);
    DistinctCount(q[..i]);
  }

  /** The first position of the slice that starts `k` from the end. */
  function SliceStart(n: nat, k: int): nat {
    if k > 0 then (if k < n then n - k else 0) else (if -k < n then -k else n)
  }

  lemma SliceIsPolicy(q: seq<Stamp>, k: int, i: nat)
    requires Sorted(q) && i < |q|
    ensures i >= SliceStart(|q|, k) <==> InSlice(Members(q), q[i], k)
  {
    RankInOrder(q, i, i + 1);
  }

  /** The first stamp of each month in sorted order is the month's oldest. */
  ghost predicate IsArchive(q: seq<Stamp>, n: nat, seen: map<int, Stamp>)
    requires n <= |q|
  {
    && (forall m :: m in seen <==> exists i :: 0 <= i < n && q[i].month == m)
    && (forall m :: m in seen ==> exists i :: 0 <= i < n && q[i] == seen[m] && q[i].month == m
                                              && forall j :: 0 <= j < i ==> q[j].month != m)
  }

  function Archives(seen: map<int, Stamp>): set<Stamp> {
    set m | m in seen :: seen[m]
  }

  lemma ValueOfOwnMonth(seen: map<int, Stamp>, x: Stamp)
    requires forall m :: m in seen ==> seen[m].month == m
    ensures x in Archives(seen) <==> x.month in seen && seen[x.month] == x
  {
    if x in Archives(seen) {
      var m :| m in seen && seen[m] == x;
    }
  }

  lemma FirstIsOldest(q: seq<Stamp>, i: nat, k: nat)
    requires Sorted(q) && i < |q| && k < |q| && q[i].month == q[k].month
    requires forall j :: 0 <= j < i ==> q[j].month != q[i].month
    ensures OldestOfMonth(Members(q), q[k]) <==> q[i] == q[k]
  {
    forall y | y in q && y.month == q[i].month
      ensures StampLe(q[i], y)
    {
      var l :| 0 <= l < |q| && q[l] == y;
    }
    if OldestOfMonth(Members(q), q[k]) {
      assert q[i] in Members(q);
      StampOrder();
    }
  }

  lemma ArchiveIsOldest(q: seq<Stamp>, seen: map<int, Stamp>, k: nat)
    requires Sorted(q) && IsArchive(q, |q|, seen) && k < |q|
    ensures q[k] in Archives(seen) <==> OldestOfMonth(Members(q), q[k])
  {
    var x := q[k];
    ValueOfOwnMonth(seen, x);
    var i :| 0 <= i < |q| && q[i] == seen[x.month] && q[i].month == x.month
             && forall j :: 0 <= j < i ==> q[j].month != x.month;
    FirstIsOldest(q, i, k);
  }

  method FirstOfEachMonth(candidates: seq<Stamp>) returns (seen: map<int, Stamp>)
    ensures IsArchive(candidates, |candidates|, seen)
  {
    seen := map[];
    for i := 0 to |candidates|
      invariant IsArchive(candidates, i, seen)
    {
      var x := candidates[i];
      if x.month !in seen {
        seen := seen[x.month := x];
      }
    }
  }

  lemma KeepSetIsPolicy(s: set<Stamp>, q: seq<Stamp>, k: int, seen: map<int, Stamp>, kept: set<Stamp>)
    requires Sorted(q) && s == Members(q) && IsArchive(q, |q|, seen)
    requires kept == Members(q[SliceStart(|q|, k)..]) + Archives(seen)
    ensures forall x :: x in q ==> (x in kept <==> x in Keep(s, k))
  {
    var from := SliceStart(|q|, k);
    forall x | x in q
      ensures x in kept <==> x in Keep(s, k)
    {
      var i :| 0 <= i < |q| && q[i] == x;
      SliceIsPolicy(q, k, i);
      ArchiveIsOldest(q, seen, i);
      if i >= from {
        var j := i - from;
        assert q[from..][j] == x;
      } else {
        assert x !in q[from..];
      }
    }
  }

  /** A list no longer than the number kept loses nothing. */
  lemma ShortListIsKept(s: set<Stamp>, k: int)
    requires |s| <= k
    ensures Keep(s, k) == s
  {
    forall x | x in s
      ensures x in Keep(s, k)
    {
      if s == {} {
      } else {
        NewerIsFewer(s, x);
      }
    }
  }

  lemma {:induction false} SubsetCount<T>(a: set<T>, b: set<T>)
    requires a <= b
    ensures |a| <= |b| && (a != b ==> |a| < |b|)
  {
    if a != b {
      var x :| x in b && x !in a;
      SubsetCount(a, b - {x});
    }
  }

  lemma NewerIsFewer(s: set<Stamp>, x: Stamp)
    requires x in s
    ensures |Newer(s, x)| < |s|
  {
    SubsetCount(Newer(s, x), s);
  }

  class Directory {
    var files: set<File>

    ghost function Stamps(): set<Stamp>
      reads this
    {
      set f | f in files && f.Backup? :: f.stamp
    }

    constructor (files: set<File>)
      ensures this.files == files
    {
      this.files := files;
    }

    /** Deletes every backup the policy does not keep, and nothing else; lists them oldest first. */
    method Prune(keepRecent: int) returns (deleted: seq<Stamp>)
      modifies this
      ensures Stamps() == Keep(old(Stamps()), keepRecent)
      ensures forall f :: f in files <==> f in old(files) && (f.Backup? ==> f.stamp in Keep(old(Stamps()), keepRecent))
      ensures forall x :: x in deleted <==> x in old(Stamps()) && x !in Stamps()
      ensures Sorted(deleted)
    {
      StampOrder();
      ghost var before := Stamps();
      var stamps := set f | f in files && f.Backup? :: f.stamp;
      var candidates := SortSet(stamps, StampLe);
      assert stamps == Members(candidates);
      if |candidates| <= keepRecent {
        ShortListIsKept(before, keepRecent);
        assert forall f :: f in files && f.Backup? ==> f.stamp in Stamps();
        return [];
      }
      var seen := FirstOfEachMonth(candidates);
      var kept := Members(candidates[SliceStart(|candidates|, keepRecent)..]) + Archives(seen);
      KeepSetIsPolicy(before, candidates, keepRecent, seen, kept);
      deleted := DeleteAllBut(candidates, kept);
    }

    method DeleteAllBut(candidates: seq<Stamp>, kept: set<Stamp>) returns (deleted: seq<Stamp>)
      requires Sorted(candidates) && Members(candidates) == Stamps()
      modifies this
      ensures Stamps() == set x | x in old(Stamps()) && x in kept
      ensures forall f :: f in files <==> f in old(files) && (f.Backup? ==> f.stamp in kept)
      ensures forall x :: x in deleted <==> x in candidates && x !in kept
      ensures Sorted(deleted)
    {
      deleted := [];
      for i := 0 to |candidates|
        invariant forall f :: f in files <==> f in old(files) && (f.Backup? && f.stamp in candidates[..i] ==> f.stamp in kept)
        invariant forall x :: x in deleted <==> x in candidates[..i] && x !in kept
        invariant Sorted(deleted)
      {
        var x := candidates[i];
        assert candidates[..i + 1] == candidates[..i] + [x];
        if x !in kept {
          forall j | 0 <= j < |deleted|
            ensures deleted[j] != x && StampLe(deleted[j], x)
          {
            assert deleted[j] in candidates[..i];
          }
          files := files - {Backup(x)};
          deleted := deleted + [x];
        }
      }
      assert candidates[..|candidates|] == candidates;
      assert forall f :: f in old(files) && f.Backup? ==> f.stamp in old(Stamps());
    }
  }

  // --------------------------------------------------------- laws of the policy

  /** The newest `k` of the whole are the newest `k` of any part that has them and something is newer than none. */
  lemma NewestInPart(part: set<Stamp>, whole: set<Stamp>, x: Stamp, k: int)
    requires part <= whole && x in part && k > 0
    ensures InSlice(whole, x, k) ==> InSlice(part, x, k)
  {
    SubsetCount(Newer(part, x), Newer(whole, x));
  }

  lemma NewerIsLess(s: set<Stamp>, x: Stamp, y: Stamp)
    requires y in Newer(s, x)
    ensures |Newer(s, y)| < |Newer(s, x)|
  {
    forall z | z in Newer(s, y)
      ensures z in Newer(s, x) && z != y
    {
    }
    SubsetCount(Newer(s, y), Newer(s, x) - {y});
  }

  /** The newest member below the window has exactly `k` newer ones. */
  lemma {:induction false} WindowIsFull(s: set<Stamp>, x: Stamp, k: int) returns (w: set<Stamp>)
    requires x in s && k > 0 && !InSlice(s, x, k)
    ensures |w| >= k && w <= Newer(s, x) && forall y :: y in w ==> InSlice(s, y, k)
    decreases |Newer(s, x)|
  {
    var newer := Newer(s, x);
    assert newer != {};
    if forall y :: y in newer ==> InSlice(s, y, k) {
      w := newer;
    } else {
      var y :| y in newer && !InSlice(s, y, k);
      NewerIsLess(s, x, y);
      w := WindowIsFull(s, y, k);
      assert forall z :: z in w ==> z in Newer(s, y) && z in Newer(s, x);
    }
  }

  /** A part that has the whole's window has the same window. */
  lemma WindowOfPart(part: set<Stamp>, whole: set<Stamp>, x: Stamp, k: int)
    requires part <= whole && x in part && k > 0
    requires forall y :: y in whole && InSlice(whole, y, k) ==> y in part
    ensures InSlice(whole, x, k) <==> InSlice(part, x, k)
  {
    NewestInPart(part, whole, x, k);
    if !InSlice(whole, x, k) {
      var w := WindowIsFull(whole, x, k);
      SubsetCount(w, Newer(part, x));
    }
  }

  /** A part that has everything the whole keeps, keeps the same. */
  lemma KeepOfPart(part: set<Stamp>, whole: set<Stamp>, k: int)
    requires part <= whole && k > 0 && Keep(whole, k) <= part
    ensures Keep(part, k) == Keep(whole, k)
  {
    forall x | x in part
      ensures x in Keep(part, k) <==> x in Keep(whole, k)
    {
      WindowOfPart(part, whole, x, k);
      if OldestOfMonth(part, x) && !OldestOfMonth(whole, x) {
        var y := OldestThere(whole, x);
        assert y in Keep(whole, k);
        StampOrder();
      }
    }
  }

  /** Every month with a backup has an oldest one. */
  lemma OldestThere(s: set<Stamp>, x: Stamp) returns (y: Stamp)
    requires x in s
    ensures y in s && y.month == x.month && OldestOfMonth(s, y) && StampLe(y, x)
  {
    StampOrder();
    var same := set z | z in s && z.month == x.month;
    assert x in same;
    y := LeastExists(same, StampLe);
  }

  /** A window of nothing is a slice from the front: it keeps everything. */
  lemma ZeroKeepsAll(s: set<Stamp>)
    ensures Keep(s, 0) == s
  {
  }

  /** A window of minus one starts after the oldest of all, which is its own month's archive. */
  lemma MinusOneKeepsAll(s: set<Stamp>)
    ensures Keep(s, -1) == s
  {
    StampOrder();
    forall x | x in s
      ensures x in Keep(s, -1)
    {
      if Older(s, x) == {} {
        forall y | y in s
          ensures StampLe(x, y)
        {
          assert y !in Older(s, x);
        }
      } else {
        SubsetCount({}, Older(s, x));
      }
    }
  }

  /** Pruning before new backups arrive changes nothing about what the next pruning leaves. */
  lemma PruneThenAdd(before: set<Stamp>, arrived: set<Stamp>, k: int)
    requires k >= -1
    ensures Keep(Keep(before, k) + arrived, k) == Keep(before + arrived, k)
  {
    var part, whole := Keep(before, k) + arrived, before + arrived;
    if k == 0 {
      ZeroKeepsAll(before);
    } else if k == -1 {
      MinusOneKeepsAll(before);
    } else {
      forall x | x in Keep(whole, k)
        ensures x in part
      {
        if x in before {
          NewestInPart(before, whole, x, k);
        }
      }
      KeepOfPart(part, whole, k);
    }
  }

  lemma PruningTwiceIsPruningOnce(s: set<Stamp>, k: int)
    requires k >= -1
    ensures Keep(Keep(s, k), k) == Keep(s, k)
  {
    PruneThenAdd(s, {}, k);
    assert Keep(s, k) + {} == Keep(s, k) && s + {} == s;
  }

  /** The first `n` seconds of one month. */
  function OneMonth(n: nat): set<Stamp> {
    set i | 0 <= i < n :: Stamp(0, i)
  }

  lemma {:induction false} OneMonthCount(n: nat)
    ensures |OneMonth(n)| == n
  {
    if n > 0 {
      var last := n - 1;
      OneMonthCount(last);
      assert OneMonth(n) == OneMonth(last) + {Stamp(0, last)};
    }
  }

  lemma OneMonthRank(n: nat, x: Stamp)
    requires x in OneMonth(n)
    ensures x.month == 0 && 0 <= x.second < n && x == Stamp(0, x.second) && |Older(OneMonth(n), x)| == x.second
    ensures OldestOfMonth(OneMonth(n), x) <==> x.second == 0
  {
    OneMonthCount(x.second);
    assert Older(OneMonth(n), x) == OneMonth(x.second);
    assert Stamp(0, 0) in OneMonth(n);
  }

  lemma FirstPruning(k: int, m: nat, n: nat)
    requires k <= -2 && m == 0 - k && n == m + 1
    ensures Keep(OneMonth(n), k) == {Stamp(0, 0), Stamp(0, m)}
  {
    assert Stamp(0, 0) in OneMonth(n) && Stamp(0, m) in OneMonth(n);
    forall x | x in OneMonth(n)
      ensures x in Keep(OneMonth(n), k) <==> x in {Stamp(0, 0), Stamp(0, m)}
    {
      OneMonthRank(n, x);
    }
  }

  lemma SecondPruning(k: int, first: Stamp, last: Stamp)
    requires k <= -2 && first.month == last.month && first.second < last.second
    ensures Keep({first, last}, k) == {first}
  {
    assert Older({first, last}, last) == {first} && Older({first, last}, first) == {};
    assert first in {first, last};
  }

  /**
   Every window below minus one: of one backup more than its size in one month it keeps the first
   and the last, and of those two, pruned again, only the first.
   */
  lemma NegativeWindowErodes(k: int, m: nat, n: nat)
    requires k <= -2 && m == 0 - k && n == m + 1
    ensures Keep(OneMonth(n), k) == {Stamp(0, 0), Stamp(0, m)}
    ensures Keep(Keep(OneMonth(n), k), k) == {Stamp(0, 0)}
  {
    FirstPruning(k, m, n);
    SecondPruning(k, Stamp(0, 0), Stamp(0, m));
  }

  /** Pruning is idempotent for every directory exactly when the window is at least minus one. */
  lemma IdempotentExactly(k: int)
    ensures (forall s :: Keep(Keep(s, k), k) == Keep(s, k)) <==> k >= -1
  {
    if k >= -1 {
      forall s
        ensures Keep(Keep(s, k), k) == Keep(s, k)
      {
        PruningTwiceIsPruningOnce(s, k);
      }
    } else {
      var m: nat := 0 - k;
      var n := m + 1;
      NegativeWindowErodes(k, m, n);
      assert Stamp(0, m) in Keep(OneMonth(n), k) && Stamp(0, m) !in Keep(Keep(OneMonth(n), k), k);
    }
  }

  /** What is left when the directory is pruned after each batch of new backups. */
  function PrunedAsYouGo(batches: seq<set<Stamp>>, k: int): set<Stamp> {
    if batches == [] then {} else
      var n := |batches| - 1;
      Keep(PrunedAsYouGo(batches[..n], k) + batches[n], k)
  }

  function EverTaken(batches: seq<set<Stamp>>): set<Stamp> {
    if batches == [] then {} else
      var n := |batches| - 1;
      EverTaken(batches[..n]) + batches[n]
  }

  /** Pruning after every batch leaves what one pruning of all backups ever taken would keep. */
  lemma {:induction false} PruningAsYouGoIsPruningOnce(batches: seq<set<Stamp>>, k: int)
    requires k >= -1
    ensures PrunedAsYouGo(batches, k) == Keep(EverTaken(batches), k)
  {
    if batches == [] {
      assert Keep({}, k) == {};
    } else {
      var n := |batches| - 1;
      PruningAsYouGoIsPruningOnce(batches[..n], k);
      PruneThenAdd(EverTaken(batches[..n]), batches[n], k);
    }
  }

  lemma PruneOnceMore(s: set<Stamp>, k: int)
    ensures PrunedAsYouGo([s, {}], k) == Keep(Keep(s, k), k) && EverTaken([s, {}]) == s
  {
    assert [s, {}][..1] == [s] && [s][..0] == [];
    assert PrunedAsYouGo([s], k) == Keep(s, k) by {
      assert {} + s == s;
    }
    assert Keep(s, k) + {} == Keep(s, k);
    assert EverTaken([s]) == s;
  }

  /** That law holds for every history exactly when the window is at least minus one. */
  lemma PruningAsYouGoExactly(k: int)
    ensures (forall batches :: PrunedAsYouGo(batches, k) == Keep(EverTaken(batches), k)) <==> k >= -1
  {
    if k >= -1 {
      forall batches
        ensures PrunedAsYouGo(batches, k) == Keep(EverTaken(batches), k)
      {
        PruningAsYouGoIsPruningOnce(batches, k);
      }
    } else {
      IdempotentExactly(k);
      var s :| Keep(Keep(s, k), k) != Keep(s, k);
      PruneOnceMore(s, k);
      assert PrunedAsYouGo([s, {}], k) != Keep(EverTaken([s, {}]), k);
    }
  }

  lemma {:induction false} PrunedWereTaken(batches: seq<set<Stamp>>, k: int)
    ensures PrunedAsYouGo(batches, k) <= EverTaken(batches)
  {
    if batches != [] {
      PrunedWereTaken(batches[..|batches| - 1], k);
    }
  }

  /** Whatever the window, the oldest backup ever taken in a month is still there. */
  lemma {:induction false} ArchiveIsPermanent(batches: seq<set<Stamp>>, k: int, x: Stamp)
    requires x in EverTaken(batches) && OldestOfMonth(EverTaken(batches), x)
    ensures x in PrunedAsYouGo(batches, k)
  {
    var n := |batches| - 1;
    var before := EverTaken(batches[..n]);
    PrunedWereTaken(batches[..n], k);
    if x in before {
      assert before <= EverTaken(batches);
      ArchiveIsPermanent(batches[..n], k, x);
    }
  }

  function Months(s: set<Stamp>): set<int> {
    set x | x in s :: x.month
  }

  /** At most one oldest backup per month. */
  lemma {:induction false} OneArchivePerMonth(archives: set<Stamp>)
    requires forall x, y :: x in archives && y in archives && x.month == y.month ==> x == y
    ensures |archives| == |Months(archives)|
  {
    if archives != {} {
      var x :| x in archives;
      OneArchivePerMonth(archives - {x});
      assert Months(archives) == Months(archives - {x}) + {x.month};
    }
  }

  lemma WindowSize(s: set<Stamp>, k: int)
    requires k > 0
    ensures |set x | x in s && InSlice(s, x, k)| <= k
  {
    var window := set x | x in s && InSlice(s, x, k);
    if window != {} {
      StampOrder();
      var last := LeastExists(window, StampLe);
      forall y | y in window && y != last
        ensures y in Newer(s, last)
      {
      }
      SubsetCount(window - {last}, Newer(s, last));
    }
  }

  /** At most the window and one backup per month are kept. */
  lemma KeepIsBounded(s: set<Stamp>, k: int)
    requires k > 0
    ensures |Keep(s, k)| <= k + |Months(s)|
  {
    var window, archives := (set x | x in s && InSlice(s, x, k)), (set x | x in s && OldestOfMonth(s, x));
    StampOrder();
    WindowSize(s, k);
    OneArchivePerMonth(archives);
    SubsetCount(Months(archives), Months(s));
    assert Keep(s, k) == window + archives;
    UnionCount(window, archives);
  }

  lemma UnionCount<T>(a: set<T>, b: set<T>)
    ensures |a + b| <= |a| + |b|
  {
  }
}
