/** Candidate parameters: every choice of one value per name, in a fixed order and within a budget. */
module CandidateGrid {
  import opened Outcomes
  import opened Ordering

  datatype GridError = EmptySpace | NoValues(name: string) | OverBudget(total: nat)

  /** Search space entries in the order they were written; a repeated name overwrites. */
  function ToSpace<V>(entries: seq<(string, seq<V>)>): map<string, seq<V>> {
    if entries == [] then map[] else
      var last := entries[|entries| - 1];
      ToSpace(entries[..|entries| - 1])[last.0 := last.1]
  }

  // ------------------------------------------------------- Cartesian product

  function Times(a: nat, b: nat): nat {
    a * b
  }

  function Quot(i: nat, d: nat): nat
    requires d > 0
  {
    i / d
  }

  function Rem(i: nat, d: nat): nat
    requires d > 0
  {
    i % d
  }

  lemma TimesGrows(a: nat, b: nat, d: nat)
    ensures Times(a, 0) == 0 && Times(0, d) == 0
    ensures a < b ==> Times(a, d) + d <= Times(b, d)
  {
    if a < b {
      assert b * d == a * d + d + (b - a - 1) * d;
    }
  }

  lemma Divided(i: nat, d: nat, rows: nat)
    requires d > 0
    ensures i == Times(Quot(i, d), d) + Rem(i, d) && Rem(i, d) < d
    ensures i < Times(rows, d) ==> Quot(i, d) < rows
  {
    var q := Quot(i, d);
    TimesGrows(rows, q, d);
  }

  /** Quotient and remainder are the only pair that gives the index back. */
  lemma DividedUniquely(q: nat, r: nat, d: nat, i: nat)
    requires r < d && i == Times(q, d) + r
    ensures Quot(i, d) == q && Rem(i, d) == r
  {
    Divided(i, d, 0);
    TimesGrows(q, Quot(i, d), d);
    TimesGrows(Quot(i, d), q, d);
  }

  function GridSize<V>(lists: seq<seq<V>>): nat {
    if lists == [] then 1 else
      var n := |lists| - 1;
      Times(GridSize(lists[..n]), |lists[n]|)
  }

  /** Every row extended by every value of the pool, the pool running fastest. */
  function Extend<V>(rows: seq<seq<V>>, pool: seq<V>): seq<seq<V>> {
    if rows == [] then [] else
      var n := |rows| - 1;
      Extend(rows[..n], pool) + seq(|pool|, j requires 0 <= j < |pool| => rows[n] + [pool[j]])
  }

  lemma {:induction false} ExtendLength<V>(rows: seq<seq<V>>, pool: seq<V>)
    ensures |Extend(rows, pool)| == Times(|rows|, |pool|)
  {
    if rows != [] {
      var n := |rows| - 1;
      ExtendLength(rows[..n], pool);
      assert |rows| * |pool| == n * |pool| + |pool|;
    }
  }

  lemma {:induction false} ExtendAt<V>(rows: seq<seq<V>>, pool: seq<V>, q: nat, r: nat, i: nat)
    requires q < |rows| && r < |pool| && i == Times(q, |pool|) + r
    ensures i < |Extend(rows, pool)| && Extend(rows, pool)[i] == rows[q] + [pool[r]]
  {
    var n := |rows| - 1;
    var before := rows[..n];
    ExtendLength(before, pool);
    if q < n {
      ExtendAt(before, pool, q, r, i);
    }
  }

  /** All choice rows, the last name's values running fastest. */
  function Product<V>(lists: seq<seq<V>>): seq<seq<V>> {
    if lists == [] then [[]] else
      var n := |lists| - 1;
      Extend(Product(lists[..n]), lists[n])
  }

  ghost predicate NoneEmpty<V>(lists: seq<seq<V>>) {
    forall k :: 0 <= k < |lists| ==> lists[k] != []
  }

  /** One value number per list. */
  ghost predicate IsChoice<V>(lists: seq<seq<V>>, ds: seq<nat>) {
    |ds| == |lists| && forall k :: 0 <= k < |ds| ==> ds[k] < |lists[k]|
  }

  /** The mixed-radix digits of an index: which value of each list it chooses. */
  ghost function Digits<V>(lists: seq<seq<V>>, i: nat): (ds: seq<nat>)
    requires NoneEmpty(lists)
    ensures IsChoice(lists, ds)
  {
    if lists == [] then [] else
      var n := |lists| - 1;
      assert Rem(i, |lists[n]|) < |lists[n]|;
      Digits(lists[..n], Quot(i, |lists[n]|)) + [Rem(i, |lists[n]|)]
  }

  /** The index whose digits these are. */
  ghost function IndexOf<V>(lists: seq<seq<V>>, ds: seq<nat>): nat
    requires |ds| == |lists|
  {
    if lists == [] then 0 else
      var n := |lists| - 1;
      Times(IndexOf(lists[..n], ds[..n]), |lists[n]|) + ds[n]
  }

  ghost function Pick<V>(lists: seq<seq<V>>, ds: seq<nat>): (row: seq<V>)
    requires IsChoice(lists, ds)
    ensures |row| == |lists|
  {
    seq(|lists|, k requires 0 <= k < |lists| => lists[k][ds[k]])
  }

  lemma {:induction false} ProductLength<V>(lists: seq<seq<V>>)
    ensures |Product(lists)| == GridSize(lists)
  {
    if lists != [] {
      var n := |lists| - 1;
      ProductLength(lists[..n]);
      ExtendLength(Product(lists[..n]), lists[n]);
    }
  }

  /** Lists with values have at least one row. */
  lemma {:induction false} GridNotEmpty<V>(lists: seq<seq<V>>)
    requires NoneEmpty(lists)
    ensures GridSize(lists) > 0
  {
    if lists != [] {
      var n := |lists| - 1;
      GridNotEmpty(lists[..n]);
      TimesGrows(0, GridSize(lists[..n]), |lists[n]|);
    }
  }

  lemma PickLast<V>(lists: seq<seq<V>>, n: nat, ds: seq<nat>, d: nat)
    requires n + 1 == |lists| && IsChoice(lists[..n], ds) && d < |lists[n]|
    ensures IsChoice(lists, ds + [d]) && Pick(lists, ds + [d]) == Pick(lists[..n], ds) + [lists[n][d]]
  {
  }

  /** Row `i` of the product chooses, from each list, the value its digit names. */
  lemma {:induction false} ProductAt<V>(lists: seq<seq<V>>, i: nat)
    requires NoneEmpty(lists) && i < GridSize(lists)
    ensures i < |Product(lists)| && Product(lists)[i] == Pick(lists, Digits(lists, i))
  {
    if lists != [] {
      var n := |lists| - 1;
      var before, pool := lists[..n], lists[n];
      var q, r := Quot(i, |pool|), Rem(i, |pool|);
      Divided(i, |pool|, GridSize(before));
      ProductAt(before, q);
      ExtendAt(Product(before), pool, q, r, i);
      PickLast(lists, n, Digits(before, q), r);
    }
  }

  /** Digits name the index they came from. */
  lemma {:induction false} IndexOfDigits<V>(lists: seq<seq<V>>, i: nat)
    requires NoneEmpty(lists) && i < GridSize(lists)
    ensures IndexOf(lists, Digits(lists, i)) == i
  {
    if lists != [] {
      var n := |lists| - 1;
      var d := |lists[n]|;
      Divided(i, d, GridSize(lists[..n]));
      IndexOfDigits(lists[..n], Quot(i, d));
      assert Digits(lists, i)[..n] == Digits(lists[..n], Quot(i, d));
    }
  }

  /** Every choice of digits is the digits of its own index, which lies inside the grid. */
  lemma {:induction false} DigitsOfIndex<V>(lists: seq<seq<V>>, ds: seq<nat>)
    requires NoneEmpty(lists) && IsChoice(lists, ds)
    ensures IndexOf(lists, ds) < GridSize(lists) && Digits(lists, IndexOf(lists, ds)) == ds
  {
    if lists != [] {
      var n := |lists| - 1;
      var q, d := IndexOf(lists[..n], ds[..n]), |lists[n]|;
      DigitsOfIndex(lists[..n], ds[..n]);
      DividedUniquely(q, ds[n], d, IndexOf(lists, ds));
      TimesGrows(q, GridSize(lists[..n]), d);
      assert ds == ds[..n] + [ds[n]];
    }
  }

  // --------------------------------------------------------------- candidates

  /** Names paired with the values of one row. */
  function Zip<V>(names: seq<string>, row: seq<V>): map<string, V>
    requires |names| == |row|
  {
    if names == [] then map[] else
      var n := |names| - 1;
      Zip(names[..n], row[..n])[names[n] := row[n]]
  }

  /** Zipping distinct names looks up each name's own column. */
  lemma {:induction false} ZipAt<V>(names: seq<string>, row: seq<V>, k: nat)
    requires |names| == |row| && k < |names|
    requires forall i, j :: 0 <= i < j < |names| ==> names[i] != names[j]
    ensures names[k] in Zip(names, row) && Zip(names, row)[names[k]] == row[k]
  {
    var n := |names| - 1;
    if k < n {
      ZipAt(names[..n], row[..n], k);
    }
  }

  ghost function Pools<V>(space: map<string, seq<V>>): (lists: seq<seq<V>>)
    ensures |lists| == |SortedStrings(space.Keys)|
  {
    var names := SortedStrings(space.Keys);
    seq(|names|, i requires 0 <= i < |names| => space[names[i]])
  }

  ghost predicate AllHaveValues<V>(space: map<string, seq<V>>) {
    forall name :: name in space ==> space[name] != []
  }

  /** The first name, in sorted order, that has no values. */
  ghost predicate FirstEmpty<V>(space: map<string, seq<V>>, name: string) {
    && name in space && space[name] == []
    && forall other :: other in space && space[other] == [] ==> LexLe(name, other)
  }

  /** One candidate per index, mapping each sorted name to the value its digit chooses. */
  ghost predicate IsGrid<V>(space: map<string, seq<V>>, candidates: seq<map<string, V>>) {
    var pools := Pools(space);
    && NoneEmpty(pools)
    && |candidates| == GridSize(pools)
    && forall i: nat :: i < |candidates| ==>
         candidates[i] == Zip(SortedStrings(space.Keys), Pick(pools, Digits(pools, i)))
  }

  lemma FirstEmptyAt<V>(space: map<string, seq<V>>, names: seq<string>, i: nat)
    requires names == SortedStrings(space.Keys) && i < |names| && space[names[i]] == []
    requires forall k :: 0 <= k < i ==> names[k] in space && space[names[k]] != []
    ensures FirstEmpty(space, names[i])
  {
    SortedStringsAscend(space.Keys);
    assert names[i] in names;
    forall name | name in space && space[name] == []
      ensures LexLe(names[i], name)
    {
      assert name in names;
      var k :| 0 <= k < |names| && names[k] == name;
      LexTotal(name, name);
    }
  }

  /** The value lists of the first `n` names, none of them empty. */
  ghost predicate PoolsSoFar<V>(space: map<string, seq<V>>, names: seq<string>, n: nat, pools: seq<seq<V>>) {
    && n <= |names| && |pools| == n
    && forall k :: 0 <= k < n ==> names[k] in space && pools[k] == space[names[k]] && pools[k] != []
  }

  lemma AllPools<V>(space: map<string, seq<V>>, names: seq<string>, pools: seq<seq<V>>)
    requires names == SortedStrings(space.Keys) && PoolsSoFar(space, names, |names|, pools)
    ensures pools == Pools(space) && AllHaveValues(space)
  {
    forall name | name in space
      ensures space[name] != []
    {
      assert name in names;
      var k :| 0 <= k < |names| && names[k] == name;
    }
  }

  lemma OnePoolMore<V>(pools: seq<seq<V>>, values: seq<V>)
    ensures GridSize(pools + [values]) == Times(GridSize(pools), |values|)
  {
    assert (pools + [values])[..|pools|] == pools;
  }

  /** The value lists in sorted name order and the product of their sizes, or the first empty list's name. */
  method CollectPools<V>(space: map<string, seq<V>>, names: seq<string>)
    returns (r: Result<(seq<seq<V>>, nat), string>)
    requires names == SortedStrings(space.Keys)
    ensures r.Success? <==> AllHaveValues(space)
    ensures r.Success? ==> r.value.0 == Pools(space) && r.value.1 == GridSize(Pools(space))
    ensures r.Failure? ==> FirstEmpty(space, r.error)
  {
    var pools: seq<seq<V>>, total: nat := [], 1;
    for i := 0 to |names|
      invariant PoolsSoFar(space, names, i, pools)
      invariant total == GridSize(pools)
    {
      assert names[i] in names;
      var values := space[names[i]];
      if values == [] {
        FirstEmptyAt(space, names, i);
        return Failure(names[i]);
      }
      OnePoolMore(pools, values);
      pools, total := pools + [values], Times(total, |values|);
    }
    AllPools(space, names, pools);
    return Success((pools, total));
  }

  /** Zipped product rows are the grid. */
  lemma ZippedRowsAreGrid<V>(space: map<string, seq<V>>, candidates: seq<map<string, V>>)
    requires AllHaveValues(space)
    requires |candidates| == |Product(Pools(space))|
    requires forall i: nat :: i < |candidates| ==>
               && |Product(Pools(space))[i]| == |SortedStrings(space.Keys)|
               && candidates[i] == Zip(SortedStrings(space.Keys), Product(Pools(space))[i])
    ensures IsGrid(space, candidates)
  {
    var pools := Pools(space);
    PoolsHaveValues(space);
    ProductLength(pools);
    forall i: nat | i < |candidates|
      ensures Product(pools)[i] == Pick(pools, Digits(pools, i))
    {
      ProductAt(pools, i);
    }
  }

  lemma PoolsHaveValues<V>(space: map<string, seq<V>>)
    requires AllHaveValues(space)
    ensures NoneEmpty(Pools(space))
  {
    var names := SortedStrings(space.Keys);
    assert forall k :: 0 <= k < |names| ==> names[k] in names;
  }

  lemma RowWidths<V>(lists: seq<seq<V>>, i: nat)
    requires NoneEmpty(lists) && i < |Product(lists)|
    ensures |Product(lists)[i]| == |lists|
  {
    ProductLength(lists);
    ProductAt(lists, i);
  }

  /** Each product row zipped with the names. */
  method ZipRows<V>(names: seq<string>, rows: seq<seq<V>>) returns (out: seq<map<string, V>>)
    requires forall i :: 0 <= i < |rows| ==> |rows[i]| == |names|
    ensures |out| == |rows| && forall i :: 0 <= i < |rows| ==> out[i] == Zip(names, rows[i])
  {
    out := [];
    for i := 0 to |rows|
      invariant |out| == i && forall k :: 0 <= k < i ==> out[k] == Zip(names, rows[k])
    {
      out := out + [Zip(names, rows[i])];
    }
  }

  method GenerateCandidates<V>(entries: seq<(string, seq<V>)>, budget: int)
    returns (r: Result<seq<map<string, V>>, GridError>)
    ensures entries == [] <==> r == Failure(EmptySpace)
    ensures entries != [] && !AllHaveValues(ToSpace(entries)) ==>
              r.Failure? && r.error.NoValues? && FirstEmpty(ToSpace(entries), r.error.name)
    ensures entries != [] && AllHaveValues(ToSpace(entries)) ==>
              var size := GridSize(Pools(ToSpace(entries)));
              if size > budget then r == Failure(OverBudget(size)) else r.Success? && IsGrid(ToSpace(entries), r.value)
  {
    if entries == [] {
      return Failure(EmptySpace);
    }
    var space := ToSpace(entries);
    var names := SortStrings(space.Keys);
    var collected := CollectPools(space, names);
    if collected.Failure? {
      return Failure(NoValues(collected.error));
    }
    var (pools, total) := collected.value;
    if total > budget {
      return Failure(OverBudget(total));
    }
    var rows := Product(pools);
    PoolsHaveValues(space);
    forall i: nat | i < |rows|
      ensures |rows[i]| == |names|
    {
      RowWidths(pools, i);
    }
    var candidates := ZipRows(names, rows);
    ZippedRowsAreGrid(space, candidates);
    return Success(candidates);
  }

  lemma {:induction false} SpaceEntry<V>(entries: seq<(string, seq<V>)>, e: (string, seq<V>))
    requires forall i, j :: 0 <= i < j < |entries| ==> entries[i].0 != entries[j].0
    ensures e.0 in ToSpace(entries) && ToSpace(entries)[e.0] == e.1 <==> e in entries
    ensures e.0 in ToSpace(entries) ==> exists i :: 0 <= i < |entries| && entries[i].0 == e.0
  {
    if entries != [] {
      var n := |entries| - 1;
      SpaceEntry(entries[..n], e);
      assert e in entries <==> e in entries[..n] || e == entries[n];
      if e.0 in ToSpace(entries[..n]) {
        var i :| 0 <= i < n && entries[..n][i].0 == e.0;
        assert entries[i].0 == e.0;
      }
    }
  }

  /** The order in which the names were written does not matter. */
  lemma KeyOrderIsIrrelevant<V>(a: seq<(string, seq<V>)>, b: seq<(string, seq<V>)>)
    requires forall i, j :: 0 <= i < j < |a| ==> a[i].0 != a[j].0
    requires forall i, j :: 0 <= i < j < |b| ==> b[i].0 != b[j].0
    requires forall e :: e in a <==> e in b
    ensures ToSpace(a) == ToSpace(b)
  {
    var x, y := ToSpace(a), ToSpace(b);
    forall name
      ensures name in x <==> name in y
      ensures name in x ==> name in y && x[name] == y[name]
    {
      if name in x {
        SpaceEntry(a, (name, x[name]));
        SpaceEntry(b, (name, x[name]));
      }
      if name in y {
        SpaceEntry(a, (name, y[name]));
        SpaceEntry(b, (name, y[name]));
      }
    }
    assert x == y;
  }
}
