/** Python's `sorted` over sets and lists, and the order of strings. */
module Ordering {
  ghost predicate TotalOrder<T(!new)>(le: (T, T) -> bool) {
    && (forall x, y :: le(x, y) || le(y, x))
    && (forall x, y :: le(x, y) && le(y, x) ==> x == y)
    && (forall x, y, z :: le(x, y) && le(y, z) ==> le(x, z))
  }

  ghost predicate StrictlyAscending<T>(q: seq<T>, le: (T, T) -> bool) {
    forall i, j :: 0 <= i < j < |q| ==> q[i] != q[j] && le(q[i], q[j])
  }

  lemma {:induction false} LeastExists<T(!new)>(s: set<T>, le: (T, T) -> bool) returns (least: T)
    requires TotalOrder(le) && s != {}
    ensures least in s && forall y :: y in s ==> le(least, y)
  {
    var x :| x in s;
    if s == {x} {
      least := x;
    } else {
      var rest := LeastExists(s - {x}, le);
      least := if le(x, rest) then x else rest;
    }
  }

  /** The least member goes before an ascending listing of the others. */
  lemma LeastFirst<T(!new)>(s: set<T>, le: (T, T) -> bool, x: T, rest: seq<T>)
    requires x in s && (forall y :: y in s ==> le(x, y))
    requires (forall y :: y in rest <==> y in s - {x}) && StrictlyAscending(rest, le) && |rest| == |s - {x}|
    ensures forall y :: y in [x] + rest <==> y in s
    ensures StrictlyAscending([x] + rest, le) && |[x] + rest| == |s|
  {
    assert forall j :: 0 <= j < |rest| ==> rest[j] in rest;
  }

  /** The members of `s` in ascending order. */
  ghost function Ascending<T(!new)>(s: set<T>, le: (T, T) -> bool): (q: seq<T>)
    requires TotalOrder(le)
    ensures forall x :: x in q <==> x in s
    ensures StrictlyAscending(q, le)
    ensures |q| == |s|
  {
    if s == {} then [] else
      assert exists x :: x in s && forall y :: y in s ==> le(x, y) by {
        var least := LeastExists(s, le);
      }
      var x :| x in s && forall y :: y in s ==> le(x, y);
      var rest := Ascending(s - {x}, le);
      LeastFirst(s, le, x, rest);
      [x] + rest
  }

  /** Two ascending listings of the same members are equal. */
  lemma {:induction false} AscendingUnique<T(!new)>(p: seq<T>, q: seq<T>, le: (T, T) -> bool)
    requires TotalOrder(le) && StrictlyAscending(p, le) && StrictlyAscending(q, le)
    requires forall x :: x in p <==> x in q
    ensures p == q
  {
    if p != [] {
      assert p[0] in q;
    }
    if q != [] {
      assert q[0] in p;
    }
    if p != [] && q != [] {
      assert le(p[0], q[0]) && le(q[0], p[0]);
      forall x
        ensures x in p[1..] <==> x in q[1..]
      {
        assert x in p[1..] <==> x in p && x != p[0];
        assert x in q[1..] <==> x in q && x != q[0];
      }
      AscendingUnique(p[1..], q[1..], le);
      assert p == [p[0]] + p[1..] && q == [q[0]] + q[1..];
    }
  }

  method Least<T(!new,==)>(s: set<T>, le: (T, T) -> bool) returns (least: T)
    requires TotalOrder(le) && s != {}
    ensures least in s && forall y :: y in s ==> le(least, y)
  {
    least :| least in s;
    var rest := s - {least};
    while rest != {}
      invariant rest <= s && least in s
      invariant forall y :: y in s - rest ==> le(least, y)
      decreases |rest|
    {
      var y :| y in rest;
      if le(y, least) {
        least := y;
      }
      rest := rest - {y};
    }
  }

  /** Sorts by repeatedly taking out the least. */
  method SortSet<T(!new,==)>(s: set<T>, le: (T, T) -> bool) returns (q: seq<T>)
    requires TotalOrder(le)
    ensures q == Ascending(s, le)
  {
    q := [];
    var rest := s;
    while rest != {}
      invariant rest <= s
      invariant forall x :: x in q <==> x in s - rest
      invariant StrictlyAscending(q, le)
      invariant forall x, y :: x in q && y in rest ==> le(x, y)
      decreases |rest|
    {
      var least := Least(rest, le);
      forall i | 0 <= i < |q|
        ensures q[i] != least && le(q[i], least)
      {
        assert q[i] in q;
      }
      q, rest := q + [least], rest - {least};
    }
    AscendingUnique(q, Ascending(s, le), le);
  }

  // ------------------------------------------------------------------ lists

  /** Each item is followed by no smaller one; equal items may repeat. */
  ghost predicate NeverFalls<T>(q: seq<T>, le: (T, T) -> bool) {
    forall i, j :: 0 <= i < j < |q| ==> le(q[i], q[j])
  }

  lemma InsertKeepsOrder<T(!new)>(q: seq<T>, le: (T, T) -> bool, x: T, k: nat)
    requires TotalOrder(le) && NeverFalls(q, le) && k <= |q|
    requires (forall i :: 0 <= i < k ==> le(q[i], x)) && (k < |q| ==> le(x, q[k]))
    ensures NeverFalls(q[..k] + [x] + q[k..], le)
  {
    forall j | k <= j < |q|
      ensures le(x, q[j])
    {
      assert le(q[k], q[j]);
    }
  }

  /** A list in order, every item as often as it came. */
  method SortList<T(!new)>(items: seq<T>, le: (T, T) -> bool) returns (q: seq<T>)
    requires TotalOrder(le)
    ensures NeverFalls(q, le) && multiset(q) == multiset(items)
  {
    q := [];
    for i := 0 to |items|
      invariant NeverFalls(q, le) && multiset(q) == multiset(items[..i])
    {
      var x, k := items[i], 0;
      while k < |q| && le(q[k], x)
        invariant k <= |q| && forall j :: 0 <= j < k ==> le(q[j], x)
      {
        k := k + 1;
      }
      InsertKeepsOrder(q, le, x, k);
      assert items[..i + 1] == items[..i] + [x];
      assert q == q[..k] + q[k..];
      q := q[..k] + [x] + q[k..];
    }
    assert items[..|items|] == items;
  }

  // ---------------------------------------------------------------- strings

  /** Strings compare character by character; a prefix comes first. */
  predicate LexLe(a: string, b: string) {
    a == [] || (b != [] && (a[0] < b[0] || (a[0] == b[0] && LexLe(a[1..], b[1..]))))
  }

  lemma {:induction false} LexTotal(a: string, b: string)
    ensures LexLe(a, b) || LexLe(b, a)
    ensures LexLe(a, b) && LexLe(b, a) ==> a == b
  {
    if a != [] && b != [] {
      LexTotal(a[1..], b[1..]);
      assert a == [a[0]] + a[1..] && b == [b[0]] + b[1..];
    }
  }

  lemma {:induction false} LexTransitive(a: string, b: string, c: string)
    requires LexLe(a, b) && LexLe(b, c)
    ensures LexLe(a, c)
  {
    if a != [] && a[0] == b[0] && b[0] == c[0] {
      LexTransitive(a[1..], b[1..], c[1..]);
    }
  }

  lemma LexIsTotalOrder()
    ensures TotalOrder(LexLe)
  {
    forall x, y
      ensures LexLe(x, y) || LexLe(y, x)
      ensures LexLe(x, y) && LexLe(y, x) ==> x == y
    {
      LexTotal(x, y);
    }
    forall x, y, z | LexLe(x, y) && LexLe(y, z)
      ensures LexLe(x, z)
    {
      LexTransitive(x, y, z);
    }
  }

  ghost function SortedStrings(s: set<string>): (q: seq<string>)
    ensures forall x :: x in q <==> x in s
    ensures forall i, j :: 0 <= i < j < |q| ==> q[i] != q[j]
    ensures |q| == |s|
  {
    LexIsTotalOrder();
    Ascending(s, LexLe)
  }

  lemma SortedStringsAscend(s: set<string>)
    ensures StrictlyAscending(SortedStrings(s), LexLe)
  {
    LexIsTotalOrder();
  }

  method SortStrings(s: set<string>) returns (q: seq<string>)
    ensures q == SortedStrings(s)
  {
    LexIsTotalOrder();
    q := SortSet(s, LexLe);
  }

  ghost function SortedInts(s: set<int>): (q: seq<int>)
    ensures forall x :: x in q <==> x in s
    ensures forall i, j :: 0 <= i < j < |q| ==> q[i] < q[j]
  {
    Ascending(s, IntLe)
  }

  predicate IntLe(a: int, b: int) {
    a <= b
  }

  method SortInts(s: set<int>) returns (q: seq<int>)
    ensures q == SortedInts(s)
  {
    q := SortSet(s, IntLe);
  }
}
