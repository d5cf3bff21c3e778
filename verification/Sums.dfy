/** Sums of reals over finite sets and over the entries of dictionaries. */
module Sums {
  import opened Reals

  ghost function Sum<T(!new)>(s: set<T>, f: T -> real): real {
    if s == {} then 0.0 else
      var x :| x in s;
      f(x) + Sum(s - {x}, f)
  }

  /** The sum does not depend on the order in which members are taken out. */
  lemma {:induction false} SumPick<T(!new)>(s: set<T>, f: T -> real, x: T)
    requires x in s
    ensures Sum(s, f) == f(x) + Sum(s - {x}, f)
  {
    var y :| y in s && Sum(s, f) == f(y) + Sum(s - {y}, f);
    if y != x {
      SumPick(s - {y}, f, x);
      SumPick(s - {x}, f, y);
      assert s - {y} - {x} == s - {x} - {y};
    }
  }

  lemma {:induction false} SumSame<T(!new)>(s: set<T>, f: T -> real, g: T -> real)
    requires forall x :: x in s ==> f(x) == g(x)
    ensures Sum(s, f) == Sum(s, g)
  {
    if s != {} {
      var x :| x in s;
      SumPick(s, f, x);
      SumPick(s, g, x);
      SumSame(s - {x}, f, g);
    }
  }

  /** Changing one member's weight changes the sum by the difference. */
  lemma SumChange<T(!new)>(s: set<T>, f: T -> real, g: T -> real, x: T)
    requires x in s
    requires forall y :: y in s && y != x ==> f(y) == g(y)
    ensures Sum(s, g) == Sum(s, f) - f(x) + g(x)
  {
    SumPick(s, f, x);
    SumPick(s, g, x);
    SumSame(s - {x}, f, g);
  }

  /** Members of weight zero can be added to the range. */
  lemma {:induction false} SumWiden<T(!new)>(s: set<T>, t: set<T>, f: T -> real)
    requires s <= t
    requires forall x :: x in t && x !in s ==> f(x) == 0.0
    ensures Sum(s, f) == Sum(t, f)
  {
    if s != t {
      var x :| x in t && x !in s;
      SumPick(t, f, x);
      SumWiden(s, t - {x}, f);
    }
  }

  lemma {:induction false} SumAdd<T(!new)>(s: set<T>, f: T -> real, g: T -> real, h: T -> real)
    requires forall x :: x in s ==> h(x) == f(x) + g(x)
    ensures Sum(s, h) == Sum(s, f) + Sum(s, g)
  {
    if s != {} {
      var x :| x in s;
      SumPick(s, f, x);
      SumPick(s, g, x);
      SumPick(s, h, x);
      SumAdd(s - {x}, f, g, h);
    }
  }

  /** Each member's weight is at most the sum of non-negative weights. */
  lemma {:induction false} SumBounds<T(!new)>(s: set<T>, f: T -> real)
    requires forall x :: x in s ==> f(x) >= 0.0
    ensures Sum(s, f) >= 0.0
    ensures forall x :: x in s ==> f(x) <= Sum(s, f)
  {
    forall x | x in s
      ensures f(x) <= Sum(s, f)
    {
      SumPick(s, f, x);
      SumBounds(s - {x}, f);
    }
  }

  lemma {:induction false} SumScale<T(!new)>(s: set<T>, f: T -> real, g: T -> real, c: real)
    requires forall x :: x in s ==> g(x) == Mul(c, f(x))
    ensures Sum(s, g) == Mul(c, Sum(s, f))
  {
    if s == {} {
      MulAdd(c, 0.0, 0.0);
    } else {
      var x :| x in s;
      SumPick(s, f, x);
      SumPick(s, g, x);
      SumScale(s - {x}, f, g, c);
      MulAdd(c, f(x), Sum(s - {x}, f));
    }
  }

  /** A part, weighed less, sums to no more than a whole whose other weights are not negative. */
  lemma {:induction false} SumPart<T(!new)>(part: set<T>, whole: set<T>, f: T -> real, g: T -> real)
    requires part <= whole
    requires forall x :: x in part ==> f(x) <= g(x)
    requires forall x :: x in whole && x !in part ==> g(x) >= 0.0
    ensures Sum(part, f) <= Sum(whole, g)
  {
    if whole != {} {
      var x :| x in whole;
      SumPick(whole, g, x);
      if x in part {
        SumPick(part, f, x);
        SumPart(part - {x}, whole - {x}, f, g);
      } else {
        SumPart(part, whole - {x}, f, g);
      }
    }
  }

  /** A dictionary read with zero for a missing key. */
  function Get<K>(m: map<K, real>, k: K): real {
    if k in m then m[k] else 0.0
  }

  /** The total of the entries whose key satisfies `p`. */
  ghost function TotalWhere<K(!new)>(m: map<K, real>, p: K -> bool): real {
    Sum(m.Keys, k => if p(k) then Get(m, k) else 0.0)
  }

  lemma TotalWhereUpdate<K(!new)>(m: map<K, real>, p: K -> bool, k: K, v: real)
    ensures TotalWhere(m[k := v], p) == TotalWhere(m, p) + (if p(k) then v - Get(m, k) else 0.0)
  {
    var m' := m[k := v];
    var f := (x: K) => if p(x) then Get(m, x) else 0.0;
    var f' := (x: K) => if p(x) then Get(m', x) else 0.0;
    SumWiden(m.Keys, m'.Keys, f);
    SumChange(m'.Keys, f, f', k);
  }

  lemma TotalWhereBounds<K(!new)>(m: map<K, real>, p: K -> bool)
    requires forall k :: Get(m, k) >= 0.0
    ensures TotalWhere(m, p) >= 0.0
    ensures forall k :: p(k) ==> Get(m, k) <= TotalWhere(m, p)
  {
    SumBounds(m.Keys, k => if p(k) then Get(m, k) else 0.0);
  }

  /** The part that satisfies `p` can be added up over any range that has all keys. */
  lemma TotalWhereOver<K(!new)>(m: map<K, real>, p: K -> bool, all: set<K>, own: set<K>, f: K -> real)
    requires m.Keys <= all && own <= all
    requires forall k :: k in all ==> f(k) == Get(m, k) && (k in own <==> p(k))
    ensures TotalWhere(m, p) == Sum(own, f)
  {
    var g := (k: K) => if p(k) then Get(m, k) else 0.0;
    SumWiden(m.Keys, all, g);
    SumWiden(own, all, g);
    SumSame(own, g, f);
  }

  ghost function Total<K(!new)>(m: map<K, real>): real {
    Sum(m.Keys, k => Get(m, k))
  }

  lemma TotalUpdate<K(!new)>(m: map<K, real>, k: K, v: real)
    ensures Total(m[k := v]) == Total(m) + v - Get(m, k)
  {
    var m' := m[k := v];
    SumWiden(m.Keys, m'.Keys, x => Get(m, x));
    SumChange(m'.Keys, x => Get(m, x), x => Get(m', x), k);
  }

  /** Adds up a dictionary's values, taken key by key. */
  method SumValues<K(!new)>(m: map<K, real>) returns (total: real)
    ensures total == Total(m)
  {
    total := 0.0;
    var rest := m.Keys;
    while rest != {}
      invariant rest <= m.Keys
      invariant total + Sum(rest, x => Get(m, x)) == Total(m)
      decreases |rest|
    {
      var k :| k in rest;
      SumPick(rest, x => Get(m, x), k);
      total, rest := total + m[k], rest - {k};
    }
  }
}
