/** The worst fall of an equity curve from its running peak. */
module Drawdown {
  import opened Reals

  const PERCENT_SCALE := 100.0

  /** The fraction lost going from one mark to another. */
  function Drop(from: real, to: real): real
    requires from > 0.0
  {
    to / from - 1.0
  }

  /** The highest mark so far. */
  function Peak(curve: seq<real>): real
    requires curve != []
  {
    var n := |curve| - 1;
    if n == 0 then curve[0] else Max(Peak(curve[..n]), curve[n])
  }

  /** The single pass: the lowest fall of any mark from the peak so far, where that peak is positive. */
  function Worst(curve: seq<real>): real {
    if curve == [] then 0.0 else
      var n := |curve| - 1;
      var peak := Peak(curve);
      if peak <= 0.0 then Worst(curve[..n]) else Min(Worst(curve[..n]), Drop(peak, curve[n]))
  }

  method MaxDrawdownPct(curve: seq<real>) returns (pct: real)
    ensures pct == Worst(curve) * 100.0
  {
    if curve == [] {
      return 0.0;
    }
    var peak, maxDd := curve[0], 0.0;
    for i := 0 to |curve|
      invariant peak == if i == 0 then curve[0] else Peak(curve[..i])
      invariant maxDd == Worst(curve[..i])
    {
      ghost var next := i + 1;
      assert curve[..next][..i] == curve[..i];
      peak := Max(peak, curve[i]);
      assert peak == Peak(curve[..next]);
      if peak > 0.0 {
        maxDd := Min(maxDd, curve[i] / peak - 1.0);
      }
    }
    assert curve[..|curve|] == curve;
    return maxDd * PERCENT_SCALE;
  }

  // ---------------------------------------------------------- pairwise meaning

  ghost predicate NonNegative(curve: seq<real>) {
    forall i :: 0 <= i < |curve| ==> curve[i] >= 0.0
  }

  /** A fall between two marks of the curve, the first of them positive. */
  ghost predicate IsFall(curve: seq<real>, i: nat, j: nat, drop: real) {
    i <= j < |curve| && curve[i] > 0.0 && drop == Drop(curve[i], curve[j])
  }

  lemma {:induction false} PeakIsHighest(curve: seq<real>, i: nat)
    requires i < |curve|
    ensures curve[i] <= Peak(curve)
  {
    var n := |curve| - 1;
    if i < n {
      PeakIsHighest(curve[..n], i);
    }
  }

  lemma {:induction false} PeakIsThere(curve: seq<real>) returns (i: nat)
    requires curve != []
    ensures i < |curve| && curve[i] == Peak(curve)
  {
    var n := |curve| - 1;
    if n == 0 || curve[n] > Peak(curve[..n]) {
      i := n;
    } else {
      i := PeakIsThere(curve[..n]);
    }
  }

  /** Falling to a non-negative mark is worst from the highest start. */
  lemma HigherStartFallsFurther(low: real, high: real, to: real)
    requires 0.0 < low <= high && to >= 0.0
    ensures Drop(high, to) <= Drop(low, to)
  {
    var a, b := to / high, to / low;
    Divide(to, high);
    Divide(to, low);
    if b < a {
      ScaleStrict(b, a, low);
      if a > 0.0 {
        Scale(low, high, a);
      }
    }
  }

  /** No fall between two marks of a non-negative curve is worse than the single pass finds. */
  lemma {:induction false} NoFallIsWorse(curve: seq<real>, i: nat, j: nat, drop: real)
    requires NonNegative(curve) && IsFall(curve, i, j, drop)
    ensures Worst(curve) <= drop
  {
    var n := |curve| - 1;
    PeakIsHighest(curve, i);
    if j < n {
      NoFallIsWorse(curve[..n], i, j, drop);
    } else {
      HigherStartFallsFurther(curve[i], Peak(curve), curve[j]);
    }
  }

  /** What the single pass finds, if anything, is a fall between two marks of the curve. */
  lemma {:induction false} WorstIsAFall(curve: seq<real>) returns (i: nat, j: nat)
    ensures Worst(curve) <= 0.0
    ensures Worst(curve) < 0.0 ==> IsFall(curve, i, j, Worst(curve))
  {
    i, j := 0, 0;
    if curve != [] {
      var n := |curve| - 1;
      i, j := WorstIsAFall(curve[..n]);
      if Peak(curve) > 0.0 && Drop(Peak(curve), curve[n]) < Worst(curve[..n]) {
        i := PeakIsThere(curve);
        j := n;
      }
    }
  }

  /**
   On a non-negative curve with a positive first mark the single pass finds exactly the worst
   fall over all pairs of marks in order.
   */
  lemma WorstIsPairwise(curve: seq<real>) returns (i: nat, j: nat)
    requires NonNegative(curve) && curve != [] && curve[0] > 0.0
    ensures IsFall(curve, i, j, Worst(curve))
    ensures forall k: nat, l: nat :: k <= l < |curve| && curve[k] > 0.0 ==> Worst(curve) <= Drop(curve[k], curve[l])
  {
    forall k: nat, l: nat | k <= l < |curve| && curve[k] > 0.0
      ensures Worst(curve) <= Drop(curve[k], curve[l])
    {
      NoFallIsWorse(curve, k, l, Drop(curve[k], curve[l]));
    }
    i, j := WorstIsAFall(curve);
    if Worst(curve) == 0.0 {
      i, j := 0, 0;
      NoFall(curve[0]);
    }
  }

  lemma NoFall(mark: real)
    requires mark > 0.0
    ensures Drop(mark, mark) == 0.0
  {
  }

  lemma DropSign(from: real, to: real)
    requires from > 0.0
    ensures Drop(from, to) >= 0.0 <==> to >= from
  {
    var q := to / from;
    Divide(to, from);
    if q < 1.0 {
      ScaleStrict(q, 1.0, from);
    } else {
      Scale(1.0, q, from);
    }
  }

  /** A mark below an earlier positive one is a fall the single pass sees, whatever the curve. */
  lemma {:induction false} FallIsSeen(curve: seq<real>, i: nat, j: nat)
    requires i <= j < |curve| && curve[i] > 0.0 && curve[j] < curve[i]
    ensures Worst(curve) < 0.0
  {
    var n := |curve| - 1;
    PeakIsHighest(curve, i);
    if j < n {
      FallIsSeen(curve[..n], i, j);
    } else {
      DropSign(Peak(curve), curve[n]);
    }
  }

  ghost predicate NeverFallsFromPositive(curve: seq<real>) {
    forall i: nat, j: nat :: i <= j < |curve| && curve[i] > 0.0 ==> curve[i] <= curve[j]
  }

  /** Any curve has no drawdown exactly when no mark is below an earlier positive one. */
  lemma NoDrawdownExactly(curve: seq<real>)
    ensures Worst(curve) == 0.0 <==> NeverFallsFromPositive(curve)
    ensures NonNegative(curve) ==> (Worst(curve) == 0.0 <==> forall i, j :: 0 <= i <= j < |curve| ==> curve[i] <= curve[j])
  {
    var a, b := WorstIsAFall(curve);
    if Worst(curve) == 0.0 {
      forall i: nat, j: nat | i <= j < |curve| && curve[i] > 0.0
        ensures curve[i] <= curve[j]
      {
        if curve[j] < curve[i] {
          FallIsSeen(curve, i, j);
        }
      }
    } else {
      DropSign(curve[a], curve[b]);
    }
  }

  /** Appending marks never improves the drawdown, whatever the curve. */
  lemma {:induction false} AppendingNeverImproves(curve: seq<real>, more: seq<real>)
    ensures Worst(curve + more) <= Worst(curve)
  {
    if more == [] {
      assert curve + more == curve;
    } else {
      var n := |more| - 1;
      AppendingNeverImproves(curve, more[..n]);
      assert (curve + more)[..|curve + more| - 1] == curve + more[..n];
    }
  }

  function Scaled(curve: seq<real>, c: real): seq<real> {
    seq(|curve|, i requires 0 <= i < |curve| => Mul(c, curve[i]))
  }

  lemma MulOrder(c: real, a: real, b: real)
    requires c > 0.0
    ensures Mul(c, a) < Mul(c, b) <==> a < b
    ensures Mul(c, a) > 0.0 <==> a > 0.0
  {
    MulLess(c, a, b);
    MulLess(c, b, a);
    MulLess(c, 0.0, a);
    MulLess(c, a, 0.0);
    MulAdd(c, 0.0, 0.0);
  }

  lemma MulLess(c: real, a: real, b: real)
    requires c > 0.0
    ensures a < b ==> Mul(c, a) < Mul(c, b)
    ensures a == b ==> Mul(c, a) == Mul(c, b)
  {
    if a < b {
      ScaleStrict(a, b, c);
    }
  }

  lemma DropOfScaled(c: real, from: real, to: real)
    requires c > 0.0 && from > 0.0
    ensures Mul(c, from) > 0.0 && Drop(Mul(c, from), Mul(c, to)) == Drop(from, to)
  {
    MulOrder(c, from, to);
    var q := to / from;
    Divide(to, from);
    assert Mul(c, to) == q * Mul(c, from);
    QuotientIs(Mul(c, to), Mul(c, from), q);
  }

  lemma QuotientIs(a: real, d: real, q: real)
    requires d > 0.0 && a == q * d
    ensures a / d == q
  {
  }

  lemma {:induction false} PeakOfScaled(curve: seq<real>, c: real)
    requires c > 0.0 && curve != []
    ensures Peak(Scaled(curve, c)) == Mul(c, Peak(curve))
  {
    var n := |curve| - 1;
    if n > 0 {
      PeakOfScaled(curve[..n], c);
      assert Scaled(curve, c)[..n] == Scaled(curve[..n], c);
      MulOrder(c, Peak(curve[..n]), curve[n]);
    }
  }

  /** The drawdown does not depend on the unit the curve is measured in. */
  lemma {:induction false} ScaleInvariant(curve: seq<real>, c: real)
    requires c > 0.0
    ensures Worst(Scaled(curve, c)) == Worst(curve)
  {
    if curve != [] {
      var n := |curve| - 1;
      ScaleInvariant(curve[..n], c);
      PeakOfScaled(curve, c);
      assert Scaled(curve, c)[..n] == Scaled(curve[..n], c);
      MulOrder(c, Peak(curve), 0.0);
      if Peak(curve) > 0.0 {
        DropOfScaled(c, Peak(curve), curve[n]);
      }
    }
  }

  /** No fall between two marks, the first positive, is worse than the single pass finds. */
  ghost predicate PairwiseExact(curve: seq<real>) {
    forall k: nat, l: nat :: k <= l < |curve| && curve[k] > 0.0 ==> Worst(curve) <= Drop(curve[k], curve[l])
  }

  /** A curve that starts above zero and never goes below `m`. */
  ghost predicate StaysAbove(curve: seq<real>, m: real) {
    curve != [] && curve[0] > 0.0 && forall i :: 0 <= i < |curve| ==> curve[i] >= m
  }

  /** Every negative mark has a curve it spoils: after a rise, it falls further from the start than from the peak. */
  lemma NegativeMarkBreaksPairwise(m: real)
    requires m < 0.0
    ensures StaysAbove([1.0, 2.0, m], m) && !PairwiseExact([1.0, 2.0, m])
  {
    var curve := [1.0, 2.0, m];
    assert curve[..2] == [1.0, 2.0] && curve[..2][..1] == [1.0] && [1.0][..0] == [];
    assert Peak([1.0]) == 1.0 && Peak([1.0, 2.0]) == 2.0 && Peak(curve) == 2.0;
    assert Worst([1.0]) == 0.0;
    assert Worst([1.0, 2.0]) == 0.0;
    assert Worst(curve) == m / 2.0 - 1.0;
    assert curve[0] > 0.0 && Drop(curve[0], curve[2]) == m - 1.0;
  }

  /** The single pass is exact on every curve that stays above `m` if and only if `m` is not negative. */
  lemma PairwiseExactly(m: real)
    ensures (forall curve :: StaysAbove(curve, m) ==> PairwiseExact(curve)) <==> m >= 0.0
  {
    if m >= 0.0 {
      forall curve | StaysAbove(curve, m)
        ensures PairwiseExact(curve)
      {
        var i, j := WorstIsPairwise(curve);
      }
    } else {
      NegativeMarkBreaksPairwise(m);
    }
  }
}
