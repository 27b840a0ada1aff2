/** Gini impurity of a label subset and of a two-way split
    (decision_tree.py, cal_gini and cal_split_gini), in exact real arithmetic. */
module Gini {
  import opened Common

  /** Labels are binary class codes. */
  predicate Binary(labels: seq<int>)
  {
    forall i :: 0 <= i < |labels| ==> labels[i] == 0 || labels[i] == 1
  }

  /** `cal_gini`: 1 for an empty subset, otherwise 1 - (p^2 + (1-p)^2) with p
      the fraction of labels equal to 1; n comes from the rows, the count of
      ones from the labels. Equivalently 2 * ones * (n - ones) / n^2. */
  function CalGini(data: seq<Row>, labels: seq<int>): (g: real)
    ensures |data| == 0 ==> g == 1.0
    ensures |data| > 0 ==>
      var n, ny := |data|, Count(labels, 1);
      g == (2 * ny * (n - ny)) as real / (n * n) as real
  {
    var n := |data|;
    if n == 0 then 1.0
    else
      var ny := Count(labels, 1);
      var py := ny as real / n as real;
      var pn := 1.0 - py;
      ClosedForm(n, ny);
      1.0 - (py * py + pn * pn)
  }

  lemma ClosedForm(n: nat, ny: nat)
    requires n > 0
    ensures var py := ny as real / n as real;
      1.0 - (py * py + (1.0 - py) * (1.0 - py)) == (2 * ny * (n - ny)) as real / (n * n) as real
  {
    var py := ny as real / n as real;
    var nr := n as real;
    assert py * nr == ny as real;
    calc {
      1.0 - (py * py + (1.0 - py) * (1.0 - py));
      2.0 * py - 2.0 * py * py;
      { assert (2.0 * py - 2.0 * py * py) * (nr * nr) == 2.0 * (py * nr) * (nr - py * nr); }
      (2.0 * (py * nr) * (nr - py * nr)) / (nr * nr);
      (2.0 * ny as real * (nr - ny as real)) / (nr * nr);
    }
  }

  /** For a subset whose labels are aligned with its rows, impurity lies in [0, 1/2]. */
  lemma {:induction false} GiniBounds(data: seq<Row>, labels: seq<int>)
    requires |data| == |labels| > 0
    ensures 0.0 <= CalGini(data, labels) <= 0.5
  {
    var n, ny := |data|, Count(labels, 1);
    CountBounds(labels, 1);
    HalfProduct(n, ny);
    HalfBound(2 * ny * (n - ny), n * n);
  }

  /** 2 * ny * (n - ny) is at most half of n^2: the gap is (n - 2 ny)^2 / 2. */
  lemma HalfProduct(n: nat, ny: nat)
    requires ny <= n
    ensures 0 <= 2 * ny * (n - ny) && 2 * (2 * ny * (n - ny)) <= n * n
    ensures 2 * (2 * ny * (n - ny)) == n * n - (n - 2 * ny) * (n - 2 * ny)
  {
    var d := n - 2 * ny;
    assert 2 * (2 * ny * (n - ny)) == n * n - d * d;
    assert d * d >= 0;
  }

  lemma HalfBound(a: int, b: int)
    requires 0 <= a && 0 < b && 2 * a <= b
    ensures 0.0 <= a as real / b as real <= 0.5
  {
  }

  /** For binary labels aligned with their rows, impurity is 0 exactly when
      the subset is label-pure. */
  lemma {:induction false} GiniZeroIffPure(data: seq<Row>, labels: seq<int>)
    requires |data| == |labels| > 0 && Binary(labels)
    ensures CalGini(data, labels) == 0.0 <==> Uniform(labels)
  {
    var n, ny := |data|, Count(labels, 1);
    CountBounds(labels, 1);
    var p := 2 * ny * (n - ny);
    ZeroFraction(p, n * n);
    ProductZero(ny, n - ny);
    if ny == 0 {
      assert forall i :: 0 <= i < |labels| ==> labels[i] == 0;
    } else if ny == n {
      assert forall i :: 0 <= i < |labels| ==> labels[i] == 1;
    } else {
      var i :| 0 <= i < |labels| && labels[i] == 1;
      var j :| 0 <= j < |labels| && labels[j] != 1;
      assert labels[i] != labels[j];
    }
  }

  lemma ZeroFraction(a: int, b: int)
    requires 0 < b
    ensures a as real / b as real == 0.0 <==> a == 0
  {
  }

  lemma ProductZero(a: nat, b: nat)
    ensures 2 * a * b == 0 <==> a == 0 || b == 0
  {
    if a > 0 && b > 0 {
      assert a * b >= b;
    }
  }

  /** Impurity is exactly 1/2 when, and only when, the ones make up half the subset. */
  lemma {:induction false} GiniHalfIffBalanced(data: seq<Row>, labels: seq<int>)
    requires |data| == |labels| > 0
    ensures CalGini(data, labels) == 0.5 <==> 2 * Count(labels, 1) == |data|
  {
    var n, ny := |data|, Count(labels, 1);
    CountBounds(labels, 1);
    HalfProduct(n, ny);
    HalfFraction(2 * ny * (n - ny), n * n);
    SquareZero(n - 2 * ny);
  }

  lemma HalfFraction(a: int, b: int)
    requires 0 < b
    ensures a as real / b as real == 0.5 <==> 2 * a == b
  {
  }

  lemma SquareZero(d: int)
    ensures d * d == 0 <==> d == 0
  {
    if d != 0 {
      assert d * d > 0;
    }
  }

  /** `cal_split_gini`: the size-weighted impurity of a two-way split. The
      source divides by s1 + s2, so an empty split raises ZeroDivisionError;
      callers never pass one. */
  function CalSplitGini(data1: seq<Row>, labels1: seq<int>, data2: seq<Row>, labels2: seq<int>): (r: real)
    requires |data1| + |data2| > 0
    ensures var g1, g2 := CalGini(data1, labels1), CalGini(data2, labels2);
      (g1 <= r <= g2 || g2 <= r <= g1) &&
      (|data1| == 0 ==> r == g2) &&
      (|data2| == 0 ==> r == g1)
  {
    var gini1 := CalGini(data1, labels1);
    var gini2 := CalGini(data2, labels2);
    Convex(|data1|, |data2|, gini1, gini2);
    Weighted(|data1|, |data2|, gini1, gini2)
  }

  /** s1 / s * g1 + s2 / s * g2 with s = s1 + s2. */
  function Weighted(s1: nat, s2: nat, g1: real, g2: real): real
    requires s1 + s2 > 0
  {
    var s := (s1 + s2) as real;
    s1 as real / s * g1 + s2 as real / s * g2
  }

  lemma Convex(s1: nat, s2: nat, g1: real, g2: real)
    requires s1 + s2 > 0
    ensures var r := Weighted(s1, s2, g1, g2);
      (g1 <= r <= g2 || g2 <= r <= g1) && (s1 == 0 ==> r == g2) && (s2 == 0 ==> r == g1)
  {
    var s := (s1 + s2) as real;
    var w1, w2 := s1 as real / s, s2 as real / s;
    assert w1 + w2 == 1.0;
    assert 0.0 <= w1 && 0.0 <= w2;
    var r := w1 * g1 + w2 * g2;
    assert r == Weighted(s1, s2, g1, g2);
    assert r - g1 == w2 * (g2 - g1);
    assert r - g2 == w1 * (g1 - g2);
    if g1 <= g2 {
      MulNonNegative(w2, g2 - g1);
      MulNonNegative(w1, g2 - g1);
    } else {
      MulNonNegative(w2, g1 - g2);
      MulNonNegative(w1, g1 - g2);
    }
  }

  lemma MulNonNegative(a: real, b: real)
    requires 0.0 <= a && 0.0 <= b
    ensures 0.0 <= a * b
  {
  }
}
