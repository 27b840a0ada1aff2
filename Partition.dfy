/** `split_dataset` (decision_tree.py): one pass over the (row, label) pairs
    that sends each pair to side 1 or side 2. */
module Partition {
  import opened Common

  /** The side-1 test: `row[idx] <= val` for a continuous feature,
      `row[idx] == val` for a categorical one. */
  predicate GoesTrue(row: Row, idx: int, val: int, isContinuous: bool)
    requires 0 <= idx < |row|
  {
    if isContinuous then row[idx] <= val else row[idx] == val
  }

  /** `idx` is a column number that every row has. */
  predicate Indexable(data: seq<Row>, idx: int)
  {
    0 <= idx && forall i :: 0 <= i < |data| ==> idx < |data[i]|
  }

  function Min(a: int, b: int): int
  {
    if a < b then a else b
  }

  /** Python's `zip(data, labels)`: pairs up to the shorter of the two lists. */
  function Zip(data: seq<Row>, labels: seq<int>): (z: seq<(Row, int)>)
    ensures |z| == Min(|data|, |labels|)
  {
    seq(Min(|data|, |labels|), i requires 0 <= i < Min(|data|, |labels|) => (data[i], labels[i]))
  }

  datatype Sides = Sides(data1: seq<Row>, labels1: seq<int>, data2: seq<Row>, labels2: seq<int>)

  /** The four lists `split_dataset` returns, defined pair by pair from the
      front of the zipped input. */
  function Split(data: seq<Row>, labels: seq<int>, idx: int, val: int, isContinuous: bool): (s: Sides)
    requires Indexable(data, idx)
    ensures |s.data1| == |s.labels1| && |s.data2| == |s.labels2|
    ensures |s.data1| + |s.data2| == Min(|data|, |labels|)
    decreases |data|
  {
    var n := Min(|data|, |labels|);
    if n == 0 then Sides([], [], [], [])
    else
      var s := Split(data[..n - 1], labels[..n - 1], idx, val, isContinuous);
      var row := data[n - 1];
      var lab := labels[n - 1];
      if GoesTrue(row, idx, val, isContinuous) then
        Sides(s.data1 + [row], s.labels1 + [lab], s.data2, s.labels2)
      else
        Sides(s.data1, s.labels1, s.data2 + [row], s.labels2 + [lab])
  }

  /** Extending the input by one pair extends exactly one side by that pair. */
  lemma SplitStep(data: seq<Row>, labels: seq<int>, i: nat, idx: int, val: int, isContinuous: bool)
    requires Indexable(data, idx) && i < Min(|data|, |labels|)
    ensures var s := Split(data[..i], labels[..i], idx, val, isContinuous);
      Split(data[..i + 1], labels[..i + 1], idx, val, isContinuous) ==
        if GoesTrue(data[i], idx, val, isContinuous)
        then Sides(s.data1 + [data[i]], s.labels1 + [labels[i]], s.data2, s.labels2)
        else Sides(s.data1, s.labels1, s.data2 + [data[i]], s.labels2 + [labels[i]])
  {
    assert data[..i + 1][..i] == data[..i] && labels[..i + 1][..i] == labels[..i];
  }

  /** Appending one aligned pair extends exactly one side by it. */
  lemma SplitSnoc(data: seq<Row>, labels: seq<int>, row: Row, lab: int, idx: int, val: int, isContinuous: bool)
    requires |data| == |labels| && Indexable(data, idx) && idx < |row|
    ensures var s := Split(data, labels, idx, val, isContinuous);
      Split(data + [row], labels + [lab], idx, val, isContinuous) ==
        if GoesTrue(row, idx, val, isContinuous)
        then Sides(s.data1 + [row], s.labels1 + [lab], s.data2, s.labels2)
        else Sides(s.data1, s.labels1, s.data2 + [row], s.labels2 + [lab])
  {
    assert (data + [row])[..|data|] == data && (labels + [lab])[..|data|] == labels;
  }

  /** Only the zipped prefix matters. */
  lemma SplitZippedPrefix(data: seq<Row>, labels: seq<int>, idx: int, val: int, isContinuous: bool)
    requires Indexable(data, idx)
    ensures var n := Min(|data|, |labels|);
      Split(data[..n], labels[..n], idx, val, isContinuous) == Split(data, labels, idx, val, isContinuous)
  {
    var n := Min(|data|, |labels|);
    if n == |data| && n == |labels| {
      assert data[..n] == data && labels[..n] == labels;
    } else if n > 0 {
      assert data[..n][..n - 1] == data[..n - 1] && labels[..n][..n - 1] == labels[..n - 1];
    }
  }

  /** Side 1 holds only input rows that pass the test, side 2 only input
      rows that fail it, and both hold only input labels. */
  lemma {:induction false} SplitMembers(data: seq<Row>, labels: seq<int>, idx: int, val: int, isContinuous: bool)
    requires Indexable(data, idx)
    ensures var s := Split(data, labels, idx, val, isContinuous);
      (forall r :: r in s.data1 ==> r in data && GoesTrue(r, idx, val, isContinuous)) &&
      (forall r :: r in s.data2 ==> r in data && !GoesTrue(r, idx, val, isContinuous)) &&
      (forall l :: l in s.labels1 ==> l in labels) &&
      (forall l :: l in s.labels2 ==> l in labels)
    decreases |data|
  {
    var n := Min(|data|, |labels|);
    if n > 0 {
      SplitMembers(data[..n - 1], labels[..n - 1], idx, val, isContinuous);
      assert forall r :: r in data[..n - 1] ==> r in data;
      assert forall l :: l in labels[..n - 1] ==> l in labels;
    }
  }

  /** A pair of the zipped input shows up, still paired, on the side its row's test selects. */
  lemma {:induction false} SplitKeepsPair(data: seq<Row>, labels: seq<int>, idx: int, val: int, isContinuous: bool, i: nat)
    requires Indexable(data, idx) && i < Min(|data|, |labels|)
    ensures var s := Split(data, labels, idx, val, isContinuous);
      if GoesTrue(data[i], idx, val, isContinuous)
      then exists j :: 0 <= j < |s.data1| && s.data1[j] == data[i] && s.labels1[j] == labels[i]
      else exists j :: 0 <= j < |s.data2| && s.data2[j] == data[i] && s.labels2[j] == labels[i]
    decreases |data|
  {
    var n := Min(|data|, |labels|);
    var s := Split(data, labels, idx, val, isContinuous);
    var p := Split(data[..n - 1], labels[..n - 1], idx, val, isContinuous);
    assert s == if GoesTrue(data[n - 1], idx, val, isContinuous)
      then Sides(p.data1 + [data[n - 1]], p.labels1 + [labels[n - 1]], p.data2, p.labels2)
      else Sides(p.data1, p.labels1, p.data2 + [data[n - 1]], p.labels2 + [labels[n - 1]]);
    if i == n - 1 {
      if GoesTrue(data[i], idx, val, isContinuous) {
        var j := |p.data1|;
        assert 0 <= j < |s.data1| && s.data1[j] == data[i] && s.labels1[j] == labels[i];
        assert exists j :: 0 <= j < |s.data1| && s.data1[j] == data[i] && s.labels1[j] == labels[i];
        assert s == Split(data, labels, idx, val, isContinuous);
      } else {
        var j := |p.data2|;
        assert 0 <= j < |s.data2| && s.data2[j] == data[i] && s.labels2[j] == labels[i];
      }
    } else {
      SplitKeepsPair(data[..n - 1], labels[..n - 1], idx, val, isContinuous, i);
      assert data[..n - 1][i] == data[i] && labels[..n - 1][i] == labels[i];
      if GoesTrue(data[i], idx, val, isContinuous) {
        var j :| 0 <= j < |p.data1| && p.data1[j] == data[i] && p.labels1[j] == labels[i];
        assert 0 <= j < |s.data1| && s.data1[j] == data[i] && s.labels1[j] == labels[i];
        assert exists j :: 0 <= j < |s.data1| && s.data1[j] == data[i] && s.labels1[j] == labels[i];
        assert s == Split(data, labels, idx, val, isContinuous);
      } else {
        var j :| 0 <= j < |p.data2| && p.data2[j] == data[i] && p.labels2[j] == labels[i];
        assert 0 <= j < |s.data2| && s.data2[j] == data[i] && s.labels2[j] == labels[i];
        assert exists j :: 0 <= j < |s.data2| && s.data2[j] == data[i] && s.labels2[j] == labels[i];
        assert s == Split(data, labels, idx, val, isContinuous);
      }
    }
  }

  /** `split_dataset(data_list, label_list, attr_idx, attr_val, is_continuous)`. */
  method SplitDataset(data: seq<Row>, labels: seq<int>, attrIdx: int, attrVal: int, isContinuous: bool := false)
    returns (data1: seq<Row>, labels1: seq<int>, data2: seq<Row>, labels2: seq<int>)
    requires Indexable(data, attrIdx)
    ensures Sides(data1, labels1, data2, labels2) == Split(data, labels, attrIdx, attrVal, isContinuous)
  {
    data1, data2, labels1, labels2 := [], [], [], [];
    var n := Min(|data|, |labels|);
    var i := 0;
    while i < n
      invariant 0 <= i <= n
      invariant Sides(data1, labels1, data2, labels2) == Split(data[..i], labels[..i], attrIdx, attrVal, isContinuous)
    {
      var row, lab := data[i], labels[i];
      SplitStep(data, labels, i, attrIdx, attrVal, isContinuous);
      if isContinuous {
        if row[attrIdx] <= attrVal {
          data1, labels1 := data1 + [row], labels1 + [lab];
        } else {
          data2, labels2 := data2 + [row], labels2 + [lab];
        }
      } else {
        if row[attrIdx] == attrVal {
          data1, labels1 := data1 + [row], labels1 + [lab];
        } else {
          data2, labels2 := data2 + [row], labels2 + [lab];
        }
      }
      i := i + 1;
    }
    SplitZippedPrefix(data, labels, attrIdx, attrVal, isContinuous);
  }

  /** The pairs of `pairs` whose row passes (side) or fails (not side) the
      test, in their original order: an independent, front-first reference. */
  function Keep(pairs: seq<(Row, int)>, idx: int, val: int, isContinuous: bool, side: bool): seq<(Row, int)>
    requires 0 <= idx && forall k :: 0 <= k < |pairs| ==> idx < |pairs[k].0|
  {
    if |pairs| == 0 then []
    else
      (if GoesTrue(pairs[0].0, idx, val, isContinuous) == side then [pairs[0]] else []) +
      Keep(pairs[1..], idx, val, isContinuous, side)
  }

  lemma {:induction false} KeepSnoc(pairs: seq<(Row, int)>, p: (Row, int), idx: int, val: int, isContinuous: bool, side: bool)
    requires 0 <= idx && forall k :: 0 <= k < |pairs| ==> idx < |pairs[k].0|
    requires idx < |p.0|
    ensures Keep(pairs + [p], idx, val, isContinuous, side) ==
      Keep(pairs, idx, val, isContinuous, side) + (if GoesTrue(p.0, idx, val, isContinuous) == side then [p] else [])
  {
    if |pairs| > 0 {
      assert (pairs + [p])[1..] == pairs[1..] + [p];
      KeepSnoc(pairs[1..], p, idx, val, isContinuous, side);
    }
  }

  lemma {:induction false} KeepPartitions(pairs: seq<(Row, int)>, idx: int, val: int, isContinuous: bool)
    requires 0 <= idx && forall k :: 0 <= k < |pairs| ==> idx < |pairs[k].0|
    ensures multiset(Keep(pairs, idx, val, isContinuous, true)) + multiset(Keep(pairs, idx, val, isContinuous, false))
      == multiset(pairs)
  {
    if |pairs| > 0 {
      KeepPartitions(pairs[1..], idx, val, isContinuous);
      assert pairs == [pairs[0]] + pairs[1..];
    }
  }

  lemma ZipSnoc(data: seq<Row>, labels: seq<int>, r: Row, l: int)
    requires |data| == |labels|
    ensures Zip(data + [r], labels + [l]) == Zip(data, labels) + [(r, l)]
  {
  }

  /** The pairs on one side of a split. */
  function SidePairs(s: Sides, side: bool): seq<(Row, int)>
  {
    if side then Zip(s.data1, s.labels1) else Zip(s.data2, s.labels2)
  }

  lemma {:induction false} SplitSideIsKeep(data: seq<Row>, labels: seq<int>, idx: int, val: int, isContinuous: bool, side: bool)
    requires Indexable(data, idx)
    ensures SidePairs(Split(data, labels, idx, val, isContinuous), side) ==
      Keep(Zip(data, labels), idx, val, isContinuous, side)
  {
    var n := Min(|data|, |labels|);
    if n > 0 {
      var s := Split(data[..n - 1], labels[..n - 1], idx, val, isContinuous);
      SplitSideIsKeep(data[..n - 1], labels[..n - 1], idx, val, isContinuous, side);
      var prefix := Zip(data[..n - 1], labels[..n - 1]);
      var last := (data[n - 1], labels[n - 1]);
      assert Zip(data, labels) == prefix + [last];
      KeepSnoc(prefix, last, idx, val, isContinuous, side);
      if GoesTrue(data[n - 1], idx, val, isContinuous) {
        ZipSnoc(s.data1, s.labels1, data[n - 1], labels[n - 1]);
      } else {
        ZipSnoc(s.data2, s.labels2, data[n - 1], labels[n - 1]);
      }
    }
  }

  /** Side 1 is exactly the pairs whose row passes the test and side 2 the
      others, each in input order with labels still aligned to rows; so every
      input pair lands on exactly one side. */
  lemma SplitIsOrderedPartition(data: seq<Row>, labels: seq<int>, idx: int, val: int, isContinuous: bool)
    requires Indexable(data, idx)
    ensures var s := Split(data, labels, idx, val, isContinuous);
      var pairs := Zip(data, labels);
      Zip(s.data1, s.labels1) == Keep(pairs, idx, val, isContinuous, true) &&
      Zip(s.data2, s.labels2) == Keep(pairs, idx, val, isContinuous, false) &&
      multiset(Zip(s.data1, s.labels1)) + multiset(Zip(s.data2, s.labels2)) == multiset(pairs)
  {
    SplitSideIsKeep(data, labels, idx, val, isContinuous, true);
    SplitSideIsKeep(data, labels, idx, val, isContinuous, false);
    KeepPartitions(Zip(data, labels), idx, val, isContinuous);
  }
}
