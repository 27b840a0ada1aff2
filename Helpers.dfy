/** The stopping-rule helpers of decision_tree.py: `is_same_class`,
    `is_same_attribute` and `get_majority_label`. */
module Helpers {
  import opened Common

  /** What `is_same_class` answers: the common label, or -1 when the labels differ. */
  function SameClass(labels: seq<int>): (r: int)
    requires |labels| > 0
    ensures r != -1 ==> forall j :: 0 <= j < |labels| ==> labels[j] == r
    ensures r == -1 ==> labels[0] == -1 || exists j :: 0 <= j < |labels| && labels[j] != labels[0]
  {
    if Uniform(labels) then labels[0] else -1
  }

  /** `is_same_class`: an early-exit scan against the first label. An empty
      list raises IndexError in the source; its callers never pass one. */
  method IsSameClass(labels: seq<int>) returns (r: int)
    requires |labels| > 0
    ensures Uniform(labels) ==> r == labels[0]
    ensures !Uniform(labels) ==> r == -1
    ensures r == SameClass(labels)
  {
    var firstLabel := labels[0];
    var i := 0;
    while i < |labels|
      invariant 0 <= i <= |labels|
      invariant forall j :: 0 <= j < i ==> labels[j] == firstLabel
    {
      if firstLabel != labels[i] {
        return -1;
      }
      i := i + 1;
    }
    return firstLabel;
  }

  /** `is_same_attribute`: true exactly when every row equals the first row. */
  method IsSameAttribute(data: seq<Row>) returns (r: bool)
    requires |data| > 0
    ensures r <==> Uniform(data)
  {
    var firstRow := data[0];
    var i := 0;
    while i < |data|
      invariant 0 <= i <= |data|
      invariant forall j :: 0 <= j < i ==> data[j] == firstRow
    {
      if !(data[i] == firstRow) {
        return false;
      }
      i := i + 1;
    }
    return true;
  }

  /** m is the element Python's `max(labels, key=labels.count)` returns: its
      count is maximal, and every element before its first occurrence has a
      strictly smaller count (max keeps the earliest of equal keys). */
  ghost predicate FirstMostFrequent(labels: seq<int>, m: int)
  {
    (forall j :: 0 <= j < |labels| ==> Count(labels, labels[j]) <= Count(labels, m)) &&
    exists k :: 0 <= k < |labels| && labels[k] == m &&
      forall j :: 0 <= j < k ==> Count(labels, labels[j]) < Count(labels, m)
  }

  /** The left-to-right scan of `max`: `best` is replaced only by an item
      whose count is strictly larger. */
  function MaxByCount(labels: seq<int>, k: nat, best: int): (r: int)
    requires k <= |labels|
    ensures r == best || r in labels
    ensures Count(labels, r) >= Count(labels, best)
    decreases |labels| - k
  {
    if k == |labels| then best
    else if Count(labels, labels[k]) > Count(labels, best) then MaxByCount(labels, k + 1, labels[k])
    else MaxByCount(labels, k + 1, best)
  }

  lemma {:induction false} MaxByCountIsFirstMostFrequent(labels: seq<int>, k: nat, b: nat)
    requires b < k <= |labels|
    requires forall j :: 0 <= j < k ==> Count(labels, labels[j]) <= Count(labels, labels[b])
    requires forall j :: 0 <= j < b ==> Count(labels, labels[j]) < Count(labels, labels[b])
    ensures FirstMostFrequent(labels, MaxByCount(labels, k, labels[b]))
    decreases |labels| - k
  {
    if k < |labels| {
      if Count(labels, labels[k]) > Count(labels, labels[b]) {
        MaxByCountIsFirstMostFrequent(labels, k + 1, k);
        assert MaxByCount(labels, k, labels[b]) == MaxByCount(labels, k + 1, labels[k]);
      } else {
        MaxByCountIsFirstMostFrequent(labels, k + 1, b);
        assert MaxByCount(labels, k, labels[b]) == MaxByCount(labels, k + 1, labels[b]);
      }
    } else {
      assert MaxByCount(labels, k, labels[b]) == labels[b];
      assert forall j :: 0 <= j < |labels| ==> Count(labels, labels[j]) <= Count(labels, labels[b]);
      assert 0 <= b < |labels| && labels[b] == labels[b];
    }
  }

  /** `get_majority_label`: the most frequent label, ties going to the one
      that occurs first. `max` of an empty list raises ValueError; callers
      never pass one. */
  function MajorityLabel(labels: seq<int>): (m: int)
    requires |labels| > 0
    ensures m in labels
    ensures forall x :: x in labels ==> Count(labels, x) <= Count(labels, m)
    ensures FirstMostFrequent(labels, m)
  {
    MaxByCountIsFirstMostFrequent(labels, 1, 0);
    MaxByCount(labels, 1, labels[0])
  }

  /** On a label-pure list the majority is the common label. */
  lemma MajorityOfUniform(labels: seq<int>)
    requires |labels| > 0 && Uniform(labels)
    ensures MajorityLabel(labels) == labels[0]
  {
  }
}
