/** `create_tree` (decision_tree.py) as a value-level specification: the
    tree it returns, the part of the shared feature list it leaves behind,
    or the uncaught ValueError raised when no split beats 0.5. The heap
    method `DecisionTree.CreateTree` is proved to build exactly this. */
module Construction {
  import opened Common
  import opened Nodes
  import opened Partition
  import opened Helpers
  import opened SplitSearch

  /** A finished call: the tree (None when the input check failed) and the
      feature list as the call left it; or an exception that escaped. */
  datatype Outcome = Built(tree: Option<Tree>, remaining: seq<int>) | Raised

  /** `check_data`, folded with the `try` around it: the lengths agree, there is a
      first row (otherwise `data_list[0]` raises IndexError, also caught), and
      that row has one column per catalog entry but the label's. */
  predicate CheckData(cfg: Config, data: seq<Row>, labels: seq<int>): (ok: bool)
    ensures ok ==> 0 < |data| == |labels| && |data[0]| < |cfg.featureDictList|
  {
    |data| == |labels| && |data| > 0 && |data[0]| + 1 == |cfg.featureDictList|
  }

  /** All rows have the same width. */
  predicate Rectangular(data: seq<Row>)
  {
    forall i :: 0 <= i < |data| ==> |data[i]| == |data[0]|
  }

  /** Every listed feature is an attribute column (not the label column). */
  predicate FeaturesInRange(cfg: Config, fs: seq<int>)
  {
    forall f :: f in fs ==> 0 <= f < |cfg.featureDictList| - 1
  }

  /** The position of the first occurrence of x in s. */
  function FirstIndex(s: seq<int>, x: int): (i: nat)
    requires x in s
    ensures i < |s| && s[i] == x && x !in s[..i]
  {
    if s[0] == x then 0
    else
      assert x in s[1..] by { assert s == [s[0]] + s[1..]; }
      var j := FirstIndex(s[1..], x);
      assert s[..j + 1] == [s[0]] + s[1..][..j];
      j + 1
  }

  /** `list.remove(x)`: drops the first occurrence of x, keeping the order
      of everything else. */
  function Remove(s: seq<int>, x: int): (r: seq<int>)
    requires x in s
    ensures |r| == |s| - 1
    ensures multiset(r) == multiset(s) - multiset{x}
    ensures r == s[..FirstIndex(s, x)] + s[FirstIndex(s, x) + 1..]
  {
    var i := FirstIndex(s, x);
    assert s == s[..i] + [x] + s[i + 1..];
    s[..i] + s[i + 1..]
  }

  lemma RemoveKeepsMembers(s: seq<int>, x: int)
    requires x in s
    ensures forall y :: y in Remove(s, x) ==> y in s
  {
    forall y | y in Remove(s, x) ensures y in s {
      assert y in multiset(Remove(s, x));
    }
  }

  lemma SearchableWhenChecked(cfg: Config, data: seq<Row>, labels: seq<int>, fs: seq<int>)
    requires Rectangular(data) && FeaturesInRange(cfg, fs) && CheckData(cfg, data, labels)
    ensures AllSearchable(cfg, data, fs)
  {
    forall k | 0 <= k < |fs| ensures Searchable(cfg, data, fs[k]) {
      assert fs[k] in fs;
      forall i | 0 <= i < |data| ensures fs[k] < |data[i]| {
        assert data[i] in data && data[0] in data;
      }
    }
  }

  /** `create_tree(data_list, label_list, attr_idx, attr_val, feature_idx_list)`,
      with the stopping rules in the source's order. */
  function Build(cfg: Config, data: seq<Row>, labels: seq<int>, attrIdx: int, attrVal: int, fs: seq<int>): (o: Outcome)
    requires Rectangular(data) && FeaturesInRange(cfg, fs)
    ensures o.Built? ==> |o.remaining| <= |fs| && forall f :: f in o.remaining ==> f in fs
    ensures o.Built? && CheckData(cfg, data, labels) ==>
      o.tree.Some? && o.tree.value.attrIdx == attrIdx && o.tree.value.attrVal == attrVal
    decreases |fs|, 1
  {
    if !CheckData(cfg, data, labels) then Built(None, fs)
    else if SameClass(labels) != -1 then Built(Some(Leaf(SameClass(labels), attrIdx, attrVal)), fs)
    else if Uniform(data) || |labels| < cfg.threshold then Built(Some(Leaf(MajorityLabel(labels), attrIdx, attrVal)), fs)
    else if |fs| == 0 then Built(Some(Leaf(MajorityLabel(labels), attrIdx, attrVal)), fs)
    else Grow(cfg, data, labels, attrIdx, attrVal, fs)
  }

  /** The split step: pick the best split, remove its feature from the shared
      list (ValueError when it is -1), split, build the true side, then the
      false side with what the true side left of the list. */
  function Grow(cfg: Config, data: seq<Row>, labels: seq<int>, attrIdx: int, attrVal: int, fs: seq<int>): (o: Outcome)
    requires Rectangular(data) && FeaturesInRange(cfg, fs) && CheckData(cfg, data, labels) && |fs| > 0
    ensures o.Built? ==> |o.remaining| < |fs| && forall f :: f in o.remaining ==> f in fs
    ensures o.Built? ==>
      o.tree.Some? && !o.tree.value.isLeaf && o.tree.value.attrIdx == attrIdx && o.tree.value.attrVal == attrVal
    decreases |fs|, 0
  {
    SearchableWhenChecked(cfg, data, labels, fs);
    var best := BestSplit(cfg, data, labels, fs);
    if best.idx !in fs then Raised
    else
      var rest := Remove(fs, best.idx);
      RemoveKeepsMembers(fs, best.idx);
      var s := Split(data, labels, best.idx, best.val, best.idx in cfg.continuousFeatures);
      SidesChecked(cfg, data, labels, best.idx, best.val, best.idx in cfg.continuousFeatures);
      var t := Side(cfg, s.data1, s.labels1, labels, best.idx, best.val, rest);
      if t.Raised? then Raised
      else
        var f := Side(cfg, s.data2, s.labels2, labels, best.idx, -1, t.remaining);
        if f.Raised? then Raised
        else Built(Some(Tree(false, -1, attrIdx, attrVal, t.tree, f.tree)), f.remaining)
  }

  /** One side of a split: its subtree, or for an empty side a leaf holding
      the parent subset's majority label, stamped like the subtree would be. */
  function Side(cfg: Config, data: seq<Row>, labels: seq<int>, parentLabels: seq<int>,
                idx: int, val: int, fs: seq<int>): (o: Outcome)
    requires Rectangular(data) && FeaturesInRange(cfg, fs) && |parentLabels| > 0
    ensures o.Built? ==> |o.remaining| <= |fs| && forall f :: f in o.remaining ==> f in fs
    ensures |data| == 0 ==>
      (o.Built? && o.remaining == fs && o.tree.Some? &&
       o.tree.value.isLeaf && o.tree.value.result in parentLabels &&
       o.tree.value.attrIdx == idx && o.tree.value.attrVal == val)
    decreases |fs|, 2
  {
    if |data| > 0 then Build(cfg, data, labels, idx, val, fs)
    else Built(Some(Leaf(MajorityLabel(parentLabels), idx, val)), fs)
  }

  /** The stopping rules, in priority order: a failed check gives None; a
      label-pure subset gives a leaf with its label; identical rows, a small
      subset or an empty feature list give a majority-label leaf; any other
      call splits (or raises). */
  lemma StoppingRules(cfg: Config, data: seq<Row>, labels: seq<int>, attrIdx: int, attrVal: int, fs: seq<int>)
    requires Rectangular(data) && FeaturesInRange(cfg, fs)
    ensures var o := Build(cfg, data, labels, attrIdx, attrVal, fs);
      (!CheckData(cfg, data, labels) <==> o == Built(None, fs)) &&
      (CheckData(cfg, data, labels) && Uniform(labels) && labels[0] != -1 ==>
        o == Built(Some(Leaf(labels[0], attrIdx, attrVal)), fs)) &&
      (CheckData(cfg, data, labels) && !(Uniform(labels) && labels[0] != -1) &&
        (Uniform(data) || |labels| < cfg.threshold || |fs| == 0) ==>
        o == Built(Some(Leaf(MajorityLabel(labels), attrIdx, attrVal)), fs)) &&
      (CheckData(cfg, data, labels) && !(Uniform(labels) && labels[0] != -1) &&
        !(Uniform(data) || |labels| < cfg.threshold || |fs| == 0) ==>
        o.Raised? || (o.tree.Some? && !o.tree.value.isLeaf && |o.remaining| < |fs|))
  {
  }

  /** A non-empty side of a checked subset passes the check itself. */
  lemma SidesChecked(cfg: Config, data: seq<Row>, labels: seq<int>, idx: int, val: int, isContinuous: bool)
    requires Rectangular(data) && CheckData(cfg, data, labels) && Indexable(data, idx)
    ensures var s := Split(data, labels, idx, val, isContinuous);
      Rectangular(s.data1) && Rectangular(s.data2) &&
      (|s.data1| > 0 ==> CheckData(cfg, s.data1, s.labels1)) &&
      (|s.data2| > 0 ==> CheckData(cfg, s.data2, s.labels2))
  {
    var s := Split(data, labels, idx, val, isContinuous);
    SplitMembers(data, labels, idx, val, isContinuous);
    if |s.data1| > 0 {
      assert s.data1[0] in data && data[0] in data;
    }
    if |s.data2| > 0 {
      assert s.data2[0] in data && data[0] in data;
    }
  }

  /** A side whose subset is non-empty (and so passes the check) or empty
      yields a node stamped with the split it hangs under. */
  lemma SideStamps(cfg: Config, data: seq<Row>, labels: seq<int>, parentLabels: seq<int>,
                   idx: int, val: int, fs: seq<int>)
    requires Rectangular(data) && FeaturesInRange(cfg, fs) && |parentLabels| > 0
    requires |data| > 0 ==> CheckData(cfg, data, labels)
    ensures var o := Side(cfg, data, labels, parentLabels, idx, val, fs);
      o.Built? ==> o.tree.Some? && o.tree.value.attrIdx == idx && o.tree.value.attrVal == val
  {
  }

  /** The split feature of every internal node, in pre-order: the feature
      the true child is stamped with. */
  function SplitFeatures(t: Option<Tree>): seq<int>
  {
    match t
    case None => []
    case Some(n) =>
      if n.isLeaf || n.trueBranch.None? then SplitFeatures(n.falseBranch)
      else [n.trueBranch.value.attrIdx] + SplitFeatures(n.trueBranch) + SplitFeatures(n.falseBranch)
  }

  /** The feature list is consumed, never grown: the features split on
      across the WHOLE tree plus those left over are exactly the features
      passed in. So each listed occurrence of a feature is split on at most
      once in the tree (not once per path), and there are at most |fs|
      internal nodes. */
  lemma {:induction false} FeatureAccounting(cfg: Config, data: seq<Row>, labels: seq<int>, attrIdx: int, attrVal: int, fs: seq<int>)
    requires Rectangular(data) && FeaturesInRange(cfg, fs)
    requires Build(cfg, data, labels, attrIdx, attrVal, fs).Built?
    ensures var o := Build(cfg, data, labels, attrIdx, attrVal, fs);
      multiset(SplitFeatures(o.tree)) + multiset(o.remaining) == multiset(fs) &&
      |SplitFeatures(o.tree)| <= |fs|
    decreases |fs|, 1
  {
    var o := Build(cfg, data, labels, attrIdx, attrVal, fs);
    if CheckData(cfg, data, labels) && SameClass(labels) == -1 &&
       !(Uniform(data) || |labels| < cfg.threshold) && |fs| > 0 {
      GrowAccounting(cfg, data, labels, attrIdx, attrVal, fs);
    }
    assert |multiset(SplitFeatures(o.tree))| + |multiset(o.remaining)| == |multiset(fs)|;
  }

  lemma {:induction false} GrowAccounting(cfg: Config, data: seq<Row>, labels: seq<int>, attrIdx: int, attrVal: int, fs: seq<int>)
    requires Rectangular(data) && FeaturesInRange(cfg, fs) && CheckData(cfg, data, labels) && |fs| > 0
    requires Grow(cfg, data, labels, attrIdx, attrVal, fs).Built?
    ensures var o := Grow(cfg, data, labels, attrIdx, attrVal, fs);
      multiset(SplitFeatures(o.tree)) + multiset(o.remaining) == multiset(fs)
    decreases |fs|, 0
  {
    SearchableWhenChecked(cfg, data, labels, fs);
    var best := BestSplit(cfg, data, labels, fs);
    var rest := Remove(fs, best.idx);
    RemoveKeepsMembers(fs, best.idx);
    var s := Split(data, labels, best.idx, best.val, best.idx in cfg.continuousFeatures);
    SidesChecked(cfg, data, labels, best.idx, best.val, best.idx in cfg.continuousFeatures);
    var t := Side(cfg, s.data1, s.labels1, labels, best.idx, best.val, rest);
    SideAccounting(cfg, s.data1, s.labels1, labels, best.idx, best.val, rest);
    SideStamps(cfg, s.data1, s.labels1, labels, best.idx, best.val, rest);
    var f := Side(cfg, s.data2, s.labels2, labels, best.idx, -1, t.remaining);
    SideAccounting(cfg, s.data2, s.labels2, labels, best.idx, -1, t.remaining);
    assert Grow(cfg, data, labels, attrIdx, attrVal, fs) ==
      Built(Some(Tree(false, -1, attrIdx, attrVal, t.tree, f.tree)), f.remaining);
    NodeFeatures(attrIdx, attrVal, t.tree, f.tree);
    Telescope(multiset(fs), multiset(rest), multiset(t.remaining), multiset(f.remaining),
              multiset(SplitFeatures(t.tree)), multiset(SplitFeatures(f.tree)), best.idx);
  }

  lemma NodeFeatures(attrIdx: int, attrVal: int, t1: Option<Tree>, t2: Option<Tree>)
    requires t1.Some?
    ensures multiset(SplitFeatures(Some(Tree(false, -1, attrIdx, attrVal, t1, t2)))) ==
      multiset{t1.value.attrIdx} + multiset(SplitFeatures(t1)) + multiset(SplitFeatures(t2))
  {
  }

  lemma Telescope(all: multiset<int>, rest: multiset<int>, mid: multiset<int>, last: multiset<int>,
                  used1: multiset<int>, used2: multiset<int>, x: int)
    requires rest == all - multiset{x} && x in all && rest == used1 + mid && mid == used2 + last
    ensures multiset{x} + used1 + used2 + last == all
  {
    assert all == rest + multiset{x} by {
      forall y ensures all[y] == (rest + multiset{x})[y] {
      }
    }
  }

  lemma {:induction false} SideAccounting(cfg: Config, data: seq<Row>, labels: seq<int>, parentLabels: seq<int>,
                                          idx: int, val: int, fs: seq<int>)
    requires Rectangular(data) && FeaturesInRange(cfg, fs) && |parentLabels| > 0
    requires Side(cfg, data, labels, parentLabels, idx, val, fs).Built?
    ensures var o := Side(cfg, data, labels, parentLabels, idx, val, fs);
      multiset(SplitFeatures(o.tree)) + multiset(o.remaining) == multiset(fs)
    decreases |fs|, 2
  {
    if |data| > 0 {
      FeatureAccounting(cfg, data, labels, idx, val, fs);
    }
  }

  /** The shape of a tree `create_tree` returns: internal nodes carry no
      result and have both branches; the true child is stamped with the
      split (feature, code) and the false child with (feature, -1), the
      feature being an attribute column; every leaf holds a training label. */
  predicate WellFormed(t: Tree, attrIdx: int, attrVal: int, width: int, labels: seq<int>)
    decreases t
  {
    t.attrIdx == attrIdx && t.attrVal == attrVal &&
    if t.isLeaf then t.trueBranch.None? && t.falseBranch.None? && t.result in labels
    else
      t.result == -1 && t.trueBranch.Some? && t.falseBranch.Some? &&
      var idx := t.trueBranch.value.attrIdx;
      0 <= idx < width &&
      WellFormed(t.trueBranch.value, idx, t.trueBranch.value.attrVal, width, labels) &&
      WellFormed(t.falseBranch.value, idx, -1, width, labels)
  }

  lemma {:induction false} WellFormedWeaken(t: Tree, attrIdx: int, attrVal: int, width: int, l1: seq<int>, l2: seq<int>)
    requires WellFormed(t, attrIdx, attrVal, width, l1)
    requires forall x :: x in l1 ==> x in l2
    ensures WellFormed(t, attrIdx, attrVal, width, l2)
    decreases t
  {
    if !t.isLeaf {
      WellFormedWeaken(t.trueBranch.value, t.trueBranch.value.attrIdx, t.trueBranch.value.attrVal, width, l1, l2);
      WellFormedWeaken(t.falseBranch.value, t.trueBranch.value.attrIdx, -1, width, l1, l2);
    }
  }

  /** Every tree `create_tree` returns is well formed over the labels it was given. */
  lemma {:induction false} BuildWellFormed(cfg: Config, data: seq<Row>, labels: seq<int>, attrIdx: int, attrVal: int, fs: seq<int>)
    requires Rectangular(data) && FeaturesInRange(cfg, fs)
    requires var o := Build(cfg, data, labels, attrIdx, attrVal, fs); o.Built? && o.tree.Some?
    ensures WellFormed(Build(cfg, data, labels, attrIdx, attrVal, fs).tree.value, attrIdx, attrVal,
                       |cfg.featureDictList| - 1, labels)
    decreases |fs|, 1
  {
    if SameClass(labels) == -1 && !(Uniform(data) || |labels| < cfg.threshold) && |fs| > 0 {
      GrowWellFormed(cfg, data, labels, attrIdx, attrVal, fs);
    }
  }

  lemma {:induction false} GrowWellFormed(cfg: Config, data: seq<Row>, labels: seq<int>, attrIdx: int, attrVal: int, fs: seq<int>)
    requires Rectangular(data) && FeaturesInRange(cfg, fs) && CheckData(cfg, data, labels) && |fs| > 0
    requires Grow(cfg, data, labels, attrIdx, attrVal, fs).Built?
    ensures WellFormed(Grow(cfg, data, labels, attrIdx, attrVal, fs).tree.value, attrIdx, attrVal,
                       |cfg.featureDictList| - 1, labels)
    decreases |fs|, 0
  {
    SearchableWhenChecked(cfg, data, labels, fs);
    var best := BestSplit(cfg, data, labels, fs);
    var rest := Remove(fs, best.idx);
    RemoveKeepsMembers(fs, best.idx);
    var s := Split(data, labels, best.idx, best.val, best.idx in cfg.continuousFeatures);
    SidesChecked(cfg, data, labels, best.idx, best.val, best.idx in cfg.continuousFeatures);
    SplitMembers(data, labels, best.idx, best.val, best.idx in cfg.continuousFeatures);
    var t := Side(cfg, s.data1, s.labels1, labels, best.idx, best.val, rest);
    SideStamps(cfg, s.data1, s.labels1, labels, best.idx, best.val, rest);
    SideWellFormed(cfg, s.data1, s.labels1, labels, best.idx, best.val, rest);
    var f := Side(cfg, s.data2, s.labels2, labels, best.idx, -1, t.remaining);
    SideStamps(cfg, s.data2, s.labels2, labels, best.idx, -1, t.remaining);
    SideWellFormed(cfg, s.data2, s.labels2, labels, best.idx, -1, t.remaining);
    assert Grow(cfg, data, labels, attrIdx, attrVal, fs) ==
      Built(Some(Tree(false, -1, attrIdx, attrVal, t.tree, f.tree)), f.remaining);
  }

  lemma {:induction false} SideWellFormed(cfg: Config, data: seq<Row>, labels: seq<int>, parentLabels: seq<int>,
                                          idx: int, val: int, fs: seq<int>)
    requires Rectangular(data) && FeaturesInRange(cfg, fs) && |parentLabels| > 0
    requires forall x :: x in labels ==> x in parentLabels
    requires var o := Side(cfg, data, labels, parentLabels, idx, val, fs); o.Built? && o.tree.Some?
    ensures WellFormed(Side(cfg, data, labels, parentLabels, idx, val, fs).tree.value, idx, val,
                       |cfg.featureDictList| - 1, parentLabels)
    decreases |fs|, 2
  {
    if |data| > 0 {
      var o := Build(cfg, data, labels, idx, val, fs);
      assert Side(cfg, data, labels, parentLabels, idx, val, fs) == o;
      BuildWellFormed(cfg, data, labels, idx, val, fs);
      WellFormedWeaken(o.tree.value, idx, val, |cfg.featureDictList| - 1, labels, parentLabels);
    } else {
      var m := MajorityLabel(parentLabels);
      assert Side(cfg, data, labels, parentLabels, idx, val, fs) == Built(Some(Leaf(m, idx, val)), fs);
    }
  }
}
