/** The `DecisionTree` class of decision_tree.py: the training set and
    feature catalog it holds, the root it captures while building, and the
    heap-level `check_data`, `create_tree` and `classify`. */
module Classifier {
  import opened Common
  import opened Nodes
  import opened Helpers
  import opened Partition
  import opened SplitSearch
  import opened Construction
  import opened Traversal

  class DecisionTree {
    const trainData: seq<Row>
    const trainLabel: seq<int>
    const featureDictList: seq<Dict<string>>
    const continuousFeatures: seq<int>
    const threshold: int
    /** The first node `create_tree` makes after a passing check. */
    var root: TreeNode?

    /** What the tree builder reads from `self`. */
    function Cfg(): Config
    {
      Config(featureDictList, continuousFeatures, threshold)
    }

    /** `DecisionTree(train_data, train_label, feature_dict_list,
        continuous_features, root=None, threshold=5)`. */
    constructor (trainData: seq<Row>, trainLabel: seq<int>, featureDictList: seq<Dict<string>>,
                 continuousFeatures: seq<int>, root: TreeNode? := null, threshold: int := 5)
      ensures this.trainData == trainData && this.trainLabel == trainLabel
      ensures this.featureDictList == featureDictList && this.continuousFeatures == continuousFeatures
      ensures this.root == root && this.threshold == threshold
    {
      this.trainData := trainData;
      this.trainLabel := trainLabel;
      this.featureDictList := featureDictList;
      this.continuousFeatures := continuousFeatures;
      this.root := root;
      this.threshold := threshold;
    }

    /** `check_data`: ValueError when the lengths differ, IndexError (from
        `data_list[0]`) on an empty subset, ValueError when the row width plus
        the label column does not match the catalog. None means it passed. */
    method CheckSubset(dataList: seq<Row>, labelList: seq<int>) returns (e: Option<Error>)
      ensures e.None? <==> CheckData(Cfg(), dataList, labelList)
      ensures |dataList| != |labelList| ==> e == Some(ValueError)
      ensures |dataList| == |labelList| == 0 ==> e == Some(IndexError)
      ensures |dataList| == |labelList| > 0 && |dataList[0]| + 1 != |featureDictList| ==> e == Some(ValueError)
    {
      if |dataList| != |labelList| {
        return Some(ValueError);
      }
      if |dataList| == 0 {
        return Some(IndexError);
      }
      if |dataList[0]| + 1 != |featureDictList| {
        return Some(ValueError);
      }
      return None;
    }

    /** `create_tree(data_list, label_list, attr_idx, attr_val,
        feature_idx_list)`, up to the stopping rules. The shared feature list
        the source shrinks in place is passed in and handed back as
        `remaining`; `raised` is the ValueError of `remove(-1)` when no split
        improves on 0.5. The nodes built are fresh and denote the tree `Build`
        describes, and the first call whose check passes while `root` is None
        makes its node the root. */
    method CreateTree(dataList: seq<Row>, labelList: seq<int>, attrIdx: int, attrVal: int,
                      featureIdxList: seq<int>)
      returns (node: TreeNode?, remaining: seq<int>, raised: bool)
      requires Rectangular(dataList) && FeaturesInRange(Cfg(), featureIdxList)
      modifies this`root
      ensures !raised && node != null ==> node.Valid() && fresh(node.Repr)
      ensures var o := Build(Cfg(), dataList, labelList, attrIdx, attrVal, featureIdxList);
        (raised <==> o.Raised?) &&
        (!raised ==> remaining == o.remaining && o.tree == Denote(node))
      ensures old(root) != null || !CheckData(Cfg(), dataList, labelList) ==> root == old(root)
      ensures old(root) == null && CheckData(Cfg(), dataList, labelList) ==>
        root != null && fresh(root) && (!raised ==> root == node)
      decreases |featureIdxList|, 1
    {
      ghost var o := Build(Cfg(), dataList, labelList, attrIdx, attrVal, featureIdxList);
      var err := CheckSubset(dataList, labelList);
      if err.Some? {
        return null, featureIdxList, false;
      }
      var treeNode := new TreeNode(attrIdx := attrIdx, attrVal := attrVal);
      if root == null {
        root := treeNode;
      }

      var onlyLabel := IsSameClass(labelList);
      if onlyLabel != -1 {
        assert o == Built(Some(Leaf(onlyLabel, attrIdx, attrVal)), featureIdxList);
        treeNode.MakeLeaf(onlyLabel);
        return treeNode, featureIdxList, false;
      }

      var sameAttribute := IsSameAttribute(dataList);
      if sameAttribute || |labelList| < threshold {
        assert o == Built(Some(Leaf(MajorityLabel(labelList), attrIdx, attrVal)), featureIdxList);
        treeNode.MakeLeaf(MajorityLabel(labelList));
        return treeNode, featureIdxList, false;
      }

      if |featureIdxList| == 0 {
        assert o == Built(Some(Leaf(MajorityLabel(labelList), attrIdx, attrVal)), featureIdxList);
        treeNode.MakeLeaf(MajorityLabel(labelList));
        return treeNode, featureIdxList, false;
      }
      assert o == Grow(Cfg(), dataList, labelList, attrIdx, attrVal, featureIdxList);
      remaining, raised := GrowNode(treeNode, dataList, labelList, attrIdx, attrVal, featureIdxList);
      node := if raised then null else treeNode;
    }

    /** The split step of `create_tree`: find the best split, remove its
        feature from the shared list, split, and hang the two sides' subtrees
        under `treeNode` (the true side first, the false side with what the
        true side left of the list). */
    method GrowNode(treeNode: TreeNode, dataList: seq<Row>, labelList: seq<int>, attrIdx: int, attrVal: int,
                    featureIdxList: seq<int>)
      returns (remaining: seq<int>, raised: bool)
      requires Rectangular(dataList) && FeaturesInRange(Cfg(), featureIdxList)
      requires CheckData(Cfg(), dataList, labelList) && |featureIdxList| > 0
      requires treeNode.Valid() && treeNode.Repr == {treeNode} && root != null
      requires treeNode.Abs() == Tree(false, -1, attrIdx, attrVal, None, None)
      modifies treeNode, this`root
      ensures root == old(root)
      ensures !raised ==> treeNode.Valid() && fresh(treeNode.Repr - {treeNode})
      ensures var o := Grow(Cfg(), dataList, labelList, attrIdx, attrVal, featureIdxList);
        (raised <==> o.Raised?) &&
        (!raised ==> remaining == o.remaining && o.tree == Some(treeNode.Abs()))
      decreases |featureIdxList|, 0
    {
      var cfg := Cfg();
      SearchableWhenChecked(cfg, dataList, labelList, featureIdxList);
      var bestAttrIdx, bestAttrVal := FindBestSplit(cfg, dataList, labelList, featureIdxList);
      if bestAttrIdx !in featureIdxList {
        return featureIdxList, true;
      }
      var rest := Remove(featureIdxList, bestAttrIdx);
      RemoveKeepsMembers(featureIdxList, bestAttrIdx);
      var isContinuous := bestAttrIdx in continuousFeatures;
      var dataList1, labelList1, dataList2, labelList2 :=
        SplitDataset(dataList, labelList, bestAttrIdx, bestAttrVal, isContinuous);
      SidesChecked(cfg, dataList, labelList, bestAttrIdx, bestAttrVal, isContinuous);
      assert |rest| < |featureIdxList|;

      remaining, raised := GrowBranches(treeNode, dataList1, labelList1, dataList2, labelList2, labelList,
                                        bestAttrIdx, bestAttrVal, rest);
    }

    /** "create tree for S1 and S2": the true side's subtree is hung under
        `treeNode` first, then the false side's, built with what the true
        side left of the feature list. */
    method GrowBranches(treeNode: TreeNode, dataList1: seq<Row>, labelList1: seq<int>,
                        dataList2: seq<Row>, labelList2: seq<int>, parentLabels: seq<int>,
                        idx: int, val: int, featureIdxList: seq<int>)
      returns (remaining: seq<int>, raised: bool)
      requires Rectangular(dataList1) && Rectangular(dataList2) && FeaturesInRange(Cfg(), featureIdxList)
      requires |parentLabels| > 0
      requires |dataList1| > 0 ==> CheckData(Cfg(), dataList1, labelList1)
      requires |dataList2| > 0 ==> CheckData(Cfg(), dataList2, labelList2)
      requires treeNode.Valid() && treeNode.Repr == {treeNode} && root != null
      requires treeNode.trueBranch == null && treeNode.falseBranch == null
      modifies treeNode, this`root
      ensures root == old(root)
      ensures !raised ==> treeNode.Valid() && fresh(treeNode.Repr - {treeNode})
      ensures var t := Side(Cfg(), dataList1, labelList1, parentLabels, idx, val, featureIdxList);
        (t.Raised? ==> raised) &&
        (t.Built? ==>
          var f := Side(Cfg(), dataList2, labelList2, parentLabels, idx, -1, t.remaining);
          (raised <==> f.Raised?) &&
          (!raised ==>
            remaining == f.remaining &&
            treeNode.Abs() == old(treeNode.Abs()).(trueBranch := t.tree, falseBranch := f.tree)))
      decreases |featureIdxList|, 3
    {
      ghost var oldTree := treeNode.Abs();
      var trueBranch, left, r := SideBranch(dataList1, labelList1, parentLabels, idx, val, featureIdxList);
      ghost var t := Side(Cfg(), dataList1, labelList1, parentLabels, idx, val, featureIdxList);
      if r {
        return left, true;
      }
      ghost var trueRepr := trueBranch.Repr;
      assert fresh(trueRepr);
      treeNode.SetTrueBranch(trueBranch);
      ghost var partial := treeNode.Abs();
      assert partial == oldTree.(trueBranch := t.tree);

      var falseBranch;
      falseBranch, remaining, r := SideBranch(dataList2, labelList2, parentLabels, idx, -1, left);
      ghost var f := Side(Cfg(), dataList2, labelList2, parentLabels, idx, -1, t.remaining);
      if r {
        return remaining, true;
      }
      ghost var falseRepr := falseBranch.Repr;
      assert fresh(falseRepr);
      assert treeNode.Valid() && treeNode.Abs() == partial && treeNode.Repr == {treeNode} + trueRepr;
      treeNode.SetFalseBranch(falseBranch);
      assert treeNode.Abs() == oldTree.(trueBranch := t.tree, falseBranch := f.tree);
      assert treeNode.Repr == {treeNode} + trueRepr + falseRepr;
      assert fresh(trueRepr + falseRepr);
      raised := false;
    }

    /** One side of the split: its subtree when the side is non-empty,
        otherwise a fresh leaf holding the parent subset's majority label. */
    method SideBranch(dataList: seq<Row>, labelList: seq<int>, parentLabels: seq<int>, idx: int, val: int,
                      featureIdxList: seq<int>)
      returns (node: TreeNode?, remaining: seq<int>, raised: bool)
      requires Rectangular(dataList) && FeaturesInRange(Cfg(), featureIdxList) && |parentLabels| > 0
      requires |dataList| > 0 ==> CheckData(Cfg(), dataList, labelList)
      requires root != null
      modifies this`root
      ensures root == old(root)
      ensures !raised ==> node != null && node.Valid() && fresh(node.Repr)
      ensures var o := Side(Cfg(), dataList, labelList, parentLabels, idx, val, featureIdxList);
        (raised <==> o.Raised?) &&
        (!raised ==> remaining == o.remaining && o.tree == Some(node.Abs()))
      decreases |featureIdxList|, 2
    {
      if |dataList| > 0 {
        node, remaining, raised := CreateTree(dataList, labelList, idx, val, featureIdxList);
      } else {
        var result := MajorityLabel(parentLabels);
        node := new TreeNode(true, result, idx, val);
        remaining := featureIdxList;
        raised := false;
      }
    }

    /** `classify(data)`: route the row from the captured root. This uses the
        split's own test (`<=` under a continuous feature); the equality test
        `traverse` actually applies is `Traversal.Traverse`. */
    function Classify(row: Row): (r: Result<int>)
      reads this, if root == null then {} else {root} + root.Repr
      requires root == null || root.Valid()
      ensures r == Walk(Denote(root), row, continuousFeatures)
    {
      TraverseFixed(root, row, continuousFeatures)
    }
  }
}
