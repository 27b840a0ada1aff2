/** `traverse` (decision_tree.py): routing a row from a node down to a leaf,
    on the value of a tree and on the heap nodes. */
module Traversal {
  import opened Common
  import opened Nodes
  import opened Gini
  import opened Partition
  import opened Helpers
  import opened SplitSearch
  import opened Construction

  /** Python's `row[i]`: a negative index counts from the end; any other
      index out of range raises IndexError. */
  function PyAt(row: Row, i: int): (r: Result<int>)
    ensures r.Ok? <==> -|row| <= i < |row|
    ensures r.Ok? ==> r.value in row
    ensures r.Ok? && 0 <= i ==> r.value == row[i]
    ensures r.Err? ==> r.error == IndexError
  {
    if 0 <= i < |row| then Ok(row[i])
    else if -|row| <= i < 0 then Ok(row[|row| + i])
    else Err(IndexError)
  }

  /** The test on the true child's stamp: `value <= attr_val` when the
      stamped feature is one of `ordered`, `value == attr_val` otherwise. */
  predicate Takes(child: Tree, v: int, ordered: seq<int>)
  {
    if child.attrIdx in ordered then v <= child.attrVal else v == child.attrVal
  }

  /** The results stamped on the leaves of t. */
  function LeafResults(t: Option<Tree>): set<int>
    decreases t
  {
    match t
    case None => {}
    case Some(n) =>
      (if n.isLeaf then {n.result} else {}) + LeafResults(n.trueBranch) + LeafResults(n.falseBranch)
  }

  /** Routing on the value of a tree. With `ordered == []` every test is an
      equality, which is what `traverse` does; with the continuous features
      as `ordered` the test matches the one the split used. -1 stands for a
      None node or a node with nowhere to go. */
  function Walk(t: Option<Tree>, row: Row, ordered: seq<int>): (r: Result<int>)
    ensures r.Err? ==> r.error == IndexError
    ensures r.Ok? && r.value != -1 ==> r.value in LeafResults(t)
    decreases t
  {
    match t
    case None => Ok(-1)
    case Some(n) =>
      if n.isLeaf then Ok(n.result)
      else
        var onFalse := if n.falseBranch.Some? then Walk(n.falseBranch, row, ordered) else Ok(-1);
        if n.trueBranch.Some? then
          match PyAt(row, n.trueBranch.value.attrIdx)
          case Err(e) => Err(e)
          case Ok(v) => if Takes(n.trueBranch.value, v, ordered) then Walk(n.trueBranch, row, ordered) else onFalse
        else onFalse
  }

  /** `traverse(root, data)` on the heap nodes, as written: the true branch
      is taken only when the row's value EQUALS the true child's stamp. It
      only reads the nodes, so repeated calls agree. */
  function Traverse(root: TreeNode?, row: Row): (r: Result<int>)
    reads if root == null then {} else {root} + root.Repr
    requires root == null || root.Valid()
    ensures r == Walk(Denote(root), row, [])
    decreases if root == null then {} else root.Repr
  {
    if root == null then Ok(-1)
    else if root.isLeaf then Ok(root.result)
    else
      assert root.trueBranch != null ==>
        root.trueBranch.Abs().attrIdx == root.trueBranch.attrIdx && root.trueBranch.Abs().attrVal == root.trueBranch.attrVal;
      var onFalse := if root.falseBranch != null then Traverse(root.falseBranch, row) else Ok(-1);
      if root.trueBranch != null then
        match PyAt(row, root.trueBranch.attrIdx)
        case Err(e) => Err(e)
        case Ok(v) => if v == root.trueBranch.attrVal then Traverse(root.trueBranch, row) else onFalse
      else onFalse
  }

  /** `traverse` with the split's own test: `<=` under a continuous feature. */
  function TraverseFixed(root: TreeNode?, row: Row, continuous: seq<int>): (r: Result<int>)
    reads if root == null then {} else {root} + root.Repr
    requires root == null || root.Valid()
    ensures r == Walk(Denote(root), row, continuous)
    decreases if root == null then {} else root.Repr
  {
    if root == null then Ok(-1)
    else if root.isLeaf then Ok(root.result)
    else
      assert root.trueBranch != null ==>
        root.trueBranch.Abs().attrIdx == root.trueBranch.attrIdx && root.trueBranch.Abs().attrVal == root.trueBranch.attrVal;
      var onFalse := if root.falseBranch != null then TraverseFixed(root.falseBranch, row, continuous) else Ok(-1);
      if root.trueBranch != null then
        match PyAt(row, root.trueBranch.attrIdx)
        case Err(e) => Err(e)
        case Ok(v) =>
          var takes := if root.trueBranch.attrIdx in continuous then v <= root.trueBranch.attrVal
                       else v == root.trueBranch.attrVal;
          if takes then TraverseFixed(root.trueBranch, row, continuous) else onFalse
      else onFalse
  }

  /** On a well-formed tree and a row of the right width, routing (with
      either test) always ends at a leaf and returns one of its labels. */
  lemma {:induction false} WalkEndsAtLeaf(t: Tree, attrIdx: int, attrVal: int, width: int, labels: seq<int>,
                                          row: Row, ordered: seq<int>)
    requires WellFormed(t, attrIdx, attrVal, width, labels) && |row| == width
    ensures Walk(Some(t), row, ordered).Ok? && Walk(Some(t), row, ordered).value in labels
    decreases t
  {
    if !t.isLeaf {
      var tb, fb := t.trueBranch.value, t.falseBranch.value;
      WalkEndsAtLeaf(tb, tb.attrIdx, tb.attrVal, width, labels, row, ordered);
      WalkEndsAtLeaf(fb, tb.attrIdx, -1, width, labels, row, ordered);
    }
  }

  /** A tree `create_tree` returns classifies every row of the training width:
      it never raises and answers a training label, so never the -1 error
      code unless -1 is itself a label. */
  lemma BuiltTreeAlwaysAnswers(cfg: Config, data: seq<Row>, labels: seq<int>, fs: seq<int>, row: Row, ordered: seq<int>)
    requires Rectangular(data) && FeaturesInRange(cfg, fs)
    requires var o := Build(cfg, data, labels, -1, -1, fs); o.Built? && o.tree.Some?
    requires |row| + 1 == |cfg.featureDictList|
    ensures var r := Walk(Build(cfg, data, labels, -1, -1, fs).tree, row, ordered);
      r.Ok? && r.value in labels && (-1 !in labels ==> r.value != -1)
  {
    var t := Build(cfg, data, labels, -1, -1, fs).tree.value;
    BuildWellFormed(cfg, data, labels, -1, -1, fs);
    WalkEndsAtLeaf(t, -1, -1, |cfg.featureDictList| - 1, labels, row, ordered);
  }

  /** The calls of `create_tree` below this one end only in label-pure
      leaves for the rows they are given (no majority vote is ever needed). */
  ghost predicate PureBuild(cfg: Config, data: seq<Row>, labels: seq<int>, attrIdx: int, attrVal: int, fs: seq<int>)
    requires Rectangular(data) && FeaturesInRange(cfg, fs)
    decreases |fs|, 1
  {
    CheckData(cfg, data, labels) &&
    (SameClass(labels) != -1 ||
     (!(Uniform(data) || |labels| < cfg.threshold) && |fs| > 0 && PureGrow(cfg, data, labels, attrIdx, attrVal, fs)))
  }

  ghost predicate PureGrow(cfg: Config, data: seq<Row>, labels: seq<int>, attrIdx: int, attrVal: int, fs: seq<int>)
    requires Rectangular(data) && FeaturesInRange(cfg, fs) && CheckData(cfg, data, labels) && |fs| > 0
    decreases |fs|, 0
  {
    SearchableWhenChecked(cfg, data, labels, fs);
    var best := BestSplit(cfg, data, labels, fs);
    best.idx in fs &&
    var rest := Remove(fs, best.idx);
    RemoveKeepsMembers(fs, best.idx);
    var s := Split(data, labels, best.idx, best.val, best.idx in cfg.continuousFeatures);
    SidesChecked(cfg, data, labels, best.idx, best.val, best.idx in cfg.continuousFeatures);
    var t := Side(cfg, s.data1, s.labels1, labels, best.idx, best.val, rest);
    (|s.data1| > 0 ==> PureBuild(cfg, s.data1, s.labels1, best.idx, best.val, rest)) &&
    t.Built? &&
    (|s.data2| > 0 ==> PureBuild(cfg, s.data2, s.labels2, best.idx, -1, t.remaining))
  }

  /** With the split's own test, every training row of a label-pure build is
      routed back to a leaf holding its own label. */
  lemma {:induction false} FixedWalkFitsTraining(cfg: Config, data: seq<Row>, labels: seq<int>,
                                                 attrIdx: int, attrVal: int, fs: seq<int>, i: nat)
    requires Rectangular(data) && FeaturesInRange(cfg, fs)
    requires PureBuild(cfg, data, labels, attrIdx, attrVal, fs) && i < |data|
    requires var o := Build(cfg, data, labels, attrIdx, attrVal, fs); o.Built? && o.tree.Some?
    ensures Walk(Build(cfg, data, labels, attrIdx, attrVal, fs).tree, data[i], cfg.continuousFeatures) == Ok(labels[i])
    decreases |fs|, 1
  {
    if SameClass(labels) == -1 {
      FixedGrowFitsTraining(cfg, data, labels, attrIdx, attrVal, fs, i);
    }
  }

  lemma {:induction false} FixedGrowFitsTraining(cfg: Config, data: seq<Row>, labels: seq<int>,
                                                 attrIdx: int, attrVal: int, fs: seq<int>, i: nat)
    requires Rectangular(data) && FeaturesInRange(cfg, fs) && CheckData(cfg, data, labels) && |fs| > 0
    requires PureGrow(cfg, data, labels, attrIdx, attrVal, fs) && i < |data|
    requires Grow(cfg, data, labels, attrIdx, attrVal, fs).Built?
    ensures Walk(Grow(cfg, data, labels, attrIdx, attrVal, fs).tree, data[i], cfg.continuousFeatures) == Ok(labels[i])
    decreases |fs|, 0
  {
    SearchableWhenChecked(cfg, data, labels, fs);
    var best := BestSplit(cfg, data, labels, fs);
    var rest := Remove(fs, best.idx);
    RemoveKeepsMembers(fs, best.idx);
    var cont := best.idx in cfg.continuousFeatures;
    var s := Split(data, labels, best.idx, best.val, cont);
    SidesChecked(cfg, data, labels, best.idx, best.val, cont);
    var t := Side(cfg, s.data1, s.labels1, labels, best.idx, best.val, rest);
    SideStamps(cfg, s.data1, s.labels1, labels, best.idx, best.val, rest);
    var f := Side(cfg, s.data2, s.labels2, labels, best.idx, -1, t.remaining);
    SideStamps(cfg, s.data2, s.labels2, labels, best.idx, -1, t.remaining);
    assert Grow(cfg, data, labels, attrIdx, attrVal, fs) ==
      Built(Some(Tree(false, -1, attrIdx, attrVal, t.tree, f.tree)), f.remaining);
    var row := data[i];
    assert 0 <= best.idx < |row| by {
      assert row in data && data[0] in data;
    }
    WalkAtNode(attrIdx, attrVal, t.tree.value, f.tree.value, row, cfg.continuousFeatures);
    SplitKeepsPair(data, labels, best.idx, best.val, cont, i);
    if GoesTrue(row, best.idx, best.val, cont) {
      var j :| 0 <= j < |s.data1| && s.data1[j] == row && s.labels1[j] == labels[i];
      FixedWalkFitsTraining(cfg, s.data1, s.labels1, best.idx, best.val, rest, j);
    } else {
      var j :| 0 <= j < |s.data2| && s.data2[j] == row && s.labels2[j] == labels[i];
      FixedWalkFitsTraining(cfg, s.data2, s.labels2, best.idx, -1, t.remaining, j);
    }
  }

  /** One routing step at an internal node with both children. */
  lemma WalkAtNode(attrIdx: int, attrVal: int, tb: Tree, fb: Tree, row: Row, ordered: seq<int>)
    requires 0 <= tb.attrIdx < |row|
    ensures Walk(Some(Tree(false, -1, attrIdx, attrVal, Some(tb), Some(fb))), row, ordered) ==
      if Takes(tb, row[tb.attrIdx], ordered) then Walk(Some(tb), row, ordered) else Walk(Some(fb), row, ordered)
  {
  }
}
