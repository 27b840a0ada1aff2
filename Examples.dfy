/** A worked example of `create_tree` and `traverse` (decision_tree.py) on a
    three-row training set: the candidate splits and their impurities, the
    search, the tree built, and how the two routings treat a training row. */
module Examples {
  import opened Common
  import opened Nodes
  import opened Gini
  import opened Partition
  import opened Helpers
  import opened SplitSearch
  import opened Construction
  import opened Traversal
  /** A three-row training set over one continuous feature whose catalog
      ladder has codes 0, 1, 2 (2 being the overflow entry). */
  const ExampleConfig := Config([[(0, "<=10"), (1, "<=20"), (2, "20+")], [(0, "no"), (1, "yes")]], [0], 2)
  const ExampleData: seq<Row> := [[0], [1], [2]]
  const ExampleLabels: seq<int> := [1, 1, 0]
  /** The tree `create_tree` builds from them: split on feature 0 at code 1. */
  const ExampleTree := Tree(false, -1, -1, -1, Some(Leaf(1, 0, 1)), Some(Leaf(0, 0, -1)))

  /** The example's two candidate splits: at code 0 one row goes to side 1,
      at code 1 two rows do. */
  lemma ExampleSplits()
    ensures Split([[0], [1], [2]], [1, 1, 0], 0, 0, true) == Sides([[0]], [1], [[1], [2]], [1, 0])
    ensures Split([[0], [1], [2]], [1, 1, 0], 0, 1, true) == Sides([[0], [1]], [1, 1], [[2]], [0])
  {
  }

  lemma ExampleGinis()
    ensures CalSplitGini([[0]], [1], [[1], [2]], [1, 0]) == 1.0 / 3.0
    ensures CalSplitGini([[0], [1]], [1, 1], [[2]], [0]) == 0.0
  {
    assert Count([1], 1) == 1 by {
      assert [1][..0] == [];
    }
    assert Count([1, 0], 1) == 1 by {
      assert [1, 0][..1] == [1];
      assert [1][..0] == [];
    }
    assert Count([1, 1], 1) == 2 by {
      assert [1, 1][..1] == [1];
      assert [1][..0] == [];
    }
    assert Count([0], 1) == 0 by {
      assert [0][..0] == [];
    }
  }

  /** The weighted impurities of the example's two candidate splits. */
  lemma ExampleSplitGinis(cfg: Config, data: seq<Row>, labels: seq<int>)
    requires cfg.continuousFeatures == [0]
    requires data == [[0], [1], [2]] && labels == [1, 1, 0]
    ensures SplitGini(cfg, data, labels, 0, 0) == 1.0 / 3.0
    ensures SplitGini(cfg, data, labels, 0, 1) == 0.0
  {
    ExampleSplits();
    ExampleGinis();
  }

  /** The example's two candidates of feature 0, in scan order. */
  lemma ExampleCandidates(cfg: Config, data: seq<Row>, labels: seq<int>)
    requires cfg == ExampleConfig
    requires data == [[0], [1], [2]] && labels == [1, 1, 0]
    ensures Candidates(cfg, data, labels, 0) == [Candidate(1.0 / 3.0, 0, 0), Candidate(0.0, 0, 1)]
  {
    assert TriedValues(cfg, 0) == [0, 1] by {
      assert Keys(cfg.featureDictList[0]) == [0, 1, 2];
    }
    ExampleSplitGinis(cfg, data, labels);
  }

  /** The scan over those two candidates keeps the second, strictly smaller one. */
  lemma ExampleScan(cs: seq<Candidate>)
    requires cs == [Candidate(1.0 / 3.0, 0, 0), Candidate(0.0, 0, 1)]
    ensures ScanMin(Candidate(0.5, 0, -1), cs) == Candidate(0.0, 0, 1)
  {
    assert cs[..1] == [cs[0]] && cs[..1][..0] == [];
    assert ScanMin(Candidate(0.5, 0, -1), cs[..1]) == cs[0];
  }

  /** The example's scan over feature 0 ends at code 1. */
  lemma ExampleFeatureMin(cfg: Config, data: seq<Row>, labels: seq<int>)
    requires cfg == ExampleConfig
    requires data == [[0], [1], [2]] && labels == [1, 1, 0]
    ensures FeatureMin(cfg, data, labels, 0) == Candidate(0.0, 0, 1)
  {
    ExampleCandidates(cfg, data, labels);
    ExampleScan(Candidates(cfg, data, labels, 0));
  }

  /** The search on the example picks feature 0 at code 1, a perfect split. */
  lemma ExampleSearch()
    ensures BestSplit(ExampleConfig, ExampleData, ExampleLabels, [0]) == Candidate(0.0, 0, 1)
  {
    ExampleFeatureMin(ExampleConfig, ExampleData, ExampleLabels);
    assert [0][..0] == [];
  }

  /** Both sides of the example's split are label-pure, so they become leaves. */
  lemma ExampleLeaves(cfg: Config, d1: seq<Row>, l1: seq<int>, d2: seq<Row>, l2: seq<int>, fs: seq<int>)
    requires cfg == ExampleConfig && fs == []
    requires d1 == [[0], [1]] && l1 == [1, 1] && d2 == [[2]] && l2 == [0]
    ensures Build(cfg, d1, l1, 0, 1, fs) == Built(Some(Leaf(1, 0, 1)), [])
    ensures Build(cfg, d2, l2, 0, -1, fs) == Built(Some(Leaf(0, 0, -1)), [])
    ensures PureBuild(cfg, d1, l1, 0, 1, fs)
    ensures PureBuild(cfg, d2, l2, 0, -1, fs)
  {
    assert Uniform(l1) && Uniform(l2);
  }

  /** The example's split step: feature 0 at code 1, rows [0] and [1] on side 1. */
  lemma ExampleSplit(cfg: Config, data: seq<Row>, labels: seq<int>)
    requires cfg == ExampleConfig
    requires data == [[0], [1], [2]] && labels == [1, 1, 0]
    ensures BestSplit(cfg, data, labels, [0]) == Candidate(0.0, 0, 1)
    ensures Remove([0], 0) == []
    ensures Split(data, labels, 0, 1, true) == Sides([[0], [1]], [1, 1], [[2]], [0])
  {
    ExampleSearch();
    assert Remove([0], 0) == [];
    ExampleSplits();
  }

  /** Both sides of the example's split, each with an empty feature list. */
  lemma ExampleSides(cfg: Config, labels: seq<int>, s: Sides)
    requires cfg == ExampleConfig && labels == [1, 1, 0]
    requires s == Sides([[0], [1]], [1, 1], [[2]], [0])
    ensures Rectangular(s.data1) && Rectangular(s.data2)
    ensures Side(cfg, s.data1, s.labels1, labels, 0, 1, []) == Built(Some(Leaf(1, 0, 1)), [])
    ensures Side(cfg, s.data2, s.labels2, labels, 0, -1, []) == Built(Some(Leaf(0, 0, -1)), [])
    ensures PureBuild(cfg, s.data1, s.labels1, 0, 1, []) && PureBuild(cfg, s.data2, s.labels2, 0, -1, [])
  {
    ExampleLeaves(cfg, s.data1, s.labels1, s.data2, s.labels2, []);
  }

  /** The split step on the example gives ExampleTree with the feature list used up. */
  lemma ExampleGrowTree(cfg: Config, data: seq<Row>, labels: seq<int>)
    requires cfg == ExampleConfig
    requires data == [[0], [1], [2]] && labels == [1, 1, 0]
    ensures Grow(cfg, data, labels, -1, -1, [0]) == Built(Some(ExampleTree), [])
  {
    ExampleSplit(cfg, data, labels);
    ExampleSides(cfg, labels, Split(data, labels, 0, 1, true));
  }

  /** No call in that split step raises. */
  lemma ExamplePureGrow(cfg: Config, data: seq<Row>, labels: seq<int>)
    requires cfg == ExampleConfig
    requires data == [[0], [1], [2]] && labels == [1, 1, 0]
    ensures PureGrow(cfg, data, labels, -1, -1, [0])
  {
    ExampleSplit(cfg, data, labels);
    ExampleSides(cfg, labels, Split(data, labels, 0, 1, true));
  }

  /** `create_tree` on the example builds ExampleTree, consuming feature 0. */
  lemma ExampleBuildTree(cfg: Config, data: seq<Row>, labels: seq<int>)
    requires cfg == ExampleConfig
    requires data == [[0], [1], [2]] && labels == [1, 1, 0]
    ensures Build(cfg, data, labels, -1, -1, [0]) == Built(Some(ExampleTree), [])
  {
    ExampleGrowTree(cfg, data, labels);
    assert !Uniform(labels) by { assert labels[2] != labels[0]; }
    assert !Uniform(data) by { assert data[2] != data[0]; }
  }

  /** `create_tree` on the example raises nowhere on the way. */
  lemma ExamplePureBuild(cfg: Config, data: seq<Row>, labels: seq<int>)
    requires cfg == ExampleConfig
    requires data == [[0], [1], [2]] && labels == [1, 1, 0]
    ensures PureBuild(cfg, data, labels, -1, -1, [0])
  {
    ExamplePureGrow(cfg, data, labels);
    assert CheckData(cfg, data, labels);
    assert !Uniform(data) by { assert data[2] != data[0]; }
  }

  /** The finding: on its own training data, the tree sends row [0] (label 1,
      on side 1 of the split since 0 <= 1) to the false branch, because
      `traverse` tests 0 == 1; routing with the split's own test returns 1. */
  lemma AsWrittenMisroutesTrainingRow()
    ensures Build(ExampleConfig, ExampleData, ExampleLabels, -1, -1, [0]) == Built(Some(ExampleTree), [])
    ensures PureBuild(ExampleConfig, ExampleData, ExampleLabels, -1, -1, [0])
    ensures ExampleLabels[0] == 1
    ensures Walk(Some(ExampleTree), ExampleData[0], []) == Ok(0)
    ensures Walk(Some(ExampleTree), ExampleData[0], ExampleConfig.continuousFeatures) == Ok(1)
  {
    ExampleBuildTree(ExampleConfig, ExampleData, ExampleLabels);
    ExamplePureBuild(ExampleConfig, ExampleData, ExampleLabels);
    ExampleWalks();
  }

  /** Row [0] on ExampleTree: the equality test fails (0 != 1) and the
      ordered test passes (0 <= 1). */
  lemma ExampleWalks()
    ensures Walk(Some(ExampleTree), [0], []) == Ok(0)
    ensures Walk(Some(ExampleTree), [0], [0]) == Ok(1)
  {
    WalkAtNode(-1, -1, Leaf(1, 0, 1), Leaf(0, 0, -1), [0], []);
    WalkAtNode(-1, -1, Leaf(1, 0, 1), Leaf(0, 0, -1), [0], [0]);
  }

  /** A four-row training set over one categorical feature with codes 0 and 1,
      where each code carries one row of each label. */
  const TieConfig := Config([[(0, "a"), (1, "b")], [(0, "no"), (1, "yes")]], [], 2)
  const TieData: seq<Row> := [[0], [0], [1], [1]]
  const TieLabels: seq<int> := [0, 1, 0, 1]

  /** Either code sends one row of each label to each side. */
  lemma TieSplits()
    ensures Split(TieData, TieLabels, 0, 0, false) == Sides([[0], [0]], [0, 1], [[1], [1]], [0, 1])
    ensures Split(TieData, TieLabels, 0, 1, false) == Sides([[1], [1]], [0, 1], [[0], [0]], [0, 1])
  {
    assert TieData[..3] == [[0], [0], [1]] && TieLabels[..3] == [0, 1, 0];
    TieSplitPrefix(TieData[..3], TieLabels[..3]);
  }

  /** The first three rows: the two rows of code 0, then one of code 1. */
  lemma TieSplitPrefix(data: seq<Row>, labels: seq<int>)
    requires data == [[0], [0], [1]] && labels == [0, 1, 0]
    ensures Split(data, labels, 0, 0, false) == Sides([[0], [0]], [0, 1], [[1]], [0])
    ensures Split(data, labels, 0, 1, false) == Sides([[1]], [0], [[0], [0]], [0, 1])
  {
    assert data[..2] == [[0], [0]] && labels[..2] == [0, 1];
    TieSplitPair(data[..2], labels[..2]);
  }

  /** The two rows of code 0. */
  lemma TieSplitPair(data: seq<Row>, labels: seq<int>)
    requires data == [[0], [0]] && labels == [0, 1]
    ensures Split(data, labels, 0, 0, false) == Sides([[0], [0]], [0, 1], [], [])
    ensures Split(data, labels, 0, 1, false) == Sides([], [], [[0], [0]], [0, 1])
  {
    assert data[..1] == [[0]] && labels[..1] == [0];
  }

  lemma TieGinis()
    ensures CalSplitGini([[0], [0]], [0, 1], [[1], [1]], [0, 1]) == 0.5
    ensures CalSplitGini([[1], [1]], [0, 1], [[0], [0]], [0, 1]) == 0.5
  {
    assert Count([0, 1], 1) == 1 by {
      assert [0, 1][..1] == [0];
      assert [0][..0] == [];
    }
  }

  /** Both candidates of the feature weigh exactly 0.5. */
  lemma TieCandidates(cfg: Config, data: seq<Row>, labels: seq<int>)
    requires cfg == TieConfig
    requires data == [[0], [0], [1], [1]] && labels == [0, 1, 0, 1]
    ensures Candidates(cfg, data, labels, 0) == [Candidate(0.5, 0, 0), Candidate(0.5, 0, 1)]
  {
    assert TriedValues(cfg, 0) == [0, 1] by {
      assert Keys(cfg.featureDictList[0]) == [0, 1];
    }
    TieSplits();
    TieGinis();
  }

  /** No candidate is strictly below 0.5, so the search finds no split. */
  lemma TieSearch(cfg: Config, data: seq<Row>, labels: seq<int>)
    requires cfg == TieConfig
    requires data == [[0], [0], [1], [1]] && labels == [0, 1, 0, 1]
    ensures BestSplit(cfg, data, labels, [0]) == NoSplit
  {
    TieCandidates(cfg, data, labels);
    var cs := Candidates(cfg, data, labels, 0);
    ScanMinIsFirstMinimum(Candidate(0.5, 0, -1), cs);
    assert FeatureMin(cfg, data, labels, 0) == Candidate(0.5, 0, -1);
    assert [0][..0] == [];
  }

  /** `create_tree` on the tie raises: its labels are mixed, its rows differ,
      there are enough of them and a feature is left, yet the search returns
      feature -1 and `remove(-1)` raises ValueError out of the call. */
  lemma NoSplitRaises()
    ensures CheckData(TieConfig, TieData, TieLabels)
    ensures SameClass(TieLabels) == -1 && !Uniform(TieData) && |TieLabels| >= TieConfig.threshold
    ensures Build(TieConfig, TieData, TieLabels, -1, -1, [0]) == Raised
  {
    assert TieLabels[1] != TieLabels[0];
    assert TieData[2] != TieData[0];
    TieSearch(TieConfig, TieData, TieLabels);
  }
}
