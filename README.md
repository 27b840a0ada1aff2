# Decision tree (Gini, binary labels) — a verified model

This project models the core of a small Python decision-tree classifier
for integer-encoded tabular data (the "adult income" census set). It covers:

- the `DecisionTree` class of `decision_tree.py`:
  - the input check;
  - recursive tree construction with its stopping rules, Gini-based split
    search, dataset partitioning and impurity arithmetic;
  - classification by walking the tree;
- the `TreeNode` record of `tree_node.py`;
- the encoder `replace` and the decoder `make_readable` of `data_process.py`.

How the source's forms are kept:

- Tree nodes are a heap class (`Nodes.TreeNode`) whose fields the builder
  overwrites, as in the source. A ghost footprint `Repr` and an abstraction
  `Abs()` relate a node to a value tree `Nodes.Tree`.
- `Classifier.DecisionTree.CreateTree` is a method over these nodes. It
  writes `root` once, and threads the one feature-index list that the
  source shares between both recursive calls and shrinks in place.
- The method is proved to build exactly the tree the functional
  specification `Construction.Build` describes. Every structural property
  (stopping order, feature accounting, well-formedness, routing) is proved
  about `Build`.
- Loops of the source (`is_same_class`, `is_same_attribute`,
  `split_dataset`, `find_best_split`, the continuous branch of `replace`,
  `make_readable`) are methods with loop invariants. Each is proved equal to
  a specification function whose properties are proved as lemmas.
- Python exceptions that escape are modelled as values. `Result` carries
  ValueError, TypeError, IndexError or KeyError. `Construction.Outcome`
  has one exception case, `Raised`: the ValueError of `remove(-1)`, the
  only exception `create_tree` lets escape. It is reachable on a valid
  training set (`Examples.NoSplitRaises`): when no candidate split weighs
  strictly less than 0.5, the search returns feature -1. The `try/except` around
  `check_data` becomes the "no tree" outcome.
- Gini values are exact reals.

Modules: `Common` (Option/Result, dict-as-association-list, counting),
`Nodes`, `Gini`, `Partition`, `Helpers`, `SplitSearch`, `Construction`,
`Traversal`, `Classifier` (the class itself), `DataProcess`, and `Examples`
(worked examples of the search, the construction and the routing).

## Model

| member | source | states |
|---|---|---|
| Nodes.TreeNode.constructor | tree_node.py:13-19 | a new node has no children, stores exactly the given `is_leaf`, `result`, `attr_idx`, `attr_val` (defaults False, -1, -1, -1), and denotes the childless tree with those fields |
| Nodes.TreeNode.MakeLeaf | decision_tree.py:73-74 | marking a childless node as a leaf with a result changes only those two fields of the tree it denotes |
| Nodes.TreeNode.SetTrueBranch | decision_tree.py:103 | hanging a disjoint valid subtree as `true_brunch` keeps the node valid, adds the subtree's nodes to its footprint, and changes only the true child of the denoted tree |
| Nodes.TreeNode.SetFalseBranch | decision_tree.py:108 | likewise for `false_brunch` |
| Common.Get | data_process.py:49 | `d[k]` is found exactly when some entry has key k, and then it is that entry's value |
| Common.Count | decision_tree.py:201 | `list.count(x)` never exceeds the length of the list |
| Common.CountBounds | decision_tree.py:201 | `list.count(x)` lies between 0 and the length, is positive iff x occurs, and equals the length iff every element is x |
| Common.CountConcat | decision_tree.py:201 | counting distributes over concatenation |
| Classifier.DecisionTree.constructor | decision_tree.py:19-25 | stores the training set, the catalog, the continuous features, the root (default None) and the threshold (default 5) |
| Classifier.DecisionTree.CheckSubset | decision_tree.py:27-41 | passes exactly when the check the builder relies on holds; ValueError on a length mismatch, IndexError on an empty subset, ValueError when the row width plus the label column differs from the catalog size |
| Classifier.DecisionTree.CreateTree | decision_tree.py:43-113 | raises exactly when the specification raises; otherwise the fresh nodes it returns denote `Build`'s tree and the list it hands back is `Build`'s remaining list; `root` is set once, by the first call whose check passes, to that call's node |
| Classifier.DecisionTree.GrowNode | decision_tree.py:91-99 | the split step: the node becomes an internal node denoting `Grow`'s tree, or the ValueError of `remove(-1)` is raised exactly when `Grow` raises |
| Classifier.DecisionTree.GrowBranches | decision_tree.py:101-111 | the true subtree is built first and the false one with the list it left; the node's children become exactly the two `Side` trees, and nothing else in the node changes |
| Classifier.DecisionTree.SideBranch | decision_tree.py:102-111 | a non-empty side is built recursively; an empty side is a fresh leaf with the parent subset's majority label, stamped with the split |
| Classifier.DecisionTree.Classify | decision_tree.py:281-289 | the answer is the routing of the row from the captured root (with the corrected test, see Findings) |
| Partition.Zip | decision_tree.py:224 | `zip(data_list, label_list)` has as many pairs as the shorter of the two lists |
| Partition.Split | decision_tree.py:220-239 | the two sides keep data and labels aligned, and together hold as many pairs as `zip` yields |
| Partition.SplitDataset | decision_tree.py:203-239 | the loop's four lists are exactly `Split` |
| Partition.SplitStep | decision_tree.py:224-238 | one more zipped pair is appended to side 1 exactly when it passes the test (`<=` continuous, `==` categorical), otherwise to side 2 |
| Partition.SplitSnoc | decision_tree.py:224-238 | the same step stated for a pair appended at the end of the input |
| Partition.SplitZippedPrefix | decision_tree.py:224 | only the pairs `zip` produces matter: excess rows or labels are ignored |
| Partition.SplitMembers | decision_tree.py:225-238 | every row of side 1 is an input row that passes the test, every row of side 2 an input row that fails it, and labels come from the input labels |
| Partition.SplitKeepsPair | decision_tree.py:224-238 | every input pair lands, with its label, on the side its test chooses |
| Partition.KeepPartitions | decision_tree.py:224-238 | the two filtered sides together are a permutation of the input pairs |
| Partition.SplitSideIsKeep | decision_tree.py:224-238 | each side is the order-preserving filter of the zipped pairs by the test |
| Partition.SplitIsOrderedPartition | decision_tree.py:220-239 | the split is an ordered partition: each side is the in-order filter of the input pairs, and the sides together are a permutation of them |
| Gini.CalGini | decision_tree.py:262-279 | 1 on an empty subset, otherwise the closed form 2·ny·(n−ny)/n² with ny the number of labels equal to 1 |
| Gini.ClosedForm | decision_tree.py:276-279 | `1 - (py² + pn²)` with `py = ny/n` and `pn = 1 - py` equals that closed form |
| Gini.GiniBounds | decision_tree.py:273-279 | the impurity of a non-empty subset lies in [0, 0.5] |
| Gini.GiniZeroIffPure | decision_tree.py:273-279 | for 0/1 labels the impurity is 0 iff all labels are equal |
| Gini.GiniHalfIffBalanced | decision_tree.py:273-279 | the impurity is 0.5 iff exactly half of the labels are 1 |
| Gini.CalSplitGini | decision_tree.py:241-260 | the size-weighted impurity lies between the two side impurities, and equals the other side's impurity when one side is empty |
| Gini.Convex | decision_tree.py:255-260 | a size-weighted average of two numbers lies between them, and is the other number when one weight is 0 |
| Helpers.SameClass | decision_tree.py:163-176 | an answer other than -1 is a label every element equals; -1 means two labels differ, or the common label is itself -1 |
| Helpers.IsSameClass | decision_tree.py:163-176 | returns the first label iff all labels are equal, -1 otherwise |
| Helpers.IsSameAttribute | decision_tree.py:178-190 | true iff every row equals the first row |
| Helpers.MajorityLabel | decision_tree.py:192-201 | a member of the list with maximal count; among those, the first by position |
| Helpers.MaxByCount | decision_tree.py:201 | the scan of `max` ends on the starting element or a list element, and never on one with a smaller count than where it started |
| Helpers.MaxByCountIsFirstMostFrequent | decision_tree.py:201 | the left-to-right scan of `max(..., key=count)` ends on the first element of maximal count |
| Helpers.MajorityOfUniform | decision_tree.py:201 | the majority of a list of equal labels is that label |
| SplitSearch.TriedValues | decision_tree.py:134-154 | a categorical feature tries every key of its dictionary; a continuous one tries one key fewer; never more keys than the dictionary has |
| SplitSearch.Candidates | decision_tree.py:134-154 | one candidate per tried value of a feature, in dictionary key order |
| SplitSearch.AllCandidates | decision_tree.py:130-154 | every candidate tried has a listed feature and one of that feature's tried keys |
| SplitSearch.FeatureMin | decision_tree.py:131-154 | the inner loop's result for feature f carries f and an impurity of at most 0.5; below 0.5 its code is one of the tried keys, at 0.5 its code is still -1 |
| SplitSearch.BestSplit | decision_tree.py:127-158 | the outer loop's impurity never exceeds 0.5; at exactly 0.5 nothing was adopted and the result is (-1, -1); below 0.5 the index is a catalog column |
| SplitSearch.ScanFeature | decision_tree.py:131-154 | the inner loop's `min_gini` and `feature_val` are the scan of that feature's candidates |
| SplitSearch.FindBestSplit | decision_tree.py:115-161 | returns (-1, -1) iff no candidate's impurity is below 0.5; otherwise a listed feature and one of its tried keys |
| SplitSearch.ScanMinIsFirstMinimum | decision_tree.py:144-158 | a strict-improvement scan never worsens its seed, returns the seed when nothing beats it, and otherwise returns the first candidate of minimal impurity |
| SplitSearch.FirstMinimumExtends | decision_tree.py:144-146 | one more strict-improvement comparison keeps a first minimum a first minimum of the longer list |
| SplitSearch.FirstMinimumStarts | decision_tree.py:144-146 | the first candidate to beat a seed that nothing before it beat is the first minimum |
| SplitSearch.ScanMinConcat | decision_tree.py:130-158 | scanning a concatenation is scanning the second part from the first part's result |
| SplitSearch.RestartedScanIsContinuedScan | decision_tree.py:132-158 | restarting each feature at 0.5 and then comparing with the running best is the same as one continued scan |
| SplitSearch.BestSplitIsFlatScan | decision_tree.py:127-161 | the nested search equals one scan over all candidates from (0.5, -1, -1), so its impurity never exceeds 0.5 |
| SplitSearch.BestSplitIsFirstMinimum | decision_tree.py:127-161 | no split below 0.5 gives (-1, -1); otherwise the result is below 0.5, a listed feature with one of its tried keys, and the first of the equal minima |
| SplitSearch.OverflowKeyNeverTried | decision_tree.py:135-140 | for a continuous feature the last key in dictionary order is never tried |
| Construction.CheckData | decision_tree.py:27-41 | the check (with the `try` of lines 59-63 that turns its ValueError and the IndexError of `data_list[0]` into "no tree") passes only on a non-empty subset with as many labels as rows, whose first row has a catalog entry per column |
| Construction.FirstIndex | decision_tree.py:92 | the position `list.remove` acts on: it holds x and no earlier position does |
| Construction.Remove | decision_tree.py:92 | `list.remove(x)` removes exactly one occurrence of x, the first, and keeps the order of everything else |
| Construction.Build | decision_tree.py:43-113 | the remaining list only shrinks; a built node carries the stamp it was called with |
| Construction.Grow | decision_tree.py:91-113 | a split consumes at least one feature, and the node it builds is internal |
| Construction.Side | decision_tree.py:102-111 | a side that is built never adds to the feature list; an empty side is a leaf holding a label of the parent subset, stamped with the split, and leaves the list as it was |
| Construction.StoppingRules | decision_tree.py:59-89 | failed check gives no tree; otherwise a pure-label leaf, then a majority leaf for identical rows, a small subset or an empty feature list, in that order; otherwise an internal node that consumed a feature, or the uncaught ValueError |
| Construction.SidesChecked | decision_tree.py:95-108 | both sides of a checked subset are rectangular, and a non-empty side passes the check |
| Construction.SideStamps | decision_tree.py:102-111 | each side's subtree carries the split: (best index, best value) on the true side, (best index, -1) on the false side |
| Construction.FeatureAccounting | decision_tree.py:86-113 | the split features of the whole tree plus the list left over are exactly the list given (as multisets), so there are at most as many internal nodes as listed features |
| Construction.GrowAccounting | decision_tree.py:91-113 | the same accounting for one split step |
| Construction.SideAccounting | decision_tree.py:102-111 | the same accounting for one side |
| Construction.NodeFeatures | decision_tree.py:103-108 | an internal node's split features are its split feature plus those of its two subtrees |
| Construction.RemoveKeepsMembers | decision_tree.py:92 | removing never adds features |
| Construction.SearchableWhenChecked | decision_tree.py:130-131 | a checked subset can be searched on every listed feature |
| Construction.WellFormedWeaken | decision_tree.py:105-111 | a tree whose leaves hold labels of a subset also fits any superset of labels |
| Construction.BuildWellFormed | decision_tree.py:43-113 | every built tree is well formed: each internal node has both children, leaves hold labels of the subset, the true child carries (index, value) and the false child (index, -1) |
| Construction.GrowWellFormed | decision_tree.py:91-113 | the same for one split step |
| Construction.SideWellFormed | decision_tree.py:102-111 | the same for one side, whose empty-side leaf holds a parent label |
| Traversal.PyAt | decision_tree.py:306-308 | `data[attr_idx]` succeeds exactly for indices in `-len .. len-1` (negative ones counting from the end) and then yields an element of the row (the element at that index when it is non-negative); otherwise IndexError |
| Traversal.Walk | decision_tree.py:301-312 | the walk fails only with IndexError, and any answer other than -1 is the result of a leaf of the tree |
| Traversal.Traverse | decision_tree.py:291-312 | `traverse` on the heap nodes, as written, computes the equality-routing walk of the tree they denote (only reads, so repeated calls agree) |
| Traversal.TraverseFixed | decision_tree.py:291-312 | the same walk with `<=` under continuous features |
| Traversal.WalkAtNode | decision_tree.py:305-311 | at an internal node with both children, the true child is taken iff its test holds, else the false child |
| Traversal.WalkEndsAtLeaf | decision_tree.py:301-312 | on a well-formed tree and a row of the right width, the walk ends at a leaf and answers one of the training labels |
| Traversal.BuiltTreeAlwaysAnswers | decision_tree.py:281-312 | a built tree answers every row of the catalog's width with a training label, never -1 unless -1 is itself a label |
| Traversal.FixedWalkFitsTraining | decision_tree.py:43-113 | with the split's own test, each training row of a tree whose leaves are all label-pure is routed to its own label |
| Traversal.FixedGrowFitsTraining | decision_tree.py:91-113 | the same for one split step |
| Examples.ExampleSplits | decision_tree.py:220-239 | the example's splits at codes 0 and 1 |
| Examples.ExampleGinis | decision_tree.py:241-279 | the example's split impurities 1/3 and 0 |
| Examples.ExampleSplitGinis | decision_tree.py:141-143 | the same impurities as computed by the search |
| Examples.ExampleCandidates | decision_tree.py:134-146 | the example's feature 0 has the candidates (1/3, code 0) and (0, code 1), in that order |
| Examples.ExampleScan | decision_tree.py:144-146 | the scan over them keeps the strictly smaller second one |
| Examples.ExampleFeatureMin | decision_tree.py:134-146 | the search on feature 0 picks code 1 with impurity 0 |
| Examples.ExampleSearch | decision_tree.py:115-161 | the best split of the example is (0, 1) |
| Examples.ExampleSplit | decision_tree.py:91-99 | the example's split step: best split, removal, partition |
| Examples.ExampleLeaves | decision_tree.py:71-75 | both sides of the example are pure-label leaves |
| Examples.ExampleSides | decision_tree.py:102-111 | both sides of the example's split become leaves, with the feature list left empty |
| Examples.ExampleGrowTree | decision_tree.py:91-113 | the example's split step builds the two-leaf tree |
| Examples.ExamplePureGrow | decision_tree.py:91-113 | every leaf of the example's split step is label-pure |
| Examples.ExampleBuildTree | decision_tree.py:43-113 | the example builds the two-leaf tree |
| Examples.ExamplePureBuild | decision_tree.py:43-113 | every leaf the example builds is label-pure |
| Examples.ExampleWalks | decision_tree.py:305-311 | row [0] on the two-leaf tree: the equality test answers 0, the `<=` test answers 1 |
| Examples.AsWrittenMisroutesTrainingRow | decision_tree.py:305-309 | the equality test sends training row [0], labelled 1, to the leaf labelled 0; the `<=` test sends it to 1 |
| Examples.TieSplits | decision_tree.py:220-239 | on the tie set, codes 0 and 1 each send one row of each label to each side |
| Examples.TieSplitPrefix | decision_tree.py:220-239 | the same partition of the first three rows |
| Examples.TieSplitPair | decision_tree.py:220-239 | the same partition of the first two rows |
| Examples.TieGinis | decision_tree.py:241-279 | both of those splits weigh exactly 0.5 |
| Examples.TieCandidates | decision_tree.py:134-146 | the tie set's feature has the candidates (0.5, code 0) and (0.5, code 1) |
| Examples.TieSearch | decision_tree.py:115-161 | no candidate is strictly below 0.5, so the search returns feature -1 |
| Examples.NoSplitRaises | decision_tree.py:59-92 | on a valid training set with mixed labels, distinct rows, enough rows and a feature left, `create_tree` raises the ValueError of `remove(-1)` |
| DataProcess.Encoded | data_process.py:26-43 | `replace` fails only with ValueError or TypeError; on the categorical path a result has the column's length, otherwise it is never longer |
| DataProcess.BucketFrom | data_process.py:36-42 | the inner loop appends a key of the dictionary at or after its start; it raises ValueError from `float`, or TypeError only on a string cell; a number against thresholds that all parse never raises |
| DataProcess.Ladder | data_process.py:33-42 | the outer loop appends at most one code per cell; it raises only ValueError or TypeError, and never on a numeric column whose thresholds all parse |
| DataProcess.IndexOfValue | data_process.py:30 | `list(d.values()).index(x)` is the first position holding x, and is absent exactly when no value equals x |
| DataProcess.CategoricalCodes | data_process.py:30 | the comprehension succeeds iff every cell is found among the values (ValueError otherwise) and keeps the length |
| DataProcess.Replace | data_process.py:26-43 | the method (list comprehension or nested loop) computes `replace`: reverse lookup when the column has as many distinct cells as the dictionary has entries, the threshold ladder otherwise |
| DataProcess.LadderKeepsError | data_process.py:35-42 | an exception in the loop ends the whole column with that exception |
| DataProcess.CategoricalCodesLookUp | data_process.py:30 | each code is a key whose value is the original cell |
| DataProcess.ReplaceCategorical | data_process.py:29-30 | on the categorical path the result is Ok iff every cell is a dictionary value; then it has the input's length and `lookup_dict[out[j]] == my_list[j]` for every j |
| DataProcess.BucketIsCode | data_process.py:36-42 | the inner loop appends exactly the first k < n-1 whose threshold admits the number, else n-1 |
| DataProcess.LadderCodes | data_process.py:33-42 | the outer loop appends exactly one such code per cell |
| DataProcess.ReplaceContinuous | data_process.py:32-43 | on the continuous path with keys 0..n-1 and a numeric column, the output has the input's length and each code is the first admitting threshold or the overflow key |
| DataProcess.ReplaceContinuousMonotone | data_process.py:36-42 | the codes are monotone in the cell values |
| DataProcess.BucketIgnoresOverflow | data_process.py:37-40 | the inner loop never parses the overflow entry's string |
| DataProcess.LadderIgnoresOverflow | data_process.py:35-42 | the same for the whole continuous branch |
| DataProcess.OverflowNeverParsed | data_process.py:26-43 | two parsers that agree on the real thresholds give the same encoding, so strings like "60+" are never converted |
| DataProcess.Readable | data_process.py:46-50 | Ok iff the row is no longer than the dictionary list and every code is a key, and then `readable[i] == f_dict[i][row[i]]` at the same length; IndexError iff the row is too long and every earlier lookup succeeds; KeyError otherwise |
| DataProcess.MakeReadable | data_process.py:46-50 | the loop computes `Readable` |
| DataProcess.ReadableInvertsCategorical | data_process.py:26-50 | decoding a row of categorically encoded columns gives back the original strings |
| DataProcess.AgeCells | data_process.py:36-42 | with the age dictionary, 25 stops at key 1, 61 runs to the overflow key 5 and 20 stops at key 0 |
| DataProcess.AgeBuckets | data_process.py:70 | with the age dictionary, ages 25, 61 and 20 are encoded as 1, 5 and 0 |

## Left out

- `print_tree` and `_tree`: file output and rendering against fixed label tables.
- `clean_data`, `process_dataset` and `encode`: CSV and file I/O, console output, and set iteration order that decides the category codes. Only the age dictionary that `encode` builds appears, as a constant.
- `main.py`: a script, not part of the classifier.
- The `print` of the caught check error, and the other prints.
- Gini.CalGini, Gini.CalSplitGini: use exact reals and do not model `round(..., 6)`. A split the source rounds to a tie may compare differently here.
- `float()` on dictionary strings is the parameter `toFloat`. Cells and thresholds are exact reals, not IEEE doubles.
- `DataProcess.Cell` has numbers and strings only. Python's `1 == 1.0` across int and float cells is not modelled.
- Classifier.DecisionTree.CreateTree: requires rectangular rows and listed feature indices in `0 .. len(catalog) - 2`; other inputs are excluded. On them the source may raise IndexError from `data[attr_idx]`, index the catalog from the end, or, when a deeper call's `check_data` fails because that side's first row is shorter than the root's, catch the error and hang a `None` child. None of these paths is modelled.
- Classifier.DecisionTree.CreateTree: takes the feature list as an argument. The `feature_idx_list=None` default, on which `len(None)` raises TypeError, is not modelled.
- Classifier.DecisionTree.CreateTree: returns the list the source shrinks in place as a new value (`remaining`), so the caller's list object is not aliased.
- Nodes.TreeNode: the builder's writes to `is_leaf` and `result` are grouped in `MakeLeaf`, and each child write in a setter; the order of writes within a node is not modelled.
- Traversal.Traverse: assumes the nodes form a tree, with no sharing and no cycles. Any structure `create_tree` builds is one.
- Classifier.DecisionTree.Classify: uses the corrected routing (see Findings). The as-written routing is `Traversal.Traverse`.
- Feature reuse follows the code: one list object is shared by both recursive calls, so a feature used in the true subtree is also gone for the false subtree. Each listed occurrence of a feature is consumed by at most one split in the whole tree, not once per path (`Construction.FeatureAccounting` counts them as a multiset). A feature listed twice can be split on twice.
- Majority ties follow Python's `max` with `key=count`: the first element by position among those with the largest count. No particular label is preferred.
- A subset whose labels are all -1 is not a "same class" leaf, because `is_same_class` returns -1 for it. The model keeps this.

## Findings

| source | as written | input that shows it | evidently intended | confidence | as-written member | corrected member |
|---|---|---|---|---|---|---|
| decision_tree.py:305-309 | `traverse` takes the true branch only when `data[attr_idx] == attr_val`, although `split_dataset` sends a row to the true side of a continuous split when `data[attr_idx] <= attr_val` | catalog `[{0,1,2}, {0,1}]` with feature 0 continuous and threshold 2 (`Examples.ExampleConfig`), rows `[[0],[1],[2]]`, labels `[1,1,0]`: the tree splits at code 1, and training row `[0]` (label 1) is routed to the false leaf and answered 0 | use `<=` for continuous features, as the split does, so every training row of a label-pure tree is routed back to its own label | not executed | Examples.AsWrittenMisroutesTrainingRow, Traversal.Traverse | Traversal.TraverseFixed, Traversal.FixedWalkFitsTraining, Classifier.DecisionTree.Classify |
