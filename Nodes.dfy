/** The tree node record of tree_node.py: a heap object whose fields the
    tree builder overwrites after construction, plus the value `Tree` that a
    valid node denotes. */
module Nodes {
  import opened Common

  /** The value of a node: the same six fields, with `None` for a missing child. */
  datatype Tree = Tree(isLeaf: bool, result: int, attrIdx: int, attrVal: int,
                       trueBranch: Option<Tree>, falseBranch: Option<Tree>)

  /** A childless node marked as a leaf. */
  function Leaf(result: int, attrIdx: int, attrVal: int): Tree
  {
    Tree(true, result, attrIdx, attrVal, None, None)
  }

  class TreeNode {
    var isLeaf: bool
    var result: int
    var attrIdx: int
    var attrVal: int
    var trueBranch: TreeNode?
    var falseBranch: TreeNode?
    /** The node and every node below it. */
    ghost var Repr: set<object>

    /** A strict ownership tree: children lie inside the footprint, do not
        contain their parent, and the two subtrees share no node. */
    ghost predicate Valid()
      reads this, Repr
      decreases Repr
    {
      this in Repr &&
      (trueBranch != null ==>
        trueBranch in Repr && trueBranch.Repr <= Repr && this !in trueBranch.Repr &&
        trueBranch.Valid()) &&
      (falseBranch != null ==>
        falseBranch in Repr && falseBranch.Repr <= Repr && this !in falseBranch.Repr &&
        falseBranch.Valid()) &&
      (trueBranch != null && falseBranch != null ==> trueBranch.Repr !! falseBranch.Repr)
    }

    /** The value this node and its subtrees denote. */
    ghost function Abs(): Tree
      reads this, Repr
      requires Valid()
      decreases Repr
    {
      Tree(isLeaf, result, attrIdx, attrVal,
           if trueBranch == null then None else Some(trueBranch.Abs()),
           if falseBranch == null then None else Some(falseBranch.Abs()))
    }

    /** `TreeNode(is_leaf=False, result=-1, attr_idx=-1, attr_val=-1)`: both
        branches start out absent and -1 is the "unset" sentinel. */
    constructor (isLeaf: bool := false, result: int := -1, attrIdx: int := -1, attrVal: int := -1)
      ensures Valid() && fresh(Repr) && Repr == {this}
      ensures this.trueBranch == null && this.falseBranch == null
      ensures this.isLeaf == isLeaf && this.result == result
      ensures this.attrIdx == attrIdx && this.attrVal == attrVal
      ensures Abs() == Tree(isLeaf, result, attrIdx, attrVal, None, None)
    {
      this.trueBranch := null;
      this.falseBranch := null;
      this.isLeaf := isLeaf;
      this.result := result;
      this.attrIdx := attrIdx;
      this.attrVal := attrVal;
      Repr := {this};
    }

    /** `node.is_leaf = True; node.result = result` on a childless node. */
    method MakeLeaf(result: int)
      requires Valid() && trueBranch == null && falseBranch == null
      modifies this
      ensures Valid() && Repr == old(Repr)
      ensures Abs() == old(Abs()).(isLeaf := true, result := result)
    {
      isLeaf := true;
      this.result := result;
    }

    /** `node.true_brunch = b` on a node whose false branch is not set yet,
        taking b's nodes into the footprint. */
    method SetTrueBranch(b: TreeNode)
      requires Valid() && falseBranch == null && b.Valid() && Repr !! b.Repr
      modifies this
      ensures Valid() && Repr == old(Repr) + old(b.Repr)
      ensures Abs() == old(Abs()).(trueBranch := Some(old(b.Abs())))
    {
      trueBranch := b;
      Repr := Repr + b.Repr;
    }

    /** `node.false_brunch = b`, taking b's nodes into the footprint. */
    method SetFalseBranch(b: TreeNode)
      requires Valid() && falseBranch == null && b.Valid() && Repr !! b.Repr
      modifies this
      ensures Valid() && Repr == old(Repr) + old(b.Repr)
      ensures Abs() == old(Abs()).(falseBranch := Some(old(b.Abs())))
    {
      falseBranch := b;
      Repr := Repr + b.Repr;
    }
  }

  /** The value a possibly-null node pointer denotes. */
  ghost function Denote(n: TreeNode?): Option<Tree>
    reads if n == null then {} else {n} + n.Repr
    requires n == null || n.Valid()
  {
    if n == null then None else Some(n.Abs())
  }
}
