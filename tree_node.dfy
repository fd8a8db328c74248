/**
 * Nodes of the offset tree's minimum-depth binary tree, and the 32-bit
 * unsigned arithmetic the tree code is written in.
 */
module TreeNodes {

  /** The range of a C++ uint32_t. */
  type u32 = x: int | 0 <= x < 0x1_0000_0000

  datatype Option<T> = None | Some(value: T)

  /** uint32 subtraction: a result below zero wraps around to the top of the range. */
  function Sub32(x: u32, y: u32): (r: u32)
    ensures y <= x ==> r == x - y
    ensures x < y ==> r == x + (0x1_0000_0000 - y)
  {
    (x - y) % 0x1_0000_0000
  }

  /** The value of a uint32 read back as an int32_t (two's complement). */
  function AsInt32(x: u32): (r: int)
    ensures -0x8000_0000 <= r < 0x8000_0000
    ensures x < 0x8000_0000 ==> r == x
    ensures (r - x) % 0x1_0000_0000 == 0
  {
    if x < 0x8000_0000 then x else x - 0x1_0000_0000
  }

  /**
   * One slot of the tree's node array. The two shortcut flags make routing
   * at an internal node deterministic; learnCount only counts trainings.
   */
  datatype TreeNode = TreeNode(
    id: nat,
    leftId: nat,
    rightId: nat,
    parentId: nat,
    depth: nat,
    leftOnly: bool,
    rightOnly: bool,
    isLeaf: bool,
    learnCount: nat)

  /** A (node id, cost) pair: one of the two frontiers that learning walks upward. */
  datatype NodeCost = NodeCost(node: nat, cost: real)

  /** Node equality of the source: every field except the diagnostic learnCount. */
  function SameNode(x: TreeNode, y: TreeNode): (r: bool)
    ensures r <==> x.(learnCount := 0) == y.(learnCount := 0)
  {
    x.id == y.id && x.leftId == y.leftId && x.rightId == y.rightId && x.parentId == y.parentId
    && x.depth == y.depth && x.leftOnly == y.leftOnly && x.rightOnly == y.rightOnly && x.isLeaf == y.isLeaf
  }

  /** Training a node (bumping learnCount) never makes it compare unequal to what it was. */
  lemma SameNodeIgnoresLearnCount(x: TreeNode, c: nat)
    ensures SameNode(x, x.(learnCount := c))
    ensures SameNode(x, x)
  {
  }
}
