/**
 * The minimum-depth binary tree over `n` leaf actions, stored as an array in
 * heap order: node k has children 2k+1 and 2k+2, the root is its own parent,
 * ids 0..n-2 are internal and ids n-1..2n-2 are the leaves.
 */
module MinDepthTree {
  import opened TreeNodes

  /**
   * Largest leaf count the model admits. Beyond it the last node lies at
   * depth 30 or more, and the depth boundary `1 << (depth + 1)`, a shift of
   * a signed 32-bit int, overflows.
   */
  const MaxLeafCount: nat := 0x2000_0000

  function Pow2(d: nat): (p: nat)
    ensures p >= 1
  {
    if d == 0 then 1 else 2 * Pow2(d - 1)
  }

  /** Parent of heap node k; the root is its own parent. */
  function ParentOf(k: nat): (p: nat)
    ensures p <= k && (k > 0 ==> p < k)
  {
    if k == 0 then 0 else (k - 1) / 2
  }

  /** Distance of heap node k from the root. */
  function Level(k: nat): nat
  {
    if k == 0 then 0 else 1 + Level(ParentOf(k))
  }

  /** Level d of the heap holds exactly the ids 2^d - 1 .. 2^(d+1) - 2. */
  lemma {:induction false} LevelBounds(k: nat)
    ensures Pow2(Level(k)) - 1 <= k <= Pow2(Level(k) + 1) - 2
  {
    if k > 0 {
      var p := ParentOf(k);
      LevelBounds(p);
      assert Pow2(Level(k)) == 2 * Pow2(Level(p));
      assert Pow2(Level(k) + 1) == 2 * Pow2(Level(p) + 1);
    }
  }

  lemma {:induction false} LevelOfRange(k: nat, d: nat)
    requires Pow2(d) - 1 <= k <= Pow2(d + 1) - 2
    ensures Level(k) == d
  {
    if d > 0 {
      assert Pow2(d + 1) == 2 * Pow2(d) && Pow2(d) == 2 * Pow2(d - 1);
      LevelOfRange(ParentOf(k), d - 1);
    }
  }

  /** Depth never decreases as ids increase. */
  lemma {:induction false} LevelMonotone(j: nat, k: nat)
    requires j <= k
    ensures Level(j) <= Level(k)
  {
    if j > 0 {
      LevelMonotone(ParentOf(j), ParentOf(k));
    }
  }

  /** Number of nodes of the tree over n leaves. */
  function NodeCount(n: nat): nat
  {
    if n == 0 then 0 else 2 * n - 1
  }

  /** Number of internal nodes of the tree over n leaves. */
  function InternalCount(n: nat): nat
  {
    if n == 0 then 0 else n - 1
  }

  /** Depth of the tree over n leaves: the level of its last node. */
  function TreeDepth(n: nat): nat
  {
    if n == 0 then 0 else Level(2 * n - 2)
  }

  /**
   * The tree has minimum depth: every node is at most TreeDepth(n) deep and
   * every leaf at least TreeDepth(n) - 1 deep.
   */
  lemma MinimumDepth(n: nat, k: nat)
    requires k < NodeCount(n)
    ensures Level(k) <= TreeDepth(n)
    ensures InternalCount(n) <= k ==> TreeDepth(n) <= Level(k) + 1
  {
    LevelMonotone(k, 2 * n - 2);
    if InternalCount(n) <= k && n >= 2 {
      assert ParentOf(2 * n - 2) == n - 2;
      LevelMonotone(n - 2, k);
    }
  }

  /** Id marked right_only: leafCount / (2 * bandwidth) - 1, the subtraction in uint32. */
  function RightOnlyTarget(n: u32, bw: u32): u32
    requires bw > 0
  {
    Sub32(n / (2 * bw), 1)
  }

  /** Id marked left_only: leafCount / bandwidth - 2, the subtraction in uint32. */
  function LeftOnlyTarget(n: u32, bw: u32): u32
    requires bw > 0
  {
    Sub32(n / bw, 2)
  }

  /** The root is created without flags; every other node is flagged iff its id is the target. */
  predicate IsRightOnly(n: u32, bw: u32, k: nat)
  {
    k > 0 && bw > 0 && k == RightOnlyTarget(n, bw)
  }

  predicate IsLeftOnly(n: u32, bw: u32, k: nat)
  {
    k > 0 && bw > 0 && k == LeftOnlyTarget(n, bw)
  }

  /** Node k of the layout once the first `built` nodes have been made internal. */
  function NodeAfter(n: u32, bw: u32, built: nat, k: nat): TreeNode
  {
    TreeNode(
      k,
      if k < built then 2 * k + 1 else 0,
      if k < built then 2 * k + 2 else 0,
      ParentOf(k),
      Level(k),
      IsLeftOnly(n, bw, k),
      IsRightOnly(n, bw, k),
      built <= k,
      0)
  }

  /** The node array that construction produces for n leaves and a bandwidth. */
  function Layout(n: u32, bw: u32): seq<TreeNode>
  {
    seq(NodeCount(n), k requires 0 <= k => NodeAfter(n, bw, InternalCount(n), k))
  }

  /** `nodes` is the layout for n leaves and bandwidth bw, up to learn counts. */
  ghost predicate Shaped(nodes: seq<TreeNode>, n: u32, bw: u32)
  {
    |nodes| == NodeCount(n) && Linked(nodes)
    && forall k | 0 <= k < |nodes| :: SlotFits(nodes, n, bw, k)
  }

  /** Slot k holds node k of the layout, up to its learn count. */
  ghost predicate SlotFits(nodes: seq<TreeNode>, n: u32, bw: u32, k: nat)
    requires k < |nodes|
  {
    SameNode(nodes[k], NodeAfter(n, bw, InternalCount(n), k))
  }

  /** Every id stored in a node names a slot of the array. */
  ghost predicate Linked(nodes: seq<TreeNode>)
  {
    forall k | 0 <= k < |nodes| ::
      nodes[k].leftId < |nodes| && nodes[k].rightId < |nodes| && nodes[k].parentId < |nodes|
  }

  /**
   * The layout's shape: node ids are slots, internal node i has children
   * 2i+1 and 2i+2 whose parent is i, the root is its own parent, and the
   * leaves are exactly the last n slots.
   */
  lemma ShapedLayout(nodes: seq<TreeNode>, n: u32, bw: u32, k: nat)
    requires Shaped(nodes, n, bw) && k < |nodes|
    ensures nodes[k].id == k && nodes[k].parentId == ParentOf(k) && nodes[k].depth == Level(k)
    ensures nodes[k].isLeaf <==> n - 1 <= k
    ensures nodes[k].rightOnly == IsRightOnly(n, bw, k) && nodes[k].leftOnly == IsLeftOnly(n, bw, k)
    ensures k < n - 1 ==> nodes[k].leftId == 2 * k + 1 && nodes[k].rightId == 2 * k + 2
    ensures k < n - 1 ==> nodes[nodes[k].leftId].parentId == k && nodes[nodes[k].rightId].parentId == k
    ensures nodes[0].parentId == 0
  {
    assert SlotFits(nodes, n, bw, k);
    assert SlotFits(nodes, n, bw, 0);
    if k < n - 1 {
      assert SlotFits(nodes, n, bw, 2 * k + 1);
      assert SlotFits(nodes, n, bw, 2 * k + 2);
    }
  }

  lemma LayoutIsShaped(n: u32, bw: u32)
    ensures Shaped(Layout(n, bw), n, bw)
  {
  }

  /** Without a bandwidth no node is a shortcut, and the root never is one. */
  lemma NoShortcutWithoutBandwidth(n: u32, bw: u32, k: nat)
    ensures bw == 0 ==> !IsRightOnly(n, bw, k) && !IsLeftOnly(n, bw, k)
    ensures !IsRightOnly(n, bw, 0) && !IsLeftOnly(n, bw, 0)
  {
  }

  /** A right_only target that underflowed wraps to 2^32 - 1 and flags no node. */
  lemma UnderflowedRightTargetFlagsNothing(n: u32, bw: u32, k: nat)
    requires n <= MaxLeafCount && k < NodeCount(n) && bw > 0
    requires n / (2 * bw) == 0
    ensures !IsRightOnly(n, bw, k)
  {
    assert RightOnlyTarget(n, bw) == 0xFFFF_FFFF;
  }

  /** A left_only target that underflowed wraps to 2^32 - 2 or above and flags no node. */
  lemma UnderflowedLeftTargetFlagsNothing(n: u32, bw: u32, k: nat)
    requires n <= MaxLeafCount && k < NodeCount(n) && bw > 0
    requires n / bw < 2
    ensures !IsLeftOnly(n, bw, k)
  {
    assert LeftOnlyTarget(n, bw) >= 0xFFFF_FFFE;
  }

  /** get_sibling: the other child of v's parent (for the root, its left child). */
  function GetSibling(nodes: seq<TreeNode>, v: TreeNode): TreeNode
    requires Linked(nodes) && v.parentId < |nodes|
  {
    var parent := nodes[v.parentId];
    nodes[if v.id == parent.leftId then parent.rightId else parent.leftId]
  }

  /**
   * A non-root node's sibling shares its parent, is a different node, and
   * its own sibling is the node again.
   */
  lemma SiblingInvolution(nodes: seq<TreeNode>, n: u32, bw: u32, k: nat)
    requires Shaped(nodes, n, bw) && 0 < k < |nodes|
    ensures GetSibling(nodes, nodes[k]).parentId == nodes[k].parentId
    ensures GetSibling(nodes, nodes[k]).id != k
    ensures GetSibling(nodes, GetSibling(nodes, nodes[k])) == nodes[k]
  {
    var p := ParentOf(k);
    ShapedLayout(nodes, n, bw, k);
    ShapedLayout(nodes, n, bw, p);
    assert nodes[k].parentId == p;
    var s := if k == 2 * p + 1 then 2 * p + 2 else 2 * p + 1;
    ShapedLayout(nodes, n, bw, s);
    assert GetSibling(nodes, nodes[k]) == nodes[s];
  }

  /** Reached on the root of an unbalanced tree: the root's "sibling" is node 1. */
  lemma RootSibling(nodes: seq<TreeNode>, n: u32, bw: u32)
    requires Shaped(nodes, n, bw) && n >= 2
    ensures GetSibling(nodes, nodes[0]) == nodes[1]
  {
    ShapedLayout(nodes, n, bw, 0);
  }

  /**
   * The right_only target as the source writes it: 2 * bandwidth is
   * computed in uint32, so it wraps, and None stands for the division by
   * zero that a wrapped divisor of 0 performs.
   */
  function RightOnlyTargetAsWritten(n: u32, bw: u32): (r: Option<u32>)
    requires bw > 0
    ensures bw < 0x8000_0000 ==> r == Some(RightOnlyTarget(n, bw))
  {
    var divisor := (2 * bw) % 0x1_0000_0000;
    if divisor == 0 then None else Some(Sub32(n / divisor, 1))
  }

  /**
   * With 4 leaves, bandwidth 2^31 makes the source divide by zero, and
   * bandwidth 2^31 + 1 flags node 1 as right_only although 2 * bandwidth
   * exceeds the leaf count and the intended target flags nothing.
   */
  lemma WrappedBandwidthMarksNode()
    ensures RightOnlyTargetAsWritten(4, 0x8000_0000) == None
    ensures RightOnlyTargetAsWritten(4, 0x8000_0001) == Some(1)
    ensures RightOnlyTarget(4, 0x8000_0001) == 0xFFFF_FFFF
  {
  }

  /** With the product taken without overflow, a bandwidth wider than half the leaves flags no node right_only. */
  lemma WideBandwidthHasNoRightShortcut(n: u32, bw: u32, k: nat)
    requires n <= MaxLeafCount && n < 2 * bw && k < NodeCount(n)
    ensures !IsRightOnly(n, bw, k)
  {
    DivOfSmaller(n, 2 * bw);
  }

  lemma DivOfSmaller(x: nat, d: nat)
    requires x < d
    ensures x / d == 0
  {
  }

  /** The result of build_tree; the two errors stand for the exceptions it throws. */
  datatype BuildResult = Built | AlreadyInitialized(requested: u32, current: u32) | OutOfMemory(requested: u32)

  /** min_depth_binary_tree: the node array and its counters, built once. */
  class MinDepthBinaryTree {
    var nodes: seq<TreeNode>
    var numLeafNodes: u32
    var depth: nat
    var initialized: bool
    /** The bandwidth the tree was built with (the source does not keep it). */
    ghost var bandwidth: u32

    ghost predicate Valid()
      reads this
    {
      numLeafNodes <= MaxLeafCount
      && (initialized ==> Shaped(nodes, numLeafNodes, bandwidth) && depth == TreeDepth(numLeafNodes))
      && (!initialized ==> nodes == [] && depth == 0)
    }

    constructor ()
      ensures Valid() && !initialized && nodes == [] && numLeafNodes == 0 && depth == 0
    {
      nodes := [];
      numLeafNodes := 0;
      depth := 0;
      initialized := false;
      bandwidth := 0;
    }

    /**
     * build_tree. `reserved` says whether reserving room for the 2n - 1
     * nodes succeeds; when it does not, the source's bad_alloc handler
     * reports OutOfMemory with the leaf count already recorded.
     */
    method BuildTree(numNodes: u32, bw: u32, reserved: bool) returns (r: BuildResult)
      requires Valid() && numNodes <= MaxLeafCount
      modifies this
      ensures Valid()
      ensures old(initialized) ==> initialized && nodes == old(nodes) && numLeafNodes == old(numLeafNodes)
                                   && depth == old(depth) && bandwidth == old(bandwidth)
      ensures old(initialized) ==>
                r == if numNodes == old(numLeafNodes) then Built else AlreadyInitialized(numNodes, old(numLeafNodes))
      ensures !old(initialized) ==> numLeafNodes == numNodes && bandwidth == bw
      ensures !old(initialized) && numNodes == 0 ==> r == Built && initialized && nodes == []
      ensures !old(initialized) && numNodes > 0 && !reserved ==> r == OutOfMemory(numNodes) && !initialized && nodes == []
      ensures !old(initialized) && numNodes > 0 && reserved ==>
                r == Built && initialized && nodes == Layout(numNodes, bw)
    {
      if initialized {
        if numNodes != numLeafNodes {
          return AlreadyInitialized(numNodes, numLeafNodes);
        }
        return Built;
      }
      numLeafNodes := numNodes;
      bandwidth := bw;
      if numLeafNodes == 0 {
        initialized := true;
        return Built;
      }
      if !reserved {
        return OutOfMemory(numLeafNodes);
      }
      nodes, depth := GrowLayout(numLeafNodes, bw);
      initialized := true;
      r := Built;
    }

    /** internal_node_count: the node count minus the leaf count, in uint32. */
    function InternalNodeCount(): (c: u32)
      reads this
      requires Valid()
      ensures initialized && numLeafNodes > 0 ==> c == numLeafNodes - 1 && |nodes| == c + numLeafNodes
      ensures initialized && numLeafNodes == 0 ==> c == 0
    {
      Sub32(|nodes|, numLeafNodes)
    }

    /** leaf_node_count. */
    function LeafNodeCount(): (c: u32)
      reads this
      requires Valid()
      ensures initialized && c > 0 ==> |nodes| == 2 * c - 1
      ensures initialized && c == 0 ==> nodes == []
    {
      numLeafNodes
    }

    /** depth: the depth of the last child created, the deepest level of the tree. */
    function Depth(): (d: nat)
      reads this
      requires Valid()
      ensures initialized && numLeafNodes > 0 ==> d == nodes[|nodes| - 1].depth
      ensures numLeafNodes == 1 ==> d == 0
    {
      LastNodeAtDepth();
      depth
    }

    /** In a built tree the stored depth is the depth of the last node. */
    lemma LastNodeAtDepth()
      requires Valid()
      ensures initialized && numLeafNodes > 0 ==> depth == nodes[|nodes| - 1].depth
    {
      if initialized && numLeafNodes > 0 {
        assert SlotFits(nodes, numLeafNodes, bandwidth, |nodes| - 1);
      }
    }
  }

  /**
   * The loop of build_tree: starting from a root that is its own parent,
   * node i becomes internal with children 2i+1 and 2i+2 for i = 0 .. n-2,
   * while a depth counter and its power-of-two boundary follow the level of
   * the children being appended.
   */
  method GrowLayout(n: u32, bw: u32) returns (nodes: seq<TreeNode>, depth: nat)
    requires 1 <= n <= MaxLeafCount
    ensures nodes == Layout(n, bw)
    ensures depth == TreeDepth(n) == nodes[|nodes| - 1].depth
  {
    nodes := [TreeNode(0, 0, 0, 0, 0, false, false, true, 0)];
    var depthConst: nat := 1;
    depth := 0;
    var i: nat := 0;
    while i < n - 1
      invariant i <= n - 1
      invariant |nodes| == 2 * i + 1
      invariant forall k | 0 <= k < |nodes| :: nodes[k] == NodeAfter(n, bw, i, k)
      invariant depth == Level(2 * i)
      invariant depthConst == Pow2(depth + 1) - 1
      invariant 2 * i < depthConst
    {
      ghost var before := nodes;
      nodes := nodes[i := nodes[i].(leftId := 2 * i + 1, rightId := 2 * i + 2, isLeaf := false)];
      DepthStep(i, depth, depthConst);
      if 2 * i + 1 >= depthConst {
        depth := depth + 1;
        depthConst := Pow2(depth + 1) - 1;
      }
      var leftChild := MakeChild(n, bw, i, 2 * i + 1, depth);
      var rightChild := MakeChild(n, bw, i, 2 * i + 2, depth);
      nodes := nodes + [leftChild, rightChild];
      GrowStep(n, bw, i, before, nodes);
      i := i + 1;
    }
    GrownIsLayout(n, bw, nodes);
  }

  /** After the loop's n - 1 iterations the nodes are the layout, whose last node lies at the tree's depth. */
  lemma GrownIsLayout(n: u32, bw: u32, nodes: seq<TreeNode>)
    requires 1 <= n && |nodes| == 2 * (n - 1) + 1
    requires forall k | 0 <= k < |nodes| :: nodes[k] == NodeAfter(n, bw, n - 1, k)
    ensures nodes == Layout(n, bw)
    ensures nodes[|nodes| - 1].depth == TreeDepth(n)
  {
    assert |Layout(n, bw)| == |nodes|;
    assert forall k | 0 <= k < |nodes| :: nodes[k] == Layout(n, bw)[k];
  }

  /**
   * The child node build_tree appends for id 2i+1 or 2i+2: a leaf under
   * node i at its level, whose flags say whether `id` is a shortcut target,
   * exactly the node the layout holds there once i + 1 nodes are internal.
   */
  method MakeChild(n: u32, bw: u32, i: nat, id: nat, depth: nat) returns (child: TreeNode)
    requires id == 2 * i + 1 || id == 2 * i + 2
    requires depth == Level(id)
    ensures child == NodeAfter(n, bw, i + 1, id)
  {
    var rightOnly, leftOnly := false, false;
    if bw != 0 {
      rightOnly := id == RightOnlyTarget(n, bw);
      leftOnly := id == LeftOnlyTarget(n, bw);
    }
    child := TreeNode(id, 0, 0, i, depth, leftOnly, rightOnly, true, 0);
    assert ParentOf(id) == i;
  }

  /** One iteration of build_tree's loop turns the layout after i internal nodes into the one after i + 1. */
  lemma GrowStep(n: u32, bw: u32, i: nat, before: seq<TreeNode>, after: seq<TreeNode>)
    requires |before| == 2 * i + 1
    requires forall k | 0 <= k < |before| :: before[k] == NodeAfter(n, bw, i, k)
    requires after == before[i := before[i].(leftId := 2 * i + 1, rightId := 2 * i + 2, isLeaf := false)]
                      + [NodeAfter(n, bw, i + 1, 2 * i + 1), NodeAfter(n, bw, i + 1, 2 * i + 2)]
    ensures |after| == 2 * i + 3
    ensures forall k | 0 <= k < |after| :: after[k] == NodeAfter(n, bw, i + 1, k)
  {
    forall k | 0 <= k < |after|
      ensures after[k] == NodeAfter(n, bw, i + 1, k)
    {
    }
  }

  /** One step of build_tree's depth counter: it tracks the level of the children being created. */
  lemma DepthStep(i: nat, depth: nat, depthConst: nat)
    requires depth == Level(2 * i) && depthConst == Pow2(depth + 1) - 1 && 2 * i < depthConst
    ensures 2 * i + 1 >= depthConst ==>
              2 * i + 1 == depthConst && Level(2 * i + 1) == depth + 1 && Level(2 * i + 2) == depth + 1
              && 2 * i + 2 < Pow2(depth + 2) - 1
    ensures 2 * i + 1 < depthConst ==>
              Level(2 * i + 1) == depth && Level(2 * i + 2) == depth && 2 * i + 2 < depthConst
  {
    assert Pow2(depth + 1) == 2 * Pow2(depth);
    assert Pow2(depth + 2) == 2 * Pow2(depth + 1);
    assert Level(2 * i + 2) == Level(2 * i + 1) by {
      assert ParentOf(2 * i + 2) == ParentOf(2 * i + 1);
    }
    if 2 * i + 1 >= depthConst {
      LevelOfRange(2 * i + 1, depth + 1);
    } else {
      LevelBounds(2 * i);
      LevelOfRange(2 * i + 1, depth);
    }
  }
}
