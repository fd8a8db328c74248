/**
 * The offset tree reduction: a minimum-depth binary tree whose internal
 * nodes each own a binary learner, used to predict one of n actions and to
 * learn from contextual-bandit labels.
 */
module OffsetTreeCont {
  import opened TreeNodes
  import opened MinDepthTree
  import opened Labels
  import opened Routing
  import opened Training

  /** FLT_MAX, the label value that marks a test-only example for a node's learner. */
  const FltMax: real := 340282346638528859811704183484516925440.0

  /**
   * What learn demands of a label: a readable first entry with a positive
   * action, a nonzero propensity, and, once the tree has internal nodes to
   * climb from, first and last entries whose node ids (in uint32) are slots
   * of the node array.
   */
  predicate LearnableLabel(costs: seq<CbClass>, n: u32)
  {
    WellFormedLabel(costs) && costs[0].probability != 0.0
    && (n >= 2 ==> LeafOfAction(costs[0].action, InternalCount(n)) < NodeCount(n)
                   && LeafOfAction(costs[|costs| - 1].action, InternalCount(n)) < NodeCount(n))
  }

  /** offset_tree: the tree, the two frontiers and cost_star of the label being learned. */
  class OffsetTree {
    const binaryTree: MinDepthBinaryTree
    var a: NodeCost
    var b: NodeCost
    var costStar: real

    ghost predicate Valid()
      reads this, binaryTree
    {
      binaryTree.Valid()
    }

    constructor ()
      ensures Valid() && fresh(binaryTree) && !binaryTree.initialized && binaryTree.numLeafNodes == 0
    {
      binaryTree := new MinDepthBinaryTree();
      a := NodeCost(0, 0.0);
      b := NodeCost(0, 0.0);
      costStar := 0.0;
    }

    /** init: builds the tree with one leaf per action. */
    method Init(numActions: u32, bandwidth: u32, reserved: bool) returns (r: BuildResult)
      requires Valid() && numActions <= MaxLeafCount
      modifies binaryTree
      ensures Valid()
      ensures old(binaryTree.initialized) ==>
                binaryTree.initialized && binaryTree.nodes == old(binaryTree.nodes)
                && binaryTree.numLeafNodes == old(binaryTree.numLeafNodes) && binaryTree.depth == old(binaryTree.depth)
                && binaryTree.bandwidth == old(binaryTree.bandwidth)
      ensures old(binaryTree.initialized) ==>
                r == if numActions == old(binaryTree.numLeafNodes) then Built
                     else AlreadyInitialized(numActions, old(binaryTree.numLeafNodes))
      ensures !old(binaryTree.initialized) ==> binaryTree.numLeafNodes == numActions && binaryTree.bandwidth == bandwidth
      ensures !old(binaryTree.initialized) && numActions == 0 ==> r == Built && binaryTree.initialized && binaryTree.nodes == []
      ensures !old(binaryTree.initialized) && numActions > 0 && !reserved ==>
                r == OutOfMemory(numActions) && !binaryTree.initialized && binaryTree.nodes == []
      ensures !old(binaryTree.initialized) && numActions > 0 && reserved ==>
                r == Built && binaryTree.initialized && binaryTree.nodes == Layout(numActions, bandwidth)
    {
      r := binaryTree.BuildTree(numActions, bandwidth, reserved);
    }

    /**
     * learner_count: the number of node learners the base must provide, the
     * internal node count read as an int32.
     */
    function LearnerCount(): (c: int)
      reads this, binaryTree
      requires Valid()
      ensures binaryTree.initialized ==> c == InternalCount(binaryTree.numLeafNodes)
      ensures !binaryTree.initialized ==> c == -(binaryTree.numLeafNodes as int)
    {
      AsInt32(binaryTree.InternalNodeCount())
    }

    /**
     * predict: walks from the root to a leaf and returns its action, 1..n,
     * or 0 for a tree without leaves; `score` is the scalar prediction of
     * each node's learner on this example. The label is restored; the
     * scalar prediction is left at the last score consulted.
     */
    method Predict(ec: Example, score: nat -> real) returns (action: u32)
      requires Valid() && (binaryTree.initialized || binaryTree.numLeafNodes == 0)
      modifies ec
      ensures ec.lbl == old(ec.lbl) && ec.weight == old(ec.weight)
      ensures binaryTree.numLeafNodes == 0 ==> action == 0 && ec.pred == old(ec.pred)
      ensures binaryTree.numLeafNodes > 0 ==>
                var w := Route(binaryTree.numLeafNodes, binaryTree.bandwidth, score, 0);
                action == ActionOf(binaryTree.numLeafNodes, w.leaf) && 1 <= action <= binaryTree.numLeafNodes
                && ec.pred == if w.asked == [] then old(ec.pred) else score(w.asked[|w.asked| - 1])
    {
      var nodes := binaryTree.nodes;
      var n := binaryTree.LeafNodeCount();
      ghost var bw := binaryTree.bandwidth;
      if n == 0 {
        return 0;
      }
      var savedLabel := ec.lbl;
      ec.lbl := Binary(FltMax);
      var leaf := Descend(ec, nodes, n, bw, score);
      ec.lbl := savedLabel;
      PredictedActionInRange(n, bw, score);
      action := leaf - binaryTree.InternalNodeCount() + 1;
    }

    /** init_node_costs: cost_star and both frontiers from the label's first and last entries. */
    method InitNodeCosts(costs: seq<CbClass>)
      requires Valid() && WellFormedLabel(costs) && costs[0].probability != 0.0
      modifies this
      ensures Valid()
      ensures costStar == CostStar(costs[0])
      ensures Sweep(a, b, []) == InitialSweep(costs, binaryTree.InternalNodeCount())
    {
      costStar := costs[0].cost / costs[0].probability;
      var internal := binaryTree.InternalNodeCount();
      a := NodeCost(LeafOfAction(costs[0].action, internal), costStar);
      b := NodeCost(LeafOfAction(costs[|costs| - 1].action, internal), costStar);
    }

    /**
     * learn: climbs from the logged actions' leaves to the root, training
     * each visited parent's learner towards its cheaper child. `draw` stands
     * for the uniform draw in [0, 0.00001) that keeps or drops a tiny weight,
     * and `rescore(p, step)` for node p's prediction right after its own
     * training, where `step` counts the learner calls made earlier in this
     * learn call, at any node. The calls made are returned; label, weight
     * and prediction are restored.
     */
    method Learn(ec: Example, draw: real, rescore: (nat, nat) -> real) returns (calls: seq<TrainCall>)
      requires Valid() && ec.lbl.Bandit? && LearnableLabel(ec.lbl.costs, binaryTree.numLeafNodes)
      requires 0.0 <= draw < WeightThreshold
      modifies this, binaryTree, ec
      ensures Valid()
      ensures ec.lbl == old(ec.lbl) && ec.weight == old(ec.weight) && ec.pred == old(ec.pred)
      ensures binaryTree.numLeafNodes == old(binaryTree.numLeafNodes) && binaryTree.depth == old(binaryTree.depth)
              && binaryTree.initialized == old(binaryTree.initialized) && binaryTree.bandwidth == old(binaryTree.bandwidth)
      ensures costStar == CostStar(ec.lbl.costs[0])
      ensures Sweep(a, b, calls) ==
                Climb(old(binaryTree.nodes), InitialSweep(ec.lbl.costs, old(binaryTree.InternalNodeCount())),
                      costStar, draw, rescore, old(binaryTree.depth))
      ensures binaryTree.nodes == Trained(old(binaryTree.nodes), calls)
      ensures binaryTree.initialized && binaryTree.numLeafNodes >= 2 ==> a.node == 0 && b.node == 0
    {
      var savedLabel, savedWeight, savedPred := ec.lbl, ec.weight, ec.pred;
      var nodes := binaryTree.nodes;
      var costs := ec.lbl.costs;
      ghost var n, bw := binaryTree.numLeafNodes, binaryTree.bandwidth;
      ghost var initialized, depth0 := binaryTree.initialized, binaryTree.depth;
      assert initialized ==> Shaped(nodes, n, bw) && depth0 == TreeDepth(n);
      assert !initialized ==> nodes == [] && depth0 == 0;
      ghost var internal := binaryTree.InternalNodeCount();
      InitNodeCosts(costs);
      assert depth0 > 0 ==> a.node < |nodes| && b.node < |nodes| by {
        if depth0 > 0 {
          assert initialized && n >= 2;
        }
      }
      var d: nat := binaryTree.Depth();
      calls := ClimbToRoot(ec, nodes, draw, rescore, d);
      if initialized {
        TrainedKeepsShape(nodes, n, bw, calls);
        if n >= 2 {
          FrontiersEndAtRoot(nodes, n, bw, InitialSweep(costs, internal), costStar, draw, rescore);
        }
      }
      ec.lbl := savedLabel;
      ec.weight := savedWeight;
      ec.pred := savedPred;
    }

    /**
     * learn's outer loop: `levels` rounds, each moving both frontiers one
     * level up, starting from the frontiers init_node_costs set.
     */
    method ClimbToRoot(ec: Example, nodes: seq<TreeNode>, draw: real, rescore: (nat, nat) -> real, levels: nat)
      returns (calls: seq<TrainCall>)
      requires Linked(nodes) && binaryTree.nodes == nodes
      requires levels > 0 ==> a.node < |nodes| && b.node < |nodes|
      modifies this, binaryTree, ec
      ensures Sweep(a, b, calls) == Climb(nodes, Sweep(old(a), old(b), []), costStar, draw, rescore, levels)
      ensures costStar == old(costStar)
      ensures binaryTree.nodes == Trained(nodes, calls)
      ensures binaryTree.numLeafNodes == old(binaryTree.numLeafNodes) && binaryTree.depth == old(binaryTree.depth)
              && binaryTree.initialized == old(binaryTree.initialized) && binaryTree.bandwidth == old(binaryTree.bandwidth)
    {
      calls := [];
      ghost var s0 := Sweep(old(a), old(b), []);
      TrainedNone(nodes);
      var d: nat := levels;
      ghost var done: nat := 0;
      while d > 0
        invariant done + d == levels
        invariant binaryTree.numLeafNodes == old(binaryTree.numLeafNodes) && binaryTree.depth == old(binaryTree.depth)
                  && binaryTree.initialized == old(binaryTree.initialized) && binaryTree.bandwidth == old(binaryTree.bandwidth)
        invariant binaryTree.nodes == Trained(nodes, calls)
        invariant costStar == old(costStar)
        invariant d > 0 ==> a.node < |nodes| && b.node < |nodes|
        invariant Sweep(a, b, calls) == Climb(nodes, s0, costStar, draw, rescore, done)
      {
        ClimbStep(nodes, s0, costStar, draw, rescore, done);
        calls := LearnLevel(ec, nodes, draw, rescore, calls);
        d := d - 1;
        done := done + 1;
      }
      assert done == levels;
    }

    /**
     * One round of learn's outer loop: a is visited, and b too when its
     * parent differs from a's; then both frontiers move up to their parents.
     * `calls` grows by the calls of this round.
     */
    method LearnLevel(ec: Example, nodes: seq<TreeNode>, draw: real, rescore: (nat, nat) -> real,
                      callsIn: seq<TrainCall>) returns (calls: seq<TrainCall>)
      requires Linked(nodes) && a.node < |nodes| && b.node < |nodes|
      requires binaryTree.nodes == Trained(nodes, callsIn)
      modifies this, binaryTree, ec
      ensures Sweep(a, b, calls) == ClimbLevel(nodes, Sweep(old(a), old(b), callsIn), costStar, draw, rescore)
      ensures costStar == old(costStar)
      ensures binaryTree.nodes == Trained(nodes, calls)
      ensures binaryTree.numLeafNodes == old(binaryTree.numLeafNodes) && binaryTree.depth == old(binaryTree.depth)
              && binaryTree.initialized == old(binaryTree.initialized) && binaryTree.bandwidth == old(binaryTree.bandwidth)
    {
      calls := callsIn;
      var setD := [a];
      if nodes[a.node].parentId != nodes[b.node].parentId {
        setD := setD + [b];
      }
      var aParentCost, bParentCost := a.cost, b.cost;
      ghost var a0, b0, cs := a, b, costStar;
      ghost var va := VisitNode(nodes, a0, a0, b0, cs, draw, rescore, |callsIn|);
      ghost var vb := VisitNode(nodes, b0, a0, b0, cs, draw, rescore, |callsIn| + |va.calls|);
      for i := 0 to |setD|
        invariant binaryTree.numLeafNodes == old(binaryTree.numLeafNodes) && binaryTree.depth == old(binaryTree.depth)
                  && binaryTree.initialized == old(binaryTree.initialized) && binaryTree.bandwidth == old(binaryTree.bandwidth)
        invariant binaryTree.nodes == Trained(nodes, calls)
        invariant a == a0 && b == b0 && costStar == cs
        invariant setD[0] == a0 && (|setD| == 2 ==> setD[1] == b0) && |setD| <= 2
        invariant i == 0 ==> calls == callsIn && aParentCost == a.cost
        invariant i == 1 ==> calls == callsIn + va.calls
        invariant i >= 1 ==> aParentCost == va.parentCost
        invariant i == 2 ==> calls == callsIn + va.calls + vb.calls && bParentCost == vb.parentCost
        invariant i < 2 ==> bParentCost == b.cost
      {
        var costParent, trained := VisitEntry(ec, nodes, setD[i], draw, rescore, |calls|);
        TrainedConcat(nodes, calls, trained);
        calls := calls + trained;
        if i == 0 {
          aParentCost := costParent;
        } else {
          bParentCost := costParent;
        }
      }
      ClimbLevelByVisits(nodes, Sweep(a0, b0, callsIn), cs, draw, rescore, va, vb);
      a := NodeCost(nodes[a.node].parentId, aParentCost);
      b := NodeCost(nodes[b.node].parentId, bParentCost);
    }

    /**
     * The body of learn's inner loop for one entry: a parent with a shortcut
     * is skipped and keeps the entry's cost (the value the loop's `continue`
     * leaves in place); otherwise the entry is compared with its sibling and,
     * unless the weight is dropped, the parent is trained, counted and
     * re-scored.
     */
    method VisitEntry(ec: Example, nodes: seq<TreeNode>, nc: NodeCost, draw: real, rescore: (nat, nat) -> real,
                      step: nat) returns (costParent: real, trained: seq<TrainCall>)
      requires Linked(nodes) && nc.node < |nodes| && |binaryTree.nodes| == |nodes|
      modifies binaryTree, ec
      ensures Visit(costParent, trained) == VisitNode(nodes, nc, a, b, costStar, draw, rescore, step)
      ensures trained != [] ==>
                ec.lbl == Binary(trained[0].side) && ec.weight == trained[0].weight
                && ec.pred == rescore(trained[0].node, step)
      ensures binaryTree.nodes == Trained(old(binaryTree.nodes), trained)
      ensures binaryTree.numLeafNodes == old(binaryTree.numLeafNodes) && binaryTree.depth == old(binaryTree.depth)
              && binaryTree.initialized == old(binaryTree.initialized) && binaryTree.bandwidth == old(binaryTree.bandwidth)
    {
      var v := nodes[nc.node];
      var costV := nc.cost;
      var vParent := nodes[v.parentId];
      costParent := costV;
      trained := [];
      if vParent.rightOnly || vParent.leftOnly {
        TrainedNone(binaryTree.nodes);
        return;
      }
      var w := GetSibling(nodes, v);
      var costW := ReturnCost(w.id, a, b, costStar);
      if costV != costW {
        var localAction := Right;
        if (if costV < costW then v else w).id == vParent.leftId {
          localAction := Left;
        }
        ec.lbl := Binary(localAction);
        var weight := Abs(costV - costW);
        var filter := false;
        if weight < WeightThreshold {
          if draw < weight {
            weight := WeightThreshold;
          } else {
            filter := true;
          }
        }
        ec.weight := weight;
        if !filter {
          trained := [TrainCall(v.parentId, localAction, weight)];
          costParent := LearnNode(ec, v.parentId, localAction, weight, costV, costW, rescore, step);
        }
      }
      if trained == [] {
        TrainedNone(binaryTree.nodes);
      }
    }
 
    /**
     * Trains the learner of node p on the binary label and weight, counts
     * the training, re-scores the node and interpolates the parent's cost
     * from the new score.
     */
    method LearnNode(ec: Example, p: nat, localAction: real, weight: real, costV: real, costW: real,
                     rescore: (nat, nat) -> real, step: nat) returns (costParent: real)
      requires p < |binaryTree.nodes|
      modifies binaryTree, ec
      ensures costParent == Interpolate(costV, costW, localAction, rescore(p, step))
      ensures ec.lbl == old(ec.lbl) && ec.weight == old(ec.weight) && ec.pred == rescore(p, step)
      ensures binaryTree.nodes == Trained(old(binaryTree.nodes), [TrainCall(p, localAction, weight)])
      ensures binaryTree.numLeafNodes == old(binaryTree.numLeafNodes) && binaryTree.depth == old(binaryTree.depth)
              && binaryTree.initialized == old(binaryTree.initialized) && binaryTree.bandwidth == old(binaryTree.bandwidth)
    {
      TrainedOnce(binaryTree.nodes, TrainCall(p, localAction, weight));
      binaryTree.nodes := binaryTree.nodes[p := binaryTree.nodes[p].(learnCount := binaryTree.nodes[p].learnCount + 1)];
      ec.pred := rescore(p, step);
      var trainedAction := if ec.pred < 0.0 then Left else Right;
      if trainedAction == localAction {
        costParent := Min(costV, costW) * Abs(ec.pred) + Max(costV, costW) * (1.0 - Abs(ec.pred));
      } else {
        costParent := Max(costV, costW) * Abs(ec.pred) + Min(costV, costW) * (1.0 - Abs(ec.pred));
      }
    }
  }

  /**
   * predict's descent from the root: shortcut flags pick the child, other
   * internal nodes consult their learner and follow the sign of its score,
   * which is left in the example's prediction.
   */
  method Descend(ec: Example, nodes: seq<TreeNode>, ghost n: u32, ghost bw: u32, score: nat -> real) returns (leaf: nat)
    requires Shaped(nodes, n, bw) && n > 0
    modifies ec
    ensures leaf == Route(n, bw, score, 0).leaf
    ensures ec.lbl == old(ec.lbl) && ec.weight == old(ec.weight)
    ensures ec.pred == var w := Route(n, bw, score, 0); if w.asked == [] then old(ec.pred) else score(w.asked[|w.asked| - 1])
  {
    NodeLinks(nodes, n, bw, 0);
    ResumeFromStart(n, bw, score, 0);
    var cur := nodes[0];
    ghost var asked: seq<nat> := [];
    while !cur.isLeaf
      invariant cur.id < |nodes| && cur == nodes[cur.id]
      invariant Route(n, bw, score, 0) == Resume(n, bw, score, asked, cur.id)
      invariant ec.pred == if asked == [] then old(ec.pred) else score(asked[|asked| - 1])
      invariant ec.lbl == old(ec.lbl) && ec.weight == old(ec.weight)
      decreases |nodes| - cur.id
    {
      RouteFollowsNodes(nodes, n, bw, score, asked, cur.id);
      if cur.rightOnly {
        cur := nodes[cur.rightId];
      } else if cur.leftOnly {
        cur := nodes[cur.leftId];
      } else {
        ec.pred := score(cur.id);
        asked := asked + [cur.id];
        if ec.pred < 0.0 {
          cur := nodes[cur.leftId];
        } else {
          cur := nodes[cur.rightId];
        }
      }
    }
    RouteStopsAtLeaf(nodes, n, bw, score, asked, cur.id);
    leaf := cur.id;
  }
}
