/**
 * Bottom-up training of the offset tree from one bandit label. Two frontier
 * nodes a and b start at the leaves of the label's first and last actions
 * and climb one level per round. At each round a frontier node is compared
 * with its sibling; the parent's learner is trained towards the cheaper of
 * the two, and the parent inherits a cost interpolated from the retrained
 * learner's score.
 */
module Training {
  import opened TreeNodes
  import opened MinDepthTree
  import opened Labels
  import opened Routing

  /** Binary labels handed to a node's learner: LEFT is -1, RIGHT is +1. */
  const Left: real := -1.0
  const Right: real := 1.0

  /** Importance weights below this are raised to it or dropped. */
  const WeightThreshold: real := 0.00001

  function Abs(x: real): (r: real)
    ensures 0.0 <= r && (r == x || r == -x)
  {
    if x < 0.0 then -x else x
  }

  function Min(x: real, y: real): (r: real)
    ensures r <= x && r <= y && (r == x || r == y)
  {
    if x <= y then x else y
  }

  function Max(x: real, y: real): (r: real)
    ensures x <= r && y <= r && (r == x || r == y)
  {
    if x <= y then y else x
  }

  /** The first assertion of init_node_costs as written: it holds only for an empty cost list. */
  predicate AssertedLabelAsWritten(costs: seq<CbClass>)
  {
    |costs| == 0
  }

  /** What init_node_costs reads: a first entry, whose action is positive. */
  predicate WellFormedLabel(costs: seq<CbClass>)
  {
    |costs| >= 1 && costs[0].action > 0
  }

  /** Every label whose first entry init_node_costs can read fails the assertion as written. */
  lemma InvertedAssertRejectsReadableLabels(costs: seq<CbClass>)
    requires WellFormedLabel(costs)
    ensures !AssertedLabelAsWritten(costs)
  {
  }

  /** The leaf of an action: action + internal - 1, in uint32. */
  function LeafOfAction(action: u32, internal: u32): (r: u32)
    ensures 1 <= action && action + internal <= 0x1_0000_0000 ==> r == action + internal - 1
  {
    (action + internal + 0xFFFF_FFFF) % 0x1_0000_0000
  }

  /** The inverse-propensity cost of the logged action. */
  function CostStar(c: CbClass): real
    requires c.probability != 0.0
  {
    c.cost / c.probability
  }

  /** The two frontiers and the learner calls made so far. */
  datatype Sweep = Sweep(a: NodeCost, b: NodeCost, calls: seq<TrainCall>)

  /** init_node_costs: a at the first entry's leaf, b at the last entry's, both at cost_star. */
  function InitialSweep(costs: seq<CbClass>, internal: u32): Sweep
    requires WellFormedLabel(costs) && costs[0].probability != 0.0
  {
    Sweep(
      NodeCost(LeafOfAction(costs[0].action, internal), CostStar(costs[0])),
      NodeCost(LeafOfAction(costs[|costs| - 1].action, internal), CostStar(costs[0])),
      [])
  }

  /**
   * The frontiers start at the leaves of the label's first and last actions,
   * the inverse of the action numbering that prediction reports.
   */
  lemma InitialFrontierAtLoggedLeaves(costs: seq<CbClass>, n: u32)
    requires WellFormedLabel(costs) && costs[0].probability != 0.0
    requires 1 <= n <= MaxLeafCount && costs[0].action <= n && 1 <= costs[|costs| - 1].action <= n
    ensures var s := InitialSweep(costs, InternalCount(n));
              InternalCount(n) <= s.a.node < NodeCount(n) && ActionOf(n, s.a.node) == costs[0].action
              && InternalCount(n) <= s.b.node < NodeCount(n) && ActionOf(n, s.b.node) == costs[|costs| - 1].action
              && s.a.cost == s.b.cost == costs[0].cost / costs[0].probability
  {
  }

  /**
   * return_cost: the current belief about the cost at node w, a step
   * function of five regions over the ids.
   */
  function ReturnCost(w: nat, a: NodeCost, b: NodeCost, costStar: real): real
  {
    if w < a.node then 0.0
    else if w == a.node then a.cost
    else if w < b.node then costStar
    else if w == b.node then b.cost
    else 0.0
  }

  /** Before any level is processed the belief is flat: cost_star from a up to b, zero elsewhere. */
  lemma InitialBeliefIsFlat(w: nat, a: NodeCost, b: NodeCost, costStar: real)
    requires a.cost == costStar && b.cost == costStar
    ensures ReturnCost(w, a, b, costStar) == if w == a.node || a.node < w <= b.node then costStar else 0.0
  {
  }

  /** Nodes left of a and right of both frontiers cost nothing. */
  lemma ReturnCostOutsideFrontiers(w: nat, a: NodeCost, b: NodeCost, costStar: real)
    requires w < a.node || (a.node < w && b.node < w)
    ensures ReturnCost(w, a, b, costStar) == 0.0
  {
  }

  /**
   * The cost passed to the parent once its learner is retrained and scores s:
   * confidence |s| on the trained side weighs the cheaper child's cost.
   */
  function Interpolate(costV: real, costW: real, side: real, s: real): real
  {
    var trained := if s < 0.0 then Left else Right;
    if trained == side then Min(costV, costW) * Abs(s) + Max(costV, costW) * (1.0 - Abs(s))
    else Max(costV, costW) * Abs(s) + Min(costV, costW) * (1.0 - Abs(s))
  }

  /** With a score in [-1, 1] the parent's cost lies between its children's. */
  lemma InterpolateBetween(costV: real, costW: real, side: real, s: real)
    requires -1.0 <= s <= 1.0
    ensures Min(costV, costW) <= Interpolate(costV, costW, side, s) <= Max(costV, costW)
  {
    var lo, hi, c := Min(costV, costW), Max(costV, costW), Abs(s);
    assert lo * c + hi * (1.0 - c) == hi - c * (hi - lo);
    assert hi * c + lo * (1.0 - c) == lo + c * (hi - lo);
    var d := hi - lo;
    assert c <= 1.0;
    MulNonNegative(c, d);
    MulNonNegative(1.0 - c, d);
  }

  lemma MulNonNegative(x: real, y: real)
    requires 0.0 <= x && 0.0 <= y
    ensures 0.0 <= x * y
  {
  }

  /**
   * A fully confident learner passes on the cheaper child's cost when it
   * agrees with the label, the dearer one when it does not.
   */
  lemma InterpolateConfident(costV: real, costW: real, side: real, s: real)
    requires s == 1.0 || s == -1.0
    requires side == Left || side == Right
    ensures Interpolate(costV, costW, side, s) ==
              if (s < 0.0) == (side == Left) then Min(costV, costW) else Max(costV, costW)
  {
  }

  /** The parent's cost and the learner call (zero or one) from visiting one frontier entry. */
  datatype Visit = Visit(parentCost: real, calls: seq<TrainCall>)

  /**
   * One pass of learn's inner loop body for the entry vc, with frontiers a and
   * b, the draw that decides whether a tiny weight is kept, and the learner's
   * score after training, rescore(node, number of learner calls made earlier in
   * this learn call, at any node).
   */
  function VisitNode(nodes: seq<TreeNode>, vc: NodeCost, a: NodeCost, b: NodeCost, costStar: real,
                     draw: real, rescore: (nat, nat) -> real, step: nat): (r: Visit)
    requires Linked(nodes) && vc.node < |nodes|
    ensures |r.calls| <= 1
    ensures forall c <- r.calls :: c.node == nodes[vc.node].parentId && WeightThreshold <= c.weight
    ensures r.calls == [] ==> r.parentCost == vc.cost
    ensures r.calls != [] ==> !nodes[nodes[vc.node].parentId].rightOnly && !nodes[nodes[vc.node].parentId].leftOnly
  {
    var v := nodes[vc.node];
    var parent := nodes[v.parentId];
    if parent.rightOnly || parent.leftOnly then Visit(vc.cost, [])
    else
      var w := GetSibling(nodes, v);
      var costW := ReturnCost(w.id, a, b, costStar);
      if vc.cost == costW then Visit(vc.cost, [])
      else
        var side := if (if vc.cost < costW then v else w).id == parent.leftId then Left else Right;
        var weight := Abs(vc.cost - costW);
        if weight < WeightThreshold && !(draw < weight) then Visit(vc.cost, [])
        else
          var s := rescore(v.parentId, step);
          Visit(Interpolate(vc.cost, costW, side, s),
                [TrainCall(v.parentId, side, if weight < WeightThreshold then WeightThreshold else weight)])
  }

  /** The cost of a child of a frontier node's parent, as learn sees it: the entry's own cost, or the belief. */
  function ChildCost(c: nat, vc: NodeCost, a: NodeCost, b: NodeCost, costStar: real): real
  {
    if c == vc.node then vc.cost else ReturnCost(c, a, b, costStar)
  }

  /**
   * The label trains the parent towards its strictly cheaper child: LEFT
   * exactly when the left child costs less than the right one.
   */
  lemma VisitLabelsCheaperChild(nodes: seq<TreeNode>, n: u32, bw: u32, vc: NodeCost, a: NodeCost, b: NodeCost,
                                costStar: real, draw: real, rescore: (nat, nat) -> real, step: nat)
    requires Shaped(nodes, n, bw) && 0 < vc.node < |nodes|
    ensures var p := ParentOf(vc.node);
            var r := VisitNode(nodes, vc, a, b, costStar, draw, rescore, step);
            r.calls != [] ==>
              (r.calls[0].side == Left <==>
                 ChildCost(2 * p + 1, vc, a, b, costStar) < ChildCost(2 * p + 2, vc, a, b, costStar))
  {
    var k := vc.node;
    var p := ParentOf(k);
    ShapedLayout(nodes, n, bw, k);
    ShapedLayout(nodes, n, bw, p);
    var s := if k == 2 * p + 1 then 2 * p + 2 else 2 * p + 1;
    ShapedLayout(nodes, n, bw, s);
    assert GetSibling(nodes, nodes[k]).id == s;
  }

  /**
   * Weight flooring: a visit that has something to learn (no shortcut
   * parent, unequal costs) trains iff the weight |cost_v - cost_w| reaches
   * the threshold or the draw falls below it, and a kept tiny weight is
   * raised to exactly the threshold.
   */
  lemma VisitFloorsWeight(nodes: seq<TreeNode>, vc: NodeCost, a: NodeCost, b: NodeCost, costStar: real,
                          draw: real, rescore: (nat, nat) -> real, step: nat)
    requires Linked(nodes) && vc.node < |nodes|
    ensures var v := nodes[vc.node];
            var parent := nodes[v.parentId];
            var d := Abs(vc.cost - ReturnCost(GetSibling(nodes, v).id, a, b, costStar));
            var r := VisitNode(nodes, vc, a, b, costStar, draw, rescore, step);
            !parent.rightOnly && !parent.leftOnly && d != 0.0 ==>
              (r.calls != [] <==> (WeightThreshold <= d || draw < d))
              && (r.calls != [] ==> r.calls[0].weight == if d < WeightThreshold then WeightThreshold else d)
  {
  }

  /** A shortcut parent is never trained and inherits the entry's cost. */
  lemma ShortcutParentPassesCost(nodes: seq<TreeNode>, vc: NodeCost, a: NodeCost, b: NodeCost, costStar: real,
                                 draw: real, rescore: (nat, nat) -> real, step: nat)
    requires Linked(nodes) && vc.node < |nodes|
    requires nodes[nodes[vc.node].parentId].rightOnly || nodes[nodes[vc.node].parentId].leftOnly
    ensures VisitNode(nodes, vc, a, b, costStar, draw, rescore, step) == Visit(vc.cost, [])
  {
  }

  /** A sibling that already costs the same as the entry leaves nothing to learn: no call, and the entry's cost moves up. */
  lemma EqualCostsPassCost(nodes: seq<TreeNode>, vc: NodeCost, a: NodeCost, b: NodeCost, costStar: real,
                           draw: real, rescore: (nat, nat) -> real, step: nat)
    requires Linked(nodes) && vc.node < |nodes|
    requires vc.cost == ReturnCost(GetSibling(nodes, nodes[vc.node]).id, a, b, costStar)
    ensures VisitNode(nodes, vc, a, b, costStar, draw, rescore, step) == Visit(vc.cost, [])
  {
  }

  /** With scores in [-1, 1], the parent's cost lies between the entry's cost and its sibling's. */
  lemma VisitCostBetween(nodes: seq<TreeNode>, vc: NodeCost, a: NodeCost, b: NodeCost, costStar: real,
                         draw: real, rescore: (nat, nat) -> real, step: nat)
    requires Linked(nodes) && vc.node < |nodes|
    requires forall node: nat, k: nat :: -1.0 <= rescore(node, k) <= 1.0
    ensures var costW := ReturnCost(GetSibling(nodes, nodes[vc.node]).id, a, b, costStar);
            var r := VisitNode(nodes, vc, a, b, costStar, draw, rescore, step);
            Min(vc.cost, costW) <= r.parentCost <= Max(vc.cost, costW)
  {
    var v := nodes[vc.node];
    var w := GetSibling(nodes, v);
    var costW := ReturnCost(w.id, a, b, costStar);
    var side := if (if vc.cost < costW then v else w).id == nodes[v.parentId].leftId then Left else Right;
    InterpolateBetween(vc.cost, costW, side, rescore(v.parentId, step));
  }

  /**
   * One round of learn's outer loop: a is always visited, b only when its
   * parent differs from a's; then both frontiers move to their parents.
   */
  function ClimbLevel(nodes: seq<TreeNode>, s: Sweep, costStar: real, draw: real, rescore: (nat, nat) -> real): (r: Sweep)
    requires Linked(nodes) && s.a.node < |nodes| && s.b.node < |nodes|
    ensures r.a.node == nodes[s.a.node].parentId && r.b.node == nodes[s.b.node].parentId
    ensures |s.calls| <= |r.calls| <= |s.calls| + 2 && r.calls[..|s.calls|] == s.calls
  {
    var va := VisitNode(nodes, s.a, s.a, s.b, costStar, draw, rescore, |s.calls|);
    var callsA := s.calls + va.calls;
    var pa := nodes[s.a.node].parentId;
    var pb := nodes[s.b.node].parentId;
    if pa != pb then
      var vb := VisitNode(nodes, s.b, s.a, s.b, costStar, draw, rescore, |callsA|);
      Sweep(NodeCost(pa, va.parentCost), NodeCost(pb, vb.parentCost), callsA + vb.calls)
    else
      Sweep(NodeCost(pa, va.parentCost), NodeCost(pb, s.b.cost), callsA)
  }

  /** A round in terms of its two visits. */
  lemma ClimbLevelByVisits(nodes: seq<TreeNode>, s: Sweep, costStar: real, draw: real, rescore: (nat, nat) -> real,
                           va: Visit, vb: Visit)
    requires Linked(nodes) && s.a.node < |nodes| && s.b.node < |nodes|
    requires va == VisitNode(nodes, s.a, s.a, s.b, costStar, draw, rescore, |s.calls|)
    requires vb == VisitNode(nodes, s.b, s.a, s.b, costStar, draw, rescore, |s.calls| + |va.calls|)
    ensures var pa, pb := nodes[s.a.node].parentId, nodes[s.b.node].parentId;
            ClimbLevel(nodes, s, costStar, draw, rescore) ==
              if pa != pb then Sweep(NodeCost(pa, va.parentCost), NodeCost(pb, vb.parentCost), s.calls + va.calls + vb.calls)
              else Sweep(NodeCost(pa, va.parentCost), NodeCost(pb, s.b.cost), s.calls + va.calls)
  {
  }

  /** When a and b share a parent, b is not visited and carries its old cost upward. */
  lemma SharedParentCarriesB(nodes: seq<TreeNode>, s: Sweep, costStar: real, draw: real, rescore: (nat, nat) -> real)
    requires Linked(nodes) && s.a.node < |nodes| && s.b.node < |nodes|
    requires nodes[s.a.node].parentId == nodes[s.b.node].parentId
    ensures ClimbLevel(nodes, s, costStar, draw, rescore).b == NodeCost(nodes[s.b.node].parentId, s.b.cost)
    ensures |ClimbLevel(nodes, s, costStar, draw, rescore).calls| <= |s.calls| + 1
  {
  }

  /** `levels` rounds of learn's outer loop, each applied to the result of the rounds before it. */
  function Climb(nodes: seq<TreeNode>, s: Sweep, costStar: real, draw: real, rescore: (nat, nat) -> real, levels: nat): (r: Sweep)
    requires Linked(nodes) && (levels > 0 ==> s.a.node < |nodes| && s.b.node < |nodes|)
    ensures levels > 0 ==> r.a.node < |nodes| && r.b.node < |nodes|
    ensures |s.calls| <= |r.calls| <= |s.calls| + 2 * levels && r.calls[..|s.calls|] == s.calls
    decreases levels
  {
    if levels == 0 then s
    else
      var prev := Climb(nodes, s, costStar, draw, rescore, levels - 1);
      var r := ClimbLevel(nodes, prev, costStar, draw, rescore);
      assert r.calls[..|s.calls|] == r.calls[..|prev.calls|][..|s.calls|];
      r
  }

  /** One more round is the rounds so far followed by one round. */
  lemma ClimbStep(nodes: seq<TreeNode>, s: Sweep, costStar: real, draw: real, rescore: (nat, nat) -> real, levels: nat)
    requires Linked(nodes) && s.a.node < |nodes| && s.b.node < |nodes|
    ensures Climb(nodes, s, costStar, draw, rescore, levels + 1)
            == ClimbLevel(nodes, Climb(nodes, s, costStar, draw, rescore, levels), costStar, draw, rescore)
  {
  }

  /**
   * Each round lifts both frontiers one level until they reach the root,
   * where they stay; so after as many rounds as the deeper frontier's level
   * both sit at the root.
   */
  lemma {:induction false} ClimbReachesRoot(nodes: seq<TreeNode>, n: u32, bw: u32, s: Sweep, costStar: real,
                                            draw: real, rescore: (nat, nat) -> real, levels: nat)
    requires Shaped(nodes, n, bw) && s.a.node < |nodes| && s.b.node < |nodes|
    ensures var r := Climb(nodes, s, costStar, draw, rescore, levels);
            Level(r.a.node) == (if Level(s.a.node) <= levels then 0 else Level(s.a.node) - levels)
            && Level(r.b.node) == (if Level(s.b.node) <= levels then 0 else Level(s.b.node) - levels)
    ensures Level(s.a.node) <= levels ==> Climb(nodes, s, costStar, draw, rescore, levels).a.node == 0
    ensures Level(s.b.node) <= levels ==> Climb(nodes, s, costStar, draw, rescore, levels).b.node == 0
    decreases levels
  {
    if levels > 0 {
      var prev := Climb(nodes, s, costStar, draw, rescore, levels - 1);
      ClimbReachesRoot(nodes, n, bw, s, costStar, draw, rescore, levels - 1);
      ShapedLayout(nodes, n, bw, prev.a.node);
      ShapedLayout(nodes, n, bw, prev.b.node);
    }
  }

  /**
   * learn's `depth()` rounds suffice: starting from any two nodes of a tree
   * with internal nodes, both frontiers end at the root.
   */
  lemma FrontiersEndAtRoot(nodes: seq<TreeNode>, n: u32, bw: u32, s: Sweep, costStar: real,
                           draw: real, rescore: (nat, nat) -> real)
    requires Shaped(nodes, n, bw) && n >= 2 && s.a.node < |nodes| && s.b.node < |nodes|
    ensures Climb(nodes, s, costStar, draw, rescore, TreeDepth(n)).a.node == 0
    ensures Climb(nodes, s, costStar, draw, rescore, TreeDepth(n)).b.node == 0
  {
    MinimumDepth(n, s.a.node);
    MinimumDepth(n, s.b.node);
    ClimbReachesRoot(nodes, n, bw, s, costStar, draw, rescore, TreeDepth(n));
  }

  /** x is k or one of its ancestors in the heap. */
  predicate IsAncestor(x: nat, k: nat)
    decreases k
  {
    x == k || (k > 0 && IsAncestor(x, ParentOf(k)))
  }

  lemma {:induction false} ParentOfAncestor(f: nat, k: nat)
    requires IsAncestor(f, k)
    ensures IsAncestor(ParentOf(f), k)
    decreases k
  {
    if f != k {
      ParentOfAncestor(f, ParentOf(k));
    } else if k > 0 {
      assert IsAncestor(ParentOf(k), ParentOf(k));
    }
  }

  /** One round from a single frontier node trains at most its parent, where both frontiers then meet. */
  lemma SingleActionRound(nodes: seq<TreeNode>, n: u32, bw: u32, p: Sweep, start: nat,
                          costStar: real, draw: real, rescore: (nat, nat) -> real)
    requires Shaped(nodes, n, bw) && p.a.node < |nodes| && p.a.node == p.b.node && IsAncestor(p.a.node, start)
    ensures var r := ClimbLevel(nodes, p, costStar, draw, rescore);
            r.a.node == r.b.node && IsAncestor(r.a.node, start)
            && |r.calls| <= |p.calls| + 1
            && forall j | |p.calls| <= j < |r.calls| :: IsAncestor(r.calls[j].node, start)
  {
    var k := p.a.node;
    ShapedLayout(nodes, n, bw, k);
    ParentOfAncestor(k, start);
    SharedParentCarriesB(nodes, p, costStar, draw, rescore);
  }

  /**
   * A label whose first and last actions coincide trains only ancestors of
   * that action's leaf, at most one of them per round.
   */
  lemma {:induction false} SingleActionTrainsPath(nodes: seq<TreeNode>, n: u32, bw: u32, s: Sweep, start: nat,
                                                  costStar: real, draw: real, rescore: (nat, nat) -> real, levels: nat)
    requires Shaped(nodes, n, bw) && s.a.node < |nodes| && s.a.node == s.b.node && IsAncestor(s.a.node, start)
    ensures var r := Climb(nodes, s, costStar, draw, rescore, levels);
            r.a.node == r.b.node && IsAncestor(r.a.node, start)
            && |r.calls| <= |s.calls| + levels
            && forall j | |s.calls| <= j < |r.calls| :: IsAncestor(r.calls[j].node, start)
    decreases levels
  {
    if levels > 0 {
      var prev := Climb(nodes, s, costStar, draw, rescore, levels - 1);
      SingleActionTrainsPath(nodes, n, bw, s, start, costStar, draw, rescore, levels - 1);
      SingleActionRound(nodes, n, bw, prev, start, costStar, draw, rescore);
      var r := ClimbLevel(nodes, prev, costStar, draw, rescore);
      forall j | |s.calls| <= j < |prev.calls|
        ensures IsAncestor(r.calls[j].node, start)
      {
        assert r.calls[j] == r.calls[..|prev.calls|][j];
      }
    }
  }

  /**
   * In an unbalanced tree where a, the first logged action's frontier, is
   * the shallower one, a reaches the root a round early and the root, its
   * own parent, is then visited as a child: with 3 leaves and logged
   * actions 1 and 3, the root is trained in both rounds, the second time
   * against its "sibling" node 1.
   */
  lemma RootTrainedTwice()
    ensures var costs := [CbClass(1.0, 1, 1.0), CbClass(0.0, 3, 1.0)];
            var nodes := Layout(3, 0);
            Linked(nodes) && TreeDepth(3) == 2
            && Climb(nodes, InitialSweep(costs, 2), 1.0, 0.0, (p: nat, k: nat) => 0.5, 2).calls
               == [TrainCall(0, Left, 1.0), TrainCall(0, Right, 0.5)]
  {
    var costs := [CbClass(1.0, 1, 1.0), CbClass(0.0, 3, 1.0)];
    var nodes := Layout(3, 0);
    LayoutIsShaped(3, 0);
    assert Level(4) == 2 by {
      assert ParentOf(4) == 1 && ParentOf(1) == 0;
    }
    var rescore := (p: nat, k: nat) => 0.5;
    var s0 := InitialSweep(costs, 2);
    assert s0.a == NodeCost(2, 1.0) && s0.b == NodeCost(4, 1.0);
    var s1 := ClimbLevel(nodes, s0, 1.0, 0.0, rescore);
    assert s1 == Sweep(NodeCost(0, 0.5), NodeCost(1, 1.0), [TrainCall(0, Left, 1.0)]);
    var s2 := ClimbLevel(nodes, s1, 1.0, 0.0, rescore);
    assert s2.calls == [TrainCall(0, Left, 1.0), TrainCall(0, Right, 0.5)];
    ClimbStep(nodes, s0, 1.0, 0.0, rescore, 0);
    ClimbStep(nodes, s0, 1.0, 0.0, rescore, 1);
  }

  /**
   * When b is the shallower frontier, it reaches the root first, and in the
   * last round a and b share the root as parent, so only a is visited and
   * the root is never a child: with 3 leaves and logged actions 3 and 1,
   * the second round trains the root once, from node 1.
   */
  lemma ShallowerSecondFrontierIsNotVisited()
    ensures var costs := [CbClass(1.0, 3, 1.0), CbClass(0.0, 1, 1.0)];
            var nodes := Layout(3, 0);
            var rescore := (p: nat, k: nat) => 0.5;
            Linked(nodes) && TreeDepth(3) == 2
            && var s1 := ClimbLevel(nodes, InitialSweep(costs, 2), 1.0, 0.0, rescore);
               s1.a.node == 1 && s1.b.node == 0 && nodes[1].parentId == nodes[0].parentId
               && Climb(nodes, InitialSweep(costs, 2), 1.0, 0.0, rescore, 2).calls
                  == [TrainCall(1, Left, 1.0), TrainCall(0, Left, 1.0), TrainCall(0, Right, 0.5)]
  {
    var costs := [CbClass(1.0, 3, 1.0), CbClass(0.0, 1, 1.0)];
    var nodes := Layout(3, 0);
    LayoutIsShaped(3, 0);
    assert Level(4) == 2 by {
      assert ParentOf(4) == 1 && ParentOf(1) == 0;
    }
    var rescore := (p: nat, k: nat) => 0.5;
    var s0 := InitialSweep(costs, 2);
    assert s0.a == NodeCost(4, 1.0) && s0.b == NodeCost(2, 1.0);
    var s1 := ClimbLevel(nodes, s0, 1.0, 0.0, rescore);
    assert s1 == Sweep(NodeCost(1, 0.5), NodeCost(0, 0.5), [TrainCall(1, Left, 1.0), TrainCall(0, Left, 1.0)]);
    var s2 := ClimbLevel(nodes, s1, 1.0, 0.0, rescore);
    assert s2.calls == [TrainCall(1, Left, 1.0), TrainCall(0, Left, 1.0), TrainCall(0, Right, 0.5)];
    ClimbStep(nodes, s0, 1.0, 0.0, rescore, 0);
    ClimbStep(nodes, s0, 1.0, 0.0, rescore, 1);
  }

  /** Every call from index `from` on trains an internal node without a shortcut flag. */
  ghost predicate LearnersOnly(calls: seq<TrainCall>, from: nat, n: u32, bw: u32)
  {
    forall j | from <= j < |calls| ::
      calls[j].node < n - 1 && !IsRightOnly(n, bw, calls[j].node) && !IsLeftOnly(n, bw, calls[j].node)
  }

  lemma LearnersOnlyJoin(calls: seq<TrainCall>, prefix: seq<TrainCall>, from: nat, n: u32, bw: u32)
    requires from <= |prefix| <= |calls| && calls[..|prefix|] == prefix
    requires LearnersOnly(prefix, from, n, bw) && LearnersOnly(calls, |prefix|, n, bw)
    ensures LearnersOnly(calls, from, n, bw)
  {
    forall j | from <= j < |prefix|
      ensures calls[j] == prefix[j]
    {
    }
  }

  /**
   * Every learner that learn trains is an internal node without a shortcut
   * flag: leaves and shortcut nodes have no learner to train.
   */
  lemma {:induction false} ClimbTrainsOnlyLearners(nodes: seq<TreeNode>, n: u32, bw: u32, s: Sweep, costStar: real,
                                                   draw: real, rescore: (nat, nat) -> real, levels: nat)
    requires Shaped(nodes, n, bw) && n >= 2 && s.a.node < |nodes| && s.b.node < |nodes|
    ensures LearnersOnly(Climb(nodes, s, costStar, draw, rescore, levels).calls, |s.calls|, n, bw)
    decreases levels
  {
    if levels > 0 {
      var prev := Climb(nodes, s, costStar, draw, rescore, levels - 1);
      ClimbTrainsOnlyLearners(nodes, n, bw, s, costStar, draw, rescore, levels - 1);
      ClimbLevelTrainsLearners(nodes, n, bw, prev, costStar, draw, rescore);
      LearnersOnlyJoin(ClimbLevel(nodes, prev, costStar, draw, rescore).calls, prev.calls, |s.calls|, n, bw);
    }
  }

  lemma ClimbLevelTrainsLearners(nodes: seq<TreeNode>, n: u32, bw: u32, s: Sweep, costStar: real,
                                 draw: real, rescore: (nat, nat) -> real)
    requires Shaped(nodes, n, bw) && n >= 2 && s.a.node < |nodes| && s.b.node < |nodes|
    ensures LearnersOnly(ClimbLevel(nodes, s, costStar, draw, rescore).calls, |s.calls|, n, bw)
  {
    var va := VisitNode(nodes, s.a, s.a, s.b, costStar, draw, rescore, |s.calls|);
    VisitTrainsLearner(nodes, n, bw, s.a, s.a, s.b, costStar, draw, rescore, |s.calls|);
    VisitTrainsLearner(nodes, n, bw, s.b, s.a, s.b, costStar, draw, rescore, |s.calls| + |va.calls|);
  }

  /** A visit trains only the entry's parent, which is internal and carries no shortcut flag. */
  lemma VisitTrainsLearner(nodes: seq<TreeNode>, n: u32, bw: u32, vc: NodeCost, a: NodeCost, b: NodeCost,
                           costStar: real, draw: real, rescore: (nat, nat) -> real, step: nat)
    requires Shaped(nodes, n, bw) && n >= 2 && vc.node < |nodes|
    ensures forall c <- VisitNode(nodes, vc, a, b, costStar, draw, rescore, step).calls ::
              c.node == ParentOf(vc.node) && c.node < n - 1 && !IsRightOnly(n, bw, c.node) && !IsLeftOnly(n, bw, c.node)
  {
    ShapedLayout(nodes, n, bw, vc.node);
    ShapedLayout(nodes, n, bw, ParentOf(vc.node));
  }

  /**
   * The nodes after the calls: every node keeps its structure, and its
   * learn count grows by the number of calls that trained it.
   */
  function Trained(nodes: seq<TreeNode>, calls: seq<TrainCall>): (r: seq<TreeNode>)
    ensures |r| == |nodes|
  {
    seq(|nodes|, k requires 0 <= k < |nodes| => nodes[k].(learnCount := nodes[k].learnCount + TrainCount(calls, k)))
  }

  /** Training leaves node k equal to what it was; a node no call names keeps its learn count too. */
  lemma TrainedKeepsNode(nodes: seq<TreeNode>, calls: seq<TrainCall>, k: nat)
    requires k < |nodes|
    ensures SameNode(Trained(nodes, calls)[k], nodes[k])
    ensures (forall j | 0 <= j < |calls| :: calls[j].node != k) ==> Trained(nodes, calls)[k] == nodes[k]
  {
  }

  /** Counting trainings distributes over concatenated call traces. */
  lemma {:induction false} TrainCountConcat(c1: seq<TrainCall>, c2: seq<TrainCall>, k: nat)
    ensures TrainCount(c1 + c2, k) == TrainCount(c1, k) + TrainCount(c2, k)
    decreases |c2|
  {
    if c2 != [] {
      var init := c2[..|c2| - 1];
      assert (c1 + c2)[..|c1 + c2| - 1] == c1 + init;
      TrainCountConcat(c1, init, k);
    } else {
      assert c1 + c2 == c1;
    }
  }

  /** Training in two batches is training with the concatenated trace. */
  lemma TrainedConcat(nodes: seq<TreeNode>, c1: seq<TrainCall>, c2: seq<TrainCall>)
    ensures Trained(Trained(nodes, c1), c2) == Trained(nodes, c1 + c2)
  {
    forall k | 0 <= k < |nodes|
      ensures Trained(Trained(nodes, c1), c2)[k] == Trained(nodes, c1 + c2)[k]
    {
      TrainCountConcat(c1, c2, k);
    }
  }

  /** Training never disturbs the layout. */
  lemma TrainedKeepsShape(nodes: seq<TreeNode>, n: u32, bw: u32, calls: seq<TrainCall>)
    requires Shaped(nodes, n, bw)
    ensures Shaped(Trained(nodes, calls), n, bw)
  {
    var t := Trained(nodes, calls);
    forall k | 0 <= k < |t|
      ensures SlotFits(t, n, bw, k)
    {
      assert SlotFits(nodes, n, bw, k);
      TrainedKeepsNode(nodes, calls, k);
    }
  }

  /** No call changes nothing. */
  lemma TrainedNone(nodes: seq<TreeNode>)
    ensures Trained(nodes, []) == nodes
  {
    assert forall k | 0 <= k < |nodes| :: Trained(nodes, [])[k] == nodes[k];
  }

  /** One call bumps the learn count of its node and of no other. */
  lemma TrainedOnce(nodes: seq<TreeNode>, c: TrainCall)
    requires c.node < |nodes|
    ensures Trained(nodes, [c]) == nodes[c.node := nodes[c.node].(learnCount := nodes[c.node].learnCount + 1)]
  {
    assert [c][..0] == [];
    assert forall k | 0 <= k < |nodes| :: TrainCount([c], k) == if k == c.node then 1 else 0;
  }
}
