# Offset tree (continuous actions) — a verified Dafny model

This project models the offset tree reduction of `vowpalwabbit/offset_tree_cont.cc`. The reduction picks one of `n` actions with a minimum-depth binary tree whose internal nodes each own a binary learner. Prediction walks from the root to a leaf. Learning takes a contextual-bandit label and trains the tree bottom-up.

The model has six modules:

- `TreeNodes` (`tree_node.dfy`) holds:
  - the node record and its equality;
  - the uint32 helpers the source's arithmetic needs.
- `MinDepthTree` (`min_depth_tree.dfy`) holds:
  - the heap layout of `min_depth_binary_tree`: node `k` has children `2k+1` and `2k+2`, the root is its own parent, ids `0..n-2` are internal and `n-1..2n-2` are leaves;
  - the two bandwidth shortcut targets;
  - `get_sibling`;
  - the class `MinDepthBinaryTree`. Its `BuildTree` is the construction loop, proved to produce `Layout(n, bw)`.
- `Labels` (`labels.dfy`) holds:
  - the contextual-bandit label;
  - the example record (label, importance weight, scalar prediction) as a class that predict and learn mutate in place;
  - the trace of calls made to the base learner.
- `Routing` (`routing.dfy`) holds the walk of `predict` as a function over the heap arithmetic, with its lemmas.
- `Training` (`training.dfy`) holds the specification of `learn`:
  - `init_node_costs` and `return_cost`;
  - one visit of the inner loop (`VisitNode`);
  - one round of the outer loop (`ClimbLevel`) and `levels` rounds (`Climb`);
  - the learn-count bookkeeping (`Trained`).
- `OffsetTreeCont` (`offset_tree.dfy`) holds the class `OffsetTree`: `Init`, `LearnerCount`, `Predict`, `InitNodeCosts` and `Learn`. Each imperative method is proved against the specification functions above.

The base learner is foreign code and is represented as follows:

- `predict` receives `score: nat -> real`, node learner `k`'s scalar prediction for the example.
- `learn` receives `rescore: (nat, nat) -> real`. `rescore(p, step)` is node `p`'s prediction right after its own training. `step` counts the base-learner calls made earlier in the current `learn` call, at any node; the training of `p` itself is not included.
- `learn` returns the calls it made to the base learner's `learn` as a `seq<TrainCall>` (node, binary label, weight).
- The keep-or-drop decision for tiny weights uses `draw`, a real in `[0, 0.00001)`. It stands for `uniform_random_merand48(uniform_hash(app_seed)) * weight_th`. `app_seed` is never advanced in this file, so one draw serves a whole `learn` call.
- `BuildTree` receives `reserved`, whether `nodes.reserve` succeeds. When it fails, the source's `bad_alloc` handler becomes the `OutOfMemory` result.

The model follows what the code does, including where it departs from its own comments:

- `get_sibling` can be reached on the root, although the comment at line 125 says it is not expected to be. This happens when `a`, the frontier of the label's first action, is the shallower one. Once `a` reaches node 0 it stays there, because the root is its own parent. In the next round the root is visited as a child, and `get_sibling` returns node 1. `Training.RootTrainedTwice` exhibits this: with 3 leaves and logged actions 1 and 3, the root is trained in both rounds. `MinDepthTree.RootSibling` states the root case of `get_sibling`.
- When `b` is the shallower frontier instead, the root is never visited as a child. In the last round `a` and `b` share the root as parent, so only `a` is visited. `Training.ShallowerSecondFrontierIsNotVisited` exhibits this with 3 leaves and logged actions 3 and 1.
- `predict` restores only the example's label. The scalar prediction is left at the last score consulted, as `Predict`'s contract states.
- `learn` reads the node array through a reference taken before the loop. Training only bumps `learn_count`, which no read in the loop uses. The model therefore reads a snapshot of the nodes (`nodes`) while the tree's own array is updated.
- At a shortcut parent the inner loop `continue`s and skips its `a_parent_cost`/`b_parent_cost` assignment. The kept value is the entry's own cost, so the model returns `cost_v` there.
- `abs(cost_v - cost_w)` at line 267 is unqualified. Depending on the headers it could resolve to the integer `abs`. The model reads it as the real absolute value.

## Model

| member | source | states |
|---|---|---|
| TreeNodes.SameNode | vowpalwabbit/offset_tree_cont.cc:40-46 | node equality holds iff the two nodes agree on every field except `learn_count` |
| TreeNodes.SameNodeIgnoresLearnCount | vowpalwabbit/offset_tree_cont.cc:44-45 | a node equals itself, and equals any copy that differs only in its learn count |
| TreeNodes.Sub32 | vowpalwabbit/offset_tree_cont.cc:117 | uint32 subtraction is exact when no underflow occurs, and otherwise wraps to `x + 2^32 - y` |
| TreeNodes.AsInt32 | vowpalwabbit/offset_tree_cont.cc:146 | the int32 reading of a uint32 lies in the int32 range, keeps values below 2^31, and differs from the uint32 value by a multiple of 2^32 |
| Labels.TrainCount | vowpalwabbit/offset_tree_cont.cc:288 | a node's training count is at most the number of calls, and is zero exactly when no call names the node |
| MinDepthTree.LevelBounds | vowpalwabbit/offset_tree_cont.cc:80-87 | level `d` of the heap holds exactly the ids `2^d - 1 .. 2^(d+1) - 2` |
| MinDepthTree.LevelOfRange | vowpalwabbit/offset_tree_cont.cc:80-87 | every id between `2^d - 1` and `2^(d+1) - 2` is at depth `d` |
| MinDepthTree.LevelMonotone | vowpalwabbit/offset_tree_cont.cc:80-87 | the depth assigned to a node never decreases as ids increase |
| MinDepthTree.RightOnlyTarget | vowpalwabbit/offset_tree_cont.cc:94 | defines the id flagged right_only, `n / (2·bandwidth) - 1` with the subtraction in uint32; its properties are in `NoShortcutWithoutBandwidth`, `UnderflowedRightTargetFlagsNothing`, `RightOnlyTargetAsWritten` and `WideBandwidthHasNoRightShortcut` |
| MinDepthTree.LeftOnlyTarget | vowpalwabbit/offset_tree_cont.cc:95 | defines the id flagged left_only, `n / bandwidth - 2` with the subtraction in uint32; `UnderflowedLeftTargetFlagsNothing` states when it flags nothing |
| MinDepthTree.IsRightOnly | vowpalwabbit/offset_tree_cont.cc:92-94 | defines the right_only flag of node k: a non-root node, a nonzero bandwidth, and k equal to the right_only target; `NoShortcutWithoutBandwidth` states that bandwidth 0 and the root flag nothing |
| MinDepthTree.IsLeftOnly | vowpalwabbit/offset_tree_cont.cc:100-103 | defines the left_only flag of node k in the same way, against the left_only target |
| MinDepthTree.NodeAfter | vowpalwabbit/offset_tree_cont.cc:83-105 | defines node k once the first `built` nodes are internal: children `2k+1`/`2k+2` when internal, else a leaf; parent `ParentOf(k)`, depth `Level(k)`, shortcut flags, learn count 0; `MakeChild` and `GrowStep` tie it to the loop |
| MinDepthTree.Layout | vowpalwabbit/offset_tree_cont.cc:73-106 | defines the node array built for n leaves, `NodeAfter` for each of the `2n - 1` ids with `n - 1` internal nodes; `ShapedLayout`, `LayoutIsShaped` and `GrowLayout` carry its properties |
| MinDepthTree.MinimumDepth | vowpalwabbit/offset_tree_cont.cc:80-109 | every node is at most the tree's depth deep, and every leaf is at least depth - 1 deep (minimum depth) |
| MinDepthTree.ShapedLayout | vowpalwabbit/offset_tree_cont.cc:73-106 | node k: `id == k`, parent `ParentOf(k)`, depth `Level(k)`, leaf iff `k >= n - 1`, flags as targeted, children `2k+1`/`2k+2` whose parent is k; root's parent is 0 |
| MinDepthTree.LayoutIsShaped | vowpalwabbit/offset_tree_cont.cc:73-106 | the constructed layout has all the properties of `ShapedLayout` |
| MinDepthTree.NoShortcutWithoutBandwidth | vowpalwabbit/offset_tree_cont.cc:78-96 | with bandwidth 0 no node is a shortcut, and the root never is one |
| MinDepthTree.UnderflowedRightTargetFlagsNothing | vowpalwabbit/offset_tree_cont.cc:94 | when `n / (2·bandwidth) - 1` underflows in uint32, no node is right_only |
| MinDepthTree.UnderflowedLeftTargetFlagsNothing | vowpalwabbit/offset_tree_cont.cc:95 | when `n / bandwidth - 2` underflows in uint32, no node is left_only |
| MinDepthTree.GetSibling | vowpalwabbit/offset_tree_cont.cc:123-128 | defines `get_sibling`: the parent's right child when v is its left child, and its left child otherwise; `SiblingInvolution` and `RootSibling` carry its properties |
| MinDepthTree.SiblingInvolution | vowpalwabbit/offset_tree_cont.cc:123-128 | for a non-root node, the sibling has the same parent, a different id, and its own sibling is the node again |
| MinDepthTree.RootSibling | vowpalwabbit/offset_tree_cont.cc:125-127 | on the root of a tree with at least two leaves, `get_sibling` returns node 1 |
| MinDepthTree.RightOnlyTargetAsWritten | vowpalwabbit/offset_tree_cont.cc:94 | the right_only target with `2*bandwidth` taken in uint32 agrees with the unwrapped target for every bandwidth below 2^31 |
| MinDepthTree.WrappedBandwidthMarksNode | vowpalwabbit/offset_tree_cont.cc:94 | with 4 leaves, bandwidth 2^31 divides by zero and bandwidth 2^31+1 flags node 1, whereas the unwrapped target flags nothing |
| MinDepthTree.WideBandwidthHasNoRightShortcut | vowpalwabbit/offset_tree_cont.cc:94 | with the product unwrapped, a bandwidth wider than half the leaves flags no node right_only |
| MinDepthTree.MinDepthBinaryTree.constructor | vowpalwabbit/offset_tree_cont.cc:53-63 | a new tree is uninitialised, with no nodes, no leaves and depth 0, the state the first build takes as fresh |
| MinDepthTree.MinDepthBinaryTree.BuildTree | vowpalwabbit/offset_tree_cont.cc:50-115 | a repeat call with the same n is a no-op, and one with another n reports the mismatch and leaves the tree (and the bandwidth it was built with) unchanged; on a fresh tree n and the bandwidth are recorded; `n == 0` is initialised with no nodes; a failed reserve reports OutOfMemory; otherwise the nodes are `Layout(n, bw)`; the tree stays valid |
| MinDepthTree.MinDepthBinaryTree.InternalNodeCount | vowpalwabbit/offset_tree_cont.cc:117 | for a built tree the count is `n - 1`, and the node count is internal + leaves |
| MinDepthTree.MinDepthBinaryTree.LeafNodeCount | vowpalwabbit/offset_tree_cont.cc:119 | a built tree over c leaves has `2c - 1` nodes, or none when c is 0 |
| MinDepthTree.MinDepthBinaryTree.Depth | vowpalwabbit/offset_tree_cont.cc:121 | the depth is that of the last node created, and is 0 for a single leaf |
| MinDepthTree.MinDepthBinaryTree.LastNodeAtDepth | vowpalwabbit/offset_tree_cont.cc:105-109 | in a built tree the stored depth is the depth of the last node appended |
| MinDepthTree.GrowLayout | vowpalwabbit/offset_tree_cont.cc:76-109 | the construction loop appends exactly the layout, and its depth counter ends at the tree's depth, the depth of the last child |
| MinDepthTree.GrowStep | vowpalwabbit/offset_tree_cont.cc:83-105 | one loop iteration turns the layout with i internal nodes into the one with i + 1 |
| MinDepthTree.DepthStep | vowpalwabbit/offset_tree_cont.cc:86-87 | the depth counter and its `2^(depth+1) - 1` boundary follow the level of the children being appended |
| MinDepthTree.MakeChild | vowpalwabbit/offset_tree_cont.cc:89-105 | the child appended for id `2i+1` or `2i+2` is the layout's node at that id once i + 1 nodes are internal: a leaf under node i at its level, flagged iff its id is a shortcut target |
| Routing.Route | vowpalwabbit/offset_tree_cont.cc:157-182 | defines the descent from node k: stop at a leaf; at right_only take the right child, else at left_only the left one, else consult the node's score and go left iff it is negative; returns the leaf and the consulted nodes; `RouteEndsAtLeaf`, `RouteAsksInOrder`, `ShortcutsIgnoreScorer`, `RouteFollowsNodes` and `RouteStopsAtLeaf` carry its properties |
| Routing.ActionOf | vowpalwabbit/offset_tree_cont.cc:184 | defines the action of a leaf, `id - internal + 1`; `PredictedActionInRange` and `ActionsOfLeavesAreDistinct` carry its properties |
| Routing.RouteEndsAtLeaf | vowpalwabbit/offset_tree_cont.cc:159-182 | the walk ends at a leaf whose id is at least its start's; it consults only internal non-shortcut nodes, with ids at least its start's |
| Routing.RouteAsksInOrder | vowpalwabbit/offset_tree_cont.cc:159-181 | the nodes a walk consults have strictly increasing ids, so none is consulted twice |
| Routing.PredictedActionInRange | vowpalwabbit/offset_tree_cont.cc:184 | the action predicted from the root is in `1..n` |
| Routing.ActionsOfLeavesAreDistinct | vowpalwabbit/offset_tree_cont.cc:184 | `id - internal + 1` maps the leaves one-to-one onto `1..n` |
| Routing.ShortcutsIgnoreScorer | vowpalwabbit/offset_tree_cont.cc:161-164 | two scorers that agree on the non-shortcut internal nodes route identically, so shortcut nodes never consult the scorer |
| Routing.NodeLinks | vowpalwabbit/offset_tree_cont.cc:159-179 | a built node's id, leaf flag, children and shortcut flags are those of the heap layout |
| Routing.RouteFollowsNodes | vowpalwabbit/offset_tree_cont.cc:161-180 | at an internal node: right_only takes the right child, else left_only the left one, else the node is consulted and a negative score goes left |
| Routing.RouteStopsAtLeaf | vowpalwabbit/offset_tree_cont.cc:159 | the walk ends at the first leaf reached |
| Training.InvertedAssertRejectsReadableLabels | vowpalwabbit/offset_tree_cont.cc:189-190 | every label whose first entry `init_node_costs` reads fails the assertion as written |
| Training.LeafOfAction | vowpalwabbit/offset_tree_cont.cc:194 | without wrap-around, action `x`'s leaf is `x + internal - 1` |
| Training.CostStar | vowpalwabbit/offset_tree_cont.cc:192 | defines cost_star, the first entry's cost over its propensity; `InitialFrontierAtLoggedLeaves` states it is the starting cost of both frontiers |
| Training.InitialSweep | vowpalwabbit/offset_tree_cont.cc:187-203 | defines the state `init_node_costs` leaves: a at the first entry's leaf, b at the last entry's, both at cost_star, no calls yet; `InitialFrontierAtLoggedLeaves` carries its properties and `InitNodeCosts` is proved against it |
| Training.InitialFrontierAtLoggedLeaves | vowpalwabbit/offset_tree_cont.cc:187-203 | a and b start at the leaves whose predicted action is the label's first and last action, both at cost_star = cost₀ / prob₀ |
| Training.ReturnCost | vowpalwabbit/offset_tree_cont.cc:209-221 | defines `return_cost`: 0 below a, a's cost at a, cost_star strictly between a and b, b's cost at b, 0 above; `InitialBeliefIsFlat` and `ReturnCostOutsideFrontiers` carry its properties |
| Training.InitialBeliefIsFlat | vowpalwabbit/offset_tree_cont.cc:209-221 | with fresh frontiers, return_cost is cost_star at a and from a through b, and 0 elsewhere |
| Training.ReturnCostOutsideFrontiers | vowpalwabbit/offset_tree_cont.cc:209-221 | nodes below a, or above both frontiers, cost 0 |
| Training.Abs | vowpalwabbit/offset_tree_cont.cc:267 | the weight is non-negative and is `±(cost_v - cost_w)` |
| Training.Min | vowpalwabbit/offset_tree_cont.cc:296 | `std::min` is a lower bound that is one of its arguments |
| Training.Max | vowpalwabbit/offset_tree_cont.cc:302 | `std::max` is an upper bound that is one of its arguments |
| Training.Interpolate | vowpalwabbit/offset_tree_cont.cc:292-304 | defines the parent's cost after training: when the retrained score's side matches the label, confidence `\|s\|` weighs the cheaper cost, otherwise the dearer one; `InterpolateBetween` and `InterpolateConfident` carry its properties |
| Training.InterpolateBetween | vowpalwabbit/offset_tree_cont.cc:292-304 | with a score in [-1, 1] the parent's cost lies between the two children's costs |
| Training.InterpolateConfident | vowpalwabbit/offset_tree_cont.cc:292-304 | a fully confident learner passes on the cheaper cost when it agrees with the label, and the dearer one otherwise |
| Training.VisitNode | vowpalwabbit/offset_tree_cont.cc:249-311 | a visit makes at most one call, to the entry's parent, with weight ≥ 1e-5 and only at a non-shortcut parent; with no call the entry's cost passes up |
| Training.VisitLabelsCheaperChild | vowpalwabbit/offset_tree_cont.cc:261-263 | for an entry below the root, the label is LEFT exactly when the left child is strictly cheaper than the right one |
| Training.VisitFloorsWeight | vowpalwabbit/offset_tree_cont.cc:267-284 | with something to learn, the parent is trained iff `\|cost_v - cost_w\|` ≥ 1e-5 or the draw is below it; a kept tiny weight becomes exactly 1e-5 |
| Training.ShortcutParentPassesCost | vowpalwabbit/offset_tree_cont.cc:254-255 | a shortcut parent is not trained, and the entry's cost passes up |
| Training.EqualCostsPassCost | vowpalwabbit/offset_tree_cont.cc:258 | a sibling of equal cost leaves nothing to learn: no training, and the entry's cost passes up |
| Training.VisitCostBetween | vowpalwabbit/offset_tree_cont.cc:292-304 | with scores in [-1, 1] (the binary or glf1 link the setup installs), the parent's cost lies between cost_v and cost_w |
| Training.ClimbLevel | vowpalwabbit/offset_tree_cont.cc:242-314 | a round moves a and b to their parents and appends at most two calls after the earlier ones |
| Training.ClimbLevelByVisits | vowpalwabbit/offset_tree_cont.cc:242-314 | a round visits a, then b only when the parents differ, and uses their parent costs |
| Training.SharedParentCarriesB | vowpalwabbit/offset_tree_cont.cc:243-246 | when a and b share a parent, only a is processed and b carries its old cost up |
| Training.Climb | vowpalwabbit/offset_tree_cont.cc:240-315 | `levels` rounds keep the frontiers inside the tree and append at most two calls per round after the earlier ones |
| Training.ClimbReachesRoot | vowpalwabbit/offset_tree_cont.cc:313-314 | each round lifts each frontier one level until it reaches the root, where it stays; after as many rounds as a frontier's level it is at node 0 |
| Training.FrontiersEndAtRoot | vowpalwabbit/offset_tree_cont.cc:240-314 | in a tree with at least two leaves, `depth()` rounds bring both frontiers to the root from any starting nodes |
| Training.SingleActionRound | vowpalwabbit/offset_tree_cont.cc:243-246 | from one shared frontier node, a round trains at most its parent, and both frontiers meet there |
| Training.SingleActionTrainsPath | vowpalwabbit/offset_tree_cont.cc:240-315 | a label whose first and last actions coincide trains only ancestors of that leaf, at most one per round |
| Training.RootTrainedTwice | vowpalwabbit/offset_tree_cont.cc:123-128 | with 3 leaves and logged actions 1 and 3 (a the shallower frontier) the root is trained in both rounds, the second time as a child, against node 1 |
| Training.ShallowerSecondFrontierIsNotVisited | vowpalwabbit/offset_tree_cont.cc:243-246 | with 3 leaves and logged actions 3 and 1 (b the shallower frontier) the frontiers share the root as parent in the second round, so only a is visited and the root is trained from node 1 |
| Training.ClimbTrainsOnlyLearners | vowpalwabbit/offset_tree_cont.cc:254-288 | every node learn trains is internal and has no shortcut flag |
| Training.ClimbLevelTrainsLearners | vowpalwabbit/offset_tree_cont.cc:254-288 | one round trains only internal non-shortcut nodes |
| Training.VisitTrainsLearner | vowpalwabbit/offset_tree_cont.cc:254-288 | a visit trains only the entry's parent, which is internal and has no shortcut flag |
| Training.Trained | vowpalwabbit/offset_tree_cont.cc:288 | the node array after a call trace has the same length, each node's learn count grown by the calls naming it; `TrainedKeepsNode`, `TrainedOnce`, `TrainedNone`, `TrainedConcat` and `TrainedKeepsShape` carry its properties |
| Training.TrainedKeepsNode | vowpalwabbit/offset_tree_cont.cc:288 | training keeps every node equal under `operator==`, and a node no call names is unchanged |
| Training.TrainCountConcat | vowpalwabbit/offset_tree_cont.cc:288 | training counts add up over concatenated call traces |
| Training.TrainedConcat | vowpalwabbit/offset_tree_cont.cc:288 | training in two batches equals training with the concatenated trace |
| Training.TrainedKeepsShape | vowpalwabbit/offset_tree_cont.cc:288 | training never disturbs the layout |
| Training.TrainedNone | vowpalwabbit/offset_tree_cont.cc:288 | no call changes no node |
| Training.TrainedOnce | vowpalwabbit/offset_tree_cont.cc:288 | one call increments the learn count of its node and of no other |
| OffsetTreeCont.OffsetTree.constructor | vowpalwabbit/offset_tree_cont.cc:144 | a new offset tree owns a fresh, uninitialised binary tree with no leaves, which only `init` builds |
| OffsetTreeCont.OffsetTree.Init | vowpalwabbit/offset_tree_cont.cc:144 | the results of `build_tree`: on a built tree, `Built` for the same count and `AlreadyInitialized` for another, with the tree and its bandwidth unchanged; on a fresh tree, n and the bandwidth recorded, no nodes for n = 0, `OutOfMemory` and no nodes when reserve fails, else the layout |
| OffsetTreeCont.OffsetTree.LearnerCount | vowpalwabbit/offset_tree_cont.cc:146 | the learner count is `n - 1` for a built tree; when construction failed after recording n leaves, the uint32 underflow of `0 - n` reads back as `-n` |
| OffsetTreeCont.OffsetTree.Predict | vowpalwabbit/offset_tree_cont.cc:148-185 | 0 for a tree without leaves, built or not; otherwise the action of the leaf `Route` reaches from the root, in `1..n`; label and weight restored; prediction = last score consulted |
| OffsetTreeCont.Descend | vowpalwabbit/offset_tree_cont.cc:157-182 | the loop reaches the leaf of the routing walk, and leaves the last consulted score in the prediction |
| OffsetTreeCont.OffsetTree.InitNodeCosts | vowpalwabbit/offset_tree_cont.cc:187-203 | cost_star and both frontiers are those of `InitialSweep`, at the logged actions' leaves; the tree stays valid |
| OffsetTreeCont.OffsetTree.Learn | vowpalwabbit/offset_tree_cont.cc:223-320 | frontiers and base-learner calls are `Climb` from the initial frontiers over `depth()` rounds; learn counts grow by the calls; tree stays valid; label, weight, prediction restored; with at least two leaves both frontiers end at the root |
| OffsetTreeCont.OffsetTree.ClimbToRoot | vowpalwabbit/offset_tree_cont.cc:240-315 | the outer loop performs `levels` rounds of `ClimbLevel`, counting each training in the tree |
| OffsetTreeCont.OffsetTree.LearnLevel | vowpalwabbit/offset_tree_cont.cc:242-314 | one outer iteration is `ClimbLevel`: visits over `set_d`, then both frontiers move to their parents |
| OffsetTreeCont.OffsetTree.VisitEntry | vowpalwabbit/offset_tree_cont.cc:249-311 | one inner iteration computes `VisitNode`'s parent cost and call, and counts the training in the tree; when it trains, the example carries the call's binary label and weight, and its prediction is the parent's re-predicted score |
| OffsetTreeCont.OffsetTree.LearnNode | vowpalwabbit/offset_tree_cont.cc:287-304 | training a node bumps its learn count only; the example's prediction becomes the re-predicted score, and the parent cost is its interpolation; label and weight are left as set for the call |

## Left out

- Option parsing, learner registration and the wrapper `predict`/`learn` functions (lines 322-394) are not modelled. The only fact taken from them is that the `binary`/`glf1` link bounds scores to [-1, 1]. This appears as a precondition of `VisitCostBetween` and `InterpolateBetween`.
- The base learner is not modelled. Its `predict` and `learn` are the `score`/`rescore` oracles and the returned call trace.
- Hashing and the pseudo-random draw are not modelled. They become the `draw` parameter.
- The classes' declarations and member initialisers are in `vowpalwabbit/offset_tree_cont.h`, which is not part of this model. The two constructors take the starting state that `build_tree` (line 53) and `init` (line 144) presume: an uninitialised tree with no nodes.
- `VW_DBG` tracing, `tree_stats_to_string`, `set_trace_message` and the destructor are not modelled. They produce output only.
- IEEE float rounding is not modelled; costs, weights and scores are `real`.
- A zero propensity is excluded by `LearnableLabel`. With floats it would give an infinite cost_star.
- `partial_prediction` and `simple.initial`, which predict and learn reset before consulting a learner, are not modelled. They only feed the base learner.
- The union layout of the label is modelled as a two-case datatype. `Binary(value)` stands for the `simple` label written for node learners.
- `OffsetTree.Learn`: requires `LearnableLabel`, that is:
  - a first entry with a positive action (the intended form of the assertion at line 189-190);
  - a nonzero propensity;
  - for two or more leaves, first and last entries whose node ids, computed in uint32 at lines 194 and 199, are slots of the node array.

  The source reads `nodes[_a.node_id]` at line 243 without a check, so other labels read outside the array. Some labels naming no action still pass: a last action 0 maps to internal node n - 2, and actions near 2^32 wrap to low ids. The model follows the code for these.
- `MinDepthTree.MinDepthBinaryTree.BuildTree` requires `n ≤ 2^29`. Above that, the last node lies at depth 30 or more, and `1 << (++depth + 1)` at line 87 shifts a signed `int` into its sign bit. The node ids themselves fit in uint32.
- `OffsetTree.LearnNode` counts trainings with an unbounded `learnCount`. The wrap of the 32-bit counter after 2^32 trainings is not modelled.
- `MinDepthTree.RightOnlyTarget` uses `2 * bandwidth` without uint32 wrap. The wrapped form is kept as `RightOnlyTargetAsWritten`; see Findings.
- `MinDepthTree.MinDepthBinaryTree.BuildTree` inherits that choice, and so do `Layout` and `Route`. For a bandwidth of 2^31 or more, BuildTree builds the tree the intended target gives. The source instead divides by zero at line 94 (bandwidth 2^31), or divides by the wrapped product, which can flag a different node.
- Whether the offset tree's cost estimates are unbiased is not stated. It is a statistical property of the learners, not of this code.

## Findings

| source | as written | input that shows it | evidently intended | confidence | as-written member | corrected member |
|---|---|---|---|---|---|---|
| vowpalwabbit/offset_tree_cont.cc:94 | `_num_leaf_nodes/(2*bandwidth) - 1` computes `2*bandwidth` in uint32, which wraps | 4 leaves: bandwidth 2^31 divides by zero; bandwidth 2^31 + 1 flags node 1 as right_only | the product taken without wrap, so a bandwidth wider than half the leaves flags no node | not executed; high | MinDepthTree.WrappedBandwidthMarksNode | MinDepthTree.WideBandwidthHasNoRightShortcut |
| vowpalwabbit/offset_tree_cont.cc:189 | `assert(ac.size() == 0)`, then reads `ac[0]` | any label with an entry, e.g. one entry (cost 1, action 1, probability 1), fails the assertion in a debug build | the label has a first entry with a positive action (`WellFormedLabel`) | not executed; high | Training.InvertedAssertRejectsReadableLabels | Training.InitialFrontierAtLoggedLeaves |
