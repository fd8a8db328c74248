/**
 * Routing an example from the root to a leaf, stated on the heap arithmetic
 * of the layout: at an internal node a right_only shortcut goes right, a
 * left_only shortcut goes left, and otherwise the node's scorer decides.
 */
module Routing {
  import opened TreeNodes
  import opened MinDepthTree

  /** The leaf a walk ends at and the internal nodes whose scorer it consulted, in order. */
  datatype Walk = Walk(leaf: nat, asked: seq<nat>)

  /** The walk from node k down to a leaf, for n leaves, bandwidth bw and per-node scores. */
  function Route(n: u32, bw: u32, score: nat -> real, k: nat): Walk
    requires k < NodeCount(n)
    decreases NodeCount(n) - k
  {
    if InternalCount(n) <= k then Walk(k, [])
    else if IsRightOnly(n, bw, k) then Route(n, bw, score, 2 * k + 2)
    else if IsLeftOnly(n, bw, k) then Route(n, bw, score, 2 * k + 1)
    else
      var next := Route(n, bw, score, if score(k) < 0.0 then 2 * k + 1 else 2 * k + 2);
      Walk(next.leaf, [k] + next.asked)
  }

  /** The 1-based action of leaf id: id - internal + 1. */
  function ActionOf(n: u32, leaf: nat): int
  {
    leaf - InternalCount(n) + 1
  }

  /**
   * A walk ends at a leaf with an id at least its start, and consults only
   * internal, non-shortcut nodes with ids at least its start.
   */
  lemma {:induction false} RouteEndsAtLeaf(n: u32, bw: u32, score: nat -> real, k: nat)
    requires k < NodeCount(n)
    ensures InternalCount(n) <= Route(n, bw, score, k).leaf < NodeCount(n)
    ensures k <= Route(n, bw, score, k).leaf
    ensures forall j <- Route(n, bw, score, k).asked ::
              k <= j < InternalCount(n) && !IsRightOnly(n, bw, j) && !IsLeftOnly(n, bw, j)
    decreases NodeCount(n) - k
  {
    if k < InternalCount(n) {
      if IsRightOnly(n, bw, k) {
        RouteEndsAtLeaf(n, bw, score, 2 * k + 2);
      } else if IsLeftOnly(n, bw, k) {
        RouteEndsAtLeaf(n, bw, score, 2 * k + 1);
      } else {
        RouteEndsAtLeaf(n, bw, score, if score(k) < 0.0 then 2 * k + 1 else 2 * k + 2);
      }
    }
  }

  /** A walk consults each node at most once, going strictly down the ids. */
  lemma {:induction false} RouteAsksInOrder(n: u32, bw: u32, score: nat -> real, k: nat)
    requires k < NodeCount(n)
    ensures Increasing(Route(n, bw, score, k).asked)
    decreases NodeCount(n) - k
  {
    if k < InternalCount(n) {
      if IsRightOnly(n, bw, k) {
        RouteAsksInOrder(n, bw, score, 2 * k + 2);
      } else if IsLeftOnly(n, bw, k) {
        RouteAsksInOrder(n, bw, score, 2 * k + 1);
      } else {
        var c := if score(k) < 0.0 then 2 * k + 1 else 2 * k + 2;
        RouteAsksInOrder(n, bw, score, c);
        RouteEndsAtLeaf(n, bw, score, c);
        assert Route(n, bw, score, k).asked == [k] + Route(n, bw, score, c).asked;
        PrependSmaller(k, Route(n, bw, score, c).asked);
      }
    }
  }

  /** Ids in strictly increasing order. */
  predicate Increasing(s: seq<nat>)
  {
    forall i, j | 0 <= i < j < |s| :: s[i] < s[j]
  }

  /** Putting a smaller id in front of an increasing sequence of ids keeps it increasing. */
  lemma PrependSmaller(k: nat, rest: seq<nat>)
    requires forall j <- rest :: k < j
    requires Increasing(rest)
    ensures Increasing([k] + rest)
  {
    var asked := [k] + rest;
    forall i, j | 0 <= i < j < |asked|
      ensures asked[i] < asked[j]
    {
      assert asked[j] == rest[j - 1] && rest[j - 1] in rest;
      if i > 0 {
        assert asked[i] == rest[i - 1];
      }
    }
  }

  /** Predicting from the root yields an action in 1..n, and each leaf has its own action. */
  lemma PredictedActionInRange(n: u32, bw: u32, score: nat -> real)
    requires n >= 1
    ensures 1 <= ActionOf(n, Route(n, bw, score, 0).leaf) <= n
  {
    RouteEndsAtLeaf(n, bw, score, 0);
  }

  /** The leaf-to-action map is a bijection from the leaves onto 1..n. */
  lemma ActionsOfLeavesAreDistinct(n: u32, j: nat, k: nat)
    requires InternalCount(n) <= j < NodeCount(n) && InternalCount(n) <= k < NodeCount(n)
    ensures 1 <= ActionOf(n, j) <= n
    ensures ActionOf(n, j) == ActionOf(n, k) ==> j == k
  {
  }

  /**
   * Scores matter only where a walk consults them: two scorers that agree on
   * every node outside the shortcuts route every example identically.
   */
  lemma {:induction false} ShortcutsIgnoreScorer(n: u32, bw: u32, s1: nat -> real, s2: nat -> real, k: nat)
    requires k < NodeCount(n)
    requires forall j: nat :: j < InternalCount(n) && !IsRightOnly(n, bw, j) && !IsLeftOnly(n, bw, j) ==> s1(j) == s2(j)
    ensures Route(n, bw, s1, k) == Route(n, bw, s2, k)
    decreases NodeCount(n) - k
  {
    if k < InternalCount(n) {
      if IsRightOnly(n, bw, k) {
        ShortcutsIgnoreScorer(n, bw, s1, s2, 2 * k + 2);
      } else if IsLeftOnly(n, bw, k) {
        ShortcutsIgnoreScorer(n, bw, s1, s2, 2 * k + 1);
      } else {
        ShortcutsIgnoreScorer(n, bw, s1, s2, if s1(k) < 0.0 then 2 * k + 1 else 2 * k + 2);
      }
    }
  }

  /** What a walk reads from a built node: its id, whether it is a leaf, its children and its flags. */
  lemma NodeLinks(nodes: seq<TreeNode>, n: u32, bw: u32, k: nat)
    requires Shaped(nodes, n, bw) && k < |nodes|
    ensures nodes[k].id == k
    ensures nodes[k].isLeaf <==> InternalCount(n) <= k
    ensures nodes[k].rightOnly == IsRightOnly(n, bw, k) && nodes[k].leftOnly == IsLeftOnly(n, bw, k)
    ensures !nodes[k].isLeaf ==>
              nodes[k].leftId == 2 * k + 1 < |nodes| && nodes[k].rightId == 2 * k + 2 < |nodes|
              && nodes[2 * k + 1].id == 2 * k + 1 && nodes[2 * k + 2].id == 2 * k + 2
  {
    assert SlotFits(nodes, n, bw, k);
    if k < n - 1 {
      assert SlotFits(nodes, n, bw, 2 * k + 1);
      assert SlotFits(nodes, n, bw, 2 * k + 2);
    }
  }

  /** The walk from node k completed by the nodes consulted before reaching k. */
  function Resume(n: u32, bw: u32, score: nat -> real, asked: seq<nat>, k: nat): Walk
    requires k < NodeCount(n)
  {
    var w := Route(n, bw, score, k);
    Walk(w.leaf, asked + w.asked)
  }

  /** Starting at node k with nothing consulted yet is the walk from k. */
  lemma ResumeFromStart(n: u32, bw: u32, score: nat -> real, k: nat)
    requires k < NodeCount(n)
    ensures Resume(n, bw, score, [], k) == Route(n, bw, score, k)
  {
    assert [] + Route(n, bw, score, k).asked == Route(n, bw, score, k).asked;
  }

  /**
   * Following the built nodes' fields is the heap walk at an internal node:
   * a shortcut moves to the flagged child without consulting the scorer,
   * and otherwise the node is consulted and the sign of its score decides.
   */
  lemma RouteFollowsNodes(nodes: seq<TreeNode>, n: u32, bw: u32, score: nat -> real, asked: seq<nat>, k: nat)
    requires Shaped(nodes, n, bw) && k < |nodes| && !nodes[k].isLeaf
    ensures k < nodes[k].leftId < |nodes| && k < nodes[k].rightId < |nodes|
    ensures nodes[nodes[k].leftId].id == nodes[k].leftId && nodes[nodes[k].rightId].id == nodes[k].rightId
    ensures nodes[k].rightOnly ==> Resume(n, bw, score, asked, k) == Resume(n, bw, score, asked, nodes[k].rightId)
    ensures !nodes[k].rightOnly && nodes[k].leftOnly ==>
              Resume(n, bw, score, asked, k) == Resume(n, bw, score, asked, nodes[k].leftId)
    ensures !nodes[k].rightOnly && !nodes[k].leftOnly ==>
              Resume(n, bw, score, asked, k)
              == Resume(n, bw, score, asked + [k], if score(k) < 0.0 then nodes[k].leftId else nodes[k].rightId)
  {
    NodeLinks(nodes, n, bw, k);
    if !nodes[k].rightOnly && !nodes[k].leftOnly {
      var c := if score(k) < 0.0 then nodes[k].leftId else nodes[k].rightId;
      assert (asked + [k]) + Route(n, bw, score, c).asked == asked + ([k] + Route(n, bw, score, c).asked);
    }
  }

  /** At a built leaf the walk ends there, having consulted what it consulted on the way. */
  lemma RouteStopsAtLeaf(nodes: seq<TreeNode>, n: u32, bw: u32, score: nat -> real, asked: seq<nat>, k: nat)
    requires Shaped(nodes, n, bw) && k < |nodes| && nodes[k].isLeaf
    ensures Resume(n, bw, score, asked, k) == Walk(k, asked)
  {
    NodeLinks(nodes, n, bw, k);
    assert asked + [] == asked;
  }
}
