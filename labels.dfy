/**
 * The parts of an example that the offset tree reads and temporarily
 * overwrites: its label, its importance weight and its scalar prediction.
 */
module Labels {
  import opened TreeNodes

  /** One entry of a contextual-bandit label: an action, its observed cost and the probability it was chosen with. */
  datatype CbClass = CbClass(cost: real, action: u32, probability: real)

  /**
   * The example's label slot, a union in the source: the bandit label that
   * learning consumes, or the scalar binary label handed to a node's learner.
   */
  datatype Label = Bandit(costs: seq<CbClass>) | Binary(value: real)

  /** The example record, owned by the caller and mutated in place. */
  class Example {
    var lbl: Label
    var weight: real
    var pred: real
  }

  /** One call of the base learner's learn at a node, with the binary label (the side, -1 for left and +1 for right) and the weight the example carried. */
  datatype TrainCall = TrainCall(node: nat, side: real, weight: real)

  /** How many of the calls trained node k. */
  function TrainCount(calls: seq<TrainCall>, k: nat): (c: nat)
    ensures c <= |calls|
    ensures c == 0 <==> forall j | 0 <= j < |calls| :: calls[j].node != k
  {
    if calls == [] then 0
    else TrainCount(calls[..|calls| - 1], k) + (if calls[|calls| - 1].node == k then 1 else 0)
  }
}
