/** Endpoint resolution: which of the two ends of a section's non-stop chain
    is drawn on the left and which on the right. */
module Orientation {
  import opened TrainrunModel

  /** `nodes.find(n => n.getId() === id)`: the first node with that id. */
  function FindById(nodes: seq<Node>, id: int): (r: Option<Node>)
    ensures r.Some? <==> exists i :: 0 <= i < |nodes| && nodes[i].id == id
    ensures r.Some? ==> r.value.id == id && r.value in nodes
  {
    if nodes == [] then None
    else if nodes[0].id == id then Some(nodes[0])
    else FindById(nodes[1..], id)
  }

  /** Both chain ends occur (by id) in the given node order. */
  predicate BothNodesFound(orderedNodes: seq<Node>, ends: NodePair) {
    && FindById(orderedNodes, ends.lastNonStopNode1.id).Some?
    && FindById(orderedNodes, ends.lastNonStopNode2.id).Some?
  }

  /** Some node of the order carries the id. */
  predicate OccursById(orderedNodes: seq<Node>, id: int) {
    exists i :: 0 <= i < |orderedNodes| && orderedNodes[i].id == id
  }

  /** The chain end drawn on the left: by the node order when both ends occur
      in it, by the canonical left/top pick otherwise. */
  function GetLeftNode(svc: TrainrunService, view: ViewFunctions, s: TrainrunSection,
                       orderedNodes: seq<Node>): (r: Node)
    ensures
      var e1, e2 := svc.bothLastNonStopNodes(s).lastNonStopNode1, svc.bothLastNonStopNodes(s).lastNonStopNode2;
      && (OccursById(orderedNodes, e1.id) && OccursById(orderedNodes, e2.id) ==>
            r == view.leftNodeAccordingToOrder(orderedNodes, e1, e2))
      && (!(OccursById(orderedNodes, e1.id) && OccursById(orderedNodes, e2.id)) ==>
            r == view.leftOrTopNode(e1, e2))
    ensures PickersSound(view, orderedNodes, svc.bothLastNonStopNodes(s)) ==>
      IsEndpoint(r, svc.bothLastNonStopNodes(s))
  {
    var ends := svc.bothLastNonStopNodes(s);
    if !BothNodesFound(orderedNodes, ends) then
      view.leftOrTopNode(ends.lastNonStopNode1, ends.lastNonStopNode2)
    else
      view.leftNodeAccordingToOrder(orderedNodes, ends.lastNonStopNode1, ends.lastNonStopNode2)
  }

  /** The chain end drawn on the right, decided by the same condition. */
  function GetRightNode(svc: TrainrunService, view: ViewFunctions, s: TrainrunSection,
                        orderedNodes: seq<Node>): (r: Node)
    ensures
      var e1, e2 := svc.bothLastNonStopNodes(s).lastNonStopNode1, svc.bothLastNonStopNodes(s).lastNonStopNode2;
      && (OccursById(orderedNodes, e1.id) && OccursById(orderedNodes, e2.id) ==>
            r == view.rightNodeAccordingToOrder(orderedNodes, e1, e2))
      && (!(OccursById(orderedNodes, e1.id) && OccursById(orderedNodes, e2.id)) ==>
            r == view.rightOrBottomNode(e1, e2))
    ensures PickersSound(view, orderedNodes, svc.bothLastNonStopNodes(s)) ==>
      IsEndpoint(r, svc.bothLastNonStopNodes(s))
  {
    var ends := svc.bothLastNonStopNodes(s);
    if !BothNodesFound(orderedNodes, ends) then
      view.rightOrBottomNode(ends.lastNonStopNode1, ends.lastNonStopNode2)
    else
      view.rightNodeAccordingToOrder(orderedNodes, ends.lastNonStopNode1, ends.lastNonStopNode2)
  }

  /** The canonical left end, chosen without any node order. */
  function CanonicalLeftNode(svc: TrainrunService, view: ViewFunctions, s: TrainrunSection): Node {
    var ends := svc.bothLastNonStopNodes(s);
    view.leftOrTopNode(ends.lastNonStopNode1, ends.lastNonStopNode2)
  }

  /** Left and right are resolved by matching picker pairs: both by the node
      order when both chain ends occur in it, both canonically otherwise. */
  lemma LeftAndRightUseMatchingPickers(svc: TrainrunService, view: ViewFunctions,
                                       s: TrainrunSection, orderedNodes: seq<Node>)
    ensures
      var ends := svc.bothLastNonStopNodes(s);
      var a, b := ends.lastNonStopNode1, ends.lastNonStopNode2;
      var left, right := GetLeftNode(svc, view, s, orderedNodes), GetRightNode(svc, view, s, orderedNodes);
      var found := OccursById(orderedNodes, a.id) && OccursById(orderedNodes, b.id);
      && (found ==> left == view.leftNodeAccordingToOrder(orderedNodes, a, b)
                    && right == view.rightNodeAccordingToOrder(orderedNodes, a, b))
      && (!found ==> left == view.leftOrTopNode(a, b) && right == view.rightOrBottomNode(a, b))
  {
  }

  /** Left and right are the two chain ends, one each. */
  lemma LeftAndRightAreTheTwoEnds(svc: TrainrunService, view: ViewFunctions,
                                  s: TrainrunSection, orderedNodes: seq<Node>)
    requires ServiceSound(svc, s)
    requires PickersSound(view, orderedNodes, svc.bothLastNonStopNodes(s))
    ensures GetLeftNode(svc, view, s, orderedNodes).id != GetRightNode(svc, view, s, orderedNodes).id
    ensures GetRightNode(svc, view, s, orderedNodes)
         == OtherEndpoint(svc.bothLastNonStopNodes(s), GetLeftNode(svc, view, s, orderedNodes))
  {
  }

  /** An order lacking either chain end resolves both sides like the empty
      order, by the canonical pickers, whatever else the order holds. */
  lemma OrderLackingAnEndIsCanonical(svc: TrainrunService, view: ViewFunctions,
                                     s: TrainrunSection, orderedNodes: seq<Node>)
    requires
      var ends := svc.bothLastNonStopNodes(s);
      || !OccursById(orderedNodes, ends.lastNonStopNode1.id)
      || !OccursById(orderedNodes, ends.lastNonStopNode2.id)
    ensures GetLeftNode(svc, view, s, orderedNodes) == GetLeftNode(svc, view, s, [])
    ensures GetLeftNode(svc, view, s, orderedNodes) == CanonicalLeftNode(svc, view, s)
    ensures GetRightNode(svc, view, s, orderedNodes) == GetRightNode(svc, view, s, [])
    ensures
      var ends := svc.bothLastNonStopNodes(s);
      GetRightNode(svc, view, s, orderedNodes) == view.rightOrBottomNode(ends.lastNonStopNode1, ends.lastNonStopNode2)
  {
  }
}
