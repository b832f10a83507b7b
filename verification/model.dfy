/** The values the trainrun-section helper works on, and the collaborators it
    consults: the trainrun service (non-stop chain traversal), the generic view
    functions (left/right pickers) and the nodes' time accessors. The
    collaborators are not part of this model; each is a record of function
    values, and what the helper relies on them for is stated as predicates
    that the lemmas take as preconditions. */
module TrainrunModel {

  datatype Option<+T> = None | Some(value: T)

  /** A graph vertex, known to the helper only by its identity. */
  datatype Node = Node(id: int)

  /** A directed trainrun section with its per-endpoint lock flags. */
  datatype TrainrunSection = TrainrunSection(
    sourceNode: Node,
    targetNode: Node,
    sourceArrivalLock: bool,
    sourceDepartureLock: bool,
    targetArrivalLock: bool,
    targetDepartureLock: bool,
    travelTimeLock: bool)

  /** The two ends of the non-stop chain a section belongs to. */
  datatype NodePair = NodePair(lastNonStopNode1: Node, lastNonStopNode2: Node)

  /** The outermost sections of that chain, one per end. */
  datatype SectionPair = SectionPair(
    lastNonStopTrainrunSection1: TrainrunSection,
    lastNonStopTrainrunSection2: TrainrunSection)

  /** Clock minutes for the two visual sides plus the travel time; the values
      are relative to whichever node is currently resolved as left. */
  datatype LeftAndRightTimeStructure = LeftAndRightTimeStructure(
    leftDepartureTime: int,
    leftArrivalTime: int,
    rightDepartureTime: int,
    rightArrivalTime: int,
    travelTime: int)

  datatype LeftAndRightLockStructure = LeftAndRightLockStructure(
    leftLock: bool,
    rightLock: bool,
    travelTimeLock: bool)

  /** The abstract identity of an editable field of the dialog. */
  datatype LeftAndRightElement =
    | LeftDeparture
    | LeftArrival
    | RightDeparture
    | RightArrival
    | TravelTime
    | LeftRightTrainrunName
    | RightLeftTrainrunName

  /** The text field of a section the user selected; `OtherText` stands for
      every value the helper does not handle. */
  datatype TrainrunSectionText =
    | SourceDeparture
    | SourceArrival
    | TargetDeparture
    | TargetArrival
    | TrainrunSectionName
    | TrainrunSectionTravelTime
    | OtherText

  /** The injected trainrun service: traversal through non-stop nodes. */
  datatype TrainrunService = TrainrunService(
    bothLastNonStopNodes: TrainrunSection -> NodePair,
    bothLastNonStopTrainrunSections: TrainrunSection -> SectionPair,
    lastNonStopNode: (Node, TrainrunSection) -> Node,
    cumulativeTravelTime: TrainrunSection -> int)

  /** The generic view functions that pick a left and a right node, either
      canonically (left/top, right/bottom) or by a given node order. */
  datatype ViewFunctions = ViewFunctions(
    leftOrTopNode: (Node, Node) -> Node,
    rightOrBottomNode: (Node, Node) -> Node,
    leftNodeAccordingToOrder: (seq<Node>, Node, Node) -> Node,
    rightNodeAccordingToOrder: (seq<Node>, Node, Node) -> Node)

  /** A node's departure and arrival minute at the end of a given section. */
  datatype NodeTimes = NodeTimes(
    departureTime: (Node, TrainrunSection) -> int,
    arrivalTime: (Node, TrainrunSection) -> int)

  predicate IsEndpoint(n: Node, ends: NodePair) {
    n.id == ends.lastNonStopNode1.id || n.id == ends.lastNonStopNode2.id
  }

  /** The endpoint of `ends` that is not `n`. */
  function OtherEndpoint(ends: NodePair, n: Node): (r: Node)
    ensures IsEndpoint(r, ends)
    ensures IsEndpoint(n, ends) && ends.lastNonStopNode1.id != ends.lastNonStopNode2.id ==> r.id != n.id
  {
    if n.id == ends.lastNonStopNode1.id then ends.lastNonStopNode2 else ends.lastNonStopNode1
  }

  /** What the helper relies on the trainrun service for: the two ends of a
      chain are distinct nodes, and the chain end reached from the section's
      source is one of them. */
  predicate ServiceSound(svc: TrainrunService, s: TrainrunSection) {
    var ends := svc.bothLastNonStopNodes(s);
    && ends.lastNonStopNode1.id != ends.lastNonStopNode2.id
    && IsEndpoint(svc.lastNonStopNode(s.sourceNode, s), ends)
  }

  /** A left picker and a right picker each return one of their two
      arguments, and different ones when the arguments differ. */
  predicate Complementary(left: Node, right: Node, a: Node, b: Node) {
    && (left == a || left == b)
    && (right == a || right == b)
    && (a.id != b.id ==> left.id != right.id)
  }

  /** What the helper relies on the view functions for, at the two chain ends
      of a section and under a given node order. */
  predicate PickersSound(view: ViewFunctions, orderedNodes: seq<Node>, ends: NodePair) {
    var a, b := ends.lastNonStopNode1, ends.lastNonStopNode2;
    && Complementary(view.leftOrTopNode(a, b), view.rightOrBottomNode(a, b), a, b)
    && Complementary(view.leftNodeAccordingToOrder(orderedNodes, a, b),
                     view.rightNodeAccordingToOrder(orderedNodes, a, b), a, b)
  }
}
