/** Lock resolution: the section's source and target lock flags placed on the
    left and right sides, and read back per endpoint. */
module Locks {
  import opened TrainrunModel
  import opened Orientation

  /** The lock of the source endpoint: its arrival or its departure lock. */
  function SourceSideLock(s: TrainrunSection): bool {
    s.sourceArrivalLock || s.sourceDepartureLock
  }

  function TargetSideLock(s: TrainrunSection): bool {
    s.targetArrivalLock || s.targetDepartureLock
  }

  /** The chain end reached from the section's source. */
  function SourceEnd(svc: TrainrunService, s: TrainrunSection): Node {
    svc.lastNonStopNode(s.sourceNode, s)
  }

  /** The lock structure under a node order: the side drawn at the source's
      chain end gets the source lock, the other side the target lock. */
  function GetLeftAndRightLock(svc: TrainrunService, view: ViewFunctions, s: TrainrunSection,
                               orderedNodes: seq<Node>): (r: LeftAndRightLockStructure)
    ensures r.travelTimeLock == s.travelTimeLock
    ensures ServiceSound(svc, s) && PickersSound(view, orderedNodes, svc.bothLastNonStopNodes(s)) ==>
      || (r.leftLock == SourceSideLock(s) && r.rightLock == TargetSideLock(s))
      || (r.leftLock == TargetSideLock(s) && r.rightLock == SourceSideLock(s))
  {
    var lastLeftNode := GetLeftNode(svc, view, s, orderedNodes);
    var lastRightNode := GetRightNode(svc, view, s, orderedNodes);
    LeftAndRightLockStructure(
      if SourceEnd(svc, s).id == lastLeftNode.id then SourceSideLock(s) else TargetSideLock(s),
      if SourceEnd(svc, s).id == lastRightNode.id then SourceSideLock(s) else TargetSideLock(s),
      s.travelTimeLock)
  }

  /** The side on which the source's chain end is drawn carries the source
      lock and the opposite side the target lock. */
  lemma LockSidesFollowSourceEnd(svc: TrainrunService, view: ViewFunctions,
                                 s: TrainrunSection, orderedNodes: seq<Node>)
    requires ServiceSound(svc, s)
    requires PickersSound(view, orderedNodes, svc.bothLastNonStopNodes(s))
    ensures
      var r := GetLeftAndRightLock(svc, view, s, orderedNodes);
      var sourceOnLeft := SourceEnd(svc, s).id == GetLeftNode(svc, view, s, orderedNodes).id;
      && (sourceOnLeft ==> r.leftLock == SourceSideLock(s) && r.rightLock == TargetSideLock(s))
      && (!sourceOnLeft ==> r.leftLock == TargetSideLock(s) && r.rightLock == SourceSideLock(s))
  {
  }

  /** Whether the source's chain end is the canonical (order-free) left end;
      the read-back below decides on this. */
  predicate SourceIsCanonicalLeft(svc: TrainrunService, view: ViewFunctions, s: TrainrunSection) {
    var ends := svc.bothLastNonStopNodes(s);
    SourceEnd(svc, s).id == view.leftOrTopNode(ends.lastNonStopNode1, ends.lastNonStopNode2).id
  }

  /** The lock of the source side, read from a left/right lock structure. */
  function GetSourceLock(svc: TrainrunService, view: ViewFunctions,
                         lockStructure: LeftAndRightLockStructure, s: TrainrunSection): (r: bool)
    ensures r == lockStructure.leftLock || r == lockStructure.rightLock
    ensures lockStructure.leftLock == lockStructure.rightLock ==> r == lockStructure.leftLock
  {
    if SourceIsCanonicalLeft(svc, view, s) then lockStructure.leftLock else lockStructure.rightLock
  }

  /** The lock of the target side: always the field the source side does
      not read. */
  function GetTargetLock(svc: TrainrunService, view: ViewFunctions,
                         lockStructure: LeftAndRightLockStructure, s: TrainrunSection): (r: bool)
    ensures r == lockStructure.leftLock || r == lockStructure.rightLock
    ensures lockStructure.leftLock != lockStructure.rightLock ==>
      r != GetSourceLock(svc, view, lockStructure, s)
  {
    if SourceIsCanonicalLeft(svc, view, s) then lockStructure.rightLock else lockStructure.leftLock
  }

  /** Reading back a lock structure resolved under a node order that agrees
      with the canonical left end returns the source and the target locks. */
  lemma LockRoundTrip(svc: TrainrunService, view: ViewFunctions,
                      s: TrainrunSection, orderedNodes: seq<Node>)
    requires ServiceSound(svc, s)
    requires PickersSound(view, orderedNodes, svc.bothLastNonStopNodes(s))
    requires GetLeftNode(svc, view, s, orderedNodes).id == CanonicalLeftNode(svc, view, s).id
    ensures
      var r := GetLeftAndRightLock(svc, view, s, orderedNodes);
      && GetSourceLock(svc, view, r, s) == SourceSideLock(s)
      && GetTargetLock(svc, view, r, s) == TargetSideLock(s)
  {
  }

  /** When the node order puts the other end on the left, the read-back
      exchanges the two: the source reads the target lock and vice versa. */
  lemma LockReadBackSwapsUnderDisagreeingOrder(
    svc: TrainrunService, view: ViewFunctions, s: TrainrunSection, orderedNodes: seq<Node>)
    requires ServiceSound(svc, s)
    requires PickersSound(view, orderedNodes, svc.bothLastNonStopNodes(s))
    requires GetLeftNode(svc, view, s, orderedNodes).id != CanonicalLeftNode(svc, view, s).id
    ensures
      var r := GetLeftAndRightLock(svc, view, s, orderedNodes);
      && GetSourceLock(svc, view, r, s) == TargetSideLock(s)
      && GetTargetLock(svc, view, r, s) == SourceSideLock(s)
  {
  }
}
