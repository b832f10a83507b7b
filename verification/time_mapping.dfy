/** Time mapping: assembling the left/right time structure of a section from
    the ends of its non-stop chain, and remapping a structure whose left/right
    assignment has gone stale. */
module TimeMapping {
  import opened TrainrunModel
  import opened ClockTimes
  import opened Orientation

  /** The same times seen from the other side: left and right pairs
      exchanged, travel time kept. */
  function SwapSides(ts: LeftAndRightTimeStructure): (r: LeftAndRightTimeStructure)
    ensures r.leftDepartureTime == ts.rightDepartureTime && r.rightDepartureTime == ts.leftDepartureTime
    ensures r.leftArrivalTime == ts.rightArrivalTime && r.rightArrivalTime == ts.leftArrivalTime
    ensures r.travelTime == ts.travelTime
  {
    LeftAndRightTimeStructure(ts.rightDepartureTime, ts.rightArrivalTime,
                              ts.leftDepartureTime, ts.leftArrivalTime, ts.travelTime)
  }

  lemma SwapSidesInvolution(ts: LeftAndRightTimeStructure)
    ensures SwapSides(SwapSides(ts)) == ts
    ensures SwapSides(ts) == ts <==>
      ts.leftDepartureTime == ts.rightDepartureTime && ts.leftArrivalTime == ts.rightArrivalTime
  {
  }

  /** Re-anchors `ts` after the node order changed: when the order-based left
      node differs from the canonical one, the two sides are exchanged. The
      structure is built from the seed of `GetDefaultTimeStructure` with
      every field overwritten. */
  function MapLeftAndRightTimes(svc: TrainrunService, view: ViewFunctions, s: TrainrunSection,
                                orderedNodes: seq<Node>, ts: LeftAndRightTimeStructure)
    : (r: LeftAndRightTimeStructure)
    ensures CanonicalLeftNode(svc, view, s).id == GetLeftNode(svc, view, s, orderedNodes).id ==> r == ts
    ensures CanonicalLeftNode(svc, view, s).id != GetLeftNode(svc, view, s, orderedNodes).id ==>
      r == SwapSides(ts)
  {
    var leftNode := CanonicalLeftNode(svc, view, s);
    var localLeftNode := GetLeftNode(svc, view, s, orderedNodes);
    if leftNode.id != localLeftNode.id then
      var seed := GetDefaultTimeStructure(ts);
      seed.(rightArrivalTime := ts.leftArrivalTime,
            leftArrivalTime := ts.rightArrivalTime,
            rightDepartureTime := ts.leftDepartureTime,
            leftDepartureTime := ts.rightDepartureTime,
            travelTime := ts.travelTime)
    else
      ts
  }

  /** Remapping twice under the same section and order restores the input:
      the swap condition never looks at the structure, so a second call always
      swaps back what the first swapped. Remapping is not idempotent. */
  lemma MapLeftAndRightTimesTwice(svc: TrainrunService, view: ViewFunctions,
                                  s: TrainrunSection, orderedNodes: seq<Node>,
                                  ts: LeftAndRightTimeStructure)
    ensures MapLeftAndRightTimes(svc, view, s, orderedNodes,
              MapLeftAndRightTimes(svc, view, s, orderedNodes, ts)) == ts
  {
  }

  /** The outermost section of the chain at the end `n`: the first one when
      `n` is the first chain end, the second one otherwise. */
  function OuterSection(svc: TrainrunService, s: TrainrunSection, n: Node): TrainrunSection {
    var ends := svc.bothLastNonStopNodes(s);
    var sections := svc.bothLastNonStopTrainrunSections(s);
    if n.id == ends.lastNonStopNode1.id then sections.lastNonStopTrainrunSection1
    else sections.lastNonStopTrainrunSection2
  }

  /** Reference definition: the times of the section drawn with chain end
      `left` on the left and the other chain end on the right; each end reads
      its times at its own outermost section, and the travel time is that of
      the whole chain. */
  function TimesWithLeftEnd(svc: TrainrunService, clock: NodeTimes, s: TrainrunSection, left: Node)
    : LeftAndRightTimeStructure
  {
    var right := OtherEndpoint(svc.bothLastNonStopNodes(s), left);
    LeftAndRightTimeStructure(
      clock.departureTime(left, OuterSection(svc, s, left)),
      clock.arrivalTime(left, OuterSection(svc, s, left)),
      clock.departureTime(right, OuterSection(svc, s, right)),
      clock.arrivalTime(right, OuterSection(svc, s, right)),
      svc.cumulativeTravelTime(s))
  }

  /** Drawing the other end on the left exchanges the two sides. */
  lemma TimesWithOtherLeftEndAreSwapped(svc: TrainrunService, clock: NodeTimes,
                                        s: TrainrunSection, left: Node)
    requires ServiceSound(svc, s)
    requires IsEndpoint(left, svc.bothLastNonStopNodes(s))
    ensures TimesWithLeftEnd(svc, clock, s, OtherEndpoint(svc.bothLastNonStopNodes(s), left))
         == SwapSides(TimesWithLeftEnd(svc, clock, s, left))
  {
  }

  /** The time structure of a section under a node order. */
  function GetLeftAndRightTimes(svc: TrainrunService, view: ViewFunctions, clock: NodeTimes,
                                s: TrainrunSection, orderedNodes: seq<Node>)
    : (r: LeftAndRightTimeStructure)
    ensures r.travelTime == svc.cumulativeTravelTime(s)
    ensures ServiceSound(svc, s) && PickersSound(view, orderedNodes, svc.bothLastNonStopNodes(s)) ==>
      r == TimesWithLeftEnd(svc, clock, s, GetLeftNode(svc, view, s, orderedNodes))
  {
    var bothLastNonStopNodes := svc.bothLastNonStopNodes(s);
    var bothLastNonStopTrainrunSections := svc.bothLastNonStopTrainrunSections(s);
    var lastLeftNode := GetLeftNode(svc, view, s, orderedNodes);
    var lastRightNode := GetRightNode(svc, view, s, orderedNodes);
    var leftTrainrunSection :=
      if lastLeftNode.id == bothLastNonStopNodes.lastNonStopNode1.id
      then bothLastNonStopTrainrunSections.lastNonStopTrainrunSection1
      else bothLastNonStopTrainrunSections.lastNonStopTrainrunSection2;
    var rightTrainrunSection :=
      if lastRightNode.id == bothLastNonStopNodes.lastNonStopNode1.id
      then bothLastNonStopTrainrunSections.lastNonStopTrainrunSection1
      else bothLastNonStopTrainrunSections.lastNonStopTrainrunSection2;
    LeftAndRightTimeStructure(
      clock.departureTime(lastLeftNode, leftTrainrunSection),
      clock.arrivalTime(lastLeftNode, leftTrainrunSection),
      clock.departureTime(lastRightNode, rightTrainrunSection),
      clock.arrivalTime(lastRightNode, rightTrainrunSection),
      svc.cumulativeTravelTime(s))
  }

  /** The two sides read their times at different outermost sections: the
      left side at the first one exactly when the right side reads at the
      second one. */
  lemma SidesReadOppositeSections(svc: TrainrunService, view: ViewFunctions,
                                  s: TrainrunSection, orderedNodes: seq<Node>)
    requires ServiceSound(svc, s)
    requires PickersSound(view, orderedNodes, svc.bothLastNonStopNodes(s))
    ensures
      var ends := svc.bothLastNonStopNodes(s);
      (GetLeftNode(svc, view, s, orderedNodes).id == ends.lastNonStopNode1.id)
        <==> (GetRightNode(svc, view, s, orderedNodes).id == ends.lastNonStopNode2.id)
  {
  }

  /** Remapping the canonically computed times (no node order) under a node
      order gives exactly the times computed under that order: the remap
      keeps each value anchored to its physical node. */
  lemma RemapAgreesWithRecompute(svc: TrainrunService, view: ViewFunctions,
                                 clock: NodeTimes, s: TrainrunSection,
                                 orderedNodes: seq<Node>)
    requires ServiceSound(svc, s)
    requires PickersSound(view, orderedNodes, svc.bothLastNonStopNodes(s))
    ensures MapLeftAndRightTimes(svc, view, s, orderedNodes, GetLeftAndRightTimes(svc, view, clock, s, []))
         == GetLeftAndRightTimes(svc, view, clock, s, orderedNodes)
  {
  }

  /** The converse direction: remapping the times computed under an order
      gives back the order-free times. The remap converts in both directions
      between the two orientations. */
  lemma RemapRecoversOrderFreeTimes(svc: TrainrunService, view: ViewFunctions,
                                    clock: NodeTimes, s: TrainrunSection,
                                    orderedNodes: seq<Node>)
    requires ServiceSound(svc, s)
    requires PickersSound(view, orderedNodes, svc.bothLastNonStopNodes(s))
    ensures MapLeftAndRightTimes(svc, view, s, orderedNodes, GetLeftAndRightTimes(svc, view, clock, s, orderedNodes))
         == GetLeftAndRightTimes(svc, view, clock, s, [])
  {
  }
}
