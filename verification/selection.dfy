/** Selection mapping: the text field a user selected on a section, mapped to
    the side-independent field identity the dialog edits. */
module Selection {
  import opened TrainrunModel
  import opened Orientation

  /** `forward` is `None` when the caller gives no reading direction. */
  function MapSelectedTimeElement(svc: TrainrunService, view: ViewFunctions,
                                  selected: TrainrunSectionText, s: TrainrunSection,
                                  orderedNodes: seq<Node>, forward: Option<bool>)
    : (r: Option<LeftAndRightElement>)
    ensures r.None? <==> selected.OtherText?
    ensures selected.TrainrunSectionTravelTime? ==> r == Some(TravelTime)
    ensures
      var sourceOnLeft := s.sourceNode.id == GetLeftNode(svc, view, s, orderedNodes).id;
      && (selected.SourceDeparture? ==> r == Some(if sourceOnLeft then LeftDeparture else RightDeparture))
      && (selected.SourceArrival? ==> r == Some(if sourceOnLeft then LeftArrival else RightArrival))
    ensures
      var targetOnLeft := s.targetNode.id == GetLeftNode(svc, view, s, orderedNodes).id;
      && (selected.TargetDeparture? ==> r == Some(if targetOnLeft then LeftDeparture else RightDeparture))
      && (selected.TargetArrival? ==> r == Some(if targetOnLeft then LeftArrival else RightArrival))
    ensures selected.TrainrunSectionName? ==>
      r == Some(LeftRightTrainrunName) || r == Some(RightLeftTrainrunName)
    ensures selected.TrainrunSectionName? && forward.Some? ==>
      (r == Some(LeftRightTrainrunName) <==>
        ((s.sourceNode.id == GetLeftNode(svc, view, s, orderedNodes).id) == forward.value))
    ensures selected.TrainrunSectionName? && forward.None? ==>
      (r == Some(LeftRightTrainrunName) <==> GetLeftNode(svc, view, s, orderedNodes).id != 0)
  {
    var leftNode := GetLeftNode(svc, view, s, orderedNodes);
    var sourceNodeId := s.sourceNode.id;
    var targetNodeId := s.targetNode.id;
    match selected
    case SourceDeparture =>
      Some(if sourceNodeId == leftNode.id then LeftDeparture else RightDeparture)
    case SourceArrival =>
      Some(if sourceNodeId == leftNode.id then LeftArrival else RightArrival)
    case TargetDeparture =>
      Some(if targetNodeId == leftNode.id then LeftDeparture else RightDeparture)
    case TargetArrival =>
      Some(if targetNodeId == leftNode.id then LeftArrival else RightArrival)
    case TrainrunSectionName =>
      if forward.None? then
        // the id's truthiness: only the id 0 is falsy
        Some(if leftNode.id != 0 then LeftRightTrainrunName else RightLeftTrainrunName)
      else if sourceNodeId == leftNode.id then
        Some(if forward.value then LeftRightTrainrunName else RightLeftTrainrunName)
      else
        Some(if forward.value then RightLeftTrainrunName else LeftRightTrainrunName)
    case TrainrunSectionTravelTime =>
      Some(TravelTime)
    case OtherText =>
      None
  }

  /** For a section that is its own non-stop chain (its source and target are
      the two chain ends), a selected source field lands on the side where
      the source is drawn and the matching target field on the other side. */
  lemma SourceAndTargetFieldsOnOppositeSides(
    svc: TrainrunService, view: ViewFunctions, s: TrainrunSection, orderedNodes: seq<Node>,
    forward: Option<bool>)
    requires ServiceSound(svc, s)
    requires PickersSound(view, orderedNodes, svc.bothLastNonStopNodes(s))
    requires
      var ends := svc.bothLastNonStopNodes(s);
      || (s.sourceNode == ends.lastNonStopNode1 && s.targetNode == ends.lastNonStopNode2)
      || (s.sourceNode == ends.lastNonStopNode2 && s.targetNode == ends.lastNonStopNode1)
    ensures
      var sourceDeparture := MapSelectedTimeElement(svc, view, SourceDeparture, s, orderedNodes, forward);
      var targetDeparture := MapSelectedTimeElement(svc, view, TargetDeparture, s, orderedNodes, forward);
      var sourceOnLeft := s.sourceNode == GetLeftNode(svc, view, s, orderedNodes);
      && (sourceOnLeft ==> sourceDeparture == Some(LeftDeparture) && targetDeparture == Some(RightDeparture))
      && (s.sourceNode == GetRightNode(svc, view, s, orderedNodes) ==>
            sourceDeparture == Some(RightDeparture) && targetDeparture == Some(LeftDeparture))
    ensures
      var sourceArrival := MapSelectedTimeElement(svc, view, SourceArrival, s, orderedNodes, forward);
      var targetArrival := MapSelectedTimeElement(svc, view, TargetArrival, s, orderedNodes, forward);
      && sourceArrival.Some? && targetArrival.Some?
      && {sourceArrival.value, targetArrival.value} == {LeftArrival, RightArrival}
  {
  }

  /** With a reading direction given, the two directions select the two
      different name fields. */
  lemma NameDirectionFollowsForward(svc: TrainrunService, view: ViewFunctions,
                                    s: TrainrunSection, orderedNodes: seq<Node>)
    ensures
      var fwd := MapSelectedTimeElement(svc, view, TrainrunSectionName, s, orderedNodes, Some(true));
      var bwd := MapSelectedTimeElement(svc, view, TrainrunSectionName, s, orderedNodes, Some(false));
      fwd.Some? && bwd.Some? && {fwd.value, bwd.value} == {LeftRightTrainrunName, RightLeftTrainrunName}
  {
  }

  /** For a section inside a longer non-stop chain, whose source and target
      are both transit nodes rather than chain ends, the source and the
      target fields both map to the right side: the mapping compares the
      section's own nodes with the left chain end. */
  lemma MidChainFieldsMapRight(svc: TrainrunService, view: ViewFunctions, s: TrainrunSection,
                               orderedNodes: seq<Node>, forward: Option<bool>)
    requires PickersSound(view, orderedNodes, svc.bothLastNonStopNodes(s))
    requires !IsEndpoint(s.sourceNode, svc.bothLastNonStopNodes(s))
    requires !IsEndpoint(s.targetNode, svc.bothLastNonStopNodes(s))
    ensures MapSelectedTimeElement(svc, view, SourceDeparture, s, orderedNodes, forward) == Some(RightDeparture)
    ensures MapSelectedTimeElement(svc, view, TargetDeparture, s, orderedNodes, forward) == Some(RightDeparture)
    ensures MapSelectedTimeElement(svc, view, SourceArrival, s, orderedNodes, forward) == Some(RightArrival)
    ensures MapSelectedTimeElement(svc, view, TargetArrival, s, orderedNodes, forward) == Some(RightArrival)
  {
  }
}
