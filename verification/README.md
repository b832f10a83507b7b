# Trainrun-section orientation helper, modelled in Dafny

This project models `TrainrunsectionHelper`, the helper behind the
bidirectional trainrun-section editing dialog of the Netzgrafik editor. A
trainrun section only knows a source and a target node. The dialog shows it
with a left and a right side. The helper decides which end of the section's
non-stop chain is drawn on the left and which on the right. It then derives
the left/right time structure, the left/right lock flags and the field
identity of a user's selection from that decision.

Layout, one module per concern of the helper:

- `model.dfy` (`TrainrunModel`): nodes (by id), sections (source, target,
  five lock flags; the helper never reads a section's own id), the time and
  lock structures, the `LeftAndRightElement` enumeration and the
  selected-text kinds. It also holds the collaborators the helper calls but
  which are not part of this model. `TrainrunService`
  gives the chain ends, the outermost sections, the chain end reached from a
  node and the cumulative travel time. `ViewFunctions` gives the canonical
  and the order-based left/right pickers. `NodeTimes` gives a node's
  departure and arrival minute at a section. Each is a record of function
  values. What the helper relies on them for is stated as predicates:
  - `ServiceSound`: the two chain ends are distinct, and the end reached from
    the source is one of them.
  - `PickersSound`: each picker returns one of its two arguments, and the
    left and right picker of a pair return different ones for distinct
    arguments.
- `clock_times.dfy` (`ClockTimes`): the static minute arithmetic.
- `orientation.dfy` (`Orientation`): `getLeftNode` / `getRightNode`.
- `time_mapping.dfy` (`TimeMapping`): `getLeftAndRightTimes` and
  `mapLeftAndRightTimes`.
- `locks.dfy` (`Locks`): `getLeftAndRightLock`, `getSourceLock`,
  `getTargetLock`.
- `selection.dfy` (`Selection`): `mapSelectedTimeElement`.

Every operation is a Dafny function, because the helper holds no mutable
state. So repeated calls with equal inputs give equal results by
construction. The one step-by-step update in the source, the field
assignments on a fresh copy in `mapLeftAndRightTimes`, is a datatype update
of the `getDefaultTimeStructure` seed.

The central result is `TimeMapping.RemapAgreesWithRecompute`. Take the
times computed without a node order, and remap them under an order with
`mapLeftAndRightTimes`. The result equals the times computed directly under
that order. So the remap keeps every value on its physical node.

The model keeps the code's behaviour in four places where a reader might
expect something else:

- The lock read-back (`getSourceLock`, `getTargetLock`) decides by the
  canonical left node. `getLeftAndRightLock` decides by the order-based one.
  So the read-back returns the source and target locks only when the two
  left nodes agree (`Locks.LockRoundTrip`). When they differ, the source
  reads the target lock and the target reads the source lock
  (`Locks.LockReadBackSwapsUnderDisagreeingOrder`).
- `mapLeftAndRightTimes` is not idempotent. Its swap condition compares
  two left nodes and never looks at the structure. So a second call under
  the same order swaps back what the first call swapped
  (`TimeMapping.MapLeftAndRightTimesTwice`). The swap therefore converts
  between the order-free times and the times under the order, in either
  direction (`TimeMapping.RemapAgreesWithRecompute`,
  `TimeMapping.RemapRecoversOrderFreeTimes`). The one mistake is to feed it
  a structure that is already in the target orientation: it is swapped
  once more.
- `mapSelectedTimeElement` compares the section's own source and target
  ids with the left node. It does not use the chain end reached from the
  source, as the lock functions do. For a section in the middle of a
  chain, the source and the target fields therefore both map to the right
  side (`Selection.MidChainFieldsMapRight`).
- With no reading direction, the name case tests the truthiness of the
  left node's id. The model keeps that test: only id 0 gives the
  right-to-left name.

## Model

| member | source | states |
|---|---|---|
| `ClockTimes.GetSymmetricTime` | src/app/services/util/trainrunsection.helper.ts:25-27 | 0 is fixed; a minute in (0,60) maps into (0,60); a minute and its image sum to a multiple of 60 |
| `ClockTimes.SymmetricTimeInvolution` | src/app/services/util/trainrunsection.helper.ts:25-27 | on [0,60) the symmetric time of the symmetric time is the minute itself |
| `ClockTimes.GetDefaultTimeStructure` | src/app/services/util/trainrunsection.helper.ts:29-39 | the seed keeps both left times and clears the right times and the travel time |
| `ClockTimes.RoundHalfUp` | src/app/services/util/trainrunsection.helper.ts:49 | the result is within half a unit of `num / den` (the nearest integer, halves upward) |
| `ClockTimes.GetTravelTime` | src/app/services/util/trainrunsection.helper.ts:41-56 | at least 1; on the final leg it is `max(total - summed, 1)`; on a leg into a non-stop node it is 1 exactly when `trsTravelTime * travelTimeFactor` rounds to at most 1, and otherwise the nearest integer to that product |
| `ClockTimes.RoundHalfUpRespectsValue` | src/app/services/util/trainrunsection.helper.ts:49 | two ratios of equal value round to the same integer |
| `ClockTimes.ApportionedTravelTimeDependsOnProduct` | src/app/services/util/trainrunsection.helper.ts:48-49 | on a leg into a non-stop node the travel time depends only on the product `trsTravelTime * travelTimeFactor` |
| `ClockTimes.TravelTimeExample` | src/app/services/util/trainrunsection.helper.ts:41-56 | total 100, summed 40, factor 0.5, leg 20: 60 on the final leg, 10 on a leg into a non-stop node |
| `ClockTimes.JsRemainder60` | src/app/services/util/trainrunsection.helper.ts:60 | JavaScript's `% 60`: differs from the input by a multiple of 60 and takes the dividend's sign |
| `ClockTimes.GetRightArrivalTime` | src/app/services/util/trainrunsection.helper.ts:58-63 | for non-negative inputs the right arrival lies in [0,60) and equals `(leftDepartureTime + travelTime) mod 60` |
| `ClockTimes.GetRightDepartureTime` | src/app/services/util/trainrunsection.helper.ts:65-72 | the right departure and the structure's right arrival sum to a multiple of 60, within [0,60) for an arrival in [0,60) |
| `ClockTimes.DerivedRightTimesKeepSymmetry` | src/app/services/util/trainrunsection.helper.ts:58-72 | with a symmetric left side, leaving at the derived right departure and travelling the travel time arrives at the left arrival minute |
| `ClockTimes.RightTimesExample` | src/app/services/util/trainrunsection.helper.ts:58-72 | left departure 50 and travel 25 give right arrival 15 and right departure 45 |
| `Orientation.FindById` | src/app/services/util/trainrunsection.helper.ts:269-277 | `find` yields a node exactly when some node of the order has the id, and then a node of the order with that id |
| `Orientation.GetLeftNode` | src/app/services/util/trainrunsection.helper.ts:266-292 | when both chain-end ids occur in the order the left node is the order-based left pick, otherwise the canonical left/top pick; under sound pickers it is one of the two chain ends |
| `Orientation.GetRightNode` | src/app/services/util/trainrunsection.helper.ts:294-320 | when both chain-end ids occur in the order the right node is the order-based right pick, otherwise the canonical right/bottom pick; under sound pickers it is one of the two chain ends |
| `Orientation.LeftAndRightUseMatchingPickers` | src/app/services/util/trainrunsection.helper.ts:266-320 | when both chain ends occur in the order, left and right both come from the order-based pickers; otherwise both come from the canonical pickers |
| `Orientation.LeftAndRightAreTheTwoEnds` | src/app/services/util/trainrunsection.helper.ts:266-320 | under a sound service and sound pickers, left and right are distinct, and the right node is the chain end that is not the left node |
| `Orientation.OrderLackingAnEndIsCanonical` | src/app/services/util/trainrunsection.helper.ts:279-283 | an order lacking either chain end resolves both sides like the empty order: the left node by the left/top picker and the right node by the right/bottom picker |
| `TimeMapping.SwapSides` | src/app/services/util/trainrunsection.helper.ts:223-229 | the swapped structure exchanges the left and right departure and arrival and keeps the travel time |
| `TimeMapping.SwapSidesInvolution` | src/app/services/util/trainrunsection.helper.ts:223-229 | swapping twice restores the structure; a swap changes nothing only when both sides hold the same times |
| `TimeMapping.MapLeftAndRightTimes` | src/app/services/util/trainrunsection.helper.ts:209-233 | the input is returned unchanged when the canonical and the order-based left node agree, and otherwise its sides are swapped, with no field of the seed left over |
| `TimeMapping.MapLeftAndRightTimesTwice` | src/app/services/util/trainrunsection.helper.ts:209-233 | remapping twice under the same section and order gives back the input: the second call swaps back what the first swapped |
| `TimeMapping.TimesWithOtherLeftEndAreSwapped` | src/app/services/util/trainrunsection.helper.ts:246-263 | drawing the other chain end on the left yields the swapped structure |
| `TimeMapping.GetLeftAndRightTimes` | src/app/services/util/trainrunsection.helper.ts:235-264 | the travel time is the chain's cumulative travel time; under sound collaborators each side holds its own chain end's times, read at that end's outermost section |
| `TimeMapping.SidesReadOppositeSections` | src/app/services/util/trainrunsection.helper.ts:246-253 | the left side reads at the first outermost section exactly when the right side reads at the second |
| `TimeMapping.RemapAgreesWithRecompute` | src/app/services/util/trainrunsection.helper.ts:209-264 | remapping the order-free times under an order equals computing the times under that order |
| `TimeMapping.RemapRecoversOrderFreeTimes` | src/app/services/util/trainrunsection.helper.ts:209-264 | remapping the times computed under an order gives back the order-free times, so the remap converts in both directions |
| `Locks.GetLeftAndRightLock` | src/app/services/util/trainrunsection.helper.ts:130-156 | the travel-time lock passes through; under sound collaborators one side holds the source lock (arrival or departure) and the other the target lock |
| `Locks.LockSidesFollowSourceEnd` | src/app/services/util/trainrunsection.helper.ts:137-153 | the side drawn at the source's chain end holds the source lock and the other side the target lock |
| `Locks.GetSourceLock` | src/app/services/util/trainrunsection.helper.ts:96-111 | the source lock is read from the left or the right lock field |
| `Locks.GetTargetLock` | src/app/services/util/trainrunsection.helper.ts:113-128 | the target lock reads the field the source lock does not read |
| `Locks.LockRoundTrip` | src/app/services/util/trainrunsection.helper.ts:96-156 | when the order-based and canonical left nodes agree, the read-back of the resolved locks gives the source lock and the target lock |
| `Locks.LockReadBackSwapsUnderDisagreeingOrder` | src/app/services/util/trainrunsection.helper.ts:96-156 | when they disagree, the read-back gives the target lock as source lock and the source lock as target lock |
| `Selection.MapSelectedTimeElement` | src/app/services/util/trainrunsection.helper.ts:158-207 | source and target fields map to the left element exactly when that node's id is the left node's id, and to the right element otherwise; travel time maps to `TravelTime`; a name maps to left-to-right iff (source is left) equals `forward`, or iff the left id is non-zero without `forward`; any other selection gives none |
| `Selection.SourceAndTargetFieldsOnOppositeSides` | src/app/services/util/trainrunsection.helper.ts:164-187 | for a section that is its own chain, the source field lands on the side where the source is drawn and the target field on the other side |
| `Selection.MidChainFieldsMapRight` | src/app/services/util/trainrunsection.helper.ts:164-187 | for a section whose source and target are both inside the chain, every source and target time field maps to the right side |
| `Selection.NameDirectionFollowsForward` | src/app/services/util/trainrunsection.helper.ts:189-201 | the two reading directions select the two different name fields |

## Left out

- `getLeftBetriebspunkt` and `getRightBetriebspunkt` are not modelled. They only format display strings from node name accessors.
- The diagnostic `console.log` in `mapLeftAndRightTimes` is not modelled.
- The trainrun service, the view functions and the node time accessors are not part of this model. They are function-valued parameters. Their contracts are the predicates `ServiceSound` and `PickersSound`, assumed by the lemmas and not proved.
- Times are integers, not floating-point numbers. Rounding an integer to 0 digits is then the identity, so only the apportioned travel time rounds.
- `ClockTimes.RoundHalfUp`: `MathUtils.round` is not part of this model. It is taken to round to the nearest integer with halves upward, like `Math.round`. The travel-time factor is an exact ratio, so floating-point error is not modelled.
- Nodes carry only their id. The node equality the pickers might use beyond ids is not modelled.
- `forward` is `Option<bool>`, with `None` for `undefined`. Selected-text kinds other than the six handled ones are the single value `OtherText`.
- Angular dependency injection and the dialog component types are not modelled. The time and lock structures are plain datatypes.
