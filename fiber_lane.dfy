/**
 * Lanes: 32-bit priority bitsets, where a lower bit is a higher priority,
 * and their correspondence with the scheduler package's priority levels.
 */
module FiberLane {
  import opened JsValues
  import opened FiberFlags

  type Lane = bv32
  type Lanes = bv32

  const NoLane: Lane := 0
  const NoLanes: Lanes := 0
  const SyncLane: Lane := 0x2
  const InputContinuousLane: Lane := 0x8
  const DefaultLane: Lane := 0x20
  const TransitionLane: Lane := 0x80
  const IdleLane: Lane := 0x2000_0000

  /** The five priority levels of the external scheduler package. */
  datatype SchedulerPriority =
    | ImmediatePriority
    | UserBlockingPriority
    | NormalPriority
    | LowPriority
    | IdlePriority

  function MergeLanes(a: Lanes, b: Lanes): (r: Lanes)
    ensures IsSubsetOfLanes(r, a) && IsSubsetOfLanes(r, b)
  {
    a | b
  }

  function RemoveLanes(lanes: Lanes, subset: Lanes): (r: Lanes)
    ensures r & subset == 0
    ensures r | (lanes & subset) == lanes
  {
    lanes & !subset
  }

  /** `lanes & -lanes`: the lowest set bit. */
  function GetHighestPriorityLane(lanes: Lanes): (r: Lane)
    ensures r == NoLane <==> lanes == NoLanes
    ensures lanes != NoLanes ==> SingleBit(r) && r & lanes == r && (r - 1) & lanes == 0
  {
    lanes & -lanes
  }

  function IsSubsetOfLanes(lanes: Lanes, subset: Lanes): (r: bool)
    ensures r <==> subset & !lanes == 0
  {
    lanes & subset == subset
  }

  function LanesToSchedulerPriority(lanes: Lanes): SchedulerPriority
  {
    var lane := GetHighestPriorityLane(lanes);
    if lane == SyncLane then ImmediatePriority
    else if lane == InputContinuousLane then UserBlockingPriority
    else if lane == DefaultLane then NormalPriority
    else IdlePriority
  }

  function SchedulerPriorityToLane(priority: SchedulerPriority): Lane
  {
    if priority == ImmediatePriority then SyncLane
    else if priority == UserBlockingPriority then InputContinuousLane
    else if priority == NormalPriority then DefaultLane
    else NoLane
  }

  /**
   * `requestUpdateLane`: the global transition flag and the scheduler's
   * current priority level are passed in.
   */
  function RequestUpdateLane(transition: Value, currentPriority: SchedulerPriority): (r: Lane)
    ensures Truthy(transition) ==> r == TransitionLane
    ensures r in {NoLane, SyncLane, InputContinuousLane, DefaultLane, TransitionLane}
  {
    if Truthy(transition) then TransitionLane
    else SchedulerPriorityToLane(currentPriority)
  }

  lemma LanesAreOrderedBits()
    ensures NoLane == 0 && NoLanes == 0
    ensures SingleBit(SyncLane) && SingleBit(InputContinuousLane) && SingleBit(DefaultLane)
    ensures SingleBit(TransitionLane) && SingleBit(IdleLane)
    ensures SyncLane < InputContinuousLane < DefaultLane < TransitionLane < IdleLane
  {
  }

  /** A lane set containing SyncLane always has SyncLane as its highest priority. */
  lemma SyncLaneWinsAnyMix(others: Lanes)
    ensures GetHighestPriorityLane(MergeLanes(SyncLane, others & !1)) == SyncLane
  {
  }

  lemma MergeLanesLaws(a: Lanes, b: Lanes, c: Lanes)
    ensures MergeLanes(a, b) == MergeLanes(b, a)
    ensures MergeLanes(MergeLanes(a, b), c) == MergeLanes(a, MergeLanes(b, c))
    ensures MergeLanes(a, a) == a
    ensures MergeLanes(a, NoLanes) == a
  {
  }

  /** A merge adds no lane that was in neither input. */
  lemma MergeAddsNothing(a: Lanes, b: Lanes, lane: Lane)
    requires SingleBit(lane) && IsSubsetOfLanes(MergeLanes(a, b), lane)
    ensures IsSubsetOfLanes(a, lane) || IsSubsetOfLanes(b, lane)
  {
  }

  lemma NoLaneIsSubsetOfAll(lanes: Lanes)
    ensures IsSubsetOfLanes(lanes, NoLane)
  {
  }

  /** Removing a merged lane leaves only the lanes that were not merged. */
  lemma RemoveUndoesMerge(lanes: Lanes, lane: Lanes)
    requires lanes & lane == 0
    ensures RemoveLanes(MergeLanes(lanes, lane), lane) == lanes
  {
  }

  /**
   * The two maps invert each other on Immediate/UserBlocking/Normal and on
   * Sync/InputContinuous/Default; every other priority maps to NoLane, and
   * every other highest lane (TransitionLane included) to Idle.
   */
  lemma PriorityLaneCorrespondence(p: SchedulerPriority, lanes: Lanes)
    ensures p in {ImmediatePriority, UserBlockingPriority, NormalPriority} ==>
      LanesToSchedulerPriority(SchedulerPriorityToLane(p)) == p
    ensures p in {LowPriority, IdlePriority} <==> SchedulerPriorityToLane(p) == NoLane
    ensures GetHighestPriorityLane(lanes) in {SyncLane, InputContinuousLane, DefaultLane} ==>
      SchedulerPriorityToLane(LanesToSchedulerPriority(lanes)) == GetHighestPriorityLane(lanes)
    ensures GetHighestPriorityLane(lanes) !in {SyncLane, InputContinuousLane, DefaultLane} <==>
      LanesToSchedulerPriority(lanes) == IdlePriority
    ensures LanesToSchedulerPriority(TransitionLane) == IdlePriority
  {
  }
}
