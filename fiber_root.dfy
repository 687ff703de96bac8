/** The root object of a rendered tree (`FiberRootNode`). */
module FiberRoot {
  import opened Wrappers
  import opened FiberLane
  import opened Fiber

  /**
   * The passive effects collected during a commit, flushed later: per
   * function component, the `lastEffect` of its update queue, which is
   * null when the queue holds no effect.
   */
  datatype PendingPassiveEffects = PendingPassiveEffects(unmount: seq<Option<EffectId>>, update: seq<Option<EffectId>>)

  class FiberRootNode {
    /** The host container, by id. */
    var containerInfo: nat
    var current: FiberId
    var finishedWork: Option<FiberId>
    var pendingLanes: Lanes
    var finishedLane: Lane
    var pendingPassiveEffects: PendingPassiveEffects
    /** The scheduler task of the scheduled render, by id. */
    var callbackNode: Option<nat>
    var callbackPriority: Lane

    /**
     * `new FiberRootNode(containerInfo, hostRootFiber)`: the root points at
     * the host root fiber, whose stateNode points back at the root; nothing
     * is pending, finished or scheduled.
     */
    constructor(containerInfo: nat, heap: FiberHeap, hostRootFiber: FiberId)
      requires hostRootFiber in heap.fibers
      modifies heap`fibers
      ensures this.containerInfo == containerInfo && current == hostRootFiber
      ensures heap.fibers == old(heap.fibers)[hostRootFiber := old(heap.fibers)[hostRootFiber].(stateNode := RootRef(this))]
      ensures finishedWork.None? && pendingLanes == NoLanes && finishedLane == NoLane
      ensures callbackNode.None? && callbackPriority == NoLane
      ensures pendingPassiveEffects == PendingPassiveEffects([], [])
    {
      this.containerInfo := containerInfo;
      current := hostRootFiber;
      finishedWork := None;
      pendingLanes := NoLanes;
      finishedLane := NoLane;
      callbackNode := None;
      callbackPriority := NoLane;
      pendingPassiveEffects := PendingPassiveEffects([], []);
      new;
      heap.Put(hostRootFiber, heap.fibers[hostRootFiber].(stateNode := RootRef(this)));
    }

    /** `markRootFinished(root, lane)`: clears the lane from the pending lanes and nothing else. */
    method MarkRootFinished(lane: Lane)
      modifies this`pendingLanes
      ensures pendingLanes == RemoveLanes(old(pendingLanes), lane)
      ensures pendingLanes & lane == 0
    {
      pendingLanes := RemoveLanes(pendingLanes, lane);
    }

    /** `markRootUpdated(root, lane)`: adds the lane to the pending lanes. */
    method MarkRootUpdated(lane: Lane)
      modifies this`pendingLanes
      ensures pendingLanes == MergeLanes(old(pendingLanes), lane)
      ensures IsSubsetOfLanes(pendingLanes, lane) && IsSubsetOfLanes(pendingLanes, old(pendingLanes))
    {
      pendingLanes := MergeLanes(pendingLanes, lane);
    }
  }
}
