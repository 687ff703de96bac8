/**
 * The setter `mountState` hands out (packages/react-reconciler/src/fiberHooks.ts):
 * `dispatchSetState(fiber, queue, action)` with the fiber and the queue bound
 * (`UpdateQueue.Dispatch`). It enqueues one update carrying the action in
 * the lane `requestUpdateLane` gives and schedules the fiber in that lane.
 * The global transition flag and the scheduler's current priority are
 * parameters.
 */
module HookDispatch {
  import opened Wrappers
  import opened JsValues
  import opened FiberLane
  import opened Fiber
  import opened FiberRoot
  import opened SyncTaskQueue
  import opened RootScheduler
  import opened Ring
  import CommitHost
  import FiberChains
  import WorkLoop
  import UQ = UpdateQueue

  /**
   * `dispatchSetState(fiber, queue, action)`: a new update holding the
   * action joins the end of the queue's pending ring, and the fiber is
   * scheduled in the update's lane: when the climb from it ends at a
   * HostRoot, that lane is added to the root's pending lanes and the root
   * scheduled as `ensureRootIsScheduled` does; otherwise the root is left
   * alone. No update already in the store changes its action or lane.
   */
  method DispatchSetState(d: UQ.Dispatch, action: Value, heap: FiberHeap, store: UQ.UpdateStore, root: FiberRootNode,
                          loop: WorkLoop.WorkLoopState, sync: SyncQueueState, transition: Value, priority: SchedulerPriority,
                          ghost order: seq<UQ.UpdateId>, ghost up: seq<FiberId>)
    requires store.Valid() && d.queue in store.queues
    requires store.queues[d.queue].pending.None? ==> order == []
    requires store.queues[d.queue].pending.Some? ==> IsRing(store.updates, UQ.NextOf, store.queues[d.queue].pending.value, order)
    requires FiberChains.RetChain(heap.fibers, Some(d.fiber), up) && CommitHost.RootsIn(heap.fibers, root)
    modifies store`updates, store`nextUpdate, store`queues
    modifies loop`tasks, loop`cancelled, loop`microtasks, root`pendingLanes, root`callbackNode, root`callbackPriority, sync`syncQueue
    ensures store.Valid() && |up| > 0
    ensures var u, lane := old(store.nextUpdate), RequestUpdateLane(transition, priority);
      && u !in old(store.updates)
      && store.queues == old(store.queues)[d.queue := old(store.queues)[d.queue].(pending := Some(u))]
      && IsRing(store.updates, UQ.NextOf, u, order + [u])
      && UQ.PayloadOf(store.updates[u]) == UQ.Pending(action, lane)
      && (forall id :: id in old(store.updates) ==>
            id in store.updates && UQ.PayloadOf(store.updates[id]) == UQ.PayloadOf(old(store.updates)[id]))
      && (heap.fibers[up[|up| - 1]].tag == HostRoot ==>
            loop.Snap(root, sync) == Schedule(old(loop.Snap(root, sync)).(pendingLanes := MergeLanes(old(root.pendingLanes), lane))))
      && (heap.fibers[up[|up| - 1]].tag != HostRoot ==> loop.Snap(root, sync) == old(loop.Snap(root, sync)))
  {
    var lane := RequestUpdateLane(transition, priority);
    var update := store.CreateUpdate(action, lane);
    store.EnqueueUpdate(d.queue, update, order);
    loop.ScheduleUpdateOnFiber(heap, root, sync, d.fiber, lane, up);
  }
}
