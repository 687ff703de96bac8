/**
 * The reconciler's entry points (packages/react-reconciler/src/fiberReconciler.ts):
 * `createContainer` builds the HostRoot fiber, its root object and its
 * empty update queue; `updateContainer` enqueues one update carrying the
 * element on the HostRoot fiber and schedules that fiber in the update's
 * lane. `unstable_runWithPriority(ImmediatePriority, ...)` is modelled by
 * asking `requestUpdateLane` at that priority; the global transition flag
 * is a parameter.
 */
module FiberReconciler {
  import opened Wrappers
  import opened JsValues
  import opened FiberLane
  import opened Fiber
  import opened FiberRoot
  import opened SyncTaskQueue
  import opened RootScheduler
  import opened Ring
  import CommitHost
  import FiberChains
  import WorkLoop
  import UQ = UpdateQueue

  /** The HostRoot fiber of a new container: `new FiberNode(HostRoot, {}, null)`, pointing at its root object and its queue. */
  function HostRootFiber(root: FiberRootNode, queue: QueueId): Fiber
  {
    NewFiber(HostRoot, Rec(map[]), Null).(stateNode := RootRef(root), updateQueue := Some(queue))
  }

  /**
   * `createContainer(containerInfo)`: a HostRoot fiber with empty props
   * and a null key, a root object whose `current` is that fiber and whose
   * lanes and callback are empty, and a fresh queue with nothing pending.
   * No other fiber or queue changes.
   */
  method CreateContainer(heap: FiberHeap, store: UQ.UpdateStore, containerInfo: nat) returns (root: FiberRootNode)
    requires heap.Valid() && store.Valid()
    modifies heap, store`queues, store`nextQueue
    ensures heap.Valid() && store.Valid() && fresh(root)
    ensures root.current == old(heap.nextId) && root.current !in old(heap.fibers)
    ensures heap.fibers == old(heap.fibers)[root.current := HostRootFiber(root, old(store.nextQueue))]
    ensures store.queues == old(store.queues)[old(store.nextQueue) := UQ.UpdateQueueRec(None, None, None)]
    ensures old(store.nextQueue) !in old(store.queues)
    ensures root.containerInfo == containerInfo && root.finishedWork.None?
    ensures root.pendingLanes == NoLanes && root.finishedLane == NoLane
    ensures root.callbackNode.None? && root.callbackPriority == NoLane
    ensures root.pendingPassiveEffects == PendingPassiveEffects([], [])
  {
    var hostRootFiber := heap.Alloc(NewFiber(HostRoot, Rec(map[]), Null));
    root := new FiberRootNode(containerInfo, heap, hostRootFiber);
    var queue := store.CreateUpdateQueue();
    heap.Put(hostRootFiber, heap.fibers[hostRootFiber].(updateQueue := Some(queue)));
  }

  /** The lane of `updateContainer`'s update: `requestUpdateLane()` under `ImmediatePriority`. */
  function UpdateContainerLane(transition: Value): (lane: Lane)
    ensures lane == if Truthy(transition) then TransitionLane else SyncLane
  {
    RequestUpdateLane(transition, ImmediatePriority)
  }

  /** The queue of the root's current HostRoot fiber holds the ring `order`, or nothing when `order` is empty. */
  ghost predicate RootQueueHolds(heap: FiberHeap, store: UQ.UpdateStore, root: FiberRootNode, order: seq<UQ.UpdateId>)
    reads heap, store, root
  {
    && root.current in heap.fibers
    && heap.fibers[root.current].updateQueue.Some? && heap.fibers[root.current].updateQueue.value in store.queues
    && var q := store.queues[heap.fibers[root.current].updateQueue.value];
      && (q.pending.None? ==> order == [])
      && (q.pending.Some? ==> IsRing(store.updates, UQ.NextOf, q.pending.value, order))
  }

  /**
   * `updateContainer(element, root)`: one new update, whose action is the
   * element (null included) and whose lane is `UpdateContainerLane`, joins
   * the end of the HostRoot fiber's pending ring; the lane is added to
   * the root's pending lanes and the root scheduled as
   * `ensureRootIsScheduled` does. The element is returned unchanged.
   */
  method UpdateContainer(element: Value, root: FiberRootNode, heap: FiberHeap, store: UQ.UpdateStore,
                         loop: WorkLoop.WorkLoopState, sync: SyncQueueState, transition: Value, ghost order: seq<UQ.UpdateId>)
    returns (r: Value)
    requires store.Valid() && RootQueueHolds(heap, store, root, order)
    requires heap.fibers[root.current].ret.None? && heap.fibers[root.current].tag == HostRoot
    requires CommitHost.RootsIn(heap.fibers, root)
    modifies store`updates, store`nextUpdate, store`queues
    modifies loop`tasks, loop`cancelled, loop`microtasks, root`pendingLanes, root`callbackNode, root`callbackPriority, sync`syncQueue
    ensures r == element && store.Valid()
    ensures var q, u := heap.fibers[root.current].updateQueue.value, old(store.nextUpdate);
      && u !in old(store.updates)
      && store.queues == old(store.queues)[q := old(store.queues)[q].(pending := Some(u))]
      && IsRing(store.updates, UQ.NextOf, u, order + [u])
      && UQ.PayloadOf(store.updates[u]) == UQ.Pending(element, UpdateContainerLane(transition))
      && (forall id :: id in old(store.updates) ==>
            id in store.updates && UQ.PayloadOf(store.updates[id]) == UQ.PayloadOf(old(store.updates)[id]))
      && RootQueueHolds(heap, store, root, order + [u])
    ensures loop.Snap(root, sync) ==
      Schedule(old(loop.Snap(root, sync)).(pendingLanes := MergeLanes(old(root.pendingLanes), UpdateContainerLane(transition))))
  {
    var hostRootFiber := root.current;
    var lane := RequestUpdateLane(transition, ImmediatePriority);
    var update := store.CreateUpdate(element, lane);
    var queue := heap.fibers[hostRootFiber].updateQueue.value;
    store.EnqueueUpdate(queue, update, order);
    assert FiberChains.RetAt(heap.fibers, [hostRootFiber], 0);
    loop.ScheduleUpdateOnFiber(heap, root, sync, hostRootFiber, lane, [hostRootFiber]);
    return element;
  }
}
