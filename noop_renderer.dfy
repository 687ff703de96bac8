/**
 * The noop renderer's `createRoot` (packages/react-noop-renderer/src/root.ts):
 * each root gets a container `{rootId: idCounter++, children: []}` and a
 * reconciler root over it; `render(element)` is `updateContainer` on that
 * root (`FiberReconciler.UpdateContainer`), and `getChildren()` reads the
 * container's children.
 */
module NoopRenderer {
  import opened Wrappers
  import opened Fiber
  import opened FiberLane
  import opened FiberRoot
  import opened NoopHost
  import FiberReconciler
  import UQ = UpdateQueue

  /** The module-level `idCounter` of root.ts. */
  class RootIds {
    var idCounter: nat

    constructor()
      ensures idCounter == 0
    {
      idCounter := 0;
    }

    /**
     * `createRoot()`: a container with the next root id and no children,
     * and a reconciler root over it as `createContainer` makes it. Root
     * ids are handed out in increasing order, so no two roots share one.
     */
    method CreateRoot(host: NoopHostState, heap: FiberHeap, store: UQ.UpdateStore) returns (root: FiberRootNode, rootId: nat)
      requires heap.Valid() && store.Valid()
      modifies this, host`containers, heap, store`queues, store`nextQueue
      ensures rootId == old(idCounter) && idCounter == rootId + 1
      ensures host.containers == old(host.containers)[rootId := []]
      ensures host.HasParent(ContainerRef(rootId)) && host.ChildrenOf(ContainerRef(rootId)) == []
      ensures fresh(root) && root.containerInfo == rootId
      ensures heap.Valid() && store.Valid()
      ensures root.current == old(heap.nextId) && root.current !in old(heap.fibers)
      ensures heap.fibers == old(heap.fibers)[root.current := FiberReconciler.HostRootFiber(root, old(store.nextQueue))]
      ensures store.queues == old(store.queues)[old(store.nextQueue) := UQ.UpdateQueueRec(None, None, None)]
      ensures root.pendingLanes == NoLanes && root.callbackNode.None? && root.finishedWork.None?
    {
      rootId := idCounter;
      idCounter := idCounter + 1;
      host.containers := host.containers[rootId := []];
      root := FiberReconciler.CreateContainer(heap, store, rootId);
    }
  }
}
