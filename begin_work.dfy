/**
 * The begin phase (beginWork.ts): for the fiber it is given, `beginWork`
 * works out the new children and reconciles them against the old ones,
 * then returns the first new child (`wip.child`), or null for a leaf.
 *
 * A function component's children are what its render function returns;
 * they come in as `rendered` (the hooks bookkeeping around that call is
 * `FiberHooks.HookRuntime.BeginRender` and `EndRender`).
 */
module BeginWork {
  import opened Wrappers
  import opened JsValues
  import opened FiberFlags
  import opened FiberLane
  import opened Fiber
  import opened ChildFiber
  import opened ChildRest
  import opened ChildReconcile
  import opened Ring
  import UQ = UpdateQueue

  /**
   * The old children the work fiber is reconciled against: none on mount
   * (no alternate), and the sibling list under `current.child` on update.
   */
  ghost predicate OldChildren(fibers: map<FiberId, Fiber>, wip: FiberId, chain: seq<FiberId>)
  {
    && wip in fibers
    && (fibers[wip].alternate.None? ==> chain == [])
    && (fibers[wip].alternate.Some? ==>
          && fibers[wip].alternate.value in fibers
          && ChildrenOK(fibers, wip, chain)
          && SiblingChain(fibers, fibers[fibers[wip].alternate.value].child, chain))
  }

  /** What the array diff assumes of a list of new children and the old ones. */
  ghost predicate ListReady(fibers: map<FiberId, Fiber>, chain: seq<FiberId>, children: Value)
  {
    RouteOf(children).ChildList? ==> KeysOK(fibers, chain) && JsxKeyed(RouteOf(children).items)
  }

  /**
   * `reconcileChildren(wip, children)` from `before` to `after`: the
   * reconciler runs without side-effect tracking on mount and with it on
   * update (`ChildFibersReconciled`, leaving `reconciled`), and when it
   * returns, its result becomes `wip.child`.
   */
  ghost predicate ChildrenReconciled(before: map<FiberId, Fiber>, after: map<FiberId, Fiber>, wip: FiberId,
                                     chain: seq<FiberId>, children: Value, r: Result<Option<FiberId>>,
                                     reconciled: map<FiberId, Fiber>, mid: map<FiberId, Fiber>,
                                     produced: seq<FiberId>, from: seq<Option<FiberId>>, dels: seq<FiberId>)
  {
    && wip in before
    && ChildFibersReconciled(before, reconciled, before[wip].alternate.Some?, wip, chain, children, r, mid, produced, from, dels)
    && (r.Ok? ==> wip in reconciled && after == reconciled[wip := reconciled[wip].(child := r.value)])
    && (r.Throw? ==> after == reconciled)
  }

  /** `reconcileChildren(wip, children)` */
  method ReconcileChildren(heap: FiberHeap, wip: FiberId, children: Value, ghost chain: seq<FiberId>)
    returns (r: Result<Option<FiberId>>, ghost reconciled: map<FiberId, Fiber>, ghost mid: map<FiberId, Fiber>,
             ghost produced: seq<FiberId>, ghost from: seq<Option<FiberId>>, ghost dels: seq<FiberId>)
    requires heap.Valid() && OldChildren(heap.fibers, wip, chain) && ListReady(heap.fibers, chain, children)
    modifies heap
    ensures heap.Valid()
    ensures ChildrenReconciled(old(heap.fibers), heap.fibers, wip, chain, children, r, reconciled, mid, produced, from, dels)
  {
    var current := heap.fibers[wip].alternate;
    if current.None? {
      r, mid, produced, from, dels := ReconcileChildFibers(heap, false, wip, None, chain, children);
    } else {
      r, mid, produced, from, dels := ReconcileChildFibers(heap, true, wip, heap.fibers[current.value].child, chain, children);
    }
    reconciled := heap.fibers;
    if r.Ok? {
      heap.fibers := heap.fibers[wip := heap.fibers[wip].(child := r.value)];
    }
  }

  /**
   * `markRef(current, wip)` needs to mark: a ref on mount, or a ref object
   * different from the current fiber's on update.
   */
  predicate RefChanged(current: Option<Fiber>, f: Fiber)
  {
    (current.None? && f.ref != Null) || (current.Some? && current.value.ref != f.ref)
  }

  /** `markRef(current, wip)` */
  function RefMarked(current: Option<Fiber>, f: Fiber): Fiber
  {
    if RefChanged(current, f) then f.(flags := MarkRef(f.flags)) else f
  }

  /** Ref is set afterwards iff it was set before or the ref needs attaching; no flag is cleared, nothing else changes. */
  lemma RefMarkedIff(current: Option<Fiber>, f: Fiber)
    ensures var g := RefMarked(current, f);
      && g == f.(flags := g.flags)
      && g.flags & f.flags == f.flags
      && (HasAny(g.flags, Ref) <==> HasAny(f.flags, Ref) || RefChanged(current, f))
      && (HasAny(g.flags, Update) <==> HasAny(f.flags, Update))
  {
    if RefChanged(current, f) {
      MarkRefBits(f.flags);
    } else {
      SelfAnd(f.flags);
    }
  }

  /** The alternate's record, if the fiber has one. */
  function CurrentFiber(fibers: map<FiberId, Fiber>, f: Fiber): Option<Fiber>
  {
    if f.alternate.Some? && f.alternate.value in fibers then Some(fibers[f.alternate.value]) else None
  }

  /**
   * `updateHostComponent(wip)`: reading `pendingProps.children` throws on
   * null props; otherwise the ref is marked and the children reconciled.
   */
  ghost predicate HostComponentBegun(before: map<FiberId, Fiber>, after: map<FiberId, Fiber>, wip: FiberId,
                                     chain: seq<FiberId>, r: Result<Option<FiberId>>, reconciled: map<FiberId, Fiber>,
                                     mid: map<FiberId, Fiber>, produced: seq<FiberId>, from: seq<Option<FiberId>>,
                                     dels: seq<FiberId>)
    requires wip in before
  {
    var f := before[wip];
    var children := Read(f.pendingProps, "children");
    && (children.Throw? ==> r == Throw(children.msg) && after == before)
    && (children.Ok? ==>
          ChildrenReconciled(before[wip := RefMarked(CurrentFiber(before, f), f)], after, wip, chain, children.value,
                             r, reconciled, mid, produced, from, dels))
  }

  method UpdateHostComponent(heap: FiberHeap, wip: FiberId, ghost chain: seq<FiberId>)
    returns (r: Result<Option<FiberId>>, ghost reconciled: map<FiberId, Fiber>, ghost mid: map<FiberId, Fiber>,
             ghost produced: seq<FiberId>, ghost from: seq<Option<FiberId>>, ghost dels: seq<FiberId>)
    requires heap.Valid() && OldChildren(heap.fibers, wip, chain)
    requires ListReady(heap.fibers, chain, Get(heap.fibers[wip].pendingProps, "children"))
    modifies heap
    ensures heap.Valid()
    ensures HostComponentBegun(old(heap.fibers), heap.fibers, wip, chain, r, reconciled, mid, produced, from, dels)
  {
    var f := heap.fibers[wip];
    var children := Read(f.pendingProps, "children");
    if children.Throw? {
      r, reconciled, mid, produced, from, dels := Throw(children.msg), heap.fibers, heap.fibers, [], [], [];
      return;
    }
    var g := RefMarked(CurrentFiber(heap.fibers, f), f);
    RefMarkedIff(CurrentFiber(heap.fibers, f), f);
    heap.fibers := heap.fibers[wip := g];
    MarkedKeepsChildren(old(heap.fibers), wip, g, chain);
    r, reconciled, mid, produced, from, dels := ReconcileChildren(heap, wip, children.value, chain);
  }

  /** Marking a flag on the work fiber keeps what the reconciler assumes of the old children. */
  lemma MarkedKeepsChildren(fibers: map<FiberId, Fiber>, wip: FiberId, g: Fiber, chain: seq<FiberId>)
    requires OldChildren(fibers, wip, chain) && g == fibers[wip].(flags := g.flags)
    ensures OldChildren(fibers[wip := g], wip, chain)
    ensures forall children :: ListReady(fibers, chain, children) ==> ListReady(fibers[wip := g], chain, children)
  {
    var fs := fibers[wip := g];
    if fibers[wip].alternate.Some? {
      assert forall i :: 0 <= i < |chain| ==> chain[i] != wip;
      assert forall i :: 0 <= i < |chain| ==> fs[chain[i]] == fibers[chain[i]];
      assert ChildrenOK(fs, wip, chain) by {
        forall i | 0 <= i < |chain|
          ensures AltOK(fs, wip, chain, chain[i])
        {
          assert AltOK(fibers, wip, chain, chain[i]);
        }
      }
    }
  }

  /** `updateFragment(wip)`: the children are the pending props themselves. */
  method UpdateFragment(heap: FiberHeap, wip: FiberId, ghost chain: seq<FiberId>)
    returns (r: Result<Option<FiberId>>, ghost reconciled: map<FiberId, Fiber>, ghost mid: map<FiberId, Fiber>,
             ghost produced: seq<FiberId>, ghost from: seq<Option<FiberId>>, ghost dels: seq<FiberId>)
    requires heap.Valid() && OldChildren(heap.fibers, wip, chain)
    requires ListReady(heap.fibers, chain, heap.fibers[wip].pendingProps)
    modifies heap
    ensures heap.Valid()
    ensures ChildrenReconciled(old(heap.fibers), heap.fibers, wip, chain, old(heap.fibers)[wip].pendingProps,
                               r, reconciled, mid, produced, from, dels)
  {
    r, reconciled, mid, produced, from, dels := ReconcileChildren(heap, wip, heap.fibers[wip].pendingProps, chain);
  }

  /** `updateFunctionComponent(wip, renderLane)`: the children are what the component rendered. */
  method UpdateFunctionComponent(heap: FiberHeap, wip: FiberId, rendered: Value, ghost chain: seq<FiberId>)
    returns (r: Result<Option<FiberId>>, ghost reconciled: map<FiberId, Fiber>, ghost mid: map<FiberId, Fiber>,
             ghost produced: seq<FiberId>, ghost from: seq<Option<FiberId>>, ghost dels: seq<FiberId>)
    requires heap.Valid() && OldChildren(heap.fibers, wip, chain) && ListReady(heap.fibers, chain, rendered)
    modifies heap
    ensures heap.Valid()
    ensures ChildrenReconciled(old(heap.fibers), heap.fibers, wip, chain, rendered, r, reconciled, mid, produced, from, dels)
  {
    r, reconciled, mid, produced, from, dels := ReconcileChildren(heap, wip, rendered, chain);
  }

  /** The host root's update queue holds the ring `order` of pending updates, or nothing. */
  ghost predicate RootQueue(updates: map<nat, UQ.Update>, queues: map<nat, UQ.UpdateQueueRec>, f: Fiber, order: seq<nat>)
  {
    && f.memoizedState.MemoValue? && f.updateQueue.Some? && f.updateQueue.value in queues
    && var pending := queues[f.updateQueue.value].pending;
    && (pending.None? ==> order == [])
    && (pending.Some? ==> IsRing(updates, UQ.NextOf, pending.value, order))
  }

  /** The nodes of a ring are in the map. */
  lemma RingMembers(updates: map<nat, UQ.Update>, queues: map<nat, UQ.UpdateQueueRec>, f: Fiber, order: seq<nat>)
    requires RootQueue(updates, queues, f, order)
    ensures forall i :: 0 <= i < |order| ==> order[i] in updates
  {
  }

  /** The state `processUpdateQueue` computes for the host root from its pending updates: its new children. */
  ghost function RootState(call: UQ.Call, updates: map<nat, UQ.Update>, queues: map<nat, UQ.UpdateQueueRec>, f: Fiber,
                           order: seq<nat>, renderLane: Lane): Value
    requires RootQueue(updates, queues, f, order)
  {
    RingMembers(updates, queues, f, order);
    UQ.ProcessUpdates(call, f.memoizedState.v, UQ.Payloads(updates, order), renderLane).memoizedState
  }

  /** The queue part of `updateHostRoot`: detach the pending ring (`shared.pending = null`) and process it. */
  method ProcessRootQueue(store: UQ.UpdateStore, call: UQ.Call, f: Fiber, renderLane: Lane, ghost order: seq<nat>)
    returns (state: Value)
    requires store.Valid() && RootQueue(store.updates, store.queues, f, order)
    modifies store`updates, store`nextUpdate, store`queues
    ensures store.Valid()
    ensures store.queues == old(store.queues)[f.updateQueue.value := old(store.queues)[f.updateQueue.value].(pending := None)]
    ensures state == RootState(call, old(store.updates), old(store.queues), f, order, renderLane)
  {
    var q := f.updateQueue.value;
    var pending := store.queues[q].pending;
    store.queues := store.queues[q := store.queues[q].(pending := None)];
    var processed, cloneOrder := store.ProcessUpdateQueue(call, f.memoizedState.v, pending, renderLane, order);
    state := processed.memoizedState;
  }

  /**
   * `updateHostRoot(wip, renderLane)`: the pending ring is detached and
   * processed on `memoizedState`, and the new state is stored and
   * reconciled as the children. The base state and base queue the
   * processing returns are not kept.
   */
  method UpdateHostRoot(heap: FiberHeap, store: UQ.UpdateStore, call: UQ.Call, wip: FiberId, renderLane: Lane,
                        ghost order: seq<nat>, ghost chain: seq<FiberId>)
    returns (r: Result<Option<FiberId>>, state: Value, ghost reconciled: map<FiberId, Fiber>, ghost mid: map<FiberId, Fiber>,
             ghost produced: seq<FiberId>, ghost from: seq<Option<FiberId>>, ghost dels: seq<FiberId>)
    requires heap.Valid() && store.Valid() && OldChildren(heap.fibers, wip, chain)
    requires RootQueue(store.updates, store.queues, heap.fibers[wip], order)
    requires ListReady(heap.fibers, chain, RootState(call, store.updates, store.queues, heap.fibers[wip], order, renderLane))
    modifies heap, store`updates, store`nextUpdate, store`queues
    ensures heap.Valid() && store.Valid()
    ensures var q := old(heap.fibers)[wip].updateQueue.value;
      store.queues == old(store.queues)[q := old(store.queues)[q].(pending := None)]
    ensures state == RootState(call, old(store.updates), old(store.queues), old(heap.fibers)[wip], order, renderLane)
    ensures ChildrenReconciled(old(heap.fibers)[wip := old(heap.fibers)[wip].(memoizedState := MemoValue(state))], heap.fibers,
                               wip, chain, state, r, reconciled, mid, produced, from, dels)
  {
    var f := heap.fibers[wip];
    state := ProcessRootQueue(store, call, f, renderLane, order);
    var g := f.(memoizedState := MemoValue(state));
    heap.fibers := heap.fibers[wip := g];
    MarkedStateKeepsChildren(old(heap.fibers), wip, g, chain, state);
    r, reconciled, mid, produced, from, dels := ReconcileChildren(heap, wip, state, chain);
  }

  /** Storing the new state on the work fiber keeps what the reconciler assumes of the old children. */
  lemma MarkedStateKeepsChildren(fibers: map<FiberId, Fiber>, wip: FiberId, g: Fiber, chain: seq<FiberId>, children: Value)
    requires OldChildren(fibers, wip, chain) && ListReady(fibers, chain, children)
    requires g == fibers[wip].(memoizedState := g.memoizedState)
    ensures OldChildren(fibers[wip := g], wip, chain) && ListReady(fibers[wip := g], chain, children)
  {
    var fs := fibers[wip := g];
    if fibers[wip].alternate.Some? {
      assert forall i :: 0 <= i < |chain| ==> chain[i] != wip;
      assert forall i :: 0 <= i < |chain| ==> fs[chain[i]] == fibers[chain[i]];
      assert ChildrenOK(fs, wip, chain) by {
        forall i | 0 <= i < |chain|
          ensures AltOK(fs, wip, chain, chain[i])
        {
          assert AltOK(fibers, wip, chain, chain[i]);
        }
      }
    }
  }

  /**
   * `beginWork(wip, renderLane)`: a host root, host component, function
   * component or fragment reconciles its new children and returns
   * `wip.child`; a host text and any other tag return null and change
   * nothing. `rendered` is what a function component's render returned.
   */
  method BeginWork(heap: FiberHeap, store: UQ.UpdateStore, call: UQ.Call, wip: FiberId, renderLane: Lane, rendered: Value,
                   ghost order: seq<nat>, ghost chain: seq<FiberId>)
    returns (r: Result<Option<FiberId>>, ghost reconciled: map<FiberId, Fiber>, ghost mid: map<FiberId, Fiber>,
             ghost produced: seq<FiberId>, ghost from: seq<Option<FiberId>>, ghost dels: seq<FiberId>)
    requires heap.Valid() && store.Valid() && OldChildren(heap.fibers, wip, chain)
    requires var f := heap.fibers[wip];
      && (f.tag == HostRoot ==>
            RootQueue(store.updates, store.queues, f, order)
            && ListReady(heap.fibers, chain, RootState(call, store.updates, store.queues, f, order, renderLane)))
      && (f.tag == HostComponent ==> ListReady(heap.fibers, chain, Get(f.pendingProps, "children")))
      && (f.tag == FunctionComponent ==> ListReady(heap.fibers, chain, rendered))
      && (f.tag == Fragment ==> ListReady(heap.fibers, chain, f.pendingProps))
    modifies heap, store`updates, store`nextUpdate, store`queues
    ensures heap.Valid() && store.Valid()
    ensures var f := old(heap.fibers)[wip];
      && (f.tag == HostRoot ==>
            var state := RootState(call, old(store.updates), old(store.queues), f, order, renderLane);
            ChildrenReconciled(old(heap.fibers)[wip := f.(memoizedState := MemoValue(state))], heap.fibers,
                               wip, chain, state, r, reconciled, mid, produced, from, dels))
      && (f.tag == HostComponent ==>
            HostComponentBegun(old(heap.fibers), heap.fibers, wip, chain, r, reconciled, mid, produced, from, dels))
      && (f.tag == FunctionComponent ==>
            ChildrenReconciled(old(heap.fibers), heap.fibers, wip, chain, rendered, r, reconciled, mid, produced, from, dels))
      && (f.tag == Fragment ==>
            ChildrenReconciled(old(heap.fibers), heap.fibers, wip, chain, f.pendingProps, r, reconciled, mid, produced, from, dels))
      && (!Begins(f.tag) ==> r == Ok(None) && heap.fibers == old(heap.fibers))
    ensures old(heap.fibers)[wip].tag != HostRoot ==> store.queues == old(store.queues)
    ensures r.Ok? && Begins(old(heap.fibers)[wip].tag) ==> wip in heap.fibers && r.value == heap.fibers[wip].child
  {
    reconciled, mid, produced, from, dels := heap.fibers, heap.fibers, [], [], [];
    var f := heap.fibers[wip];
    match f.tag {
      case HostRoot =>
        var state;
        r, state, reconciled, mid, produced, from, dels := UpdateHostRoot(heap, store, call, wip, renderLane, order, chain);
      case HostComponent =>
        r, reconciled, mid, produced, from, dels := UpdateHostComponent(heap, wip, chain);
      case FunctionComponent =>
        r, reconciled, mid, produced, from, dels := UpdateFunctionComponent(heap, wip, rendered, chain);
      case Fragment =>
        r, reconciled, mid, produced, from, dels := UpdateFragment(heap, wip, chain);
      case _ =>
        r := Ok(None);
    }
  }

  /** The tags whose begin step reconciles children; a host text and the tags not handled return null. */
  predicate Begins(tag: WorkTag)
  {
    tag == HostRoot || tag == HostComponent || tag == FunctionComponent || tag == Fragment
  }
}
