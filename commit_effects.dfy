/**
 * The mutation and layout phases of a commit (`commitMutationEffects`,
 * `commitLayoutEffects`, commitWork.ts). Both walk the finished tree with
 * `commitEffects` and call a per-fiber step on each fiber the walk
 * reaches. The mutation step places, updates, deletes, queues passive
 * mount effects and detaches refs, clearing each flag it handles; the
 * layout step attaches refs. The walk order is computed first
 * (`CommitOrder`), which is faithful because no step changes a link or a
 * subtree flag the walk reads (`VisitDrift`).
 */
module CommitEffects {
  import opened Wrappers
  import opened JsValues
  import opened FiberFlags
  import opened Fiber
  import opened FiberRoot
  import opened NoopHost
  import opened FiberTree
  import opened FiberChains
  import opened CompleteWalks
  import opened CommitHost
  import opened CommitRefs
  import opened CommitPlacement
  import opened CommitDeletion
  import opened CommitWalk
  import opened CommitFrame
  import UQ = UpdateQueue

  /** The mask the mutation walk descends by: `MutationMask | Passive`. */
  const MutationPhaseMask: Flags := MutationMask | Passive

  /** The flags the mutation step clears once handled; Ref stays for the layout phase. */
  const MutationCleared: Flags := Placement | Update | ChildDeletion | Passive

  /** The walk only ever skips fibers without the flags it is entered for. */
  lemma {:induction false} VisitDrift(f0: map<FiberId, Fiber>, f1: map<FiberId, Fiber>, cleared: set<FiberId>, t: Tree, mask: Flags)
    requires Drift(f0, f1, cleared) && IdSet(t) !! cleared
    ensures Visit(f1, t, mask) == Visit(f0, t, mask)
    decreases t, 1
  {
    if t.id in f0 {
      assert Kept(f0[t.id], f1[t.id], false);
    }
    forall i | 0 <= i < |t.kids|
      ensures IdSet(t.kids[i]) !! cleared
    {
      IdSetKids(t, i);
      assert t.kids[i..][0] == t.kids[i];
    }
    VisitRowDrift(f0, f1, cleared, t.kids, mask);
  }

  /** A row of trees none of whose fibers were cleared is walked the same way after the drift. */
  lemma {:induction false} VisitRowDrift(f0: map<FiberId, Fiber>, f1: map<FiberId, Fiber>, cleared: set<FiberId>, ts: seq<Tree>, mask: Flags)
    requires Drift(f0, f1, cleared) && forall i :: 0 <= i < |ts| ==> IdSet(ts[i]) !! cleared
    ensures VisitRow(f1, ts, mask) == VisitRow(f0, ts, mask)
    decreases ts, 0
  {
    if |ts| > 0 {
      VisitDrift(f0, f1, cleared, ts[0], mask);
      VisitRowDrift(f0, f1, cleared, ts[1..], mask);
    }
  }

  // ------------------------------------------------------------ the layout phase

  /** `commitLayoutEffectsOnFiber` on the refs: a HostComponent with the Ref flag attaches its instance. */
  ghost function LayoutOne(f: Fiber, s: RefState): (RefState, bool)
  {
    if HasAny(f.flags, Ref) && f.tag == HostComponent then
      if f.ref.Null? then (s, false)
      else if WriteThrows(f.ref) then (s, true)
      else (WriteRef(s, f.ref, f.stateNode), false)
    else (s, false)
  }

  /** The layout steps along `order`, stopping at the first ref write that throws. */
  ghost function LayoutRun(fibers: map<FiberId, Fiber>, order: seq<FiberId>, s: RefState): (RefState, bool)
    requires forall x :: x in order ==> x in fibers
    decreases |order|
  {
    if |order| == 0 then (s, false)
    else
      var prefix := order[..|order| - 1];
      assert forall x :: x in prefix ==> x in order;
      var (s1, thrown) := LayoutRun(fibers, prefix, s);
      if thrown then (s1, true) else LayoutOne(fibers[order[|order| - 1]], s1)
  }

  /** The flags a fiber keeps after its layout step: Ref goes once a HostComponent has attached its ref. */
  function LayoutFlags(f: Fiber): Flags
  {
    if HasAny(f.flags, Ref) && f.tag == HostComponent then Without(f.flags, Ref) else f.flags
  }

  /** `commitLayoutEffectsOnFiber(x)`. */
  method LayoutStep(heap: FiberHeap, refs: RefCells, x: FiberId) returns (outcome: Outcome)
    requires x in heap.fibers
    modifies heap`fibers, refs
    ensures refs.state == LayoutOne(old(heap.fibers)[x], old(refs.state)).0
    ensures outcome.Thrown? == LayoutOne(old(heap.fibers)[x], old(refs.state)).1
    ensures outcome.Thrown? ==> heap.fibers == old(heap.fibers)
    ensures outcome.Done? ==> heap.fibers == old(heap.fibers)[x := old(heap.fibers)[x].(flags := LayoutFlags(old(heap.fibers)[x]))]
  {
    var f := heap.fibers[x];
    if HasAny(f.flags, Ref) && f.tag == HostComponent {
      outcome := refs.SafelyAttachRef(f);
      if outcome.Done? {
        heap.Put(x, f.(flags := Without(f.flags, Ref)));
      }
    } else {
      outcome := Done;
    }
  }

  /**
   * `commitLayoutEffects(finishedWork, root)`: the layout step on every
   * fiber the walk by `LayoutMask` reaches, in its order, until a ref
   * write throws. Only flags change, so the order computed first is the
   * walk's order throughout.
   */
  method CommitLayoutEffects(heap: FiberHeap, refs: RefCells, top: FiberId, ghost t: Tree) returns (outcome: Outcome)
    requires Shaped(heap.fibers, t) && t.id == top
    requires heap.fibers[top].ret.None? && heap.fibers[top].sibling.None?
    requires NoRepeats(Visit(heap.fibers, t, LayoutMask))
    modifies heap`fibers, refs
    ensures Drift(old(heap.fibers), heap.fibers, {})
    ensures Visit(heap.fibers, t, LayoutMask) == Visit(old(heap.fibers), t, LayoutMask)
    ensures var order := Visit(old(heap.fibers), t, LayoutMask);
      && (forall x :: x in order ==> x in old(heap.fibers))
      && refs.state == LayoutRun(old(heap.fibers), order, old(refs.state)).0
      && outcome.Thrown? == LayoutRun(old(heap.fibers), order, old(refs.state)).1
      && (outcome.Done? ==> forall y :: y in old(heap.fibers) ==>
            heap.fibers[y].flags == if y in order then LayoutFlags(old(heap.fibers)[y]) else old(heap.fibers)[y].flags)
  {
    // Every step below comes from a callee's contract or a named lemma.
    hide *;
    ghost var f0 := heap.fibers;
    ghost var s0 := refs.state;
    var order := CommitOrder(heap, top, LayoutMask, t);
    VisitShape(f0, t, LayoutMask);
    ShapedIn(f0, t);
    outcome := Done;
    var i := 0;
    LayoutStart(f0, order, s0);
    while i < |order|
      invariant 0 <= i <= |order|
      invariant LayoutAt(f0, order, i, heap.fibers)
      invariant (refs.state, false) == LayoutRun(f0, order[..i], s0)
      invariant outcome.Done?
    {
      outcome := LayoutNext(heap, refs, order, i, f0, s0);
      if outcome.Thrown? {
        LayoutRunStops(f0, order, i + 1, s0);
        LayoutAtDrift(f0, order, i, heap.fibers);
        VisitDrift(f0, heap.fibers, {}, t, LayoutMask);
        return;
      }
      i := i + 1;
    }
    assert order[..i] == order;
    LayoutAtOpen(f0, order, i, heap.fibers);
    VisitDrift(f0, heap.fibers, {}, t, LayoutMask);
  }

  /** Before the first fiber, nothing has changed and no callback has run. */
  lemma LayoutStart(f0: map<FiberId, Fiber>, order: seq<FiberId>, s0: RefState)
    ensures LayoutAt(f0, order, 0, f0) && LayoutRun(f0, order[..0], s0) == (s0, false)
  {
    DriftRefl(f0);
  }

  /** Part way through the layout phase, the arena has only drifted in flags. */
  lemma LayoutAtDrift(f0: map<FiberId, Fiber>, order: seq<FiberId>, i: nat, fibers: map<FiberId, Fiber>)
    requires i <= |order| && LayoutAt(f0, order, i, fibers)
    ensures Drift(f0, fibers, {})
  {
  }

  /** Unpacks `LayoutAt` once every fiber of `order` is visited: exactly those fibers have their layout flags cleared. */
  lemma LayoutAtOpen(f0: map<FiberId, Fiber>, order: seq<FiberId>, i: nat, fibers: map<FiberId, Fiber>)
    requires i == |order| && LayoutAt(f0, order, i, fibers)
    ensures Drift(f0, fibers, {})
    ensures forall y :: y in f0 ==> y in fibers && fibers[y].flags == if y in order then LayoutFlags(f0[y]) else f0[y].flags
  {
    assert order[..i] == order;
  }

  /** The layout phase after its first `i` steps: only the flags of those fibers have changed. */
  ghost predicate LayoutAt(f0: map<FiberId, Fiber>, order: seq<FiberId>, i: nat, fibers: map<FiberId, Fiber>)
    requires i <= |order|
  {
    && Drift(f0, fibers, {})
    && forall y :: y in f0 ==> fibers[y].flags == if y in order[..i] then LayoutFlags(f0[y]) else f0[y].flags
  }

  /** One turn of the loop of `CommitLayoutEffects`. */
  method LayoutNext(heap: FiberHeap, refs: RefCells, order: seq<FiberId>, i: nat,
                    ghost f0: map<FiberId, Fiber>, ghost s0: RefState) returns (outcome: Outcome)
    requires i < |order| && NoRepeats(order) && (forall x :: x in order ==> x in f0)
    requires LayoutAt(f0, order, i, heap.fibers)
    requires (refs.state, false) == LayoutRun(f0, order[..i], s0)
    modifies heap`fibers, refs
    ensures outcome.Thrown? ==> heap.fibers == old(heap.fibers) && LayoutRun(f0, order[..i + 1], s0) == (refs.state, true)
    ensures outcome.Done? ==> LayoutAt(f0, order, i + 1, heap.fibers) && (refs.state, false) == LayoutRun(f0, order[..i + 1], s0)
  {
    var x := order[i];
    ghost var f1 := heap.fibers;
    LayoutAtSame(f0, order, i, f1);
    outcome := LayoutStep(heap, refs, x);
    LayoutRunSnoc(f0, order, i, s0);
    if outcome.Done? {
      LayoutAtStep(f0, order, i, f1, heap.fibers);
    }
  }

  /** A fiber not yet visited is as it was. */
  lemma LayoutAtSame(f0: map<FiberId, Fiber>, order: seq<FiberId>, i: nat, f1: map<FiberId, Fiber>)
    requires i < |order| && NoRepeats(order) && order[i] in f0 && LayoutAt(f0, order, i, f1)
    ensures order[i] in f1 && f1[order[i]] == f0[order[i]]
  {
    assert order[i] !in order[..i];
    assert Kept(f0[order[i]], f1[order[i]], false);
  }

  /** The layout run over one more fiber: stopped if it had thrown, otherwise that fiber's callbacks run. */
  lemma LayoutRunSnoc(f0: map<FiberId, Fiber>, order: seq<FiberId>, i: nat, s0: RefState)
    requires i < |order| && forall x :: x in order ==> x in f0
    ensures var (s1, thrown) := LayoutRun(f0, order[..i], s0);
      LayoutRun(f0, order[..i + 1], s0) == if thrown then (s1, true) else LayoutOne(f0[order[i]], s1)
  {
    assert order[..i + 1][..i] == order[..i];
  }

  /** Clearing the next fiber's layout flags extends `LayoutAt` by one. */
  lemma LayoutAtStep(f0: map<FiberId, Fiber>, order: seq<FiberId>, i: nat, f1: map<FiberId, Fiber>, f2: map<FiberId, Fiber>)
    requires i < |order| && NoRepeats(order) && order[i] in f0 && LayoutAt(f0, order, i, f1)
    requires order[i] in f1 && f1[order[i]] == f0[order[i]]
    requires f2 == f1[order[i] := f1[order[i]].(flags := LayoutFlags(f1[order[i]]))]
    ensures LayoutAt(f0, order, i + 1, f2)
  {
    var x := order[i];
    DriftFlags(f1, x, LayoutFlags(f1[x]));
    DriftTrans(f0, f1, f2, {}, {});
    assert order[..i + 1] == order[..i] + [x];
  }

  /** Once a layout step throws, the run stays thrown with the same refs. */
  lemma {:induction false} LayoutRunStops(fibers: map<FiberId, Fiber>, order: seq<FiberId>, k: nat, s: RefState)
    requires forall x :: x in order ==> x in fibers
    requires k <= |order| && LayoutRun(fibers, order[..k], s).1
    ensures LayoutRun(fibers, order, s) == LayoutRun(fibers, order[..k], s)
    decreases |order| - k
  {
    if k < |order| {
      assert order[..k + 1][..k] == order[..k];
      LayoutRunStops(fibers, order, k + 1, s);
    } else {
      assert order[..k] == order;
    }
  }

  /** Every HostComponent of a tree with bubbled flags has its Ref flag cleared once the layout phase completes. */
  lemma LayoutClearsRefs(f0: map<FiberId, Fiber>, f1: map<FiberId, Fiber>, t: Tree)
    requires Shaped(f0, t) && Bubbled(f0, t, LayoutMask)
    requires forall y :: y in f0 ==> y in f1 && f1[y].flags == if y in Visit(f0, t, LayoutMask) then LayoutFlags(f0[y]) else f0[y].flags
    ensures forall y :: y in IdSet(t) && y in f0 && f0[y].tag == HostComponent ==> !HasAny(f1[y].flags, Ref)
  {
    forall y | y in IdSet(t) && y in f0 && f0[y].tag == HostComponent
      ensures !HasAny(f1[y].flags, Ref)
    {
      if HasAny(f0[y].flags, LayoutMask) {
        VisitCovers(f0, t, y, LayoutMask);
      }
    }
  }

  // ------------------------------------------------------------ passive mount effects

  /** `commitPassiveMountEffects`: a function component with the Passive flag and an update queue queues its `lastEffect`. */
  function PassiveMount(f: Fiber, queues: map<QueueId, UQ.UpdateQueueRec>): seq<Option<EffectId>>
    requires f.tag == FunctionComponent && f.updateQueue.Some? ==> f.updateQueue.value in queues
  {
    if f.tag == FunctionComponent && HasAny(f.flags, Passive) && f.updateQueue.Some? then [queues[f.updateQueue.value].lastEffect] else []
  }

  /** What the fibers of `order` queue for the passive mount pass, in order. */
  ghost function PassiveMounts(fibers: map<FiberId, Fiber>, queues: map<QueueId, UQ.UpdateQueueRec>, order: seq<FiberId>): seq<Option<EffectId>>
    requires QueuesIn(fibers, queues, order)
    decreases |order|
  {
    if |order| == 0 then []
    else
      var prefix := order[..|order| - 1];
      assert forall x :: x in prefix ==> x in order;
      PassiveMounts(fibers, queues, prefix) + PassiveMount(fibers[order[|order| - 1]], queues)
  }

  /** The passive mount queue holds exactly the `lastEffect`s of the Passive-flagged function components of `order`. */
  lemma {:induction false} PassiveMountsExactly(fibers: map<FiberId, Fiber>, queues: map<QueueId, UQ.UpdateQueueRec>, order: seq<FiberId>, e: Option<EffectId>)
    requires QueuesIn(fibers, queues, order)
    ensures e in PassiveMounts(fibers, queues, order) <==>
      exists x :: x in order && fibers[x].tag == FunctionComponent && HasAny(fibers[x].flags, Passive)
                  && fibers[x].updateQueue.Some? && queues[fibers[x].updateQueue.value].lastEffect == e
    decreases |order|
  {
    if |order| > 0 {
      var prefix := order[..|order| - 1];
      assert forall x :: x in prefix ==> x in order;
      PassiveMountsExactly(fibers, queues, prefix, e);
      assert order == prefix + [order[|order| - 1]];
    }
  }

  method CommitPassiveMount(root: FiberRootNode, f: Fiber, queues: map<QueueId, UQ.UpdateQueueRec>)
    requires f.tag == FunctionComponent && f.updateQueue.Some? ==> f.updateQueue.value in queues
    modifies root`pendingPassiveEffects
    ensures root.pendingPassiveEffects == old(root.pendingPassiveEffects).(update := old(root.pendingPassiveEffects.update) + PassiveMount(f, queues))
  {
    if f.tag == FunctionComponent && HasAny(f.flags, Passive) && f.updateQueue.Some? {
      var q := queues[f.updateQueue.value];
      root.pendingPassiveEffects := root.pendingPassiveEffects.(update := root.pendingPassiveEffects.update + [q.lastEffect]);
    }
  }

  // ------------------------------------------------------------ deletions of one fiber

  /** The deletion callbacks of the subtrees `ts`, one after another, stopping at the first ref write that throws. */
  ghost function DeletionRun(fibers: map<FiberId, Fiber>, queues: map<QueueId, UQ.UpdateQueueRec>, ts: seq<Tree>, s: Unmounts): (Unmounts, bool)
    requires forall i :: 0 <= i < |ts| ==> QueuesIn(fibers, queues, PreOrder(ts[i]))
    decreases |ts|
  {
    if |ts| == 0 then (s, false)
    else
      var prefix := ts[..|ts| - 1];
      assert forall i :: 0 <= i < |prefix| ==> prefix[i] == ts[i];
      var (s1, thrown) := DeletionRun(fibers, queues, prefix, s);
      if thrown then (s1, true) else UnmountRun(fibers, queues, PreOrder(ts[|ts| - 1]), s1)
  }

  /** The unmount callbacks of trees whose fibers are still linked do not see fibers that were cleared elsewhere. */
  lemma {:induction false} DeletionRunDrift(f0: map<FiberId, Fiber>, f1: map<FiberId, Fiber>, cleared: set<FiberId>,
                                            queues: map<QueueId, UQ.UpdateQueueRec>, ts: seq<Tree>, s: Unmounts)
    requires Drift(f0, f1, cleared) && forall i :: 0 <= i < |ts| ==> QueuesIn(f0, queues, PreOrder(ts[i]))
    ensures forall i :: 0 <= i < |ts| ==> QueuesIn(f1, queues, PreOrder(ts[i]))
    ensures DeletionRun(f1, queues, ts, s) == DeletionRun(f0, queues, ts, s)
    decreases |ts|
  {
    forall i | 0 <= i < |ts|
      ensures QueuesIn(f1, queues, PreOrder(ts[i]))
    {
      QueuesInDrift(f0, f1, cleared, queues, PreOrder(ts[i]));
    }
    if |ts| > 0 {
      var prefix := ts[..|ts| - 1];
      assert forall i :: 0 <= i < |prefix| ==> prefix[i] == ts[i];
      DeletionRunDrift(f0, f1, cleared, queues, prefix, s);
      var s1 := DeletionRun(f0, queues, prefix, s).0;
      UnmountRunDrift(f0, f1, cleared, queues, PreOrder(ts[|ts| - 1]), s1);
    }
  }

  /** The subtrees `ts` delete the fibers `ds`, each ready to be deleted while the others of `del` are cleared. */
  ghost predicate DeletionsReady(fibers: map<FiberId, Fiber>, queues: map<QueueId, UQ.UpdateQueueRec>, ds: seq<FiberId>, ts: seq<Tree>, del: set<FiberId>)
  {
    && |ts| == |ds| && NoRepeats(ds)
    && forall i :: 0 <= i < |ds| ==> ds[i] in del && DeletionReady(fibers, queues, ds[i], ts[i], del - {ds[i]})
  }

  /** Readiness of the remaining deletions survives the clearing of the deletions already done. */
  lemma DeletionsReadyDrift(f0: map<FiberId, Fiber>, f1: map<FiberId, Fiber>, cleared: set<FiberId>,
                            queues: map<QueueId, UQ.UpdateQueueRec>, ds: seq<FiberId>, ts: seq<Tree>, del: set<FiberId>)
    requires DeletionsReady(f0, queues, ds, ts, del) && Drift(f0, f1, cleared) && cleared <= del && cleared !! Members(ds)
    ensures DeletionsReady(f1, queues, ds, ts, del)
  {
    forall i | 0 <= i < |ds|
      ensures DeletionReady(f1, queues, ds[i], ts[i], del - {ds[i]})
    {
      assert ds[i] in Members(ds);
      DeletionReadyDrift(f0, f1, cleared, queues, ds[i], ts[i], del - {ds[i]}, 0, Unmounts(RefState(map[], []), []));
    }
  }

  /** The host side keeps its nodes, containers and node kinds when only a parent's children (and recorded parents) change. */
  lemma ChangedKept(n0: map<nat, HostNode>, c0: map<nat, seq<nat>>, n1: map<nat, HostNode>, c1: map<nat, seq<nat>>, p: HostParent)
    requires Settled(n0, n1, p) && c1.Keys == c0.Keys
    requires p.InstanceRef? ==> p.id in n0 && p.id in n1 && n0[p.id].Instance? && n1[p.id].Instance?
    ensures HostKept(n0, c0, n1, c1)
  {
    SettledKept(n0, n1, p);
  }

  /**
   * The `forEach` over `deletions`: `commitDeletion` on each in turn,
   * stopping at the first that throws.
   */
  method CommitDeletions(heap: FiberHeap, host: NoopHostState, refs: RefCells, root: FiberRootNode,
                         queues: map<QueueId, UQ.UpdateQueueRec>, ds: seq<FiberId>, ghost ts: seq<Tree>, ghost del: set<FiberId>)
    returns (outcome: Outcome)
    requires Closed(heap.fibers) && RootsIn(heap.fibers, root)
    requires HostWF(heap.fibers, host.nodes, host.containers, root.containerInfo)
    requires DeletionsReady(heap.fibers, queues, ds, ts, del)
    modifies heap`fibers, host`nodes, host`containers, refs, root`pendingPassiveEffects
    ensures Drift(old(heap.fibers), heap.fibers, Members(ds)) && SameFlags(old(heap.fibers), heap.fibers)
    ensures HostKept(old(host.nodes), old(host.containers), host.nodes, host.containers)
    ensures HostWF(heap.fibers, host.nodes, host.containers, root.containerInfo)
    ensures root.pendingPassiveEffects.update == old(root.pendingPassiveEffects.update)
    ensures outcome.Done? ==> forall d :: d in ds ==> heap.fibers[d].ret.None? && heap.fibers[d].child.None?
    ensures outcome.Done? ==> heap.fibers == Detached(old(heap.fibers), ds)
    ensures outcome.Done? ==> host.View() == DeletionsView(old(heap.fibers), root.containerInfo, ds, ts, old(host.View()))
    ensures outcome.Done? ==>
      DeletionRun(old(heap.fibers), queues, ts, Unmounts(old(refs.state), old(root.pendingPassiveEffects.unmount)))
        == (Unmounts(refs.state, root.pendingPassiveEffects.unmount), false)
  {
    ghost var f0, n0, c0 := heap.fibers, host.nodes, host.containers;
    ghost var v0 := host.View();
    ghost var s0 := Unmounts(refs.state, root.pendingPassiveEffects.unmount);
    ghost var u0 := root.pendingPassiveEffects.update;
    DeletionsQueued(f0, queues, ds, ts, del);
    outcome := Done;
    var i := 0;
    while i < |ds|
      invariant 0 <= i <= |ds|
      invariant DeletedSoFar(f0, root.containerInfo, queues, ds, ts, s0, v0, i,
                             heap.fibers, Unmounts(refs.state, root.pendingPassiveEffects.unmount), host.View())
      invariant HostKept(n0, c0, host.nodes, host.containers)
      invariant HostWF(heap.fibers, host.nodes, host.containers, root.containerInfo)
      invariant root.pendingPassiveEffects.update == u0
    {
      outcome := DeleteNext(heap, host, refs, root, queues, ds, ts, del, i, f0, n0, c0, s0, v0);
      if outcome.Thrown? {
        DriftMore(f0, heap.fibers, Members(ds[..i]), Members(ds));
        return;
      }
      i := i + 1;
    }
    assert ds[..i] == ds && ts[..i] == ts;
    assert DeletedUpTo(f0, root.containerInfo, ds, ts, v0, i, heap.fibers, host.View());
  }

  /** A drift with fewer fibers cleared is also one with more. */
  lemma DriftMore(f0: map<FiberId, Fiber>, f1: map<FiberId, Fiber>, c: set<FiberId>, more: set<FiberId>)
    requires Drift(f0, f1, c) && c <= more
    ensures Drift(f0, f1, more)
  {
    forall id | id in f0
      ensures Kept(f0[id], f1[id], id in more)
    {
      assert Kept(f0[id], f1[id], id in c);
    }
  }

  /** The members of a prefix one longer gain exactly its last fiber. */
  lemma MembersSnoc(s: seq<FiberId>, i: nat)
    requires i < |s|
    ensures Members(s[..i + 1]) == Members(s[..i]) + {s[i]}
  {
    assert s[..i + 1] == s[..i] + [s[i]];
  }

  /** The fibers deleted before `ds[i]` are other fibers of `del`. */
  lemma PrefixApart(ds: seq<FiberId>, i: nat, del: set<FiberId>)
    requires i < |ds| && NoRepeats(ds) && forall j :: 0 <= j < |ds| ==> ds[j] in del
    ensures Members(ds[..i]) <= del - {ds[i]}
  {
    forall y | y in Members(ds[..i])
      ensures y in del && y != ds[i]
    {
      var j :| 0 <= j < i && ds[j] == y;
    }
  }

  /** One turn of the `forEach` in `CommitDeletions`. */
  method DeleteNext(heap: FiberHeap, host: NoopHostState, refs: RefCells, root: FiberRootNode,
                    queues: map<QueueId, UQ.UpdateQueueRec>, ds: seq<FiberId>, ghost ts: seq<Tree>, ghost del: set<FiberId>, i: nat,
                    ghost f0: map<FiberId, Fiber>, ghost n0: map<nat, HostNode>, ghost c0: map<nat, seq<nat>>, ghost s0: Unmounts,
                    ghost v0: HostView)
    returns (outcome: Outcome)
    requires i < |ds| == |ts| && Closed(f0) && RootsIn(f0, root)
    requires DeletionsReady(f0, queues, ds, ts, del)
    requires DeletedSoFar(f0, root.containerInfo, queues, ds, ts, s0, v0, i,
                          heap.fibers, Unmounts(refs.state, root.pendingPassiveEffects.unmount), host.View())
    requires HostKept(n0, c0, host.nodes, host.containers)
    requires HostWF(heap.fibers, host.nodes, host.containers, root.containerInfo)
    modifies heap`fibers, host`nodes, host`containers, refs, root`pendingPassiveEffects
    ensures root.pendingPassiveEffects.update == old(root.pendingPassiveEffects.update)
    ensures HostKept(n0, c0, host.nodes, host.containers)
    ensures HostWF(heap.fibers, host.nodes, host.containers, root.containerInfo)
    ensures outcome.Thrown? ==> heap.fibers == old(heap.fibers)
    ensures outcome.Done? ==>
      DeletedSoFar(f0, root.containerInfo, queues, ds, ts, s0, v0, i + 1,
                   heap.fibers, Unmounts(refs.state, root.pendingPassiveEffects.unmount), host.View())
  {
    // Every step below comes from a callee's contract or a named lemma.
    hide *;
    var d := ds[i];
    ghost var f1, n1, c1 := heap.fibers, host.nodes, host.containers;
    ghost var s1 := Unmounts(refs.state, root.pendingPassiveEffects.unmount);
    DeletedSoFarOpen(f0, root.containerInfo, queues, ds, ts, s0, v0, i, f1, s1, host.View());
    DeleteNextReady(f0, f1, root, queues, ds, ts, del, i, s1);
    outcome := DeleteSubtree(heap, host, refs, root, queues, d, ts[i], del - {d});
    HostKeptTrans(n0, c0, n1, c1, host.nodes, host.containers);
    if outcome.Done? {
      DeleteNextDone(f0, f1, heap.fibers, queues, ds, ts, i, s0, s1, Unmounts(refs.state, root.pendingPassiveEffects.unmount));
      DeletedNext(f0, root.containerInfo, ds, ts, v0, i, f1, heap.fibers, old(host.View()), host.View());
      DeletedSoFarPack(f0, root.containerInfo, queues, ds, ts, s0, v0, i + 1,
                       heap.fibers, Unmounts(refs.state, root.pendingPassiveEffects.unmount), host.View());
    }
  }

  /**
   * The loop state of `CommitDeletions` after `i` deletions: only those
   * children lost their links, no flag changed, their callbacks ran, and
   * arena and host are what the deletions leave.
   */
  ghost predicate DeletedSoFar(f0: map<FiberId, Fiber>, container: nat, queues: map<QueueId, UQ.UpdateQueueRec>,
                               ds: seq<FiberId>, ts: seq<Tree>, s0: Unmounts, v0: HostView,
                               i: nat, fibers: map<FiberId, Fiber>, s: Unmounts, v: HostView)
  {
    && i <= |ds| == |ts| && (forall j :: 0 <= j < |ts| ==> QueuesIn(f0, queues, PreOrder(ts[j])))
    && Drift(f0, fibers, Members(ds[..i])) && SameFlags(f0, fibers)
    && (forall d :: d in ds[..i] ==> d in fibers && fibers[d].ret.None? && fibers[d].child.None?)
    && DeletionRun(f0, queues, ts[..i], s0) == (s, false)
    && DeletedUpTo(f0, container, ds, ts, v0, i, fibers, v)
  }

  /** Unpacks `DeletedSoFar` into its conjuncts, for the deletion loop's body. */
  lemma DeletedSoFarOpen(f0: map<FiberId, Fiber>, container: nat, queues: map<QueueId, UQ.UpdateQueueRec>,
                         ds: seq<FiberId>, ts: seq<Tree>, s0: Unmounts, v0: HostView,
                         i: nat, fibers: map<FiberId, Fiber>, s: Unmounts, v: HostView)
    requires DeletedSoFar(f0, container, queues, ds, ts, s0, v0, i, fibers, s, v)
    ensures i <= |ds| == |ts| && (forall j :: 0 <= j < |ts| ==> QueuesIn(f0, queues, PreOrder(ts[j])))
    ensures Drift(f0, fibers, Members(ds[..i])) && SameFlags(f0, fibers)
    ensures forall d :: d in ds[..i] ==> d in fibers && fibers[d].ret.None? && fibers[d].child.None?
    ensures DeletionRun(f0, queues, ts[..i], s0) == (s, false)
    ensures DeletedUpTo(f0, container, ds, ts, v0, i, fibers, v)
  {
  }

  /** Packs the conjuncts back into `DeletedSoFar`, the deletion loop's invariant. */
  lemma DeletedSoFarPack(f0: map<FiberId, Fiber>, container: nat, queues: map<QueueId, UQ.UpdateQueueRec>,
                         ds: seq<FiberId>, ts: seq<Tree>, s0: Unmounts, v0: HostView,
                         i: nat, fibers: map<FiberId, Fiber>, s: Unmounts, v: HostView)
    requires i <= |ds| == |ts| && (forall j :: 0 <= j < |ts| ==> QueuesIn(f0, queues, PreOrder(ts[j])))
    requires Drift(f0, fibers, Members(ds[..i])) && SameFlags(f0, fibers)
    requires forall d :: d in ds[..i] ==> d in fibers && fibers[d].ret.None? && fibers[d].child.None?
    requires DeletionRun(f0, queues, ts[..i], s0) == (s, false)
    requires DeletedUpTo(f0, container, ds, ts, v0, i, fibers, v)
    ensures DeletedSoFar(f0, container, queues, ds, ts, s0, v0, i, fibers, s, v)
  {
  }

  /** The callbacks of every deleted subtree read update queues that exist. */
  lemma DeletionsQueued(fibers: map<FiberId, Fiber>, queues: map<QueueId, UQ.UpdateQueueRec>, ds: seq<FiberId>, ts: seq<Tree>, del: set<FiberId>)
    requires DeletionsReady(fibers, queues, ds, ts, del)
    ensures forall j :: 0 <= j < |ts| ==> QueuesIn(fibers, queues, PreOrder(ts[j]))
  {
    forall j | 0 <= j < |ts|
      ensures QueuesIn(fibers, queues, PreOrder(ts[j]))
    {
      assert DeletionReady(fibers, queues, ds[j], ts[j], del - {ds[j]});
    }
  }

  /** The next deletion is ready in the arena the earlier ones left, and runs the same callbacks there. */
  lemma DeleteNextReady(f0: map<FiberId, Fiber>, f1: map<FiberId, Fiber>, root: FiberRootNode, queues: map<QueueId, UQ.UpdateQueueRec>,
                        ds: seq<FiberId>, ts: seq<Tree>, del: set<FiberId>, i: nat, s1: Unmounts)
    requires i < |ds| && Closed(f0) && RootsIn(f0, root)
    requires DeletionsReady(f0, queues, ds, ts, del) && Drift(f0, f1, Members(ds[..i]))
    ensures i < |ds| == |ts| && ds[i] in f1 && RootsIn(f1, root)
    ensures forall j :: 0 <= j < |ts| ==> QueuesIn(f0, queues, PreOrder(ts[j]))
    ensures forall j :: 0 <= j < |ds| ==> ds[j] in f0
    ensures DeletionReady(f1, queues, ds[i], ts[i], del - {ds[i]})
    ensures UnmountRun(f1, queues, PreOrder(ts[i]), s1) == UnmountRun(f0, queues, PreOrder(ts[i]), s1)
  {
    PrefixApart(ds, i, del);
    forall j | 0 <= j < |ds|
      ensures ds[j] in f0 && QueuesIn(f0, queues, PreOrder(ts[j]))
    {
      assert DeletionReady(f0, queues, ds[j], ts[j], del - {ds[j]});
    }
    DeletionReadyDrift(f0, f1, Members(ds[..i]), queues, ds[i], ts[i], del - {ds[i]}, root.containerInfo, s1);
    RootsInDrift(f0, f1, Members(ds[..i]), root);
  }

  /** A completed deletion adds its fiber to the cleared ones and its callbacks to the run. */
  lemma DeleteNextDone(f0: map<FiberId, Fiber>, f1: map<FiberId, Fiber>, f2: map<FiberId, Fiber>, queues: map<QueueId, UQ.UpdateQueueRec>,
                       ds: seq<FiberId>, ts: seq<Tree>, i: nat, s0: Unmounts, s1: Unmounts, s2: Unmounts)
    requires i < |ds| == |ts| && forall j :: 0 <= j < |ts| ==> QueuesIn(f0, queues, PreOrder(ts[j]))
    requires forall j :: 0 <= j < |ds| ==> ds[j] in f0
    requires Drift(f0, f1, Members(ds[..i])) && SameFlags(f0, f1)
    requires forall d :: d in ds[..i] ==> d in f1 && f1[d].ret.None? && f1[d].child.None?
    requires DeletionRun(f0, queues, ts[..i], s0) == (s1, false)
    requires ds[i] in f1 && f2 == f1[ds[i] := f1[ds[i]].(ret := None, child := None)]
    requires UnmountRun(f0, queues, PreOrder(ts[i]), s1) == (s2, false)
    ensures Drift(f0, f2, Members(ds[..i + 1])) && SameFlags(f0, f2)
    ensures forall d :: d in ds[..i + 1] ==> d in f2 && f2[d].ret.None? && f2[d].child.None?
    ensures DeletionRun(f0, queues, ts[..i + 1], s0) == (s2, false)
  {
    var d := ds[i];
    DriftClear(f1, d);
    DriftTrans(f0, f1, f2, Members(ds[..i]), {d});
    MembersSnoc(ds, i);
    DeletionRunSnoc(f0, queues, ts, i, s0);
  }

  /** The deletion run over one more subtree: stopped if it had thrown, otherwise that subtree's unmounts run. */
  lemma DeletionRunSnoc(fibers: map<FiberId, Fiber>, queues: map<QueueId, UQ.UpdateQueueRec>, ts: seq<Tree>, i: nat, s: Unmounts)
    requires i < |ts| && forall j :: 0 <= j < |ts| ==> QueuesIn(fibers, queues, PreOrder(ts[j]))
    ensures var (s1, thrown) := DeletionRun(fibers, queues, ts[..i], s);
      DeletionRun(fibers, queues, ts[..i + 1], s) == if thrown then (s1, true) else UnmountRun(fibers, queues, PreOrder(ts[i]), s1)
  {
    assert ts[..i + 1][..i] == ts[..i];
  }

  /** The arena after `commitDeletion` completed on each of `ds` in turn: each loses its `return` and `child` links. */
  ghost function Detached(fibers: map<FiberId, Fiber>, ds: seq<FiberId>): (r: map<FiberId, Fiber>)
    ensures r.Keys == fibers.Keys
    ensures forall d :: d in ds && d in fibers ==> r[d].ret.None? && r[d].child.None?
    decreases |ds|
  {
    if |ds| == 0 then fibers
    else
      var f := Detached(fibers, ds[..|ds| - 1]);
      var d := ds[|ds| - 1];
      assert forall e :: e in ds ==> e in ds[..|ds| - 1] || e == d;
      if d in f then f[d := f[d].(ret := None, child := None)] else f
  }

  /** The host after `commitDeletion` completed on each of `ds` in turn, each in the arena the earlier ones left. */
  ghost function DeletionsView(fibers: map<FiberId, Fiber>, container: nat, ds: seq<FiberId>, ts: seq<Tree>, v: HostView): HostView
    requires |ts| == |ds|
    decreases |ds|
  {
    if |ds| == 0 then v
    else
      var n := |ds| - 1;
      DeletionView(Detached(fibers, ds[..n]), container, ds[n], ts[n], DeletionsView(fibers, container, ds[..n], ts[..n], v))
  }

  /** The arena and the host `fibers` and `v` are what the first `i` deletions of `ds` leave of `f0` and `v0`. */
  ghost predicate DeletedUpTo(f0: map<FiberId, Fiber>, container: nat, ds: seq<FiberId>, ts: seq<Tree>, v0: HostView,
                              i: nat, fibers: map<FiberId, Fiber>, v: HostView)
  {
    i <= |ds| == |ts| && fibers == Detached(f0, ds[..i]) && v == DeletionsView(f0, container, ds[..i], ts[..i], v0)
  }

  /** One more completed deletion extends both folds by its own effect. */
  lemma DeletedNext(f0: map<FiberId, Fiber>, container: nat, ds: seq<FiberId>, ts: seq<Tree>, v0: HostView, i: nat,
                    f1: map<FiberId, Fiber>, f2: map<FiberId, Fiber>, v1: HostView, v2: HostView)
    requires DeletedUpTo(f0, container, ds, ts, v0, i, f1, v1) && i < |ds| && ds[i] in f1
    requires f2 == f1[ds[i] := f1[ds[i]].(ret := None, child := None)] && v2 == DeletionView(f1, container, ds[i], ts[i], v1)
    ensures DeletedUpTo(f0, container, ds, ts, v0, i + 1, f2, v2)
  {
    assert ds[..i + 1][..i] == ds[..i] && ts[..i + 1][..i] == ts[..i];
  }

  /** `commitDeletion(d)` seen from the mutation phase: what it does to the fibers, the host and the unmount callbacks. */
  method DeleteSubtree(heap: FiberHeap, host: NoopHostState, refs: RefCells, root: FiberRootNode,
                       queues: map<QueueId, UQ.UpdateQueueRec>, d: FiberId, ghost t: Tree, ghost others: set<FiberId>)
    returns (outcome: Outcome)
    requires RootsIn(heap.fibers, root) && DeletionReady(heap.fibers, queues, d, t, others)
    requires HostWF(heap.fibers, host.nodes, host.containers, root.containerInfo)
    modifies heap`fibers, host`nodes, host`containers, refs, root`pendingPassiveEffects
    ensures HostKept(old(host.nodes), old(host.containers), host.nodes, host.containers)
    ensures HostWF(heap.fibers, host.nodes, host.containers, root.containerInfo)
    ensures root.pendingPassiveEffects.update == old(root.pendingPassiveEffects.update)
    ensures outcome.Thrown? ==> heap.fibers == old(heap.fibers)
    ensures outcome.Done? ==> heap.fibers == old(heap.fibers)[d := old(heap.fibers)[d].(ret := None, child := None)]
    ensures outcome.Done? ==> host.View() == DeletionView(old(heap.fibers), root.containerInfo, d, t, old(host.View()))
    ensures outcome.Done? ==>
      UnmountRun(old(heap.fibers), queues, PreOrder(t), Unmounts(old(refs.state), old(root.pendingPassiveEffects.unmount)))
        == (Unmounts(refs.state, root.pendingPassiveEffects.unmount), false)
  {
    ghost var f1, n1, c1 := heap.fibers, host.nodes, host.containers;
    ParentOfHasParent(f1, host, root.containerInfo, d);
    outcome := CommitDeletion.CommitDeletion(heap, host, refs, root, queues, d, t);
    ghost var r := HostParentOf(f1, root.containerInfo, d);
    if Removes(f1, root.containerInfo, d, Tops(f1, t)) {
      ChildrenOnlyKept(n1, host.nodes, r.parent);
    }
    assert HostKept(n1, c1, host.nodes, host.containers);
    if outcome.Thrown? {
      HostWFDrift(f1, heap.fibers, {}, root.containerInfo, n1, c1, host.nodes, host.containers);
    } else {
      DriftClear(f1, d);
      HostWFDrift(f1, heap.fibers, {d}, root.containerInfo, n1, c1, host.nodes, host.containers);
    }
  }

  // ------------------------------------------------------------ the mutation step

  /** The subtrees a step works on, which the fibers alone do not name: the placed fiber's, and each deleted child's. */
  datatype StepPlan = StepPlan(placed: Tree, deleted: seq<Tree>)

  /** The children whose deletion a fiber's step carries out: its `deletions` when it has the ChildDeletion flag. */
  function DelsOf(f: Fiber): seq<FiberId>
  {
    if HasAny(f.flags, ChildDeletion) && f.deletions.Some? then f.deletions.value else []
  }

  /** The update queues the step on `x` reads exist: its own, and those of the function components it deletes. */
  ghost predicate StepQueued(fibers: map<FiberId, Fiber>, queues: map<QueueId, UQ.UpdateQueueRec>, plan: StepPlan, x: FiberId)
  {
    && x in fibers
    && (fibers[x].tag == FunctionComponent && fibers[x].updateQueue.Some? ==> fibers[x].updateQueue.value in queues)
    && (HasAny(fibers[x].flags, ChildDeletion) && fibers[x].deletions.Some? ==>
          forall i :: 0 <= i < |plan.deleted| ==> QueuesIn(fibers, queues, PreOrder(plan.deleted[i])))
  }

  /**
   * The ref writes and unmount callbacks of the step on `x`: its deletions
   * first, then its own ref detach, stopping at the first ref write that
   * throws. (A HostComponent's deletion callback is the same detach.)
   */
  ghost function MutationOne(fibers: map<FiberId, Fiber>, queues: map<QueueId, UQ.UpdateQueueRec>, plan: StepPlan, x: FiberId, s: Unmounts): (Unmounts, bool)
    requires StepQueued(fibers, queues, plan, x)
  {
    var f := fibers[x];
    var deleted := if HasAny(f.flags, ChildDeletion) && f.deletions.Some? then DeletionRun(fibers, queues, plan.deleted, s) else (s, false);
    if deleted.1 then deleted
    else if HasAny(f.flags, Ref) && f.tag == HostComponent then UnmountOne(f, queues, deleted.0)
    else (deleted.0, false)
  }

  /** What the step on `x` needs: its plan's subtrees are ready to be placed and deleted, with `del` holding every deleted fiber. */
  ghost predicate StepReady(fibers: map<FiberId, Fiber>, container: nat, queues: map<QueueId, UQ.UpdateQueueRec>, plan: StepPlan, del: set<FiberId>, x: FiberId)
  {
    && Closed(fibers) && x in fibers && x !in del
    && StepQueued(fibers, queues, plan, x)
    && (HasAny(fibers[x].flags, Placement) ==> PlacementReady(fibers, container, x, plan.placed, del))
    && (HasAny(fibers[x].flags, ChildDeletion) && fibers[x].deletions.Some? ==>
          DeletionsReady(fibers, queues, fibers[x].deletions.value, plan.deleted, del))
  }

  /** A step ready in `f0` is ready, and does the same, once other fibers have lost flags and deleted fibers their links. */
  lemma StepReadyDrift(f0: map<FiberId, Fiber>, f1: map<FiberId, Fiber>, cleared: set<FiberId>, container: nat,
                       queues: map<QueueId, UQ.UpdateQueueRec>, plan: StepPlan, del: set<FiberId>, x: FiberId, s: Unmounts)
    requires StepReady(f0, container, queues, plan, del, x) && Drift(f0, f1, cleared)
    requires cleared <= del && cleared !! Members(DelsOf(f0[x])) && f1[x].flags == f0[x].flags
    ensures StepReady(f1, container, queues, plan, del, x)
    ensures MutationOne(f1, queues, plan, x, s) == MutationOne(f0, queues, plan, x, s)
    ensures f1[x] == f0[x] && PassiveMount(f1[x], queues) == PassiveMount(f0[x], queues)
  {
    assert Kept(f0[x], f1[x], false);
    ClosedDrift(f0, f1, cleared);
    var f := f0[x];
    if HasAny(f.flags, Placement) {
      PlacementReadyDrift(f0, f1, cleared, container, x, plan.placed, del);
    }
    if HasAny(f.flags, ChildDeletion) && f.deletions.Some? {
      DeletionsReadyDrift(f0, f1, cleared, queues, f.deletions.value, plan.deleted, del);
      DeletionRunDrift(f0, f1, cleared, queues, plan.deleted, s);
    }
  }

  /** `commitPlacement(x)` seen from the mutation phase: it keeps the host's nodes, containers and node kinds. */
  method PlaceSubtree(heap: FiberHeap, host: NoopHostState, root: FiberRootNode, x: FiberId, ghost t: Tree, ghost avoid: set<FiberId>)
    returns (outcome: Outcome)
    requires RootsIn(heap.fibers, root) && PlacementReady(heap.fibers, root.containerInfo, x, t, avoid)
    requires HostWF(heap.fibers, host.nodes, host.containers, root.containerInfo)
    modifies host`nodes, host`containers
    ensures HostKept(old(host.nodes), old(host.containers), host.nodes, host.containers)
    ensures outcome.Done? ==> host.View() == PlacementView(heap.fibers, root.containerInfo, x, t, old(host.View()))
  {
    PlacementHost(heap.fibers, host, root.containerInfo, x, t, avoid);
    ghost var n0 := host.nodes;
    ghost var placed;
    outcome, placed := CommitPlacement.CommitPlacement(heap, host, root, x, t);
    ghost var r := HostParentOf(heap.fibers, root.containerInfo, x);
    ghost var s := SiblingFrom(heap.fibers, true, x, 2 * |heap.fibers|);
    if r.ParentFound? && !s.SiblingOutOfFuel? {
      SettledKept(n0, host.nodes, r.parent);
    }
  }

  /** `commitUpdate` keeps the host's nodes, containers and node kinds. */
  lemma TextKept(n: map<nat, HostNode>, c: map<nat, seq<nat>>, id: nat, text: Value)
    requires id in n && n[id].TextInstance?
    ensures HostKept(n, c, n[id := n[id].(text := text)], c)
  {
  }

  /** The Placement part of the step: `commitPlacement`, then the flag is cleared. */
  method PlacePart(heap: FiberHeap, host: NoopHostState, root: FiberRootNode, x: FiberId, ghost plan: StepPlan, ghost del: set<FiberId>)
    returns (outcome: Outcome)
    requires RootsIn(heap.fibers, root) && HostWF(heap.fibers, host.nodes, host.containers, root.containerInfo)
    requires x in heap.fibers
    requires HasAny(heap.fibers[x].flags, Placement) ==> PlacementReady(heap.fibers, root.containerInfo, x, plan.placed, del)
    modifies heap`fibers, host`nodes, host`containers
    ensures HostKept(old(host.nodes), old(host.containers), host.nodes, host.containers)
    ensures HostWF(heap.fibers, host.nodes, host.containers, root.containerInfo)
    ensures outcome.Thrown? ==> heap.fibers == old(heap.fibers)
    ensures outcome.Done? ==> heap.fibers == old(heap.fibers)[x := old(heap.fibers)[x].(flags := Without(old(heap.fibers)[x].flags, Placement))]
    ensures !HasAny(old(heap.fibers)[x].flags, Placement) ==> host.nodes == old(host.nodes) && host.containers == old(host.containers)
    ensures outcome.Done? ==> host.View() == PlaceView(old(heap.fibers), root.containerInfo, x, plan, old(host.View()))
  {
    ghost var f0, n0, c0 := heap.fibers, host.nodes, host.containers;
    var f := heap.fibers[x];
    if HasAny(f.flags, Placement) {
      outcome := PlaceSubtree(heap, host, root, x, plan.placed, del);
      if outcome.Done? {
        heap.Put(x, f.(flags := Without(f.flags, Placement)));
      }
    } else {
      outcome := Done;
      WithoutBits(f.flags, Placement, 0);
    }
    FlagsKeepWF(f0, x, Without(f.flags, Placement), root.containerInfo, n0, c0, host.nodes, host.containers);
  }

  /** The Update part of the step: `commitUpdate`, then the flag is cleared. */
  method UpdatePart(heap: FiberHeap, host: NoopHostState, container: nat, x: FiberId)
    requires HostWF(heap.fibers, host.nodes, host.containers, container) && x in heap.fibers
    modifies heap`fibers, host`nodes
    ensures HostKept(old(host.nodes), old(host.containers), host.nodes, host.containers)
    ensures HostWF(heap.fibers, host.nodes, host.containers, container)
    ensures heap.fibers == old(heap.fibers)[x := old(heap.fibers)[x].(flags := Without(old(heap.fibers)[x].flags, Update))]
    ensures !HasAny(old(heap.fibers)[x].flags, Update) ==> host.nodes == old(host.nodes)
    ensures host.View() == UpdateView(old(heap.fibers)[x], old(host.View()))
  {
    ghost var f0, n0, c0 := heap.fibers, host.nodes, host.containers;
    var f := heap.fibers[x];
    if HasAny(f.flags, Update) {
      assert InstanceOK(f0[x], n0);
      host.CommitUpdate(f.tag, f.memoizedProps, f.stateNode);
      if f.tag == HostText {
        TextKept(n0, c0, f.stateNode.id, TextUpdate(f.memoizedProps));
      }
      heap.Put(x, f.(flags := Without(f.flags, Update)));
    } else {
      WithoutBits(f.flags, Update, 0);
    }
    FlagsKeepWF(f0, x, Without(f.flags, Update), container, n0, c0, host.nodes, host.containers);
  }

  /** Changing one fiber's flags while the host keeps its nodes and kinds keeps every host fiber's node. */
  lemma FlagsKeepWF(f0: map<FiberId, Fiber>, x: FiberId, flags: Flags, container: nat,
                    n0: map<nat, HostNode>, c0: map<nat, seq<nat>>, n1: map<nat, HostNode>, c1: map<nat, seq<nat>>)
    requires x in f0 && HostWF(f0, n0, c0, container) && HostKept(n0, c0, n1, c1)
    ensures HostWF(f0, n1, c1, container)
    ensures HostWF(f0[x := f0[x].(flags := flags)], n1, c1, container)
  {
    DriftRefl(f0);
    HostWFDrift(f0, f0, {}, container, n0, c0, n1, c1);
    DriftFlags(f0, x, flags);
    HostWFDrift(f0, f0[x := f0[x].(flags := flags)], {}, container, n0, c0, n1, c1);
  }

  /** The flags of every fiber are as they were. */
  ghost predicate SameFlags(f0: map<FiberId, Fiber>, f1: map<FiberId, Fiber>)
  {
    forall y :: y in f0 ==> y in f1 && f1[y].flags == f0[y].flags
  }

  /** The arena after a completed ChildDeletion part on `x`: the children it deletes are detached and `x` loses the flag. */
  ghost function DeleteArena(fibers: map<FiberId, Fiber>, x: FiberId): map<FiberId, Fiber>
    requires x in fibers
  {
    var g := Detached(fibers, DelsOf(fibers[x]));
    g[x := g[x].(flags := Without(fibers[x].flags, ChildDeletion))]
  }

  /** The host after a completed ChildDeletion part on `x`: each child it deletes is removed in turn. */
  ghost function DeleteView(fibers: map<FiberId, Fiber>, container: nat, x: FiberId, plan: StepPlan, v: HostView): HostView
    requires x in fibers
  {
    var ds := DelsOf(fibers[x]);
    if |ds| == |plan.deleted| then DeletionsView(fibers, container, ds, plan.deleted, v) else v
  }

  /** Deletions that completed, then the flag cleared, are the part's arena and host. */
  lemma ChildrenDeleted(f0: map<FiberId, Fiber>, f1: map<FiberId, Fiber>, f2: map<FiberId, Fiber>, x: FiberId,
                        container: nat, plan: StepPlan, v0: HostView, v1: HostView)
    requires x in f0 && HasAny(f0[x].flags, ChildDeletion) && f0[x].deletions.Some?
    requires |f0[x].deletions.value| == |plan.deleted|
    requires f1 == Detached(f0, f0[x].deletions.value) && v1 == DeletionsView(f0, container, f0[x].deletions.value, plan.deleted, v0)
    requires f2 == f1[x := f1[x].(flags := Without(f0[x].flags, ChildDeletion))]
    ensures f2 == DeleteArena(f0, x) && v1 == DeleteView(f0, container, x, plan, v0)
  {
  }

  /** Without a `deletions` list, or without the flag, the part only clears the flag, which leaves the arena alone when unset. */
  lemma NothingDeleted(f0: map<FiberId, Fiber>, x: FiberId, container: nat, plan: StepPlan, v0: HostView)
    requires x in f0 && (HasAny(f0[x].flags, ChildDeletion) ==> f0[x].deletions.None?)
    ensures DeleteArena(f0, x) == f0[x := f0[x].(flags := Without(f0[x].flags, ChildDeletion))]
    ensures !HasAny(f0[x].flags, ChildDeletion) ==> DeleteArena(f0, x) == f0
    ensures DeleteView(f0, container, x, plan, v0) == v0
  {
    assert DelsOf(f0[x]) == [];
    if !HasAny(f0[x].flags, ChildDeletion) {
      ClearNoop(f0[x].flags, ChildDeletion);
      assert f0[x].(flags := f0[x].flags) == f0[x];
    }
  }

  /** The ChildDeletion part of the step: `commitDeletion` on each of `deletions`, then the flag is cleared. */
  method DeletePart(heap: FiberHeap, host: NoopHostState, refs: RefCells, root: FiberRootNode,
                    queues: map<QueueId, UQ.UpdateQueueRec>, x: FiberId, ghost plan: StepPlan, ghost del: set<FiberId>)
    returns (outcome: Outcome)
    requires Closed(heap.fibers) && RootsIn(heap.fibers, root) && HostWF(heap.fibers, host.nodes, host.containers, root.containerInfo)
    requires x in heap.fibers && x !in del && StepQueued(heap.fibers, queues, plan, x)
    requires HasAny(heap.fibers[x].flags, ChildDeletion) && heap.fibers[x].deletions.Some? ==>
      DeletionsReady(heap.fibers, queues, heap.fibers[x].deletions.value, plan.deleted, del)
    modifies heap`fibers, host`nodes, host`containers, refs, root`pendingPassiveEffects
    ensures DeleteKept(old(heap.fibers), heap.fibers, x, old(host.nodes), old(host.containers), host.nodes, host.containers,
                       root.containerInfo, outcome.Done?)
    ensures root.pendingPassiveEffects.update == old(root.pendingPassiveEffects.update)
    ensures outcome.Done? ==>
      DeleteDone(old(heap.fibers), heap.fibers, x, queues, plan,
                 Unmounts(old(refs.state), old(root.pendingPassiveEffects.unmount)), Unmounts(refs.state, root.pendingPassiveEffects.unmount))
    ensures outcome.Done? ==>
      heap.fibers == DeleteArena(old(heap.fibers), x) && host.View() == DeleteView(old(heap.fibers), root.containerInfo, x, plan, old(host.View()))
  {
    // Every step below comes from a callee's contract or a named lemma.
    hide *;
    ghost var f0, n0, c0 := heap.fibers, host.nodes, host.containers;
    ghost var s0 := Unmounts(refs.state, root.pendingPassiveEffects.unmount);
    var f := heap.fibers[x];
    if !(HasAny(f.flags, ChildDeletion) && f.deletions.Some?) {
      NothingDeleted(f0, x, root.containerInfo, plan, host.View());
    }
    if HasAny(f.flags, ChildDeletion) && f.deletions.Some? {
      outcome := DeleteChildren(heap, host, refs, root, queues, x, plan, del);
    } else if HasAny(f.flags, ChildDeletion) {
      heap.Put(x, f.(flags := Without(f.flags, ChildDeletion)));
      outcome := Done;
      NoDeletionList(f0, heap.fibers, x, n0, c0, root.containerInfo, queues, plan, s0);
    } else {
      outcome := Done;
      NoDeletion(f0, x, n0, c0, root.containerInfo, queues, plan, s0);
    }
  }

  /** The ChildDeletion part when the fiber has the flag and a `deletions` list. */
  method DeleteChildren(heap: FiberHeap, host: NoopHostState, refs: RefCells, root: FiberRootNode,
                        queues: map<QueueId, UQ.UpdateQueueRec>, x: FiberId, ghost plan: StepPlan, ghost del: set<FiberId>)
    returns (outcome: Outcome)
    requires Closed(heap.fibers) && RootsIn(heap.fibers, root) && HostWF(heap.fibers, host.nodes, host.containers, root.containerInfo)
    requires x in heap.fibers && x !in del && StepQueued(heap.fibers, queues, plan, x)
    requires HasAny(heap.fibers[x].flags, ChildDeletion) && heap.fibers[x].deletions.Some?
    requires DeletionsReady(heap.fibers, queues, heap.fibers[x].deletions.value, plan.deleted, del)
    modifies heap`fibers, host`nodes, host`containers, refs, root`pendingPassiveEffects
    ensures DeleteKept(old(heap.fibers), heap.fibers, x, old(host.nodes), old(host.containers), host.nodes, host.containers,
                       root.containerInfo, outcome.Done?)
    ensures root.pendingPassiveEffects.update == old(root.pendingPassiveEffects.update)
    ensures outcome.Done? ==>
      DeleteDone(old(heap.fibers), heap.fibers, x, queues, plan,
                 Unmounts(old(refs.state), old(root.pendingPassiveEffects.unmount)), Unmounts(refs.state, root.pendingPassiveEffects.unmount))
    ensures outcome.Done? ==>
      heap.fibers == DeleteArena(old(heap.fibers), x) && host.View() == DeleteView(old(heap.fibers), root.containerInfo, x, plan, old(host.View()))
  {
    // Every step below comes from a callee's contract or a named lemma.
    hide *;
    ghost var f0, n0, c0 := heap.fibers, host.nodes, host.containers;
    ghost var v0 := host.View();
    ghost var s0 := Unmounts(refs.state, root.pendingPassiveEffects.unmount);
    var f := heap.fibers[x];
    DeletionsLength(f0, queues, f.deletions.value, plan.deleted, del);
    outcome := CommitDeletions(heap, host, refs, root, queues, f.deletions.value, plan.deleted, del);
    if outcome.Thrown? {
      DeletionsThrew(f0, heap.fibers, x, n0, c0, host.nodes, host.containers, root.containerInfo);
      return;
    }
    ghost var f1, n1, c1 := heap.fibers, host.nodes, host.containers;
    heap.Put(x, heap.fibers[x].(flags := Without(f.flags, ChildDeletion)));
    DeletionsDone(f0, f1, heap.fibers, x, n0, c0, n1, c1, root.containerInfo, queues, plan, del, s0,
                  Unmounts(refs.state, root.pendingPassiveEffects.unmount));
    ChildrenDeleted(f0, f1, heap.fibers, x, root.containerInfo, plan, v0, host.View());
  }

  /** Ready deletions come with one subtree per deleted fiber. */
  lemma DeletionsLength(fibers: map<FiberId, Fiber>, queues: map<QueueId, UQ.UpdateQueueRec>, ds: seq<FiberId>, ts: seq<Tree>, del: set<FiberId>)
    requires DeletionsReady(fibers, queues, ds, ts, del)
    ensures |ds| == |ts|
  {
  }

  /** Deletions that threw leave the step's fiber as it was, within the frame of the part. */
  lemma DeletionsThrew(f0: map<FiberId, Fiber>, f1: map<FiberId, Fiber>, x: FiberId,
                       n0: map<nat, HostNode>, c0: map<nat, seq<nat>>, n1: map<nat, HostNode>, c1: map<nat, seq<nat>>, container: nat)
    requires x in f0 && HasAny(f0[x].flags, ChildDeletion) && f0[x].deletions.Some?
    requires Drift(f0, f1, Members(f0[x].deletions.value)) && SameFlags(f0, f1)
    requires HostKept(n0, c0, n1, c1) && HostWF(f1, n1, c1, container)
    ensures DeleteKept(f0, f1, x, n0, c0, n1, c1, container, false)
  {
  }

  /** Completed deletions, followed by clearing ChildDeletion on `x`, are what the part promises. */
  lemma DeletionsDone(f0: map<FiberId, Fiber>, f1: map<FiberId, Fiber>, f2: map<FiberId, Fiber>, x: FiberId,
                      n0: map<nat, HostNode>, c0: map<nat, seq<nat>>, n1: map<nat, HostNode>, c1: map<nat, seq<nat>>, container: nat,
                      queues: map<QueueId, UQ.UpdateQueueRec>, plan: StepPlan, del: set<FiberId>, s0: Unmounts, s1: Unmounts)
    requires x !in del && StepQueued(f0, queues, plan, x)
    requires HasAny(f0[x].flags, ChildDeletion) && f0[x].deletions.Some?
    requires DeletionsReady(f0, queues, f0[x].deletions.value, plan.deleted, del)
    requires Drift(f0, f1, Members(f0[x].deletions.value)) && SameFlags(f0, f1)
    requires HostKept(n0, c0, n1, c1) && HostWF(f1, n1, c1, container)
    requires forall d :: d in f0[x].deletions.value ==> f1[d].ret.None? && f1[d].child.None?
    requires DeletionRun(f0, queues, plan.deleted, s0) == (s1, false)
    requires f2 == f1[x := f1[x].(flags := Without(f0[x].flags, ChildDeletion))]
    ensures DeleteKept(f0, f2, x, n0, c0, n1, c1, container, true)
    ensures DeleteDone(f0, f2, x, queues, plan, s0, s1)
  {
    hide *;
    DeletionsApart(f0, queues, plan, del, x);
    DeletionsCleared(f0, f1, f2, x, n0, c0, n1, c1, container);
    DeletionsRan(f0, f2, queues, plan, x, s0, s1);
  }

  /** The fiber whose deletions run is not one of them, and deletes exactly its `deletions`. */
  lemma DeletionsApart(f0: map<FiberId, Fiber>, queues: map<QueueId, UQ.UpdateQueueRec>, plan: StepPlan, del: set<FiberId>, x: FiberId)
    requires x !in del && StepQueued(f0, queues, plan, x)
    requires HasAny(f0[x].flags, ChildDeletion) && f0[x].deletions.Some?
    requires DeletionsReady(f0, queues, f0[x].deletions.value, plan.deleted, del)
    ensures x in f0 && DelsOf(f0[x]) == f0[x].deletions.value && x !in Members(DelsOf(f0[x]))
    ensures forall d :: d in f0[x].deletions.value ==> d in f0
  {
    forall d | d in f0[x].deletions.value
      ensures d in f0
    {
      var i :| 0 <= i < |f0[x].deletions.value| && f0[x].deletions.value[i] == d;
      assert DeletionReady(f0, queues, d, plan.deleted[i], del - {d});
    }
  }

  /** Completed deletions followed by clearing `ChildDeletion` on `x` meet `DeleteKept` with the flag cleared. */
  lemma DeletionsCleared(f0: map<FiberId, Fiber>, f1: map<FiberId, Fiber>, f2: map<FiberId, Fiber>, x: FiberId,
                         n0: map<nat, HostNode>, c0: map<nat, seq<nat>>, n1: map<nat, HostNode>, c1: map<nat, seq<nat>>, container: nat)
    requires x in f0 && HasAny(f0[x].flags, ChildDeletion) && f0[x].deletions.Some?
    requires DelsOf(f0[x]) == f0[x].deletions.value && x !in Members(DelsOf(f0[x]))
    requires forall d :: d in f0[x].deletions.value ==> d in f0
    requires Drift(f0, f1, Members(f0[x].deletions.value)) && SameFlags(f0, f1)
    requires HostKept(n0, c0, n1, c1) && HostWF(f1, n1, c1, container)
    requires forall d :: d in f0[x].deletions.value ==> f1[d].ret.None? && f1[d].child.None?
    requires f2 == f1[x := f1[x].(flags := Without(f0[x].flags, ChildDeletion))]
    ensures DeleteKept(f0, f2, x, n0, c0, n1, c1, container, true)
    ensures Drift(f0, f2, Members(DelsOf(f0[x])))
    ensures forall d :: d in DelsOf(f0[x]) ==> d in f2 && f2[d].ret.None? && f2[d].child.None?
  {
    var ds := f0[x].deletions.value;
    var flags := Without(f0[x].flags, ChildDeletion);
    assert Kept(f0[x], f1[x], false);
    DriftFlags(f1, x, flags);
    DriftTrans(f0, f1, f2, Members(ds), {});
    assert Members(ds) + {} == Members(ds);
    FlagsKeepWF(f1, x, flags, container, n1, c1, n1, c1);
  }

  /** Completed deletions followed by clearing `ChildDeletion` on `x` meet `DeleteDone`. */
  lemma DeletionsRan(f0: map<FiberId, Fiber>, f2: map<FiberId, Fiber>, queues: map<QueueId, UQ.UpdateQueueRec>,
                     plan: StepPlan, x: FiberId, s0: Unmounts, s1: Unmounts)
    requires StepQueued(f0, queues, plan, x) && HasAny(f0[x].flags, ChildDeletion) && f0[x].deletions.Some?
    requires x !in Members(DelsOf(f0[x])) && Drift(f0, f2, Members(DelsOf(f0[x])))
    requires forall d :: d in DelsOf(f0[x]) ==> d in f2 && f2[d].ret.None? && f2[d].child.None?
    requires f2[x].flags == Without(f0[x].flags, ChildDeletion)
    requires DeletionRun(f0, queues, plan.deleted, s0) == (s1, false)
    ensures DeleteDone(f0, f2, x, queues, plan, s0, s1)
  {
    DeletedThen(f0, f2, queues, plan, x, s0, s1);
    DeleteDonePack(f0, f2, x, queues, plan, s0, s1);
  }

  /** ChildDeletion without a `deletions` list: only the flag is cleared. */
  lemma NoDeletionList(f0: map<FiberId, Fiber>, f1: map<FiberId, Fiber>, x: FiberId, n0: map<nat, HostNode>, c0: map<nat, seq<nat>>,
                       container: nat, queues: map<QueueId, UQ.UpdateQueueRec>, plan: StepPlan, s0: Unmounts)
    requires StepQueued(f0, queues, plan, x) && HasAny(f0[x].flags, ChildDeletion) && f0[x].deletions.None?
    requires HostWF(f0, n0, c0, container)
    requires f1 == f0[x := f0[x].(flags := Without(f0[x].flags, ChildDeletion))]
    ensures DeleteKept(f0, f1, x, n0, c0, n0, c0, container, true)
    ensures DeleteDone(f0, f1, x, queues, plan, s0, s0)
  {
    assert DelsOf(f0[x]) == [] && Members([]) == {};
    DriftFlags(f0, x, f1[x].flags);
    FlagsKeepHostWF(f0, x, f1[x].flags, container, n0, c0);
    DeletedThen(f0, f1, queues, plan, x, s0, s0);
    DeleteKeptPack(f0, f1, x, n0, c0, n0, c0, container, true);
    DeleteDonePack(f0, f1, x, queues, plan, s0, s0);
  }

  /** Without ChildDeletion the part does nothing. */
  lemma NoDeletion(f0: map<FiberId, Fiber>, x: FiberId, n0: map<nat, HostNode>, c0: map<nat, seq<nat>>,
                   container: nat, queues: map<QueueId, UQ.UpdateQueueRec>, plan: StepPlan, s0: Unmounts)
    requires StepQueued(f0, queues, plan, x) && !HasAny(f0[x].flags, ChildDeletion)
    requires HostWF(f0, n0, c0, container)
    ensures DeleteKept(f0, f0, x, n0, c0, n0, c0, container, true)
    ensures DeleteDone(f0, f0, x, queues, plan, s0, s0)
  {
    ClearNoop(f0[x].flags, ChildDeletion);
    assert DelsOf(f0[x]) == [] && Members([]) == {};
    DriftRefl(f0);
    DeletedThen(f0, f0, queues, plan, x, s0, s0);
    DeleteKeptPack(f0, f0, x, n0, c0, n0, c0, container, true);
    DeleteDonePack(f0, f0, x, queues, plan, s0, s0);
  }

  /**
   * What the ChildDeletion part leaves, whatever its outcome: only the
   * deleted children lose their links, no other fiber's flags change, the
   * host keeps its shape (and is untouched without the flag), and `x`
   * has lost ChildDeletion when the part completed.
   */
  ghost predicate DeleteKept(f0: map<FiberId, Fiber>, f1: map<FiberId, Fiber>, x: FiberId,
                             n0: map<nat, HostNode>, c0: map<nat, seq<nat>>, n1: map<nat, HostNode>, c1: map<nat, seq<nat>>,
                             container: nat, done: bool)
  {
    && x in f0 && Drift(f0, f1, Members(DelsOf(f0[x])))
    && (forall y :: y in f0 && y != x ==> f1[y].flags == f0[y].flags)
    && HostKept(n0, c0, n1, c1) && HostWF(f1, n1, c1, container)
    && (!HasAny(f0[x].flags, ChildDeletion) ==> n1 == n0 && c1 == c0)
    && f1[x].flags == (if done then Without(f0[x].flags, ChildDeletion) else f0[x].flags)
  }

  /**
   * What a completed ChildDeletion part has done: the deleted children are
   * unlinked, `x` is not among them and queues the same passive mount, and
   * what is left of `MutationOne` from `s0` is the ref detach from `s1`.
   */
  ghost predicate DeleteDone(f0: map<FiberId, Fiber>, f1: map<FiberId, Fiber>, x: FiberId,
                             queues: map<QueueId, UQ.UpdateQueueRec>, plan: StepPlan, s0: Unmounts, s1: Unmounts)
  {
    && StepQueued(f0, queues, plan, x) && x in f1 && x !in Members(DelsOf(f0[x]))
    && (forall d :: d in DelsOf(f0[x]) ==> d in f1 && f1[d].ret.None? && f1[d].child.None?)
    && (f1[x].tag == FunctionComponent && f1[x].updateQueue.Some? ==> f1[x].updateQueue.value in queues)
    && PassiveMount(f1[x], queues) == PassiveMount(f0[x], queues)
    && MutationOne(f0, queues, plan, x, s0) ==
         (if HasAny(f1[x].flags, Ref) && f1[x].tag == HostComponent then UnmountOne(f1[x], queues, s1) else (s1, false))
  }

  /** Packs the facts about the arena and host after the deletion part into `DeleteKept`. */
  lemma DeleteKeptPack(f0: map<FiberId, Fiber>, f1: map<FiberId, Fiber>, x: FiberId,
                       n0: map<nat, HostNode>, c0: map<nat, seq<nat>>, n1: map<nat, HostNode>, c1: map<nat, seq<nat>>,
                       container: nat, done: bool)
    requires x in f0 && Drift(f0, f1, Members(DelsOf(f0[x])))
    requires forall y :: y in f0 && y != x ==> f1[y].flags == f0[y].flags
    requires HostKept(n0, c0, n1, c1) && HostWF(f1, n1, c1, container)
    requires !HasAny(f0[x].flags, ChildDeletion) ==> n1 == n0 && c1 == c0
    requires f1[x].flags == (if done then Without(f0[x].flags, ChildDeletion) else f0[x].flags)
    ensures DeleteKept(f0, f1, x, n0, c0, n1, c1, container, done)
  {
  }

  /** Packs the facts about the callbacks of the deletion part into `DeleteDone`. */
  lemma DeleteDonePack(f0: map<FiberId, Fiber>, f1: map<FiberId, Fiber>, x: FiberId,
                       queues: map<QueueId, UQ.UpdateQueueRec>, plan: StepPlan, s0: Unmounts, s1: Unmounts)
    requires StepQueued(f0, queues, plan, x) && x in f1 && x !in Members(DelsOf(f0[x]))
    requires forall d :: d in DelsOf(f0[x]) ==> d in f1 && f1[d].ret.None? && f1[d].child.None?
    requires f1[x].tag == FunctionComponent && f1[x].updateQueue.Some? ==> f1[x].updateQueue.value in queues
    requires PassiveMount(f1[x], queues) == PassiveMount(f0[x], queues)
    requires MutationOne(f0, queues, plan, x, s0) ==
      (if HasAny(f1[x].flags, Ref) && f1[x].tag == HostComponent then UnmountOne(f1[x], queues, s1) else (s1, false))
    ensures DeleteDone(f0, f1, x, queues, plan, s0, s1)
  {
  }

  /** The Passive and Ref parts of the step: `commitPassiveMountEffects` and clearing Passive, then `safelyDetachRef`. */
  method PassiveRefPart(heap: FiberHeap, refs: RefCells, root: FiberRootNode, queues: map<QueueId, UQ.UpdateQueueRec>, x: FiberId)
    returns (outcome: Outcome)
    requires x in heap.fibers
    requires heap.fibers[x].tag == FunctionComponent && heap.fibers[x].updateQueue.Some? ==> heap.fibers[x].updateQueue.value in queues
    modifies heap`fibers, refs, root`pendingPassiveEffects
    ensures heap.fibers == old(heap.fibers)[x := old(heap.fibers)[x].(flags := Without(old(heap.fibers)[x].flags, Passive))]
    ensures root.pendingPassiveEffects ==
      old(root.pendingPassiveEffects).(update := old(root.pendingPassiveEffects.update) + PassiveMount(old(heap.fibers)[x], queues))
    ensures var f := old(heap.fibers)[x];
      var s := Unmounts(old(refs.state), old(root.pendingPassiveEffects.unmount));
      (if HasAny(f.flags, Ref) && f.tag == HostComponent then UnmountOne(f, queues, s) else (s, false))
        == (Unmounts(refs.state, root.pendingPassiveEffects.unmount), outcome.Thrown?)
  {
    var f := heap.fibers[x];
    if HasAny(f.flags, Passive) {
      CommitPassiveMount(root, f, queues);
      heap.Put(x, f.(flags := Without(f.flags, Passive)));
    } else {
      WithoutBits(f.flags, Passive, 0);
      assert root.pendingPassiveEffects.update + PassiveMount(f, queues) == root.pendingPassiveEffects.update;
    }
    if HasAny(f.flags, Ref) && f.tag == HostComponent {
      outcome := refs.SafelyDetachRef(f);
    } else {
      outcome := Done;
    }
  }

  /**
   * What the step on `x` leaves of the arena and the host, whatever its
   * outcome: only the children `x` deletes lose their links, no other
   * fiber's flags change, and the host keeps its nodes, containers and node
   * kinds and still holds the node of every host fiber.
   */
  ghost predicate StepKept(f0: map<FiberId, Fiber>, f1: map<FiberId, Fiber>, x: FiberId,
                           n0: map<nat, HostNode>, c0: map<nat, seq<nat>>, n1: map<nat, HostNode>, c1: map<nat, seq<nat>>, container: nat)
  {
    && x in f0
    && Drift(f0, f1, Members(DelsOf(f0[x])))
    && (forall y :: y in f0 && y != x ==> f1[y].flags == f0[y].flags)
    && HostKept(n0, c0, n1, c1) && HostWF(f1, n1, c1, container)
  }

  /**
   * What a completed step on `x` has done: `bits` are cleared on `x`, the
   * children it deletes are unlinked, the ref writes and unmount callbacks
   * went from `s0` to `s1` as `MutationOne` says, and the passive mount
   * list went from `u0` to `u1` by what `x` queues.
   */
  ghost predicate StepDone(f0: map<FiberId, Fiber>, f1: map<FiberId, Fiber>, x: FiberId, bits: Flags,
                           queues: map<QueueId, UQ.UpdateQueueRec>, plan: StepPlan,
                           s0: Unmounts, s1: Unmounts, u0: seq<Option<EffectId>>, u1: seq<Option<EffectId>>)
  {
    && StepQueued(f0, queues, plan, x) && x in f1
    && f1[x].flags == Without(f0[x].flags, bits)
    && (forall d :: d in DelsOf(f0[x]) ==> d in f1 && f1[d].ret.None? && f1[d].child.None?)
    && MutationOne(f0, queues, plan, x, s0) == (s1, false)
    && u1 == u0 + PassiveMount(f0[x], queues)
  }

  /** A step that changed no fiber keeps every other fiber's flags and meets `StepKept`. */
  lemma KeptUnchanged(f0: map<FiberId, Fiber>, x: FiberId, n0: map<nat, HostNode>, c0: map<nat, seq<nat>>,
                      n1: map<nat, HostNode>, c1: map<nat, seq<nat>>, container: nat)
    requires x in f0 && HostKept(n0, c0, n1, c1) && HostWF(f0, n1, c1, container)
    ensures StepKept(f0, f0, x, n0, c0, n1, c1, container)
  {
    DriftRefl(f0);
    DriftMore(f0, f0, {}, Members(DelsOf(f0[x])));
  }

  /** Packs the facts about the arena and host after one step into `StepKept`. */
  lemma KeptPack(f0: map<FiberId, Fiber>, f1: map<FiberId, Fiber>, x: FiberId,
                 n0: map<nat, HostNode>, c0: map<nat, seq<nat>>, n1: map<nat, HostNode>, c1: map<nat, seq<nat>>, container: nat)
    requires x in f0 && Drift(f0, f1, Members(DelsOf(f0[x])))
    requires forall y :: y in f0 && y != x ==> f1[y].flags == f0[y].flags
    requires HostKept(n0, c0, n1, c1) && HostWF(f1, n1, c1, container)
    ensures StepKept(f0, f1, x, n0, c0, n1, c1, container)
  {
  }

  /** Packs the facts about one step's flags and callbacks into `StepDone`. */
  lemma DonePack(f0: map<FiberId, Fiber>, f1: map<FiberId, Fiber>, x: FiberId, bits: Flags,
                 queues: map<QueueId, UQ.UpdateQueueRec>, plan: StepPlan,
                 s0: Unmounts, s1: Unmounts, u0: seq<Option<EffectId>>, u1: seq<Option<EffectId>>)
    requires StepQueued(f0, queues, plan, x) && x in f1
    requires f1[x].flags == Without(f0[x].flags, bits)
    requires forall d :: d in DelsOf(f0[x]) ==> d in f1 && f1[d].ret.None? && f1[d].child.None?
    requires MutationOne(f0, queues, plan, x, s0) == (s1, false)
    requires u1 == u0 + PassiveMount(f0[x], queues)
    ensures StepDone(f0, f1, x, bits, queues, plan, s0, s1, u0, u1)
  {
  }

  /** Changing one fiber's flags keeps every host fiber's node. */
  lemma FlagsKeepHostWF(f0: map<FiberId, Fiber>, x: FiberId, flags: Flags, container: nat, n: map<nat, HostNode>, c: map<nat, seq<nat>>)
    requires x in f0 && HostWF(f0, n, c, container)
    ensures HostWF(f0[x := f0[x].(flags := flags)], n, c, container)
  {
    DriftFlags(f0, x, flags);
    HostWFDrift(f0, f0[x := f0[x].(flags := flags)], {}, container, n, c, n, c);
  }

  /** Clearing Placement and Update on `x` leaves the rest of its step ready, doing the same. */
  lemma ClearedForDeletion(f0: map<FiberId, Fiber>, container: nat, queues: map<QueueId, UQ.UpdateQueueRec>,
                           plan: StepPlan, del: set<FiberId>, x: FiberId, s: Unmounts, root: FiberRootNode)
    requires StepReady(f0, container, queues, plan, del, x) && RootsIn(f0, root)
    ensures x in f0 && x !in del && StepQueued(f0, queues, plan, x)
    ensures HasAny(f0[x].flags, Placement) ==> PlacementReady(f0, container, x, plan.placed, del)
    ensures var f1 := f0[x := f0[x].(flags := Without(f0[x].flags, Placement | Update))];
      && Closed(f1) && RootsIn(f1, root)
      && StepQueued(f1, queues, plan, x)
      && HasAny(f1[x].flags, ChildDeletion) == HasAny(f0[x].flags, ChildDeletion)
      && (HasAny(f1[x].flags, ChildDeletion) && f1[x].deletions.Some? ==>
            DeletionsReady(f1, queues, f1[x].deletions.value, plan.deleted, del))
  {
    var flags := Without(f0[x].flags, Placement | Update);
    var f1 := f0[x := f0[x].(flags := flags)];
    WithoutBits(f0[x].flags, Placement | Update, ChildDeletion);
    DriftFlags(f0, x, flags);
    ClosedDrift(f0, f1, {});
    RootsInDrift(f0, f1, {}, root);
    if HasAny(f0[x].flags, ChildDeletion) && f0[x].deletions.Some? {
      DeletionsReadyDrift(f0, f1, {}, queues, f0[x].deletions.value, plan.deleted, del);
    }
  }

  /** Clearing Placement and Update on `x` changes nothing the rest of the step reads. */
  lemma ClearedSame(f0: map<FiberId, Fiber>, queues: map<QueueId, UQ.UpdateQueueRec>, plan: StepPlan, x: FiberId, s: Unmounts)
    requires StepQueued(f0, queues, plan, x)
    ensures var f1 := f0[x := f0[x].(flags := Without(f0[x].flags, Placement | Update))];
      && StepQueued(f1, queues, plan, x)
      && DelsOf(f1[x]) == DelsOf(f0[x])
      && MutationOne(f1, queues, plan, x, s) == MutationOne(f0, queues, plan, x, s)
      && PassiveMount(f1[x], queues) == PassiveMount(f0[x], queues)
  {
    var flags := Without(f0[x].flags, Placement | Update);
    var f1 := f0[x := f0[x].(flags := flags)];
    WithoutBits(f0[x].flags, Placement | Update, ChildDeletion);
    WithoutBits(f0[x].flags, Placement | Update, Passive);
    WithoutBits(f0[x].flags, Placement | Update, Ref);
    DriftFlags(f0, x, flags);
    if HasAny(f0[x].flags, ChildDeletion) && f0[x].deletions.Some? {
      DeletionRunDrift(f0, f1, {}, queues, plan.deleted, s);
    }
  }

  /** What the rest of the step keeps, after Placement and Update were cleared on `x`, the whole step keeps. */
  lemma KeptCompose(f0: map<FiberId, Fiber>, f2: map<FiberId, Fiber>, x: FiberId,
                    n0: map<nat, HostNode>, c0: map<nat, seq<nat>>, n1: map<nat, HostNode>, c1: map<nat, seq<nat>>,
                    n2: map<nat, HostNode>, c2: map<nat, seq<nat>>, container: nat)
    requires x in f0 && HostKept(n0, c0, n1, c1)
    requires StepKept(f0[x := f0[x].(flags := Without(f0[x].flags, Placement | Update))], f2, x, n1, c1, n2, c2, container)
    ensures StepKept(f0, f2, x, n0, c0, n2, c2, container)
  {
    hide *;
    var f1 := f0[x := f0[x].(flags := Without(f0[x].flags, Placement | Update))];
    KeptUnpack(f1, f2, x, n1, c1, n2, c2, container);
    ClearedDels(f0, x);
    var dels := Members(DelsOf(f0[x]));
    DriftFlags(f0, x, Without(f0[x].flags, Placement | Update));
    DriftTrans(f0, f1, f2, {}, dels);
    assert {} + dels == dels;
    HostKeptTrans(n0, c0, n1, c1, n2, c2);
    KeptPack(f0, f2, x, n0, c0, n2, c2, container);
  }

  /** Unpacks `StepKept` into its conjuncts. */
  lemma KeptUnpack(f0: map<FiberId, Fiber>, f1: map<FiberId, Fiber>, x: FiberId,
                   n0: map<nat, HostNode>, c0: map<nat, seq<nat>>, n1: map<nat, HostNode>, c1: map<nat, seq<nat>>, container: nat)
    requires StepKept(f0, f1, x, n0, c0, n1, c1, container)
    ensures x in f0 && Drift(f0, f1, Members(DelsOf(f0[x])))
    ensures forall y :: y in f0 && y != x ==> f1[y].flags == f0[y].flags
    ensures HostKept(n0, c0, n1, c1) && HostWF(f1, n1, c1, container)
  {
  }

  /** Clearing Placement and Update keeps the children a fiber deletes. */
  lemma ClearedDels(f0: map<FiberId, Fiber>, x: FiberId)
    requires x in f0
    ensures var f1 := f0[x := f0[x].(flags := Without(f0[x].flags, Placement | Update))];
      x in f1 && DelsOf(f1[x]) == DelsOf(f0[x])
  {
    WithoutBits(f0[x].flags, Placement | Update, ChildDeletion);
  }

  /** What the rest of the step does, after Placement and Update were cleared on `x`, is what the whole step does. */
  lemma DoneCompose(f0: map<FiberId, Fiber>, f2: map<FiberId, Fiber>, x: FiberId, queues: map<QueueId, UQ.UpdateQueueRec>, plan: StepPlan,
                    s0: Unmounts, s2: Unmounts, u0: seq<Option<EffectId>>, u2: seq<Option<EffectId>>)
    requires StepQueued(f0, queues, plan, x)
    requires StepDone(f0[x := f0[x].(flags := Without(f0[x].flags, Placement | Update))], f2, x, ChildDeletion | Passive, queues, plan, s0, s2, u0, u2)
    ensures StepDone(f0, f2, x, MutationCleared, queues, plan, s0, s2, u0, u2)
  {
    ClearedSame(f0, queues, plan, x, s0);
    WithoutTwice(f0[x].flags, Placement | Update, ChildDeletion | Passive);
    assert (Placement | Update) | (ChildDeletion | Passive) == MutationCleared;
  }

  /** The first half of the step: the Placement and Update parts. */
  method PlaceUpdate(heap: FiberHeap, host: NoopHostState, root: FiberRootNode, x: FiberId, ghost plan: StepPlan, ghost del: set<FiberId>)
    returns (outcome: Outcome)
    requires RootsIn(heap.fibers, root) && HostWF(heap.fibers, host.nodes, host.containers, root.containerInfo)
    requires x in heap.fibers
    requires HasAny(heap.fibers[x].flags, Placement) ==> PlacementReady(heap.fibers, root.containerInfo, x, plan.placed, del)
    modifies heap`fibers, host`nodes, host`containers
    ensures HostKept(old(host.nodes), old(host.containers), host.nodes, host.containers)
    ensures HostWF(heap.fibers, host.nodes, host.containers, root.containerInfo)
    ensures outcome.Thrown? ==> heap.fibers == old(heap.fibers)
    ensures outcome.Done? ==>
      heap.fibers == old(heap.fibers)[x := old(heap.fibers)[x].(flags := Without(old(heap.fibers)[x].flags, Placement | Update))]
    ensures !HasAny(old(heap.fibers)[x].flags, Placement) && !HasAny(old(heap.fibers)[x].flags, Update) ==>
      host.nodes == old(host.nodes) && host.containers == old(host.containers)
    ensures outcome.Done? ==>
      host.View() == UpdateView(old(heap.fibers)[x], PlaceView(old(heap.fibers), root.containerInfo, x, plan, old(host.View())))
  {
    ghost var f0, n0, c0 := heap.fibers, host.nodes, host.containers;
    outcome := PlacePart(heap, host, root, x, plan, del);
    if outcome.Thrown? {
      return;
    }
    ghost var f1, n1, c1 := heap.fibers, host.nodes, host.containers;
    UpdateViewClear(f0[x], Placement, host.View());
    UpdatePart(heap, host, root.containerInfo, x);
    ClearTwice(f0, x, Placement, Update);
    HostKeptTrans(n0, c0, n1, c1, host.nodes, host.containers);
    if !HasAny(f0[x].flags, Placement) && !HasAny(f0[x].flags, Update) {
      assert f1[x].flags == Without(f0[x].flags, Placement);
      WithoutBits(f0[x].flags, Placement, 0);
      assert host.nodes == n1 == n0;
    }
  }

  /** Clearing `a` and then `b` on one fiber is clearing `a | b`. */
  lemma ClearTwice(m: map<FiberId, Fiber>, x: FiberId, a: Flags, b: Flags)
    requires x in m
    ensures var m1 := m[x := m[x].(flags := Without(m[x].flags, a))];
      m1[x := m1[x].(flags := Without(m1[x].flags, b))] == m[x := m[x].(flags := Without(m[x].flags, a | b))]
  {
    WithoutTwice(m[x].flags, a, b);
  }

  /** The second half of the step: the ChildDeletion, Passive and Ref parts. */
  method DeletePassive(heap: FiberHeap, host: NoopHostState, refs: RefCells, root: FiberRootNode,
                       queues: map<QueueId, UQ.UpdateQueueRec>, x: FiberId, ghost plan: StepPlan, ghost del: set<FiberId>)
    returns (outcome: Outcome)
    requires Closed(heap.fibers) && RootsIn(heap.fibers, root) && HostWF(heap.fibers, host.nodes, host.containers, root.containerInfo)
    requires x in heap.fibers && x !in del && StepQueued(heap.fibers, queues, plan, x)
    requires HasAny(heap.fibers[x].flags, ChildDeletion) && heap.fibers[x].deletions.Some? ==>
      DeletionsReady(heap.fibers, queues, heap.fibers[x].deletions.value, plan.deleted, del)
    modifies heap`fibers, host`nodes, host`containers, refs, root`pendingPassiveEffects
    ensures StepKept(old(heap.fibers), heap.fibers, x, old(host.nodes), old(host.containers), host.nodes, host.containers, root.containerInfo)
    ensures !HasAny(old(heap.fibers)[x].flags, ChildDeletion) ==> host.nodes == old(host.nodes) && host.containers == old(host.containers)
    ensures outcome.Done? ==>
      StepDone(old(heap.fibers), heap.fibers, x, ChildDeletion | Passive, queues, plan,
               Unmounts(old(refs.state), old(root.pendingPassiveEffects.unmount)), Unmounts(refs.state, root.pendingPassiveEffects.unmount),
               old(root.pendingPassiveEffects.update), root.pendingPassiveEffects.update)
    ensures outcome.Done? ==>
      heap.fibers == PassiveCleared(DeleteArena(old(heap.fibers), x), x) &&
      host.View() == DeleteView(old(heap.fibers), root.containerInfo, x, plan, old(host.View()))
  {
    // Every step below comes from a callee's contract or a named lemma.
    hide *;
    ghost var f0, n0, c0 := heap.fibers, host.nodes, host.containers;
    ghost var s0, u0 := Unmounts(refs.state, root.pendingPassiveEffects.unmount), root.pendingPassiveEffects.update;
    outcome := DeletePart(heap, host, refs, root, queues, x, plan, del);
    ghost var f1, n1, c1 := heap.fibers, host.nodes, host.containers;
    if outcome.Thrown? {
      DeleteThrewKept(f0, f1, x, n0, c0, n1, c1, root.containerInfo);
      return;
    }
    ghost var s1 := Unmounts(refs.state, root.pendingPassiveEffects.unmount);
    DeleteDoneQueued(f0, f1, x, queues, plan, s0, s1);
    outcome := PassiveRefPart(heap, refs, root, queues, x);
    PassiveClearedOpen(f1, x);
    AfterPassiveRef(f0, f1, heap.fibers, x, n0, c0, n1, c1, root.containerInfo, queues, plan,
                    s0, s1, Unmounts(refs.state, root.pendingPassiveEffects.unmount), outcome.Thrown?,
                    u0, root.pendingPassiveEffects.update);
  }

  /** Deletions that threw end the step with the frame of the ChildDeletion part. */
  lemma DeleteThrewKept(f0: map<FiberId, Fiber>, f1: map<FiberId, Fiber>, x: FiberId,
                        n0: map<nat, HostNode>, c0: map<nat, seq<nat>>, n1: map<nat, HostNode>, c1: map<nat, seq<nat>>, container: nat)
    requires DeleteKept(f0, f1, x, n0, c0, n1, c1, container, false)
    ensures StepKept(f0, f1, x, n0, c0, n1, c1, container)
    ensures !HasAny(f0[x].flags, ChildDeletion) ==> n1 == n0 && c1 == c0
  {
  }

  /** After completed deletions, the step's fiber still is in the arena with its queue. */
  lemma DeleteDoneQueued(f0: map<FiberId, Fiber>, f1: map<FiberId, Fiber>, x: FiberId,
                         queues: map<QueueId, UQ.UpdateQueueRec>, plan: StepPlan, s0: Unmounts, s1: Unmounts)
    requires DeleteDone(f0, f1, x, queues, plan, s0, s1)
    ensures x in f1 && (f1[x].tag == FunctionComponent && f1[x].updateQueue.Some? ==> f1[x].updateQueue.value in queues)
  {
  }

  /** The ChildDeletion part followed by the Passive and Ref parts is the second half of the step. */
  lemma AfterPassiveRef(f0: map<FiberId, Fiber>, f1: map<FiberId, Fiber>, f2: map<FiberId, Fiber>, x: FiberId,
                        n0: map<nat, HostNode>, c0: map<nat, seq<nat>>, n1: map<nat, HostNode>, c1: map<nat, seq<nat>>, container: nat,
                        queues: map<QueueId, UQ.UpdateQueueRec>, plan: StepPlan, s0: Unmounts, s1: Unmounts, s2: Unmounts, thrown: bool,
                        u0: seq<Option<EffectId>>, u2: seq<Option<EffectId>>)
    requires DeleteKept(f0, f1, x, n0, c0, n1, c1, container, true) && DeleteDone(f0, f1, x, queues, plan, s0, s1)
    requires f2 == f1[x := f1[x].(flags := Without(f1[x].flags, Passive))]
    requires u2 == u0 + PassiveMount(f1[x], queues)
    requires (if HasAny(f1[x].flags, Ref) && f1[x].tag == HostComponent then UnmountOne(f1[x], queues, s1) else (s1, false)) == (s2, thrown)
    ensures StepKept(f0, f2, x, n0, c0, n1, c1, container)
    ensures !HasAny(f0[x].flags, ChildDeletion) ==> n1 == n0 && c1 == c0
    ensures !thrown ==> StepDone(f0, f2, x, ChildDeletion | Passive, queues, plan, s0, s2, u0, u2)
  {
    DetachedFrame(f0, f1, f2, x);
    FlagsKeepHostWF(f1, x, Without(f1[x].flags, Passive), container, n1, c1);
    KeptPack(f0, f2, x, n0, c0, n1, c1, container);
    if !thrown {
      DonePack(f0, f2, x, ChildDeletion | Passive, queues, plan, s0, s2, u0, u2);
    }
  }

  /** After its deletions, the step's fiber differs from before only in the ChildDeletion flag: it was not among them. */
  lemma DeletedFiber(f0: map<FiberId, Fiber>, f1: map<FiberId, Fiber>, queues: map<QueueId, UQ.UpdateQueueRec>,
                     plan: StepPlan, del: set<FiberId>, x: FiberId, done: bool)
    requires StepQueued(f0, queues, plan, x) && x !in del
    requires HasAny(f0[x].flags, ChildDeletion) && f0[x].deletions.Some? ==>
      DeletionsReady(f0, queues, f0[x].deletions.value, plan.deleted, del)
    requires Drift(f0, f1, Members(DelsOf(f0[x])))
    requires done ==> f1[x].flags == Without(f0[x].flags, ChildDeletion)
    ensures x in f0 && x !in Members(DelsOf(f0[x])) && x in f1
    ensures done ==> f1[x].tag == FunctionComponent && f1[x].updateQueue.Some? ==> f1[x].updateQueue.value in queues
    ensures done ==> PassiveMount(f1[x], queues) == PassiveMount(f0[x], queues)
  {
    assert Kept(f0[x], f1[x], false);
    WithoutBits(f0[x].flags, ChildDeletion, Passive);
  }

  /** After the deletions of the step on `x`, its fiber differs only in the ChildDeletion flag, and what is left of the step is the ref detach. */
  lemma DeletedThen(f0: map<FiberId, Fiber>, f1: map<FiberId, Fiber>, queues: map<QueueId, UQ.UpdateQueueRec>,
                    plan: StepPlan, x: FiberId, s0: Unmounts, s1: Unmounts)
    requires StepQueued(f0, queues, plan, x) && Drift(f0, f1, Members(DelsOf(f0[x])))
    requires x !in Members(DelsOf(f0[x])) && f1[x].flags == Without(f0[x].flags, ChildDeletion)
    requires (if HasAny(f0[x].flags, ChildDeletion) && f0[x].deletions.Some?
              then DeletionRun(f0, queues, plan.deleted, s0) else (s0, false)) == (s1, false)
    ensures Kept(f0[x], f1[x], false) && f1[x] == f0[x].(flags := Without(f0[x].flags, ChildDeletion))
    ensures f1[x].tag == FunctionComponent && f1[x].updateQueue.Some? ==> f1[x].updateQueue.value in queues
    ensures PassiveMount(f1[x], queues) == PassiveMount(f0[x], queues)
    ensures MutationOne(f0, queues, plan, x, s0) ==
      if HasAny(f1[x].flags, Ref) && f1[x].tag == HostComponent then UnmountOne(f1[x], queues, s1) else (s1, false)
  {
    assert Kept(f0[x], f1[x], false);
    WithoutBits(f0[x].flags, ChildDeletion, Passive);
    WithoutBits(f0[x].flags, ChildDeletion, Ref);
  }

  /** After the Passive and Ref parts, the step's fiber has lost ChildDeletion and Passive, and nothing else changed. */
  lemma DetachedFrame(f0: map<FiberId, Fiber>, f1: map<FiberId, Fiber>, f2: map<FiberId, Fiber>, x: FiberId)
    requires x in f0 && Drift(f0, f1, Members(DelsOf(f0[x])))
    requires x !in Members(DelsOf(f0[x])) && f1[x].flags == Without(f0[x].flags, ChildDeletion)
    requires forall y :: y in f0 && y != x ==> f1[y].flags == f0[y].flags
    requires forall d :: d in DelsOf(f0[x]) ==> d in f1 && f1[d].ret.None? && f1[d].child.None?
    requires f2 == f1[x := f1[x].(flags := Without(f1[x].flags, Passive))]
    ensures Drift(f0, f2, Members(DelsOf(f0[x])))
    ensures forall y :: y in f0 && y != x ==> f2[y].flags == f0[y].flags
    ensures x in f2 && f2[x].flags == Without(f0[x].flags, ChildDeletion | Passive)
    ensures forall d :: d in DelsOf(f0[x]) ==> d in f2 && f2[d].ret.None? && f2[d].child.None?
  {
    var dels := Members(DelsOf(f0[x]));
    WithoutTwice(f0[x].flags, ChildDeletion, Passive);
    DriftFlags(f1, x, f2[x].flags);
    DriftTrans(f0, f1, f2, dels, {});
    assert dels + {} == dels;
  }

  /**
   * `commitMutationEffectsOnFiber(x)`: Placement, Update, ChildDeletion
   * and Passive each run their part and are cleared, and a HostComponent
   * with Ref detaches its ref. The deleted children lose their links;
   * every other fiber keeps its fields.
   */
  method MutationStep(heap: FiberHeap, host: NoopHostState, refs: RefCells, root: FiberRootNode,
                      queues: map<QueueId, UQ.UpdateQueueRec>, x: FiberId, ghost plan: StepPlan, ghost del: set<FiberId>)
    returns (outcome: Outcome)
    requires RootsIn(heap.fibers, root) && HostWF(heap.fibers, host.nodes, host.containers, root.containerInfo)
    requires StepReady(heap.fibers, root.containerInfo, queues, plan, del, x)
    modifies heap`fibers, host`nodes, host`containers, refs, root`pendingPassiveEffects
    ensures StepKept(old(heap.fibers), heap.fibers, x, old(host.nodes), old(host.containers), host.nodes, host.containers, root.containerInfo)
    ensures !HasAny(old(heap.fibers)[x].flags, Placement) && !HasAny(old(heap.fibers)[x].flags, Update) &&
            !HasAny(old(heap.fibers)[x].flags, ChildDeletion) ==>
      host.nodes == old(host.nodes) && host.containers == old(host.containers)
    ensures outcome.Done? ==>
      StepDone(old(heap.fibers), heap.fibers, x, MutationCleared, queues, plan,
               Unmounts(old(refs.state), old(root.pendingPassiveEffects.unmount)), Unmounts(refs.state, root.pendingPassiveEffects.unmount),
               old(root.pendingPassiveEffects.update), root.pendingPassiveEffects.update)
    ensures outcome.Done? ==>
      heap.fibers == StepArena(old(heap.fibers), x) &&
      host.View() == StepView(old(heap.fibers), root.containerInfo, x, plan, old(host.View()))
  {
    // Every step below comes from a callee's contract or a named lemma.
    hide *;
    ghost var f0, n0, c0 := heap.fibers, host.nodes, host.containers;
    ghost var v0 := host.View();
    ghost var s0, u0 := Unmounts(refs.state, root.pendingPassiveEffects.unmount), root.pendingPassiveEffects.update;
    ClearedForDeletion(f0, root.containerInfo, queues, plan, del, x, s0, root);
    StepOpen(f0, root.containerInfo, x, plan, v0);
    outcome := PlaceUpdate(heap, host, root, x, plan, del);
    if outcome.Thrown? {
      KeptUnchanged(f0, x, n0, c0, host.nodes, host.containers, root.containerInfo);
      return;
    }
    ghost var n1, c1 := host.nodes, host.containers;
    outcome := DeletePassive(heap, host, refs, root, queues, x, plan, del);
    KeptCompose(f0, heap.fibers, x, n0, c0, n1, c1, host.nodes, host.containers, root.containerInfo);
    if outcome.Done? {
      DoneCompose(f0, heap.fibers, x, queues, plan, s0, Unmounts(refs.state, root.pendingPassiveEffects.unmount),
                  u0, root.pendingPassiveEffects.update);
    }
  }

  // ------------------------------------------------------------ what a completed step leaves

  /** The host after the Placement part on `x` completes: its placement when it has the flag. */
  ghost function PlaceView(fibers: map<FiberId, Fiber>, container: nat, x: FiberId, plan: StepPlan, v: HostView): HostView
    requires x in fibers
  {
    if HasAny(fibers[x].flags, Placement) then PlacementView(fibers, container, x, plan.placed, v) else v
  }

  /** The host after the Update part on `f` completes: a HostText fiber with the flag gets its new text. */
  function UpdateView(f: Fiber, v: HostView): HostView
  {
    if HasAny(f.flags, Update) && f.tag == HostText && f.stateNode.HostInstance? then
      TextView(v, f.stateNode.id, TextUpdate(f.memoizedProps))
    else v
  }

  /** Clearing a flag other than Update does not change what the Update part does. */
  lemma UpdateViewClear(f: Fiber, bits: Flags, v: HostView)
    requires bits & Update == 0
    ensures UpdateView(f.(flags := Without(f.flags, bits)), v) == UpdateView(f, v)
  {
    WithoutBits(f.flags, bits, Update);
  }

  /** `x` without the Passive flag. */
  ghost function PassiveCleared(fibers: map<FiberId, Fiber>, x: FiberId): map<FiberId, Fiber>
  {
    if x in fibers then fibers[x := fibers[x].(flags := Without(fibers[x].flags, Passive))] else fibers
  }

  /** `PassiveCleared` is clearing the Passive flag of `x`. */
  lemma PassiveClearedOpen(fibers: map<FiberId, Fiber>, x: FiberId)
    requires x in fibers
    ensures PassiveCleared(fibers, x) == fibers[x := fibers[x].(flags := Without(fibers[x].flags, Passive))]
  {
  }

  /** The arena after the mutation step on `x` completes: Placement and Update cleared, the ChildDeletion part, Passive cleared. */
  ghost function StepArena(fibers: map<FiberId, Fiber>, x: FiberId): map<FiberId, Fiber>
    requires x in fibers
  {
    var f := fibers[x];
    PassiveCleared(DeleteArena(fibers[x := f.(flags := Without(f.flags, Placement | Update))], x), x)
  }

  /**
   * The host after the mutation step on `x` completes: the placement, then
   * the text update, then the deletions, each seen in the arena the parts
   * before it left.
   */
  ghost function StepView(fibers: map<FiberId, Fiber>, container: nat, x: FiberId, plan: StepPlan, v: HostView): HostView
    requires x in fibers
  {
    var f := fibers[x];
    DeleteView(fibers[x := f.(flags := Without(f.flags, Placement | Update))], container, x, plan,
               UpdateView(f, PlaceView(fibers, container, x, plan, v)))
  }

  /** One mutation step is placement, then update, then deletion, then clearing Passive, on the arena and on the host view. */
  lemma StepOpen(fibers: map<FiberId, Fiber>, container: nat, x: FiberId, plan: StepPlan, v: HostView)
    requires x in fibers
    ensures var f1 := fibers[x := fibers[x].(flags := Without(fibers[x].flags, Placement | Update))];
      && StepArena(fibers, x) == PassiveCleared(DeleteArena(f1, x), x)
      && StepView(fibers, container, x, plan, v) == DeleteView(f1, container, x, plan, UpdateView(fibers[x], PlaceView(fibers, container, x, plan, v)))
  {
  }

  /** A fiber with nothing to place, update or delete: its step leaves the host alone and only clears the fiber's flags. */
  lemma StepQuiet(fibers: map<FiberId, Fiber>, container: nat, x: FiberId, plan: StepPlan, v: HostView)
    requires x in fibers
    requires !HasAny(fibers[x].flags, Placement) && !HasAny(fibers[x].flags, Update) && !HasAny(fibers[x].flags, ChildDeletion)
    ensures StepView(fibers, container, x, plan, v) == v
    ensures StepArena(fibers, x) == fibers[x := fibers[x].(flags := Without(fibers[x].flags, MutationCleared))]
  {
    // Every step below comes from a named lemma.
    hide *;
    var f := fibers[x];
    var f1 := fibers[x := f.(flags := Without(f.flags, Placement | Update))];
    StepOpen(fibers, container, x, plan, v);
    QuietFlags(f.flags);
    DeleteQuiet(f1, container, x, plan, UpdateView(f, PlaceView(fibers, container, x, plan, v)));
    PlaceUpdateQuiet(fibers, container, x, plan, v);
    PassiveClearedOpen(f1, x);
  }

  /** Without ChildDeletion the ChildDeletion part leaves arena and host as they are. */
  lemma DeleteQuiet(fibers: map<FiberId, Fiber>, container: nat, x: FiberId, plan: StepPlan, v: HostView)
    requires x in fibers && !HasAny(fibers[x].flags, ChildDeletion)
    ensures DeleteArena(fibers, x) == fibers && DeleteView(fibers, container, x, plan, v) == v
  {
    NothingDeleted(fibers, x, container, plan, v);
  }

  /** Without Placement and Update the first two parts leave the host as it is. */
  lemma PlaceUpdateQuiet(fibers: map<FiberId, Fiber>, container: nat, x: FiberId, plan: StepPlan, v: HostView)
    requires x in fibers && !HasAny(fibers[x].flags, Placement) && !HasAny(fibers[x].flags, Update)
    ensures UpdateView(fibers[x], PlaceView(fibers, container, x, plan, v)) == v
  {
  }

  /** On flags without ChildDeletion, clearing Placement and Update keeps it unset, and clearing Passive after that is clearing all four. */
  lemma QuietFlags(flags: Flags)
    requires !HasAny(flags, ChildDeletion)
    ensures !HasAny(Without(flags, Placement | Update), ChildDeletion)
    ensures Without(Without(flags, Placement | Update), Passive) == Without(flags, MutationCleared)
  {
    ClearKeeps(flags, Placement | Update, ChildDeletion);
    UnsetBits(flags, Placement | Update, ChildDeletion, Passive);
  }

  /** Clearing `a` and then `c` from flags without `b` is clearing `a`, `b` and `c`. */
  lemma UnsetBits(f: Flags, a: Flags, b: Flags, c: Flags)
    requires f & b == 0
    ensures Without(Without(f, a), c) == Without(f, a | b | c)
  {
  }
}
