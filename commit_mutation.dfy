/**
 * `commitMutationEffects(finishedWork, root)` (commitWork.ts): the walk of
 * `commitEffects` by `MutationMask | Passive`, handing every fiber it
 * reaches to the mutation step. What each step places and deletes is
 * given by its plan; the phase runs the steps in the walk's order and
 * does, in that order, what the steps do.
 */
module CommitMutation {
  import opened Wrappers
  import opened FiberFlags
  import opened Fiber
  import opened FiberRoot
  import opened NoopHost
  import opened FiberTree
  import opened FiberChains
  import opened CommitHost
  import opened CommitRefs
  import opened CommitDeletion
  import opened CommitWalk
  import opened CommitFrame
  import opened CommitEffects
  import UQ = UpdateQueue

  /** Every fiber of `order` has a plan, and the update queues its step reads exist. */
  ghost predicate PlansFor(fibers: map<FiberId, Fiber>, queues: map<QueueId, UQ.UpdateQueueRec>, plans: map<FiberId, StepPlan>, order: seq<FiberId>)
  {
    forall x :: x in order ==> x in plans && StepQueued(fibers, queues, plans[x], x)
  }

  /** Plans for the whole order are plans for each prefix, with their queues present. */
  lemma PlansForPrefix(fibers: map<FiberId, Fiber>, queues: map<QueueId, UQ.UpdateQueueRec>, plans: map<FiberId, StepPlan>, order: seq<FiberId>, i: nat)
    requires PlansFor(fibers, queues, plans, order) && i <= |order|
    ensures PlansFor(fibers, queues, plans, order[..i])
    ensures QueuesIn(fibers, queues, order[..i]) && forall x :: x in order[..i] ==> x in fibers
  {
    assert forall x :: x in order[..i] ==> x in order;
  }

  /** The ref writes and unmount callbacks of the steps along `order`, stopping at the first that throws. */
  ghost function MutationRun(fibers: map<FiberId, Fiber>, queues: map<QueueId, UQ.UpdateQueueRec>, plans: map<FiberId, StepPlan>,
                             order: seq<FiberId>, s: Unmounts): (Unmounts, bool)
    requires PlansFor(fibers, queues, plans, order)
    decreases |order|
  {
    if |order| == 0 then (s, false)
    else
      var last := order[|order| - 1];
      PlansForPrefix(fibers, queues, plans, order, |order| - 1);
      var (s1, thrown) := MutationRun(fibers, queues, plans, order[..|order| - 1], s);
      if thrown then (s1, true) else MutationOne(fibers, queues, plans[last], last, s1)
  }

  /** The children the steps along `order` delete. */
  ghost function DelSet(fibers: map<FiberId, Fiber>, order: seq<FiberId>): set<FiberId>
    requires forall x :: x in order ==> x in fibers
    decreases |order|
  {
    if |order| == 0 then {}
    else
      assert forall x :: x in order[..|order| - 1] ==> x in order;
      DelSet(fibers, order[..|order| - 1]) + Members(DelsOf(fibers[order[|order| - 1]]))
  }

  /**
   * What the phase needs: every visited fiber is ready for its step, no
   * fiber is visited twice, and no child is deleted by two steps.
   */
  ghost predicate PhaseReady(fibers: map<FiberId, Fiber>, container: nat, queues: map<QueueId, UQ.UpdateQueueRec>,
                             plans: map<FiberId, StepPlan>, del: set<FiberId>, order: seq<FiberId>)
  {
    && NoRepeats(order)
    && (forall x :: x in order ==> x in plans && StepReady(fibers, container, queues, plans[x], del, x))
    && (forall i, j :: 0 <= i < j < |order| && order[i] in fibers && order[j] in fibers ==>
          Members(DelsOf(fibers[order[i]])) !! Members(DelsOf(fibers[order[j]])))
  }

  /** After the first `i` steps: those fibers have lost the flags the step clears, and the children they deleted their links. */
  ghost predicate MutationAt(f0: map<FiberId, Fiber>, order: seq<FiberId>, i: nat, fibers: map<FiberId, Fiber>)
    requires i <= |order| && forall x :: x in order ==> x in f0
  {
    assert forall x :: x in order[..i] ==> x in order;
    && Drift(f0, fibers, DelSet(f0, order[..i]))
    && (forall y :: y in f0 ==> fibers[y].flags == if y in order[..i] then Without(f0[y].flags, MutationCleared) else f0[y].flags)
    && (forall d :: d in DelSet(f0, order[..i]) ==> d in fibers && fibers[d].ret.None? && fibers[d].child.None?)
  }

  /** The loop state of the phase after `i` steps, with the host, the ref and unmount state and the passive mount list. */
  ghost predicate PhaseAt(f0: map<FiberId, Fiber>, order: seq<FiberId>, i: nat, fibers: map<FiberId, Fiber>,
                          n0: map<nat, HostNode>, c0: map<nat, seq<nat>>, n1: map<nat, HostNode>, c1: map<nat, seq<nat>>, container: nat,
                          queues: map<QueueId, UQ.UpdateQueueRec>, plans: map<FiberId, StepPlan>,
                          s0: Unmounts, s1: Unmounts, u0: seq<Option<EffectId>>, u1: seq<Option<EffectId>>)
    requires i <= |order| && PlansFor(f0, queues, plans, order)
  {
    PlansForPrefix(f0, queues, plans, order, i);
    && MutationAt(f0, order, i, fibers)
    && HostKept(n0, c0, n1, c1) && HostWF(fibers, n1, c1, container)
    && MutationRun(f0, queues, plans, order[..i], s0) == (s1, false)
    && u1 == u0 + PassiveMounts(f0, queues, order[..i])
  }

  /**
   * The arena and the host after the steps along `order` complete, each
   * step done in the arena and on the host the steps before it left.
   */
  ghost function PhaseRun(f0: map<FiberId, Fiber>, container: nat, plans: map<FiberId, StepPlan>, order: seq<FiberId>, v0: HostView)
    : (map<FiberId, Fiber>, HostView)
    decreases |order|
  {
    if |order| == 0 then (f0, v0)
    else
      var (f, v) := PhaseRun(f0, container, plans, order[..|order| - 1], v0);
      var x := order[|order| - 1];
      if x in f && x in plans then (StepArena(f, x), StepView(f, container, x, plans[x], v)) else (f, v)
  }

  /** The arena `fibers` and the host `v` are what the first `i` steps leave of `f0` and `v0`. */
  ghost predicate RunAt(f0: map<FiberId, Fiber>, container: nat, plans: map<FiberId, StepPlan>, order: seq<FiberId>, v0: HostView,
                        i: nat, fibers: map<FiberId, Fiber>, v: HostView)
  {
    i <= |order| && PhaseRun(f0, container, plans, order[..i], v0) == (fibers, v)
  }

  /** One more completed step extends the run by what the step leaves. */
  lemma RunNext(f0: map<FiberId, Fiber>, container: nat, plans: map<FiberId, StepPlan>, order: seq<FiberId>, v0: HostView,
                i: nat, f1: map<FiberId, Fiber>, v1: HostView, f2: map<FiberId, Fiber>, v2: HostView)
    requires RunAt(f0, container, plans, order, v0, i, f1, v1) && i < |order| && order[i] in f1 && order[i] in plans
    requires f2 == StepArena(f1, order[i]) && v2 == StepView(f1, container, order[i], plans[order[i]], v1)
    ensures RunAt(f0, container, plans, order, v0, i + 1, f2, v2)
  {
    assert order[..i + 1][..i] == order[..i];
  }

  /** Before the first fiber, the run has changed neither arena nor host view. */
  lemma RunStart(f0: map<FiberId, Fiber>, container: nat, plans: map<FiberId, StepPlan>, order: seq<FiberId>, v0: HostView)
    ensures RunAt(f0, container, plans, order, v0, 0, f0, v0)
  {
    assert order[..0] == [];
  }

  /** After the last fiber, `RunAt` is the whole `PhaseRun`. */
  lemma RunEnd(f0: map<FiberId, Fiber>, container: nat, plans: map<FiberId, StepPlan>, order: seq<FiberId>, v0: HostView,
               f1: map<FiberId, Fiber>, v1: HostView)
    requires RunAt(f0, container, plans, order, v0, |order|, f1, v1)
    ensures PhaseRun(f0, container, plans, order, v0) == (f1, v1)
  {
    assert order[..|order|] == order;
  }

  /** What the phase leaves, whatever its outcome: only deleted children lose links, and the host keeps its shape. */
  ghost predicate PhaseKept(f0: map<FiberId, Fiber>, f1: map<FiberId, Fiber>, order: seq<FiberId>,
                            n0: map<nat, HostNode>, c0: map<nat, seq<nat>>, n1: map<nat, HostNode>, c1: map<nat, seq<nat>>, container: nat)
  {
    && (forall x :: x in order ==> x in f0)
    && Drift(f0, f1, DelSet(f0, order))
    && HostKept(n0, c0, n1, c1) && HostWF(f1, n1, c1, container)
  }

  /**
   * What a completed phase has done: every visited fiber lost Placement,
   * Update, ChildDeletion and Passive and no other fiber's flags changed,
   * every deleted child is unlinked, the ref writes and unmount callbacks
   * are `MutationRun`'s, and the passive mount list grew by what the
   * visited fibers queue, in order.
   */
  ghost predicate PhaseDone(f0: map<FiberId, Fiber>, f1: map<FiberId, Fiber>, order: seq<FiberId>,
                            queues: map<QueueId, UQ.UpdateQueueRec>, plans: map<FiberId, StepPlan>,
                            s0: Unmounts, s1: Unmounts, u0: seq<Option<EffectId>>, u1: seq<Option<EffectId>>)
  {
    && PlansFor(f0, queues, plans, order)
    && (forall y :: y in f0 ==> y in f1 && f1[y].flags == if y in order then Without(f0[y].flags, MutationCleared) else f0[y].flags)
    && (PlansForPrefix(f0, queues, plans, order, |order|);
        assert order[..|order|] == order;
        && (forall d :: d in DelSet(f0, order) ==> d in f1 && f1[d].ret.None? && f1[d].child.None?)
        && MutationRun(f0, queues, plans, order, s0) == (s1, false)
        && u1 == u0 + PassiveMounts(f0, queues, order))
  }

  /**
   * `commitMutationEffects`: the mutation step on every fiber the walk by
   * `MutationMask | Passive` reaches, in the walk's order, until a ref
   * write throws. The steps change no link or subtree flag the walk
   * reads, so the order computed first is the walk's order throughout.
   */
  method CommitMutationEffects(heap: FiberHeap, host: NoopHostState, refs: RefCells, root: FiberRootNode,
                               queues: map<QueueId, UQ.UpdateQueueRec>, top: FiberId, ghost t: Tree,
                               ghost plans: map<FiberId, StepPlan>, ghost del: set<FiberId>)
    returns (outcome: Outcome)
    requires Shaped(heap.fibers, t) && t.id == top
    requires heap.fibers[top].ret.None? && heap.fibers[top].sibling.None?
    requires RootsIn(heap.fibers, root) && HostWF(heap.fibers, host.nodes, host.containers, root.containerInfo)
    requires IdSet(t) !! del
    requires PhaseReady(heap.fibers, root.containerInfo, queues, plans, del, Visit(heap.fibers, t, MutationPhaseMask))
    modifies heap`fibers, host`nodes, host`containers, refs, root`pendingPassiveEffects
    ensures Visit(heap.fibers, t, MutationPhaseMask) == Visit(old(heap.fibers), t, MutationPhaseMask)
    ensures PhaseKept(old(heap.fibers), heap.fibers, Visit(old(heap.fibers), t, MutationPhaseMask),
                      old(host.nodes), old(host.containers), host.nodes, host.containers, root.containerInfo)
    ensures outcome.Done? ==>
      PhaseDone(old(heap.fibers), heap.fibers, Visit(old(heap.fibers), t, MutationPhaseMask), queues, plans,
                Unmounts(old(refs.state), old(root.pendingPassiveEffects.unmount)), Unmounts(refs.state, root.pendingPassiveEffects.unmount),
                old(root.pendingPassiveEffects.update), root.pendingPassiveEffects.update)
    ensures outcome.Done? ==>
      (heap.fibers, host.View()) == PhaseRun(old(heap.fibers), root.containerInfo, plans, Visit(old(heap.fibers), t, MutationPhaseMask), old(host.View()))
  {
    // Every step below comes from a callee's contract or a named lemma.
    hide *;
    ghost var f0, n0, c0, v0 := heap.fibers, host.nodes, host.containers, host.View();
    ghost var s0, u0 := Unmounts(refs.state, root.pendingPassiveEffects.unmount), root.pendingPassiveEffects.update;
    var order := CommitOrder(heap, top, MutationPhaseMask, t);
    PhaseStart(f0, order, n0, c0, root.containerInfo, queues, plans, del, s0, u0);
    RunStart(f0, root.containerInfo, plans, order, v0);
    outcome := Done;
    var i := 0;
    while i < |order|
      invariant 0 <= i <= |order| && PlansFor(f0, queues, plans, order)
      invariant PhaseAt(f0, order, i, heap.fibers, n0, c0, host.nodes, host.containers, root.containerInfo, queues, plans,
                        s0, Unmounts(refs.state, root.pendingPassiveEffects.unmount), u0, root.pendingPassiveEffects.update)
      invariant RunAt(f0, root.containerInfo, plans, order, v0, i, heap.fibers, host.View())
    {
      outcome := MutationNext(heap, host, refs, root, queues, order, i, plans, del, f0, n0, c0, s0, u0, v0);
      if outcome.Thrown? {
        PhaseWalkKept(f0, heap.fibers, t, order, root.containerInfo, queues, plans, del, n0, c0, host.nodes, host.containers);
        return;
      }
      i := i + 1;
    }
    PhaseFinish(f0, heap.fibers, order, n0, c0, host.nodes, host.containers, root.containerInfo, queues, plans,
                s0, Unmounts(refs.state, root.pendingPassiveEffects.unmount), u0, root.pendingPassiveEffects.update);
    RunEnd(f0, root.containerInfo, plans, order, v0, heap.fibers, host.View());
    PhaseWalkKept(f0, heap.fibers, t, order, root.containerInfo, queues, plans, del, n0, c0, host.nodes, host.containers);
  }

  /**
   * The point of the phase: once it completes over a tree whose subtree
   * flags are bubbled, no fiber of the tree keeps Placement, Update,
   * ChildDeletion or Passive, and each keeps its Ref for the layout phase.
   */
  lemma MutationClears(f0: map<FiberId, Fiber>, f1: map<FiberId, Fiber>, t: Tree, order: seq<FiberId>,
                       queues: map<QueueId, UQ.UpdateQueueRec>, plans: map<FiberId, StepPlan>,
                       s0: Unmounts, s1: Unmounts, u0: seq<Option<EffectId>>, u1: seq<Option<EffectId>>, y: FiberId)
    requires Shaped(f0, t) && Bubbled(f0, t, MutationPhaseMask) && order == Visit(f0, t, MutationPhaseMask)
    requires PhaseDone(f0, f1, order, queues, plans, s0, s1, u0, u1)
    requires y in IdSet(t) && y in f0
    ensures y in f1 && !HasAny(f1[y].flags, MutationCleared)
    ensures HasAny(f1[y].flags, Ref) <==> HasAny(f0[y].flags, Ref)
  {
    if y in order {
      WithoutBits(f0[y].flags, MutationCleared, Ref);
    } else {
      if HasAny(f0[y].flags, MutationPhaseMask) {
        VisitCovers(f0, t, y, MutationPhaseMask);
      }
      PhaseMaskCovers(f0[y].flags);
    }
  }

  /** A fiber without any mutation-phase flag has none of the flags the phase clears. */
  lemma PhaseMaskCovers(f: Flags)
    requires !HasAny(f, MutationPhaseMask)
    ensures !HasAny(f, MutationCleared)
  {
  }

  /** Before the first step nothing has changed. */
  lemma PhaseStart(f0: map<FiberId, Fiber>, order: seq<FiberId>, n0: map<nat, HostNode>, c0: map<nat, seq<nat>>, container: nat,
                   queues: map<QueueId, UQ.UpdateQueueRec>, plans: map<FiberId, StepPlan>, del: set<FiberId>, s0: Unmounts, u0: seq<Option<EffectId>>)
    requires PhaseReady(f0, container, queues, plans, del, order) && HostWF(f0, n0, c0, container)
    ensures PlansFor(f0, queues, plans, order)
    ensures PhaseAt(f0, order, 0, f0, n0, c0, n0, c0, container, queues, plans, s0, s0, u0, u0)
  {
    assert order[..0] == [];
    DriftRefl(f0);
  }

  /** At the end of the loop, the loop state is what the phase promises. */
  lemma PhaseFinish(f0: map<FiberId, Fiber>, f1: map<FiberId, Fiber>, order: seq<FiberId>,
                    n0: map<nat, HostNode>, c0: map<nat, seq<nat>>, n1: map<nat, HostNode>, c1: map<nat, seq<nat>>, container: nat,
                    queues: map<QueueId, UQ.UpdateQueueRec>, plans: map<FiberId, StepPlan>,
                    s0: Unmounts, s1: Unmounts, u0: seq<Option<EffectId>>, u1: seq<Option<EffectId>>)
    requires PlansFor(f0, queues, plans, order)
    requires PhaseAt(f0, order, |order|, f1, n0, c0, n1, c1, container, queues, plans, s0, s1, u0, u1)
    ensures PhaseKept(f0, f1, order, n0, c0, n1, c1, container)
    ensures PhaseDone(f0, f1, order, queues, plans, s0, s1, u0, u1)
  {
    assert order[..|order|] == order;
  }

  /** The deletions of the steps keep out of the finished tree, so the walk's order is the same at the end. */
  lemma PhaseWalkKept(f0: map<FiberId, Fiber>, f1: map<FiberId, Fiber>, t: Tree, order: seq<FiberId>, container: nat,
                      queues: map<QueueId, UQ.UpdateQueueRec>, plans: map<FiberId, StepPlan>, del: set<FiberId>,
                      n0: map<nat, HostNode>, c0: map<nat, seq<nat>>, n1: map<nat, HostNode>, c1: map<nat, seq<nat>>)
    requires IdSet(t) !! del && PhaseReady(f0, container, queues, plans, del, order)
    requires PhaseKept(f0, f1, order, n0, c0, n1, c1, container)
    ensures Visit(f1, t, MutationPhaseMask) == Visit(f0, t, MutationPhaseMask)
  {
    DelSetWithin(f0, container, queues, plans, del, order, |order|);
    assert order[..|order|] == order;
    VisitDrift(f0, f1, DelSet(f0, order), t, MutationPhaseMask);
  }

  /** The children deleted by the first `i` steps are among `del`. */
  lemma {:induction false} DelSetWithin(f0: map<FiberId, Fiber>, container: nat, queues: map<QueueId, UQ.UpdateQueueRec>,
                                        plans: map<FiberId, StepPlan>, del: set<FiberId>, order: seq<FiberId>, i: nat)
    requires PhaseReady(f0, container, queues, plans, del, order) && i <= |order|
    ensures forall x :: x in order[..i] ==> x in f0
    ensures DelSet(f0, order[..i]) <= del
    decreases i
  {
    assert forall x :: x in order[..i] ==> x in order;
    if i > 0 {
      DelSetWithin(f0, container, queues, plans, del, order, i - 1);
      assert order[..i][..i - 1] == order[..i - 1];
      var x := order[i - 1];
      assert StepReady(f0, container, queues, plans[x], del, x);
      DelsWithin(f0, container, queues, plans[x], del, x);
    }
  }

  /** The children one step deletes are among `del`. */
  lemma DelsWithin(f0: map<FiberId, Fiber>, container: nat, queues: map<QueueId, UQ.UpdateQueueRec>, plan: StepPlan, del: set<FiberId>, x: FiberId)
    requires StepReady(f0, container, queues, plan, del, x)
    ensures Members(DelsOf(f0[x])) <= del
  {
    if HasAny(f0[x].flags, ChildDeletion) && f0[x].deletions.Some? {
      var ds := f0[x].deletions.value;
      forall d | d in Members(ds)
        ensures d in del
      {
        var k :| 0 <= k < |ds| && ds[k] == d;
      }
    }
  }

  /** The children deleted by the first `i` steps are not the ones step `k` deletes, for `i <= k`. */
  lemma {:induction false} DelSetApart(f0: map<FiberId, Fiber>, container: nat, queues: map<QueueId, UQ.UpdateQueueRec>,
                                       plans: map<FiberId, StepPlan>, del: set<FiberId>, order: seq<FiberId>, i: nat, k: nat)
    requires PhaseReady(f0, container, queues, plans, del, order) && i <= k < |order|
    ensures forall x :: x in order ==> x in f0
    ensures DelSet(f0, order[..i]) !! Members(DelsOf(f0[order[k]]))
    decreases i
  {
    hide *;
    OrderIn(f0, container, queues, plans, del, order);
    if i > 0 {
      DelSetApart(f0, container, queues, plans, del, order, i - 1, k);
      DelSetLast(f0, order, i);
      PairApart(f0, container, queues, plans, del, order, i - 1, k);
    } else {
      DelSetNone(f0, order);
    }
  }

  /** No step has deleted anything before the first. */
  lemma DelSetNone(f0: map<FiberId, Fiber>, order: seq<FiberId>)
    ensures DelSet(f0, order[..0]) == {}
  {
    assert order[..0] == [];
  }

  /** Every fiber the phase visits is in the arena. */
  lemma OrderIn(f0: map<FiberId, Fiber>, container: nat, queues: map<QueueId, UQ.UpdateQueueRec>,
                plans: map<FiberId, StepPlan>, del: set<FiberId>, order: seq<FiberId>)
    requires PhaseReady(f0, container, queues, plans, del, order)
    ensures forall x :: x in order ==> x in f0
  {
  }

  /** The deletions of the first `i` steps are those of the first `i - 1` and those of step `i - 1`. */
  lemma DelSetLast(f0: map<FiberId, Fiber>, order: seq<FiberId>, i: nat)
    requires 0 < i <= |order| && forall x :: x in order ==> x in f0
    ensures forall x :: x in order[..i] ==> x in f0
    ensures DelSet(f0, order[..i]) == DelSet(f0, order[..i - 1]) + Members(DelsOf(f0[order[i - 1]]))
  {
    assert order[..i][..i - 1] == order[..i - 1];
    assert order[..i][i - 1] == order[i - 1];
  }

  /** Two different steps delete different children. */
  lemma PairApart(f0: map<FiberId, Fiber>, container: nat, queues: map<QueueId, UQ.UpdateQueueRec>,
                  plans: map<FiberId, StepPlan>, del: set<FiberId>, order: seq<FiberId>, j: nat, k: nat)
    requires PhaseReady(f0, container, queues, plans, del, order) && j < k < |order|
    requires order[j] in f0 && order[k] in f0
    ensures Members(DelsOf(f0[order[j]])) !! Members(DelsOf(f0[order[k]]))
  {
  }

  /** One turn of the loop of `CommitMutationEffects`. */
  method MutationNext(heap: FiberHeap, host: NoopHostState, refs: RefCells, root: FiberRootNode,
                      queues: map<QueueId, UQ.UpdateQueueRec>, order: seq<FiberId>, i: nat,
                      ghost plans: map<FiberId, StepPlan>, ghost del: set<FiberId>,
                      ghost f0: map<FiberId, Fiber>, ghost n0: map<nat, HostNode>, ghost c0: map<nat, seq<nat>>,
                      ghost s0: Unmounts, ghost u0: seq<Option<EffectId>>, ghost v0: HostView)
    returns (outcome: Outcome)
    requires i < |order| && RootsIn(f0, root)
    requires RunAt(f0, root.containerInfo, plans, order, v0, i, heap.fibers, host.View())
    requires PhaseReady(f0, root.containerInfo, queues, plans, del, order) && PlansFor(f0, queues, plans, order)
    requires PhaseAt(f0, order, i, heap.fibers, n0, c0, host.nodes, host.containers, root.containerInfo, queues, plans,
                     s0, Unmounts(refs.state, root.pendingPassiveEffects.unmount), u0, root.pendingPassiveEffects.update)
    modifies heap`fibers, host`nodes, host`containers, refs, root`pendingPassiveEffects
    ensures outcome.Thrown? ==> PhaseKept(f0, heap.fibers, order, n0, c0, host.nodes, host.containers, root.containerInfo)
    ensures outcome.Done? ==>
      PhaseAt(f0, order, i + 1, heap.fibers, n0, c0, host.nodes, host.containers, root.containerInfo, queues, plans,
              s0, Unmounts(refs.state, root.pendingPassiveEffects.unmount), u0, root.pendingPassiveEffects.update)
    ensures outcome.Done? ==> RunAt(f0, root.containerInfo, plans, order, v0, i + 1, heap.fibers, host.View())
  {
    // Every step below comes from a callee's contract or a named lemma.
    hide *;
    var x := order[i];
    ghost var f1, n1, c1 := heap.fibers, host.nodes, host.containers;
    ghost var s1, u1 := Unmounts(refs.state, root.pendingPassiveEffects.unmount), root.pendingPassiveEffects.update;
    NextReady(f0, f1, order, i, root, queues, plans, del, n0, c0, n1, c1, s0, s1, u0, u1);
    outcome := MutationStep(heap, host, refs, root, queues, x, plans[x], del);
    if outcome.Thrown? {
      NextThrew(f0, f1, heap.fibers, order, i, root.containerInfo, queues, plans, del,
                n0, c0, n1, c1, host.nodes, host.containers, s0, s1, u0, u1);
      return;
    }
    NextDone(f0, f1, heap.fibers, order, i, root.containerInfo, queues, plans, del,
             n0, c0, n1, c1, host.nodes, host.containers, s0, s1, Unmounts(refs.state, root.pendingPassiveEffects.unmount),
             u0, u1, root.pendingPassiveEffects.update);
    RunNext(f0, root.containerInfo, plans, order, v0, i, f1, old(host.View()), heap.fibers, host.View());
  }

  /** Step `i` is ready in the arena the earlier steps left, and does there what it does in the first. */
  lemma NextReady(f0: map<FiberId, Fiber>, f1: map<FiberId, Fiber>, order: seq<FiberId>, i: nat, root: FiberRootNode,
                  queues: map<QueueId, UQ.UpdateQueueRec>, plans: map<FiberId, StepPlan>, del: set<FiberId>,
                  n0: map<nat, HostNode>, c0: map<nat, seq<nat>>, n1: map<nat, HostNode>, c1: map<nat, seq<nat>>,
                  s0: Unmounts, s1: Unmounts, u0: seq<Option<EffectId>>, u1: seq<Option<EffectId>>)
    requires i < |order| && RootsIn(f0, root)
    requires PhaseReady(f0, root.containerInfo, queues, plans, del, order) && PlansFor(f0, queues, plans, order)
    requires PhaseAt(f0, order, i, f1, n0, c0, n1, c1, root.containerInfo, queues, plans, s0, s1, u0, u1)
    ensures order[i] in plans && order[i] in f0 && order[i] in f1 && f1[order[i]] == f0[order[i]] && order[i] !in order[..i]
    ensures RootsIn(f1, root) && HostWF(f1, n1, c1, root.containerInfo)
    ensures StepReady(f1, root.containerInfo, queues, plans[order[i]], del, order[i])
    ensures MutationOne(f1, queues, plans[order[i]], order[i], s1) == MutationOne(f0, queues, plans[order[i]], order[i], s1)
  {
    hide *;
    var x := order[i];
    PhaseReadyAt(f0, root.containerInfo, queues, plans, del, order, i);
    NoRepeatsAt(order, i);
    PhaseAtOpen(f0, order, i, f1, n0, c0, n1, c1, root.containerInfo, queues, plans, s0, s1, u0, u1);
    var cleared := DelSet(f0, order[..i]);
    DelSetWithin(f0, root.containerInfo, queues, plans, del, order, i);
    DelSetApart(f0, root.containerInfo, queues, plans, del, order, i, i);
    StepReadyDrift(f0, f1, cleared, root.containerInfo, queues, plans[x], del, x, s1);
    RootsInDrift(f0, f1, cleared, root);
  }

  /** In an order without repeats, a fiber does not occur before its own position. */
  lemma NoRepeatsAt(order: seq<FiberId>, i: nat)
    requires NoRepeats(order) && i < |order|
    ensures order[i] !in order[..i]
  {
    forall k | 0 <= k < i
      ensures order[..i][k] != order[i]
    {
      assert order[..i][k] == order[k];
    }
  }

  /** The phase's readiness gives the readiness of its `i`-th step. */
  lemma PhaseReadyAt(f0: map<FiberId, Fiber>, container: nat, queues: map<QueueId, UQ.UpdateQueueRec>,
                     plans: map<FiberId, StepPlan>, del: set<FiberId>, order: seq<FiberId>, i: nat)
    requires PhaseReady(f0, container, queues, plans, del, order) && i < |order|
    ensures NoRepeats(order) && order[i] in plans && order[i] in f0
    ensures StepReady(f0, container, queues, plans[order[i]], del, order[i])
  {
    assert order[i] in order;
  }

  /** The loop state opened up at the fiber of step `i`, which the earlier steps have not touched. */
  lemma PhaseAtOpen(f0: map<FiberId, Fiber>, order: seq<FiberId>, i: nat, f1: map<FiberId, Fiber>,
                    n0: map<nat, HostNode>, c0: map<nat, seq<nat>>, n1: map<nat, HostNode>, c1: map<nat, seq<nat>>, container: nat,
                    queues: map<QueueId, UQ.UpdateQueueRec>, plans: map<FiberId, StepPlan>,
                    s0: Unmounts, s1: Unmounts, u0: seq<Option<EffectId>>, u1: seq<Option<EffectId>>)
    requires i < |order| && PlansFor(f0, queues, plans, order) && order[i] !in order[..i]
    requires PhaseAt(f0, order, i, f1, n0, c0, n1, c1, container, queues, plans, s0, s1, u0, u1)
    ensures forall x :: x in order[..i] ==> x in f0
    ensures Drift(f0, f1, DelSet(f0, order[..i])) && HostWF(f1, n1, c1, container)
    ensures order[i] in f0 && order[i] in f1 && f1[order[i]].flags == f0[order[i]].flags
  {
    PlansForPrefix(f0, queues, plans, order, |order|);
    assert order[..|order|] == order && order[i] in order;
  }

  /** A step that threw ends the phase within its frame. */
  lemma NextThrew(f0: map<FiberId, Fiber>, f1: map<FiberId, Fiber>, f2: map<FiberId, Fiber>, order: seq<FiberId>, i: nat, container: nat,
                  queues: map<QueueId, UQ.UpdateQueueRec>, plans: map<FiberId, StepPlan>, del: set<FiberId>,
                  n0: map<nat, HostNode>, c0: map<nat, seq<nat>>, n1: map<nat, HostNode>, c1: map<nat, seq<nat>>,
                  n2: map<nat, HostNode>, c2: map<nat, seq<nat>>, s0: Unmounts, s1: Unmounts, u0: seq<Option<EffectId>>, u1: seq<Option<EffectId>>)
    requires i < |order| && PlansFor(f0, queues, plans, order)
    requires PhaseAt(f0, order, i, f1, n0, c0, n1, c1, container, queues, plans, s0, s1, u0, u1)
    requires order[i] in f0 && order[i] in f1 && f1[order[i]] == f0[order[i]]
    requires StepKept(f1, f2, order[i], n1, c1, n2, c2, container)
    ensures PhaseKept(f0, f2, order, n0, c0, n2, c2, container)
  {
    var x := order[i];
    assert forall y :: y in order ==> y in f0 by {
      PlansForPrefix(f0, queues, plans, order, |order|);
      assert order[..|order|] == order;
    }
    DriftTrans(f0, f1, f2, DelSet(f0, order[..i]), Members(DelsOf(f0[x])));
    DelSetSnoc(f0, order, i);
    DelSetGrows(f0, order, i + 1);
    DriftMore(f0, f2, DelSet(f0, order[..i + 1]), DelSet(f0, order));
    HostKeptTrans(n0, c0, n1, c1, n2, c2);
  }

  /** A completed step moves the loop state one fiber on. */
  lemma NextDone(f0: map<FiberId, Fiber>, f1: map<FiberId, Fiber>, f2: map<FiberId, Fiber>, order: seq<FiberId>, i: nat, container: nat,
                 queues: map<QueueId, UQ.UpdateQueueRec>, plans: map<FiberId, StepPlan>, del: set<FiberId>,
                 n0: map<nat, HostNode>, c0: map<nat, seq<nat>>, n1: map<nat, HostNode>, c1: map<nat, seq<nat>>,
                 n2: map<nat, HostNode>, c2: map<nat, seq<nat>>, s0: Unmounts, s1: Unmounts, s2: Unmounts,
                 u0: seq<Option<EffectId>>, u1: seq<Option<EffectId>>, u2: seq<Option<EffectId>>)
    requires i < |order| && PlansFor(f0, queues, plans, order) && order[i] !in order[..i]
    requires PhaseAt(f0, order, i, f1, n0, c0, n1, c1, container, queues, plans, s0, s1, u0, u1)
    requires order[i] in plans && order[i] in f0 && order[i] in f1 && f1[order[i]] == f0[order[i]]
    requires MutationOne(f1, queues, plans[order[i]], order[i], s1) == MutationOne(f0, queues, plans[order[i]], order[i], s1)
    requires StepKept(f1, f2, order[i], n1, c1, n2, c2, container)
    requires StepDone(f1, f2, order[i], MutationCleared, queues, plans[order[i]], s1, s2, u1, u2)
    ensures PhaseAt(f0, order, i + 1, f2, n0, c0, n2, c2, container, queues, plans, s0, s2, u0, u2)
  {
    NextAt(f0, f1, f2, order, i, container, queues, plans, n1, c1, n2, c2, s1, s2, u1, u2);
    NextRun(f0, f1, order, i, queues, plans, s0, s1, s2, u0, u1, u2);
    HostKeptTrans(n0, c0, n1, c1, n2, c2);
  }

  /** One more completed step extends `MutationAt` by one fiber. */
  lemma NextAt(f0: map<FiberId, Fiber>, f1: map<FiberId, Fiber>, f2: map<FiberId, Fiber>, order: seq<FiberId>, i: nat, container: nat,
               queues: map<QueueId, UQ.UpdateQueueRec>, plans: map<FiberId, StepPlan>,
               n1: map<nat, HostNode>, c1: map<nat, seq<nat>>, n2: map<nat, HostNode>, c2: map<nat, seq<nat>>,
               s1: Unmounts, s2: Unmounts, u1: seq<Option<EffectId>>, u2: seq<Option<EffectId>>)
    requires i < |order| && PlansFor(f0, queues, plans, order) && order[i] !in order[..i]
    requires MutationAt(f0, order, i, f1)
    requires order[i] in plans && order[i] in f0 && order[i] in f1 && f1[order[i]] == f0[order[i]]
    requires StepKept(f1, f2, order[i], n1, c1, n2, c2, container)
    requires StepDone(f1, f2, order[i], MutationCleared, queues, plans[order[i]], s1, s2, u1, u2)
    ensures MutationAt(f0, order, i + 1, f2)
  {
    hide *;
    var x := order[i];
    PlansIn(f0, queues, plans, order);
    MutationAtOpen(f0, order, i, f1);
    DelSetSnoc(f0, order, i);
    var before, now := DelSet(f0, order[..i]), Members(DelsOf(f0[x]));
    StepKeptOpen(f1, f2, x, n1, c1, n2, c2, container);
    StepDoneOpen(f1, f2, x, MutationCleared, queues, plans[x], s1, s2, u1, u2);
    DriftTrans(f0, f1, f2, before, now);
    NextFlags(f0, f1, f2, order, i);
    NextCleared(f0, f1, f2, before, now);
    MutationAtPack(f0, order, i + 1, f2);
  }

  /** Every fiber with a plan is in the arena. */
  lemma PlansIn(f0: map<FiberId, Fiber>, queues: map<QueueId, UQ.UpdateQueueRec>, plans: map<FiberId, StepPlan>, order: seq<FiberId>)
    requires PlansFor(f0, queues, plans, order)
    ensures forall x :: x in order ==> x in f0
  {
  }

  /** Unpacks `MutationAt` into its conjuncts, for the mutation loop's body. */
  lemma MutationAtOpen(f0: map<FiberId, Fiber>, order: seq<FiberId>, i: nat, fibers: map<FiberId, Fiber>)
    requires i <= |order| && (forall x :: x in order ==> x in f0) && MutationAt(f0, order, i, fibers)
    ensures forall x :: x in order[..i] ==> x in f0
    ensures Drift(f0, fibers, DelSet(f0, order[..i]))
    ensures forall y :: y in f0 ==> fibers[y].flags == if y in order[..i] then Without(f0[y].flags, MutationCleared) else f0[y].flags
    ensures forall d :: d in DelSet(f0, order[..i]) ==> d in fibers && fibers[d].ret.None? && fibers[d].child.None?
  {
    assert forall x :: x in order[..i] ==> x in order;
  }

  /** Packs the conjuncts back into `MutationAt`, the mutation loop's invariant. */
  lemma MutationAtPack(f0: map<FiberId, Fiber>, order: seq<FiberId>, i: nat, fibers: map<FiberId, Fiber>)
    requires i <= |order| && (forall x :: x in order ==> x in f0) && (forall x :: x in order[..i] ==> x in f0)
    requires Drift(f0, fibers, DelSet(f0, order[..i]))
    requires forall y :: y in f0 ==> fibers[y].flags == if y in order[..i] then Without(f0[y].flags, MutationCleared) else f0[y].flags
    requires forall d :: d in DelSet(f0, order[..i]) ==> d in fibers && fibers[d].ret.None? && fibers[d].child.None?
    ensures MutationAt(f0, order, i, fibers)
  {
  }

  /** Unpacks `StepKept` into its conjuncts. */
  lemma StepKeptOpen(f0: map<FiberId, Fiber>, f1: map<FiberId, Fiber>, x: FiberId,
                     n0: map<nat, HostNode>, c0: map<nat, seq<nat>>, n1: map<nat, HostNode>, c1: map<nat, seq<nat>>, container: nat)
    requires StepKept(f0, f1, x, n0, c0, n1, c1, container)
    ensures x in f0 && Drift(f0, f1, Members(DelsOf(f0[x])))
    ensures forall y :: y in f0 && y != x ==> f1[y].flags == f0[y].flags
    ensures HostKept(n0, c0, n1, c1) && HostWF(f1, n1, c1, container)
  {
  }

  /** Unpacks `StepDone` into its conjuncts. */
  lemma StepDoneOpen(f0: map<FiberId, Fiber>, f1: map<FiberId, Fiber>, x: FiberId, bits: Flags,
                     queues: map<QueueId, UQ.UpdateQueueRec>, plan: StepPlan,
                     s0: Unmounts, s1: Unmounts, u0: seq<Option<EffectId>>, u1: seq<Option<EffectId>>)
    requires StepDone(f0, f1, x, bits, queues, plan, s0, s1, u0, u1)
    ensures StepQueued(f0, queues, plan, x) && x in f0 && x in f1
    ensures f1[x].flags == Without(f0[x].flags, bits)
    ensures forall d :: d in Members(DelsOf(f0[x])) ==> d in f1 && f1[d].ret.None? && f1[d].child.None?
    ensures MutationOne(f0, queues, plan, x, s0) == (s1, false)
    ensures u1 == u0 + PassiveMount(f0[x], queues)
  {
  }

  /** After step `i`, the flags are those the first `i + 1` steps leave. */
  lemma NextFlags(f0: map<FiberId, Fiber>, f1: map<FiberId, Fiber>, f2: map<FiberId, Fiber>, order: seq<FiberId>, i: nat)
    requires i < |order| && order[i] !in order[..i] && order[i] in f0 && order[i] in f1 && f1[order[i]] == f0[order[i]]
    requires f1.Keys == f0.Keys && f2.Keys == f1.Keys
    requires forall y :: y in f0 ==> f1[y].flags == if y in order[..i] then Without(f0[y].flags, MutationCleared) else f0[y].flags
    requires forall y :: y in f1 && y != order[i] ==> f2[y].flags == f1[y].flags
    requires f2[order[i]].flags == Without(f1[order[i]].flags, MutationCleared)
    ensures forall y :: y in f0 ==> f2[y].flags == if y in order[..i + 1] then Without(f0[y].flags, MutationCleared) else f0[y].flags
  {
    var x := order[i];
    forall y | y in f0
      ensures f2[y].flags == if y in order[..i + 1] then Without(f0[y].flags, MutationCleared) else f0[y].flags
    {
      assert y in order[..i + 1] <==> y in order[..i] || y == x by {
        assert order[..i + 1] == order[..i] + [x];
      }
      if y != x {
        assert f2[y].flags == f1[y].flags;
      }
    }
  }

  /** The children deleted so far stay unlinked, and step `i`'s are unlinked too. */
  lemma NextCleared(f0: map<FiberId, Fiber>, f1: map<FiberId, Fiber>, f2: map<FiberId, Fiber>, before: set<FiberId>, now: set<FiberId>)
    requires Drift(f1, f2, now)
    requires forall d :: d in before ==> d in f1 && f1[d].ret.None? && f1[d].child.None?
    requires forall d :: d in now ==> d in f2 && f2[d].ret.None? && f2[d].child.None?
    ensures forall d :: d in before + now ==> d in f2 && f2[d].ret.None? && f2[d].child.None?
  {
    forall d | d in before && d !in now
      ensures d in f2 && f2[d].ret.None? && f2[d].child.None?
    {
      assert Kept(f1[d], f2[d], false);
    }
  }

  /** The callback run over one more fiber continues with that fiber's step when none had thrown. */
  lemma NextRun(f0: map<FiberId, Fiber>, f1: map<FiberId, Fiber>, order: seq<FiberId>, i: nat,
                queues: map<QueueId, UQ.UpdateQueueRec>, plans: map<FiberId, StepPlan>,
                s0: Unmounts, s1: Unmounts, s2: Unmounts, u0: seq<Option<EffectId>>, u1: seq<Option<EffectId>>, u2: seq<Option<EffectId>>)
    requires i < |order| && PlansFor(f0, queues, plans, order)
    requires order[i] in plans && order[i] in f0 && order[i] in f1 && f1[order[i]] == f0[order[i]]
    requires PlansFor(f0, queues, plans, order[..i]) && QueuesIn(f0, queues, order[..i])
    requires MutationRun(f0, queues, plans, order[..i], s0) == (s1, false)
    requires u1 == u0 + PassiveMounts(f0, queues, order[..i])
    requires StepQueued(f1, queues, plans[order[i]], order[i]) && StepQueued(f0, queues, plans[order[i]], order[i])
    requires MutationOne(f1, queues, plans[order[i]], order[i], s1) == MutationOne(f0, queues, plans[order[i]], order[i], s1)
    requires MutationOne(f1, queues, plans[order[i]], order[i], s1) == (s2, false)
    requires u2 == u1 + PassiveMount(f1[order[i]], queues)
    ensures PlansFor(f0, queues, plans, order[..i + 1]) && QueuesIn(f0, queues, order[..i + 1])
    ensures MutationRun(f0, queues, plans, order[..i + 1], s0) == (s2, false)
    ensures u2 == u0 + PassiveMounts(f0, queues, order[..i + 1])
  {
    PlansForPrefix(f0, queues, plans, order, i + 1);
    assert order[..i + 1][..i] == order[..i];
  }

  /** The deleted fibers of a prefix one longer gain the deletions of its last fiber. */
  lemma DelSetSnoc(f0: map<FiberId, Fiber>, order: seq<FiberId>, i: nat)
    requires i < |order| && forall x :: x in order ==> x in f0
    ensures forall x :: x in order[..i + 1] ==> x in f0
    ensures DelSet(f0, order[..i + 1]) == DelSet(f0, order[..i]) + Members(DelsOf(f0[order[i]]))
  {
    assert forall x :: x in order[..i + 1] ==> x in order;
    assert order[..i + 1][..i] == order[..i];
  }

  /** The deleted fibers of a prefix are among those of the whole order. */
  lemma {:induction false} DelSetGrows(f0: map<FiberId, Fiber>, order: seq<FiberId>, i: nat)
    requires i <= |order| && forall x :: x in order ==> x in f0
    ensures forall x :: x in order[..i] ==> x in f0
    ensures DelSet(f0, order[..i]) <= DelSet(f0, order)
    decreases |order| - i
  {
    assert forall x :: x in order[..i] ==> x in order;
    if i < |order| {
      DelSetSnoc(f0, order, i);
      DelSetGrows(f0, order, i + 1);
    } else {
      assert order[..i] == order;
    }
  }

  /**
   * A phase over fibers none of which has anything to place, update or
   * delete leaves the host as it was, and changes no fiber it does not
   * visit; once a phase has completed no fiber of the tree has those flags
   * (`MutationClears`), so committing the same tree again is such a phase.
   */
  lemma {:induction false} PhaseQuiet(f0: map<FiberId, Fiber>, container: nat, plans: map<FiberId, StepPlan>, order: seq<FiberId>, v0: HostView)
    requires NoRepeats(order)
    requires forall x :: x in order ==> x in f0 && !HasAny(f0[x].flags, Placement) && !HasAny(f0[x].flags, Update) && !HasAny(f0[x].flags, ChildDeletion)
    ensures PhaseRun(f0, container, plans, order, v0).1 == v0
    ensures PhaseRun(f0, container, plans, order, v0).0.Keys == f0.Keys
    ensures forall y :: y in f0 && y !in order ==> PhaseRun(f0, container, plans, order, v0).0[y] == f0[y]
    decreases |order|
  {
    // Every step below comes from a named lemma.
    hide *;
    PhaseRunOpen(f0, container, plans, order, v0);
    if |order| > 0 {
      var n := |order| - 1;
      var prefix, x := order[..n], order[n];
      QuietPrefix(f0, order);
      PhaseQuiet(f0, container, plans, prefix, v0);
      var r := PhaseRun(f0, container, plans, prefix, v0);
      if x in r.0 && x in plans {
        StepQuiet(r.0, container, x, plans[x], r.1);
      }
    }
  }

  /** `PhaseRun` unfolded once. */
  lemma PhaseRunOpen(f0: map<FiberId, Fiber>, container: nat, plans: map<FiberId, StepPlan>, order: seq<FiberId>, v0: HostView)
    ensures |order| == 0 ==> PhaseRun(f0, container, plans, order, v0) == (f0, v0)
    ensures |order| > 0 ==>
      var r := PhaseRun(f0, container, plans, order[..|order| - 1], v0);
      var x := order[|order| - 1];
      PhaseRun(f0, container, plans, order, v0) ==
        if x in r.0 && x in plans then (StepArena(r.0, x), StepView(r.0, container, x, plans[x], r.1)) else r
  {
  }

  /** The quiet, repeat-free order without its last fiber is still so, and does not hold that fiber. */
  lemma QuietPrefix(f0: map<FiberId, Fiber>, order: seq<FiberId>)
    requires |order| > 0 && NoRepeats(order)
    requires forall x :: x in order ==> x in f0 && !HasAny(f0[x].flags, Placement) && !HasAny(f0[x].flags, Update) && !HasAny(f0[x].flags, ChildDeletion)
    ensures var prefix := order[..|order| - 1];
      && NoRepeats(prefix) && order[|order| - 1] !in prefix
      && (forall x :: x in prefix ==> x in f0 && !HasAny(f0[x].flags, Placement) && !HasAny(f0[x].flags, Update) && !HasAny(f0[x].flags, ChildDeletion))
      && (forall y :: y !in order ==> y !in prefix && y != order[|order| - 1])
    ensures var x := order[|order| - 1];
      x in f0 && !HasAny(f0[x].flags, Placement) && !HasAny(f0[x].flags, Update) && !HasAny(f0[x].flags, ChildDeletion)
  {
    var prefix := order[..|order| - 1];
    assert forall y :: y in prefix ==> y in order;
  }
}
