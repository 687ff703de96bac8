/**
 * The work loop (packages/react-reconciler/src/workLoop.ts): the
 * module-level state `workInProgress`, `wipRootRenderLane` and
 * `rootDoesHasPassiveEffect`, scheduling a root after an update, the
 * render phase (`renderRoot` with its synchronous and time-sliced loops
 * and the units of work), its two entry points, and `commitRoot`.
 *
 * The external scheduler is a log: `tasks` lists the tasks scheduled, by
 * position, `cancelled` those cancelled, and `microtasks` counts the
 * microtasks queued to flush the synchronous queue. `beginWork` is the
 * oracle of RenderWalk and `completeWork` an oracle saying whether it
 * throws; the walk is specified over the ghost tree `t` it builds.
 */
module WorkLoop {
  import opened Wrappers
  import opened JsValues
  import opened FiberFlags
  import opened FiberLane
  import opened Fiber
  import opened FiberRoot
  import opened FiberTree
  import opened FiberChains
  import opened SyncTaskQueue
  import opened NoopHost
  import opened RootScheduler
  import opened CommitDeletion
  import opened RenderWalk
  import FiberHooks
  import opened PassiveEffects
  import CommitHost
  import CommitRefs
  import CommitWalk
  import CommitFrame
  import CommitEffects
  import CommitMutation
  import UQ = UpdateQueue

  /** `renderRoot`'s exit status: the time slice ran out, or the pass ended. */
  datatype ExitStatus = RootInComplete | RootCompleted

  /**
   * How a `perform*WorkOnRoot` call ends: nothing to render, rescheduled
   * instead of rendering, the passive flush replaced the scheduler
   * task's callback, a slice ended by a higher-priority callback, a slice
   * to be continued by the same scheduler task, the passive flush threw,
   * or the tree is finished in the given lane and `commitRoot` ended with
   * `commit`.
   */
  datatype PerformEnd = NoWork | Rescheduled | Preempted | Superseded | Continue | FlushThrew | Finished(lane: Lane, commit: Outcome)

  /** Whether `completeWork` throws on a fiber. */
  type CompleteOracle = FiberId -> bool

  // ------------------------------------------------------------ from a fiber up to its root

  /** `markUpdateFromFiberToRoot`'s answer for the topmost fiber: the root object of a HostRoot, null otherwise. */
  function TopAnswer(f: Fiber): Option<StateNode>
  {
    if f.tag == HostRoot then Some(f.stateNode) else None
  }

  /**
   * `markUpdateFromFiberToRoot(fiber)`: climbs `return` links to the
   * topmost fiber and answers for it. The climb ends because the chain
   * from `fiber` (the ghost `up`) is finite.
   */
  method MarkUpdateFromFiberToRoot(heap: FiberHeap, fiber: FiberId, ghost up: seq<FiberId>) returns (found: Option<StateNode>)
    requires RetChain(heap.fibers, Some(fiber), up)
    ensures |up| > 0 && found == TopAnswer(heap.fibers[up[|up| - 1]])
  {
    var node := fiber;
    var parent := heap.fibers[node].ret;
    ghost var k := 0;
    assert RetAt(heap.fibers, up, 0);
    while parent.Some?
      invariant 0 <= k < |up| && node == up[k] && parent == heap.fibers[node].ret
      decreases |up| - k
    {
      assert RetAt(heap.fibers, up, k);
      node := parent.value;
      k := k + 1;
      assert RetAt(heap.fibers, up, k);
      parent := heap.fibers[node].ret;
    }
    assert RetAt(heap.fibers, up, k);
    if heap.fibers[node].tag == HostRoot {
      return Some(heap.fibers[node].stateNode);
    }
    return None;
  }

  /** The chain from a fiber of a shaped tree whose top has no `return` ends at the top. */
  lemma {:induction false} ChainToTop(fibers: map<FiberId, Fiber>, t: Tree, x: FiberId, above: seq<FiberId>) returns (up: seq<FiberId>)
    requires Shaped(fibers, t) && x in IdSet(t)
    requires RetChain(fibers, Some(t.id), [t.id] + above)
    ensures RetChain(fibers, Some(x), up + [t.id] + above)
    decreases t
  {
    if x == t.id {
      up := [];
      assert up + [t.id] + above == [t.id] + above;
    } else {
      var i := KidWith(t, x);
      assert Linked(fibers, t.id, t.kids, i) && Shaped(fibers, t.kids[i]);
      var k := t.kids[i];
      RetChainCons(fibers, k.id, [t.id] + above);
      var up1 := ChainToTop(fibers, k, x, [t.id] + above);
      up := up1 + [k.id];
      assert up1 + [k.id] + ([t.id] + above) == up + [t.id] + above;
    }
  }

  /** A fiber of a tree other than its top belongs to one child's subtree. */
  lemma KidWith(t: Tree, x: FiberId) returns (i: nat)
    requires x in IdSet(t) && x != t.id
    ensures i < |t.kids| && x in IdSet(t.kids[i])
  {
    i :| 0 <= i < |t.kids| && x in IdSet(t.kids[i]);
  }

  /**
   * Every update to a fiber of the tree mounted at a root reaches that
   * root: the climb from any of its fibers answers with the top's root
   * object, whichever chain is named.
   */
  lemma UpdateReachesRoot(fibers: map<FiberId, Fiber>, t: Tree, x: FiberId, up: seq<FiberId>)
    requires Shaped(fibers, t) && x in IdSet(t)
    requires fibers[t.id].ret.None? && fibers[t.id].tag == HostRoot
    requires RetChain(fibers, Some(x), up)
    ensures |up| > 0 && TopAnswer(fibers[up[|up| - 1]]) == Some(fibers[t.id].stateNode)
  {
    assert RetAt(fibers, [t.id], 0);
    var below := ChainToTop(fibers, t, x, []);
    RetChainUnique(fibers, Some(x), up, below + [t.id] + []);
  }

  // ------------------------------------------------------------ the render pass, as specified over its tree

  /** The pass is at the cursor `cur` under `ctx`, or it is over: every fiber begun in pre-order and completed in post-order. */
  ghost predicate Cursor(fibers: map<FiberId, Fiber>, begin: BeginOracle, wip: Option<FiberId>, begun: seq<FiberId>, completed: seq<FiberId>,
                         cur: Tree, ctx: seq<Frame>, t: Tree)
  {
    if wip.Some? then wip.value == cur.id && Walking(fibers, begin, begun, completed, cur, ctx, PreOrder(t), PostOrder(t))
    else begun == PreOrder(t) && completed == PostOrder(t)
  }

  /** Every fiber begun so far has had its props memoized. */
  ghost predicate Memoized(fibers: map<FiberId, Fiber>, begun: seq<FiberId>)
  {
    forall x :: x in begun ==> x in fibers && fibers[x].memoizedProps == fibers[x].pendingProps
  }

  /** `f1` is `f0` with the props of `x` memoized. */
  ghost predicate MemoStep(f0: map<FiberId, Fiber>, f1: map<FiberId, Fiber>, x: FiberId)
  {
    x in f0 && f1 == f0[x := f0[x].(memoizedProps := f0[x].pendingProps)]
  }

  /** Memoizing keeps the links, the pairing of alternates, and what was memoized before. */
  lemma MemoStepKeeps(f0: map<FiberId, Fiber>, f1: map<FiberId, Fiber>, x: FiberId, begun: seq<FiberId>)
    requires MemoStep(f0, f1, x) && Memoized(f0, begun)
    ensures LinksKept(f0, f1) && Memoized(f1, begun + [x])
    ensures forall a, b :: Paired(f0, a, b) ==> Paired(f1, a, b)
  {
  }

  /** A pass that stopped early: both logs are prefixes of the whole pass, and the completions fall short of it. */
  ghost predicate Stopped(begun: seq<FiberId>, completed: seq<FiberId>, t: Tree)
  {
    Prefix(begun, PreOrder(t)) && Prefix(completed, PostOrder(t)) && |completed| < |PostOrder(t)|
  }

  /**
   * A pass that ended: unless a unit threw, every fiber of `t` was
   * begun in pre-order, completed in post-order and memoized; if one
   * threw, the pass stopped short.
   */
  ghost predicate Ended(fibers: map<FiberId, Fiber>, begun: seq<FiberId>, completed: seq<FiberId>, threw: bool, t: Tree)
  {
    && (!threw ==> begun == PreOrder(t) && completed == PostOrder(t) && Memoized(fibers, PreOrder(t)))
    && (threw ==> Stopped(begun, completed, t))
  }

  /** The fiber `createWorkInProgress(root.current, ...)` returns: the alternate, or the next fiber allocated. */
  ghost function WipId(fibers: map<FiberId, Fiber>, nextId: FiberId, current: FiberId): FiberId
    requires current in fibers
  {
    if fibers[current].alternate.Some? then fibers[current].alternate.value else nextId
  }

  /**
   * What a fresh pass needs: the current fiber's alternate, if any, is
   * paired with it and has no `return` or `sibling`; and the tree the pass
   * builds has the fiber `createWorkInProgress` returns at its top.
   */
  ghost predicate FreshReady(heap: FiberHeap, current: FiberId, begin: BeginOracle, t: Tree)
    reads heap
  {
    && heap.Valid() && current in heap.fibers
    && (heap.fibers[current].alternate.Some? ==>
          && Paired(heap.fibers, current, heap.fibers[current].alternate.value)
          && heap.fibers[heap.fibers[current].alternate.value].ret.None?
          && heap.fibers[heap.fibers[current].alternate.value].sibling.None?)
    && t.id == WipId(heap.fibers, heap.nextId, current)
    && Built(heap.fibers, begin, t)
  }

  /** After `createWorkInProgress`, the links are kept and the walk starts at the top of `t`, the fiber it returned. */
  lemma CreatedStart(f0: map<FiberId, Fiber>, f1: map<FiberId, Fiber>, wip: FiberId, begin: BeginOracle, t: Tree)
    requires Built(f0, begin, t) && wip == t.id && wip in f1 && f1[wip].ret.None? && f1[wip].sibling.None?
    requires forall id :: id in f0 ==> id in f1 && f1[id].ret == f0[id].ret && f1[id].sibling == f0[id].sibling
    ensures LinksKept(f0, f1)
    ensures Cursor(f1, begin, Some(wip), [], [], t, [], t) && Memoized(f1, [])
  {
    BuiltLinks(f0, f1, begin, t);
    assert PreOrder(t) + AfterPre([]) == PreOrder(t) && PostOrder(t) + AfterPost([]) == PostOrder(t);
    WalkingPack(f1, begin, [], [], t, [], PreOrder(t), PostOrder(t));
  }

  /** `createWorkInProgress(root.current, {})` at the start of a pass: the walk starts at the top of `t`, the fiber it returns. */
  method CreateRootWip(heap: FiberHeap, current: FiberId, ghost begin: BeginOracle, ghost t: Tree) returns (wip: FiberId)
    requires FreshReady(heap, current, begin, t)
    modifies heap
    ensures wip == t.id && heap.Valid() && Paired(heap.fibers, current, wip) && heap.fibers[wip].pendingProps == Rec(map[])
    ensures current in old(heap.fibers)
    ensures Created(old(heap.fibers), old(heap.nextId), current, Rec(map[]), wip, heap.fibers)
    ensures LinksKept(old(heap.fibers), heap.fibers)
    ensures Cursor(heap.fibers, begin, Some(wip), [], [], t, [], t) && Memoized(heap.fibers, [])
  {
    hide Created, Built, Cursor, Memoized, Walking;
    ghost var f0 := heap.fibers;
    wip := heap.CreateWorkInProgress(current, Rec(map[]));
    assert heap.fibers[wip].ret.None? && heap.fibers[wip].sibling.None?;
    CreatedStart(f0, heap.fibers, wip, begin, t);
  }

  /** The render pass writes only `memoizedProps`: every other field of every fiber is kept. */
  ghost predicate OnlyMemo(f0: map<FiberId, Fiber>, older f1: map<FiberId, Fiber>)
  {
    && f0.Keys == f1.Keys
    && forall id :: id in f0 ==> f1[id] == f0[id].(memoizedProps := f1[id].memoizedProps)
  }

  /** Writing only `memoizedProps` keeps the links and the pairing of alternates. */
  lemma OnlyMemoKeeps(f0: map<FiberId, Fiber>, f1: map<FiberId, Fiber>)
    requires OnlyMemo(f0, f1)
    ensures LinksKept(f0, f1)
    ensures forall a, b :: Paired(f0, a, b) ==> Paired(f1, a, b)
  {
    forall a, b | Paired(f0, a, b)
      ensures Paired(f1, a, b)
    {
      assert f1[a].alternate == f0[a].alternate && f1[b].alternate == f0[b].alternate;
    }
  }

  lemma PrefixShorter(a: seq<FiberId>, x: FiberId, b: seq<FiberId>)
    requires Prefix(a + [x], b)
    ensures Prefix(a, b) && |a| < |b|
  {
    assert b[..|a|] == (a + [x])[..|a|] == a;
  }

  lemma OnlyMemoSame(f: map<FiberId, Fiber>)
    ensures OnlyMemo(f, f)
  {
    forall id | id in f
      ensures f[id] == f[id].(memoizedProps := f[id].memoizedProps)
    {
    }
  }

  lemma OnlyMemoTrans(f0: map<FiberId, Fiber>, f1: map<FiberId, Fiber>, f2: map<FiberId, Fiber>)
    requires OnlyMemo(f0, f1) && OnlyMemo(f1, f2)
    ensures OnlyMemo(f0, f2)
  {
    forall id | id in f0
      ensures f2[id] == f0[id].(memoizedProps := f2[id].memoizedProps)
    {
      assert f1[id] == f0[id].(memoizedProps := f1[id].memoizedProps);
    }
  }

  /** The cursor of a pass under way is at `cur`, walking. */
  lemma CursorWalking(fibers: map<FiberId, Fiber>, begin: BeginOracle, wip: Option<FiberId>, begun: seq<FiberId>, completed: seq<FiberId>,
                      cur: Tree, ctx: seq<Frame>, t: Tree)
    requires Cursor(fibers, begin, wip, begun, completed, cur, ctx, t) && wip.Some?
    ensures wip.value == cur.id && Walking(fibers, begin, begun, completed, cur, ctx, PreOrder(t), PostOrder(t))
  {
  }

  lemma CursorAt(fibers: map<FiberId, Fiber>, begin: BeginOracle, begun: seq<FiberId>, completed: seq<FiberId>,
                 cur: Tree, ctx: seq<Frame>, t: Tree)
    requires Walking(fibers, begin, begun, completed, cur, ctx, PreOrder(t), PostOrder(t))
    ensures Cursor(fibers, begin, Some(cur.id), begun, completed, cur, ctx, t)
  {
  }

  lemma PairedOpen(fibers: map<FiberId, Fiber>, a: FiberId, b: FiberId)
    requires Paired(fibers, a, b)
    ensures a in fibers && fibers[a].alternate == Some(b)
  {
  }

  /** However far the pass has got, nothing has been begun beyond the pre-order. */
  lemma CursorBounds(fibers: map<FiberId, Fiber>, begin: BeginOracle, wip: Option<FiberId>, begun: seq<FiberId>, completed: seq<FiberId>,
                     cur: Tree, ctx: seq<Frame>, t: Tree)
    requires Cursor(fibers, begin, wip, begun, completed, cur, ctx, t)
    ensures |begun| <= |PreOrder(t)|
  {
    if wip.Some? {
      WalkingBounds(fibers, begin, begun, completed, cur, ctx, PreOrder(t), PostOrder(t));
    }
  }

  /** `fiber.memoizedProps = fiber.pendingProps`. */
  method Memoize(heap: FiberHeap, fiber: FiberId)
    requires fiber in heap.fibers
    modifies heap`fibers
    ensures MemoStep(old(heap.fibers), heap.fibers, fiber) && OnlyMemo(old(heap.fibers), heap.fibers)
    ensures old(heap.Valid()) ==> heap.Valid()
  {
    heap.Put(fiber, heap.fibers[fiber].(memoizedProps := heap.fibers[fiber].pendingProps));
  }

  // ------------------------------------------------------------ what the commit needs

  /**
   * What `commitRoot` needs of the finished tree `t`: it is shaped and
   * has no `return` or `sibling`, the root objects are where they belong,
   * the host is well formed, and the mutation phase is ready to run over
   * its walk (the `plans` say what each step does, `del` which fibers it
   * deletes); the layout walk repeats no fiber.
   */
  ghost predicate CommitReady(fibers: map<FiberId, Fiber>, nodes: map<nat, HostNode>, containers: map<nat, seq<nat>>, container: nat,
                              root: FiberRootNode, queues: map<QueueId, UQ.UpdateQueueRec>, t: Tree,
                              plans: map<FiberId, CommitEffects.StepPlan>, del: set<FiberId>)
  {
    && Shaped(fibers, t) && fibers[t.id].ret.None? && fibers[t.id].sibling.None?
    && CommitHost.RootsIn(fibers, root) && CommitFrame.HostWF(fibers, nodes, containers, container)
    && IdSet(t) !! del
    && CommitMutation.PhaseReady(fibers, container, queues, plans, del, CommitWalk.Visit(fibers, t, CommitEffects.MutationPhaseMask))
    && NoRepeats(CommitWalk.Visit(fibers, t, LayoutMask))
  }

  /**
   * The host after a commit of the tree `t` completes: what the mutation
   * phase leaves when the finished fiber or its subtree has mutation flags,
   * and the host as it was otherwise.
   */
  ghost function CommitView(fibers: map<FiberId, Fiber>, container: nat, plans: map<FiberId, CommitEffects.StepPlan>, t: Tree, v: HostView)
    : HostView
  {
    if t.id in fibers && HasMutation(fibers[t.id]) then
      CommitMutation.PhaseRun(fibers, container, plans, CommitWalk.Visit(fibers, t, CommitEffects.MutationPhaseMask), v).1
    else v
  }

  /**
   * The commit can run over `t` however the render pass writes
   * `memoizedProps` over the fibers `f0` it starts from.
   */
  ghost predicate CommitReadyAfterRender(f0: map<FiberId, Fiber>, nodes: map<nat, HostNode>, containers: map<nat, seq<nat>>, container: nat,
                                         root: FiberRootNode, queues: map<QueueId, UQ.UpdateQueueRec>, t: Tree,
                                         plans: map<FiberId, CommitEffects.StepPlan>, del: set<FiberId>)
  {
    forall f1 :: OnlyMemo(f0, f1) ==> CommitReady(f1, nodes, containers, container, root, queues, t, plans, del)
  }

  /**
   * What a `perform*WorkOnRoot` call that renders and commits `t` needs
   * of the fibers `f0` it is called with: the commit can run after the
   * render pass, which starts from `f0` itself when the pass is under way
   * (`freshPass` false) and from `createWorkInProgress(current, {})` otherwise.
   */
  ghost predicate CommitsAfterRender(f0: map<FiberId, Fiber>, nextId: FiberId, current: FiberId, freshPass: bool,
                                     nodes: map<nat, HostNode>, containers: map<nat, seq<nat>>, container: nat,
                                     root: FiberRootNode, queues: map<QueueId, UQ.UpdateQueueRec>, t: Tree,
                                     plans: map<FiberId, CommitEffects.StepPlan>, del: set<FiberId>)
  {
    if freshPass then
      current in f0 && forall p :: Created(f0, nextId, current, Rec(map[]), t.id, p) ==>
        CommitReadyAfterRender(p, nodes, containers, container, root, queues, t, plans, del)
    else CommitReadyAfterRender(f0, nodes, containers, container, root, queues, t, plans, del)
  }

  /** After the render pass `CommitsAfterRender` speaks of, the commit is ready. */
  lemma RenderedReady(f0: map<FiberId, Fiber>, nextId: FiberId, current: FiberId, freshPass: bool,
                      nodes: map<nat, HostNode>, containers: map<nat, seq<nat>>, container: nat,
                      root: FiberRootNode, queues: map<QueueId, UQ.UpdateQueueRec>, t: Tree,
                      plans: map<FiberId, CommitEffects.StepPlan>, del: set<FiberId>,
                      prepared: map<FiberId, Fiber>, f1: map<FiberId, Fiber>)
    requires CommitsAfterRender(f0, nextId, current, freshPass, nodes, containers, container, root, queues, t, plans, del)
    requires !freshPass ==> prepared == f0
    requires freshPass ==> current in f0 && Created(f0, nextId, current, Rec(map[]), t.id, prepared)
    requires OnlyMemo(prepared, f1)
    ensures CommitReady(f1, nodes, containers, container, root, queues, t, plans, del)
  {
  }

  lemma CommitViewOpen(fibers: map<FiberId, Fiber>, container: nat, plans: map<FiberId, CommitEffects.StepPlan>, t: Tree, v: HostView)
    requires t.id in fibers
    ensures CommitView(fibers, container, plans, t, v) == if HasMutation(fibers[t.id]) then
      CommitMutation.PhaseRun(fibers, container, plans, CommitWalk.Visit(fibers, t, CommitEffects.MutationPhaseMask), v).1
    else v
  {
  }

  lemma CommitReadyIn(fibers: map<FiberId, Fiber>, nodes: map<nat, HostNode>, containers: map<nat, seq<nat>>, container: nat,
                      root: FiberRootNode, queues: map<QueueId, UQ.UpdateQueueRec>, t: Tree,
                      plans: map<FiberId, CommitEffects.StepPlan>, del: set<FiberId>)
    requires CommitReady(fibers, nodes, containers, container, root, queues, t, plans, del)
    ensures t.id in fibers
  {
    ShapedIn(fibers, t);
  }

  lemma PairedIn(fibers: map<FiberId, Fiber>, a: FiberId, b: FiberId)
    requires Paired(fibers, a, b)
    ensures a in fibers && b in fibers
  {
  }

  lemma ShapedIn(fibers: map<FiberId, Fiber>, t: Tree)
    requires Shaped(fibers, t)
    ensures t.id in fibers
  {
  }

  /** The passive flush `commitRoot` schedules for a finished fiber: one, when it or its subtree has passive flags and none is scheduled. */
  function PassiveTask(f: Fiber, scheduled: bool): seq<Task>
  {
    if (HasAny(f.flags, PassiveMask) || HasAny(f.subtreeFlags, PassiveMask)) && !scheduled then [Task(NormalPriority, FlushPassiveWork)] else []
  }

  /** The finished fiber or its subtree has mutation flags. */
  predicate HasMutation(f: Fiber)
  {
    HasAny(f.subtreeFlags, MutationMask) || HasAny(f.flags, MutationMask)
  }

  /** The mutation phase keeps what the layout phase needs: the tree's shape and its walk. */
  lemma MutationKeepsLayout(f0: map<FiberId, Fiber>, f1: map<FiberId, Fiber>, nodes: map<nat, HostNode>, containers: map<nat, seq<nat>>,
                            container: nat, root: FiberRootNode, queues: map<QueueId, UQ.UpdateQueueRec>, t: Tree,
                            plans: map<FiberId, CommitEffects.StepPlan>, del: set<FiberId>)
    requires CommitReady(f0, nodes, containers, container, root, queues, t, plans, del)
    requires var order := CommitWalk.Visit(f0, t, CommitEffects.MutationPhaseMask);
      (forall x :: x in order ==> x in f0) && CommitFrame.Drift(f0, f1, CommitMutation.DelSet(f0, order))
    ensures Shaped(f1, t) && f1[t.id].ret.None? && f1[t.id].sibling.None?
    ensures CommitWalk.Visit(f1, t, LayoutMask) == CommitWalk.Visit(f0, t, LayoutMask)
    ensures NoRepeats(CommitWalk.Visit(f1, t, LayoutMask))
  {
    var order := CommitWalk.Visit(f0, t, CommitEffects.MutationPhaseMask);
    CommitMutation.DelSetWithin(f0, container, queues, plans, del, order, |order|);
    assert order[..|order|] == order;
    var cleared := CommitMutation.DelSet(f0, order);
    CommitFrame.ShapedDrift(f0, f1, cleared, t);
    CommitEffects.VisitDrift(f0, f1, cleared, t, LayoutMask);
    assert CommitFrame.Kept(f0[t.id], f1[t.id], false);
  }

  /**
   * The three sub-phases of `commitRoot` for the finished fiber `fw`, the
   * top of `t`: with mutation flags on it or its subtree, the mutation
   * phase, the switch of `root.current` to it, and the layout phase;
   * otherwise only the switch. A phase that throws ends it there.
   */
  method CommitPhases(heap: FiberHeap, host: NoopHostState, refs: CommitRefs.RefCells, root: FiberRootNode,
                      queues: map<QueueId, UQ.UpdateQueueRec>, fw: FiberId, ghost t: Tree,
                      ghost plans: map<FiberId, CommitEffects.StepPlan>, ghost del: set<FiberId>)
    returns (outcome: Outcome)
    requires fw == t.id && CommitReady(heap.fibers, host.nodes, host.containers, root.containerInfo, root, queues, t, plans, del)
    modifies heap`fibers, host`nodes, host`containers, refs, root`pendingPassiveEffects, root`current
    ensures outcome.Done? ==> root.current == fw
    ensures !HasMutation(old(heap.fibers)[fw]) ==> outcome.Done? && heap.fibers == old(heap.fibers) && unchanged(host, refs)
    ensures HasMutation(old(heap.fibers)[fw]) ==> var order := CommitWalk.Visit(old(heap.fibers), t, CommitEffects.MutationPhaseMask);
      && (forall x :: x in order ==> x in old(heap.fibers))
      && CommitFrame.Drift(old(heap.fibers), heap.fibers, CommitMutation.DelSet(old(heap.fibers), order))
    ensures outcome.Done? ==> host.View() == CommitView(old(heap.fibers), root.containerInfo, plans, t, old(host.View()))
  {
    hide CommitMutation.PhaseDone, CommitMutation.PhaseRun, CommitView, CommitWalk.Visit, CommitEffects.LayoutRun, CommitFrame.HostWF,
      CommitFrame.Drift, CommitMutation.DelSet;
    ShapedIn(heap.fibers, t);
    CommitViewOpen(heap.fibers, root.containerInfo, plans, t, host.View());
    var f := heap.fibers[fw];
    var subtreeHasEffect := HasAny(f.subtreeFlags, MutationMask);
    var rootHasEffect := HasAny(f.flags, MutationMask);
    if subtreeHasEffect || rootHasEffect {
      ghost var f0, n0, c0 := heap.fibers, host.nodes, host.containers;
      outcome := CommitMutation.CommitMutationEffects(heap, host, refs, root, queues, fw, t, plans, del);
      ghost var f1 := heap.fibers;
      assert CommitFrame.Drift(f0, f1, CommitMutation.DelSet(f0, CommitWalk.Visit(f0, t, CommitEffects.MutationPhaseMask)));
      if outcome.Thrown? {
        return;
      }
      root.current := fw;
      MutationKeepsLayout(f0, heap.fibers, n0, c0, root.containerInfo, root, queues, t, plans, del);
      outcome := CommitEffects.CommitLayoutEffects(heap, refs, fw, t);
      ghost var cleared := CommitMutation.DelSet(f0, CommitWalk.Visit(f0, t, CommitEffects.MutationPhaseMask));
      CommitFrame.DriftTrans(f0, f1, heap.fibers, cleared, {});
      assert cleared + {} == cleared;
    } else {
      root.current := fw;
      outcome := Done;
    }
  }

  class WorkLoopState {
    var workInProgress: Option<FiberId>
    var wipRootRenderLane: Lane
    var rootDoesHasPassiveEffect: bool
    /** The external scheduler: tasks by position, the cancelled ones, and microtasks queued. */
    var tasks: seq<Task>
    var cancelled: set<nat>
    var microtasks: nat
    /** The render pass so far: fibers begun and completed, and the walk's position. */
    ghost var begun: seq<FiberId>
    ghost var completed: seq<FiberId>
    ghost var cur: Tree
    ghost var ctx: seq<Frame>

    constructor()
      ensures workInProgress.None? && wipRootRenderLane == NoLane && !rootDoesHasPassiveEffect
      ensures tasks == [] && cancelled == {} && microtasks == 0
    {
      workInProgress := None;
      wipRootRenderLane := NoLane;
      rootDoesHasPassiveEffect := false;
      tasks := [];
      cancelled := {};
      microtasks := 0;
      begun := [];
      completed := [];
      cur := Tree(0, []);
      ctx := [];
    }

    /** What `ensureRootIsScheduled` reads and writes. */
    ghost function Snap(root: FiberRootNode, sync: SyncQueueState): SchedState
      reads this, root, sync
    {
      SchedState(root.pendingLanes, root.callbackNode, root.callbackPriority, tasks, cancelled, sync.syncQueue, microtasks)
    }

    ghost predicate RenderAt(fibers: map<FiberId, Fiber>, begin: BeginOracle, t: Tree)
      reads this`workInProgress, this`begun, this`completed, this`cur, this`ctx
    {
      Memoized(fibers, begun) && Cursor(fibers, begin, workInProgress, begun, completed, cur, ctx, t)
    }

    // ------------------------------------------------------------ scheduling

    /** `ensureRootIsScheduled(root)`, as `Schedule` says. */
    method EnsureRootIsScheduled(root: FiberRootNode, sync: SyncQueueState)
      modifies this`tasks, this`cancelled, this`microtasks, root`callbackNode, root`callbackPriority, sync`syncQueue
      ensures Snap(root, sync) == Schedule(old(Snap(root, sync)))
    {
      var updateLane := GetHighestPriorityLane(root.pendingLanes);
      var existingCallback := root.callbackNode;
      if updateLane == NoLane {
        if existingCallback.Some? {
          cancelled := cancelled + {existingCallback.value};
        }
        root.callbackNode := None;
        root.callbackPriority := NoLane;
        return;
      }
      var curPriority := updateLane;
      var prevPriority := root.callbackPriority;
      if curPriority == prevPriority {
        return;
      }
      if existingCallback.Some? {
        cancelled := cancelled + {existingCallback.value};
      }
      var newCallbackNode: Option<nat> := None;
      if updateLane == SyncLane {
        sync.SchedulerSyncCallback(SyncCallback.PerformSyncWorkOnRoot(updateLane));
        microtasks := microtasks + 1;
      } else {
        var schedulerPriority := LanesToSchedulerPriority(updateLane);
        newCallbackNode := Some(|tasks|);
        tasks := tasks + [Task(schedulerPriority, PerformConcurrentWork)];
      }
      root.callbackNode := newCallbackNode;
      root.callbackPriority := curPriority;
    }

    /**
     * `schedulerUpdateQueueOnFiber(fiber, lane)`: when the climb from the
     * fiber ends at a HostRoot, adds the lane to its root and schedules
     * the root; otherwise does nothing.
     */
    method ScheduleUpdateOnFiber(heap: FiberHeap, root: FiberRootNode, sync: SyncQueueState, fiber: FiberId, lane: Lane,
                                 ghost up: seq<FiberId>)
      requires RetChain(heap.fibers, Some(fiber), up) && CommitHost.RootsIn(heap.fibers, root)
      modifies this`tasks, this`cancelled, this`microtasks, root`pendingLanes, root`callbackNode, root`callbackPriority, sync`syncQueue
      ensures |up| > 0
      ensures heap.fibers[up[|up| - 1]].tag == HostRoot ==>
        Snap(root, sync) == Schedule(old(Snap(root, sync)).(pendingLanes := MergeLanes(old(root.pendingLanes), lane)))
      ensures heap.fibers[up[|up| - 1]].tag != HostRoot ==> Snap(root, sync) == old(Snap(root, sync))
    {
      var found := MarkUpdateFromFiberToRoot(heap, fiber, up);
      if found.Some? {
        assert up[|up| - 1] in heap.fibers;
        root.MarkRootUpdated(lane);
        EnsureRootIsScheduled(root, sync);
      }
    }

    // ------------------------------------------------------------ the render phase

    /**
     * `prepareFreshStack(root, lane)`: clears the finished work, makes the
     * work-in-progress copy of the current HostRoot fiber, with empty
     * props, the cursor, and records the lane. The walk starts at `t`.
     */
    method PrepareFreshStack(heap: FiberHeap, root: FiberRootNode, lane: Lane, ghost begin: BeginOracle, ghost t: Tree)
      requires FreshReady(heap, root.current, begin, t)
      modifies heap, root`finishedLane, root`finishedWork, this`workInProgress, this`wipRootRenderLane
      modifies this`begun, this`completed, this`cur, this`ctx
      ensures root.finishedLane == NoLane && root.finishedWork.None? && wipRootRenderLane == lane
      ensures root.current in old(heap.fibers)
      ensures heap.Valid() && Paired(heap.fibers, root.current, t.id) && heap.fibers[t.id].pendingProps == Rec(map[])
      ensures Created(old(heap.fibers), old(heap.nextId), root.current, Rec(map[]), t.id, heap.fibers)
      ensures LinksKept(old(heap.fibers), heap.fibers)
      ensures workInProgress == Some(t.id) && begun == [] && completed == []
      ensures RenderAt(heap.fibers, begin, t)
    {
      hide Created, Built, Cursor, Memoized, Walking, FreshReady;
      root.finishedLane := NoLane;
      root.finishedWork := None;
      var wip := CreateRootWip(heap, root.current, begin, t);
      workInProgress := Some(wip);
      wipRootRenderLane := lane;
      begun, completed, cur, ctx := [], [], t, [];
    }

    /**
     * `completeUnitOfWork(fiber)`: completes the fiber and each ancestor
     * climbed to, until one has a sibling, which becomes the cursor, or
     * the top is completed and the cursor becomes null. `complete` says
     * for which fibers `completeWork` throws.
     */
    method CompleteUnitOfWork(heap: FiberHeap, fiber: FiberId, ghost begin: BeginOracle, complete: CompleteOracle, ghost t: Tree)
      returns (thrown: bool)
      requires Climbing(heap.fibers, begin, begun, completed, fiber, ctx, PreOrder(t), PostOrder(t)) && Memoized(heap.fibers, begun)
      modifies this`workInProgress, this`completed, this`cur, this`ctx
      ensures !thrown ==> RenderAt(heap.fibers, begin, t) && |completed| > |old(completed)|
      ensures thrown ==> Stopped(begun, completed, t)
    {
      hide Climbing, Walking, Under, Built, Memoized, PreOrder, PostOrder, AfterPre, AfterPost;
      var node := fiber;
      ghost var pre, post := PreOrder(t), PostOrder(t);
      while true
        invariant Climbing(heap.fibers, begin, begun, completed, node, ctx, pre, post)
        invariant |completed| >= |old(completed)|
        decreases |post| - |completed|
      {
        ClimbingBounds(heap.fibers, begin, begun, completed, node, ctx, pre, post);
        if complete(node) {
          PrefixShorter(completed, node, post);
          return true;
        }
        var sibling := heap.fibers[node].sibling;
        if sibling.Some? {
          SiblingStep(heap.fibers, begin, begun, completed, node, ctx, pre, post);
          workInProgress := sibling;
          completed := completed + [node];
          cur, ctx := ctx[0].right[0], [Frame(ctx[0].parent, ctx[0].right[1..])] + ctx[1..];
          return false;
        }
        ParentStep(heap.fibers, begin, begun, completed, node, ctx, pre, post);
        var parent := heap.fibers[node].ret;
        completed := completed + [node];
        workInProgress := parent;
        if parent.None? {
          return false;
        }
        node := parent.value;
        ctx := ctx[1..];
      }
    }

    /**
     * `preformUnitOfWork(fiber)`: begins the cursor, then memoizes its
     * props; moves the cursor to the child begin returned, or completes
     * the fiber when there is none.
     */
    method PerformUnitOfWork(heap: FiberHeap, fiber: FiberId, begin: BeginOracle, complete: CompleteOracle, ghost t: Tree)
      returns (thrown: bool)
      requires workInProgress == Some(fiber) && RenderAt(heap.fibers, begin, t)
      modifies heap`fibers, this`workInProgress, this`begun, this`completed, this`cur, this`ctx
      ensures OnlyMemo(old(heap.fibers), heap.fibers) && (old(heap.Valid()) ==> heap.Valid())
      ensures !thrown ==> begun == old(begun) + [fiber] && RenderAt(heap.fibers, begin, t)
      ensures thrown ==> Stopped(begun, completed, t)
    {
      hide Climbing, Walking, Under, Built, PreOrder, PostOrder, AfterPre, AfterPost, Cursor, Memoized, MemoStep, OnlyMemo;
      ghost var pre, post := PreOrder(t), PostOrder(t);
      CursorWalking(heap.fibers, begin, workInProgress, begun, completed, cur, ctx, t);
      var next := begin(fiber);
      if next.BeginThrew? {
        WalkingBounds(heap.fibers, begin, begun, completed, cur, ctx, pre, post);
        OnlyMemoSame(heap.fibers);
        return true;
      }
      ghost var f0 := heap.fibers;
      WalkingBounds(heap.fibers, begin, begun, completed, cur, ctx, pre, post);
      Memoize(heap, fiber);
      MemoStepKeeps(f0, heap.fibers, fiber, begun);
      WalkingLinks(f0, heap.fibers, begin, begun, completed, cur, ctx, pre, post);
      if next.child.None? {
        LeafStep(heap.fibers, begin, begun, completed, cur, ctx, pre, post);
        begun := begun + [fiber];
        thrown := CompleteUnitOfWork(heap, fiber, begin, complete, t);
      } else {
        DescendStep(heap.fibers, begin, begun, completed, cur, ctx, pre, post);
        begun := begun + [fiber];
        workInProgress := next.child;
        cur, ctx := cur.kids[0], [Frame(cur.id, cur.kids[1..])] + ctx;
        CursorAt(heap.fibers, begin, begun, completed, cur, ctx, t);
        thrown := false;
      }
    }

    /**
     * `workLoopSync()`: units of work until the cursor is null. Unless a
     * unit throws, the pass ends having begun every fiber of `t` in
     * pre-order and completed them in post-order, all memoized.
     */
    method WorkLoopSync(heap: FiberHeap, begin: BeginOracle, complete: CompleteOracle, ghost t: Tree) returns (thrown: bool)
      requires workInProgress.Some? ==> RenderAt(heap.fibers, begin, t)
      modifies heap`fibers, this`workInProgress, this`begun, this`completed, this`cur, this`ctx
      ensures OnlyMemo(old(heap.fibers), heap.fibers) && (old(heap.Valid()) ==> heap.Valid())
      ensures old(workInProgress).None? ==>
        && !thrown && workInProgress.None? && heap.fibers == old(heap.fibers)
        && begun == old(begun) && completed == old(completed) && cur == old(cur) && ctx == old(ctx)
      ensures !thrown ==> workInProgress.None?
      ensures !thrown && old(workInProgress).Some? ==>
        RenderAt(heap.fibers, begin, t) && begun == PreOrder(t) && completed == PostOrder(t) && Memoized(heap.fibers, begun)
      ensures thrown ==> Stopped(begun, completed, t)
    {
      hide Climbing, Walking, Under, Built, PreOrder, PostOrder, AfterPre, AfterPost, Memoized, OnlyMemo;
      OnlyMemoSame(heap.fibers);
      if workInProgress.None? {
        return false;
      }
      ghost var f0 := heap.fibers;
      while workInProgress.Some?
        invariant OnlyMemo(f0, heap.fibers) && (old(heap.Valid()) ==> heap.Valid())
        invariant RenderAt(heap.fibers, begin, t)
        decreases |PreOrder(t)| - |begun|
      {
        CursorWalking(heap.fibers, begin, workInProgress, begun, completed, cur, ctx, t);
        WalkingBounds(heap.fibers, begin, begun, completed, cur, ctx, PreOrder(t), PostOrder(t));
        ghost var f1 := heap.fibers;
        thrown := PerformUnitOfWork(heap, workInProgress.value, begin, complete, t);
        OnlyMemoTrans(f0, f1, heap.fibers);
        if thrown {
          return;
        }
        CursorBounds(heap.fibers, begin, workInProgress, begun, completed, cur, ctx, t);
      }
      thrown := false;
    }

    /**
     * `workLoopConcurrent()`: units of work until the cursor is null or
     * `shouldYield`, asked with the number of units run so far, says to
     * yield. Unless a unit throws, the pass can resume where it stopped.
     */
    method WorkLoopConcurrent(heap: FiberHeap, begin: BeginOracle, complete: CompleteOracle, shouldYield: nat -> bool, ghost t: Tree)
      returns (thrown: bool)
      requires workInProgress.Some? ==> RenderAt(heap.fibers, begin, t)
      modifies heap`fibers, this`workInProgress, this`begun, this`completed, this`cur, this`ctx
      ensures OnlyMemo(old(heap.fibers), heap.fibers) && (old(heap.Valid()) ==> heap.Valid())
      ensures old(workInProgress).None? ==>
        && !thrown && workInProgress.None? && heap.fibers == old(heap.fibers)
        && begun == old(begun) && completed == old(completed) && cur == old(cur) && ctx == old(ctx)
      ensures !thrown && old(workInProgress).Some? ==> RenderAt(heap.fibers, begin, t)
      ensures !thrown && workInProgress.Some? ==> |begun| >= |old(begun)| && shouldYield(|begun| - |old(begun)|)
      ensures thrown ==> Stopped(begun, completed, t)
    {
      hide Climbing, Walking, Under, Built, PreOrder, PostOrder, AfterPre, AfterPost, Memoized, OnlyMemo;
      OnlyMemoSame(heap.fibers);
      if workInProgress.None? {
        return false;
      }
      ghost var f0 := heap.fibers;
      var units: nat := 0;
      while workInProgress.Some? && !shouldYield(units)
        invariant OnlyMemo(f0, heap.fibers) && (old(heap.Valid()) ==> heap.Valid())
        invariant RenderAt(heap.fibers, begin, t)
        invariant |begun| == |old(begun)| + units
        decreases |PreOrder(t)| - |begun|
      {
        CursorWalking(heap.fibers, begin, workInProgress, begun, completed, cur, ctx, t);
        WalkingBounds(heap.fibers, begin, begun, completed, cur, ctx, PreOrder(t), PostOrder(t));
        ghost var f1 := heap.fibers;
        thrown := PerformUnitOfWork(heap, workInProgress.value, begin, complete, t);
        OnlyMemoTrans(f0, f1, heap.fibers);
        if thrown {
          return;
        }
        units := units + 1;
        CursorBounds(heap.fibers, begin, workInProgress, begun, completed, cur, ctx, t);
      }
      thrown := false;
    }

    /**
     * `renderRoot(root, lane, shouldTimeSlice)`: starts a fresh pass
     * unless the pass under way is for the same lane, then runs the loop,
     * retrying it with a null cursor when it throws (which ends it). The
     * exit is incomplete exactly when time-slicing left a cursor.
     * `threw` says whether a unit threw; the pass then stopped short and
     * still reports completion. `prepared` is the fibers the loop starts
     * from: those it was called with when the pass for `lane` was under
     * way, and the result of `createWorkInProgress` otherwise; the loop
     * then writes only `memoizedProps`.
     */
    method RenderRoot(heap: FiberHeap, root: FiberRootNode, lane: Lane, shouldTimeSlice: bool, begin: BeginOracle,
                      complete: CompleteOracle, shouldYield: nat -> bool, ghost t: Tree)
      returns (exit: ExitStatus, ghost threw: bool, ghost prepared: map<FiberId, Fiber>)
      requires Renderable(heap, root, lane, begin, t)
      modifies heap, root`finishedLane, root`finishedWork, this`workInProgress, this`wipRootRenderLane
      modifies this`begun, this`completed, this`cur, this`ctx
      ensures wipRootRenderLane == lane && heap.Valid() && Paired(heap.fibers, root.current, t.id)
      ensures LinksKept(old(heap.fibers), heap.fibers)
      ensures exit == RootInComplete <==> shouldTimeSlice && workInProgress.Some?
      ensures !shouldTimeSlice ==> workInProgress.None?
      ensures threw ==> exit == RootCompleted && workInProgress.None? && Stopped(begun, completed, t)
      ensures !threw ==> RenderAt(heap.fibers, begin, t)
      ensures !threw && exit == RootCompleted ==>
        begun == PreOrder(t) && completed == PostOrder(t) && Memoized(heap.fibers, PreOrder(t))
      ensures exit == RootCompleted ==> Ended(heap.fibers, begun, completed, threw, t)
      ensures old(wipRootRenderLane) == lane ==> prepared == old(heap.fibers)
      ensures old(wipRootRenderLane) != lane ==>
        old(root.current) in old(heap.fibers) && Created(old(heap.fibers), old(heap.nextId), old(root.current), Rec(map[]), t.id, prepared)
      ensures OnlyMemo(prepared, heap.fibers)
    {
      hide Climbing, Walking, Under, Built, PreOrder, PostOrder, AfterPre, AfterPost, Memoized, OnlyMemo, FreshReady, Paired;
      if wipRootRenderLane != lane {
        PrepareFreshStack(heap, root, lane, begin, t);
      }
      ghost var f1 := heap.fibers;
      prepared := f1;
      OnlyMemoSame(f1);
      threw := false;
      while true
        invariant heap.Valid() && OnlyMemo(f1, heap.fibers) && wipRootRenderLane == lane
        invariant !threw ==> RenderAt(heap.fibers, begin, t)
        invariant threw ==> workInProgress.None? && Stopped(begun, completed, t)
        decreases if workInProgress.Some? then 1 else 0
      {
        ghost var f2 := heap.fibers;
        var thrown;
        if shouldTimeSlice {
          thrown := WorkLoopConcurrent(heap, begin, complete, shouldYield, t);
        } else {
          thrown := WorkLoopSync(heap, begin, complete, t);
        }
        OnlyMemoTrans(f1, f2, heap.fibers);
        if !thrown {
          break;
        }
        threw := true;
        workInProgress := None;
      }
      OnlyMemoKeeps(f1, heap.fibers);
      if shouldTimeSlice && workInProgress.Some? {
        return RootInComplete, threw, prepared;
      }
      return RootCompleted, threw, prepared;
    }

    /** What `renderRoot(root, lane, ...)` needs: a fresh pass can be prepared, or the pass for this lane is under way over `t`. */
    ghost predicate Renderable(heap: FiberHeap, root: FiberRootNode, lane: Lane, begin: BeginOracle, t: Tree)
      reads this`wipRootRenderLane, this`workInProgress, this`begun, this`completed, this`cur, this`ctx, heap, root`current
    {
      && (wipRootRenderLane != lane ==> FreshReady(heap, root.current, begin, t))
      && (wipRootRenderLane == lane ==> heap.Valid() && Paired(heap.fibers, root.current, t.id) && RenderAt(heap.fibers, begin, t))
    }

    /**
     * The completed branch of `perform*WorkOnRoot`: the finished work is
     * the current fiber's alternate, the top of `t`, with the lane
     * rendered; no lane is being rendered; then `commitRoot(root)`. The
     * render pass started from `prepared` (a fresh stack over `f0` when
     * `freshPass`, else `f0` itself) and only memoized props since.
     */
    method HandOff(heap: FiberHeap, host: NoopHostState, refs: CommitRefs.RefCells, root: FiberRootNode, sync: SyncQueueState,
                   queues: map<QueueId, UQ.UpdateQueueRec>, lane: Lane, ghost t: Tree,
                   ghost plans: map<FiberId, CommitEffects.StepPlan>, ghost del: set<FiberId>,
                   ghost f0: map<FiberId, Fiber>, ghost nextId: FiberId, ghost current: FiberId, ghost freshPass: bool,
                   ghost prepared: map<FiberId, Fiber>)
      returns (commit: Outcome)
      requires Paired(heap.fibers, root.current, t.id)
      requires CommitsAfterRender(f0, nextId, current, freshPass, host.nodes, host.containers, root.containerInfo, root, queues, t, plans, del)
      requires !freshPass ==> prepared == f0
      requires freshPass ==> current in f0 && Created(f0, nextId, current, Rec(map[]), t.id, prepared)
      requires OnlyMemo(prepared, heap.fibers)
      modifies heap`fibers, host`nodes, host`containers, refs, root`pendingPassiveEffects
      modifies root`finishedWork, root`finishedLane, root`pendingLanes, root`current, root`callbackNode, root`callbackPriority, sync`syncQueue
      modifies this`wipRootRenderLane, this`rootDoesHasPassiveEffect, this`tasks, this`cancelled, this`microtasks
      ensures wipRootRenderLane == NoLane && root.finishedWork.None? && root.finishedLane == NoLane
      ensures root.pendingLanes == RemoveLanes(old(root.pendingLanes), lane)
      ensures commit.Done? ==>
        && root.current == t.id && !rootDoesHasPassiveEffect
        && Snap(root, sync) == Schedule(old(Snap(root, sync)).(
             pendingLanes := RemoveLanes(old(root.pendingLanes), lane),
             tasks := old(tasks) + PassiveTask(old(heap.fibers)[t.id], old(rootDoesHasPassiveEffect))))
        && root.callbackPriority == GetHighestPriorityLane(root.pendingLanes)
        && host.View() == CommitView(old(heap.fibers), root.containerInfo, plans, t, old(host.View()))
        && (!HasMutation(old(heap.fibers)[t.id]) ==> heap.fibers == old(heap.fibers))
    {
      hide CommitReady, CommitView, Schedule, PassiveTask;
      RenderedReady(f0, nextId, current, freshPass, host.nodes, host.containers, root.containerInfo, root, queues, t, plans, del,
                    prepared, heap.fibers);
      root.finishedWork := heap.fibers[root.current].alternate;
      root.finishedLane := lane;
      wipRootRenderLane := NoLane;
      ghost var s1, f1, passive := Snap(root, sync), heap.fibers, rootDoesHasPassiveEffect;
      commit := CommitRoot(heap, host, refs, root, sync, queues, t, plans, del);
      if commit.Done? {
        ScheduleTracksHighest(s1.(pendingLanes := RemoveLanes(s1.pendingLanes, lane), tasks := s1.tasks + PassiveTask(f1[t.id], passive)));
      }
    }

    /**
     * `performSyncWorkOnRoot(root)`: unless the highest pending lane is
     * the sync lane, only reschedules; otherwise renders without time
     * slicing (which always completes), hands the finished tree, the
     * current fiber's alternate, over with the sync lane and commits it.
     * `prepared` and `rendered` are the fibers the render loop starts from
     * and ends with.
     */
    method PerformSyncWorkOnRoot(heap: FiberHeap, host: NoopHostState, refs: CommitRefs.RefCells, root: FiberRootNode,
                                 sync: SyncQueueState, queues: map<QueueId, UQ.UpdateQueueRec>, begin: BeginOracle,
                                 complete: CompleteOracle, ghost t: Tree,
                                 ghost plans: map<FiberId, CommitEffects.StepPlan>, ghost del: set<FiberId>)
      returns (r: PerformEnd, ghost threw: bool, ghost prepared: map<FiberId, Fiber>, ghost rendered: map<FiberId, Fiber>)
      requires GetHighestPriorityLane(root.pendingLanes) == SyncLane ==>
        && Renderable(heap, root, SyncLane, begin, t)
        && CommitsAfterRender(heap.fibers, heap.nextId, root.current, wipRootRenderLane != SyncLane,
                              host.nodes, host.containers, root.containerInfo, root, queues, t, plans, del)
      modifies heap, host`nodes, host`containers, refs, root`pendingPassiveEffects, root`pendingLanes, root`current
      modifies root`finishedLane, root`finishedWork, root`callbackNode, root`callbackPriority, sync`syncQueue
      modifies this`tasks, this`cancelled, this`microtasks, this`workInProgress, this`wipRootRenderLane, this`rootDoesHasPassiveEffect
      modifies this`begun, this`completed, this`cur, this`ctx
      ensures GetHighestPriorityLane(old(root.pendingLanes)) != SyncLane ==>
        && r == Rescheduled && heap.fibers == old(heap.fibers)
        && Snap(root, sync) == Schedule(old(Snap(root, sync)))
      ensures GetHighestPriorityLane(old(root.pendingLanes)) == SyncLane ==>
        && r.Finished? && r.lane == SyncLane
        && root.finishedWork.None? && root.finishedLane == NoLane && root.pendingLanes == RemoveLanes(old(root.pendingLanes), SyncLane)
        && wipRootRenderLane == NoLane && workInProgress.None?
        && (old(wipRootRenderLane) == SyncLane ==> prepared == old(heap.fibers))
        && (old(wipRootRenderLane) != SyncLane ==>
              old(root.current) in old(heap.fibers) && Created(old(heap.fibers), old(heap.nextId), old(root.current), Rec(map[]), t.id, prepared))
        && OnlyMemo(prepared, rendered) && t.id in rendered && Ended(rendered, begun, completed, threw, t)
        && (r.commit.Done? ==>
              && root.current == t.id && !rootDoesHasPassiveEffect
              && Snap(root, sync) == Schedule(old(Snap(root, sync)).(
                   pendingLanes := RemoveLanes(old(root.pendingLanes), SyncLane),
                   tasks := old(tasks) + PassiveTask(rendered[t.id], old(rootDoesHasPassiveEffect))))
              && host.View() == CommitView(rendered, root.containerInfo, plans, t, old(host.View()))
              && (!HasMutation(rendered[t.id]) ==> heap.fibers == rendered))
    {
      hide Climbing, Walking, Under, Built, PreOrder, PostOrder, AfterPre, AfterPost, Memoized, OnlyMemo, Cursor, FreshReady, RenderAt,
        Schedule, Paired, Stopped, Ended, CommitReady, CommitsAfterRender, Created, CommitView, PassiveTask, RemoveLanes, HasMutation,
        Renderable;
      prepared, rendered := heap.fibers, heap.fibers;
      var nextLanes := GetHighestPriorityLane(root.pendingLanes);
      if nextLanes != SyncLane {
        EnsureRootIsScheduled(root, sync);
        return Rescheduled, false, prepared, rendered;
      }
      ghost var f0, id0, current0, freshPass, v0, s0 := heap.fibers, heap.nextId, root.current, wipRootRenderLane != SyncLane, host.View(),
        Snap(root, sync);
      var exit;
      exit, threw, prepared := RenderRoot(heap, root, nextLanes, false, begin, complete, n => false, t);
      rendered := heap.fibers;
      // Without time slicing the pass always completes, so the source's
      // development-only branch for any other exit is not reached.
      assert exit == RootCompleted;
      PairedIn(heap.fibers, root.current, t.id);
      assert heap.fibers == rendered && host.View() == v0 && Snap(root, sync) == s0;
      var commit := HandOff(heap, host, refs, root, sync, queues, nextLanes, t, plans, del, f0, id0, current0, freshPass, prepared);
      return Finished(nextLanes, commit), threw, prepared, rendered;
    }

    /**
     * `performConcurrentWorkOnRoot(root, didTimeout)`: flushes the pending
     * passive effects first, and gives up when the flush did work and the
     * root's callback is no longer the one this task was started for; with
     * no pending lane there is nothing to do; otherwise renders the highest
     * pending lane (`RenderPending`). `prepared` and `rendered` are the
     * fibers the render loop starts from and ends with.
     */
    method PerformConcurrentWorkOnRoot(heap: FiberHeap, host: NoopHostState, refs: CommitRefs.RefCells, hooks: FiberHooks.HookRuntime,
                                       root: FiberRootNode, sync: SyncQueueState, queues: map<QueueId, UQ.UpdateQueueRec>,
                                       didTimeout: bool, begin: BeginOracle, complete: CompleteOracle, shouldYield: nat -> bool,
                                       create: CreateOracle, behaviour: Behaviour, ghost t: Tree,
                                       ghost plans: map<FiberId, CommitEffects.StepPlan>, ghost del: set<FiberId>,
                                       ghost unmountOrders: seq<seq<EffectId>>, ghost updateOrders: seq<seq<EffectId>>)
      returns (r: PerformEnd, ghost threw: bool, ghost prepared: map<FiberId, Fiber>, ghost rendered: map<FiberId, Fiber>)
      requires Rings(hooks.effects, root.pendingPassiveEffects.unmount, unmountOrders)
      requires Rings(hooks.effects, root.pendingPassiveEffects.update, updateOrders)
      requires GetHighestPriorityLane(root.pendingLanes) != NoLane ==>
        && Renderable(heap, root, GetHighestPriorityLane(root.pendingLanes), begin, t)
        && CommitsAfterRender(heap.fibers, heap.nextId, root.current, wipRootRenderLane != GetHighestPriorityLane(root.pendingLanes),
                              host.nodes, host.containers, root.containerInfo, root, queues, t, plans, del)
      modifies heap, host`nodes, host`containers, refs, hooks`effects, root`pendingPassiveEffects, sync
      modifies root`finishedLane, root`finishedWork, root`callbackNode, root`callbackPriority, root`pendingLanes, root`current
      modifies this`tasks, this`cancelled, this`microtasks, this`workInProgress, this`wipRootRenderLane, this`rootDoesHasPassiveEffect
      modifies this`begun, this`completed, this`cur, this`ctx
      ensures !r.Finished? ==> root.pendingLanes == old(root.pendingLanes)
      ensures r == FlushThrew || r == Preempted || r == NoWork ==> heap.fibers == old(heap.fibers) && workInProgress == old(workInProgress)
      ensures r == Preempted ==> root.callbackNode != old(root.callbackNode)
      ensures r == NoWork <==> GetHighestPriorityLane(old(root.pendingLanes)) == NoLane && r != FlushThrew && r != Preempted
      ensures r == Continue || r == Superseded || (r.Finished? && r.commit.Done?) ==>
        root.callbackPriority == GetHighestPriorityLane(root.pendingLanes)
      ensures r == Continue || r == Superseded ==>
        && !didTimeout && GetHighestPriorityLane(root.pendingLanes) != SyncLane
        && workInProgress.Some? && Memoized(heap.fibers, begun) && Cursor(heap.fibers, begin, workInProgress, begun, completed, cur, ctx, t)
        && wipRootRenderLane == GetHighestPriorityLane(root.pendingLanes)
        && (r == Continue <==> root.callbackNode == old(root.callbackNode))
      ensures r.Finished? ==>
        && r.lane == GetHighestPriorityLane(old(root.pendingLanes))
        && root.finishedWork.None? && root.finishedLane == NoLane && root.pendingLanes == RemoveLanes(old(root.pendingLanes), r.lane)
        && wipRootRenderLane == NoLane
        && (old(wipRootRenderLane) == r.lane ==> prepared == old(heap.fibers))
        && (old(wipRootRenderLane) != r.lane ==>
              old(root.current) in old(heap.fibers) && Created(old(heap.fibers), old(heap.nextId), old(root.current), Rec(map[]), t.id, prepared))
        && OnlyMemo(prepared, rendered) && t.id in rendered && Ended(rendered, begun, completed, threw, t)
        && (r.commit.Done? ==>
              && root.current == t.id && !rootDoesHasPassiveEffect
              && host.View() == CommitView(rendered, root.containerInfo, plans, t, old(host.View()))
              && (!HasMutation(rendered[t.id]) ==> heap.fibers == rendered))
    {
      hide Climbing, Walking, Under, Built, PreOrder, PostOrder, AfterPre, AfterPost, Memoized, OnlyMemo, Cursor, FreshReady,
        Paired, Stopped, FlushRun, FlushDone, Rings, RingsIn, RunCount, Renderable, Schedule, Ended, GetHighestPriorityLane,
        CommitReady, CommitsAfterRender, Created, CommitView, PassiveTask, RemoveLanes, HasMutation;
      prepared, rendered := heap.fibers, heap.fibers;
      var curCallback := root.callbackNode;
      var did, outcome, calls := FlushPassiveEffects(hooks, root, sync, create, behaviour, unmountOrders, updateOrders);
      if outcome.Thrown? {
        return FlushThrew, false, prepared, rendered;
      }
      if did && root.callbackNode != curCallback {
        return Preempted, false, prepared, rendered;
      }
      var lane := GetHighestPriorityLane(root.pendingLanes);
      if lane == NoLane {
        return NoWork, false, prepared, rendered;
      }
      r, threw, prepared, rendered := RenderPending(heap, host, refs, root, sync, queues, lane, didTimeout, begin, complete, shouldYield,
                                                    t, plans, del);
    }

    /**
     * The rest of `performConcurrentWorkOnRoot` for the highest pending
     * `lane`: renders it, time-sliced unless it is the sync lane or the
     * task timed out, then reschedules the root and continues or commits
     * (`ContinueOrCommit`).
     */
    method RenderPending(heap: FiberHeap, host: NoopHostState, refs: CommitRefs.RefCells, root: FiberRootNode, sync: SyncQueueState,
                         queues: map<QueueId, UQ.UpdateQueueRec>, lane: Lane, didTimeout: bool, begin: BeginOracle,
                         complete: CompleteOracle, shouldYield: nat -> bool, ghost t: Tree,
                         ghost plans: map<FiberId, CommitEffects.StepPlan>, ghost del: set<FiberId>)
      returns (r: PerformEnd, ghost threw: bool, ghost prepared: map<FiberId, Fiber>, ghost rendered: map<FiberId, Fiber>)
      requires lane == GetHighestPriorityLane(root.pendingLanes) && lane != NoLane
      requires Renderable(heap, root, lane, begin, t)
      requires CommitsAfterRender(heap.fibers, heap.nextId, root.current, wipRootRenderLane != lane,
                                  host.nodes, host.containers, root.containerInfo, root, queues, t, plans, del)
      modifies heap, host`nodes, host`containers, refs, root`pendingPassiveEffects, sync`syncQueue
      modifies root`finishedLane, root`finishedWork, root`callbackNode, root`callbackPriority, root`pendingLanes, root`current
      modifies this`tasks, this`cancelled, this`microtasks, this`workInProgress, this`wipRootRenderLane, this`rootDoesHasPassiveEffect
      modifies this`begun, this`completed, this`cur, this`ctx
      ensures r == Continue || r == Superseded || r.Finished?
      ensures !r.Finished? ==> root.pendingLanes == old(root.pendingLanes)
      ensures r == Continue || r == Superseded || (r.Finished? && r.commit.Done?) ==>
        root.callbackPriority == GetHighestPriorityLane(root.pendingLanes)
      ensures r == Continue || r == Superseded ==>
        && !didTimeout && lane != SyncLane
        && workInProgress.Some? && Memoized(heap.fibers, begun) && Cursor(heap.fibers, begin, workInProgress, begun, completed, cur, ctx, t)
        && wipRootRenderLane == lane
        && (r == Continue <==> root.callbackNode == old(root.callbackNode))
      ensures r.Finished? ==>
        && r.lane == lane
        && root.finishedWork.None? && root.finishedLane == NoLane && root.pendingLanes == RemoveLanes(old(root.pendingLanes), lane)
        && wipRootRenderLane == NoLane
        && (old(wipRootRenderLane) == lane ==> prepared == old(heap.fibers))
        && (old(wipRootRenderLane) != lane ==>
              old(root.current) in old(heap.fibers) && Created(old(heap.fibers), old(heap.nextId), old(root.current), Rec(map[]), t.id, prepared))
        && OnlyMemo(prepared, rendered) && t.id in rendered && Ended(rendered, begun, completed, threw, t)
        && (r.commit.Done? ==>
              && root.current == t.id && !rootDoesHasPassiveEffect
              && host.View() == CommitView(rendered, root.containerInfo, plans, t, old(host.View()))
              && (!HasMutation(rendered[t.id]) ==> heap.fibers == rendered))
    {
      hide Climbing, Walking, Under, Built, PreOrder, PostOrder, AfterPre, AfterPost, Memoized, OnlyMemo, Cursor, FreshReady,
        Paired, Stopped, Renderable, Schedule, Ended, GetHighestPriorityLane, LinksKept,
        CommitReady, CommitsAfterRender, Created, CommitView, PassiveTask, RemoveLanes, HasMutation;
      ghost var f0, id0, current0, wip0 := heap.fibers, heap.nextId, root.current, wipRootRenderLane;
      var curCallbackNode := root.callbackNode;
      var needSync := lane == SyncLane || didTimeout;
      var exit;
      exit, threw, prepared := RenderRoot(heap, root, lane, !needSync, begin, complete, shouldYield, t);
      rendered := heap.fibers;
      PairedIn(heap.fibers, root.current, t.id);
      r := ContinueOrCommit(heap, host, refs, root, sync, queues, lane, exit, curCallbackNode, t, plans, del, f0, id0, current0, wip0 != lane,
                            prepared);
    }

    /**
     * What `performConcurrentWorkOnRoot` does once `renderRoot` returns
     * `exit` for `lane`: reschedules the root; an incomplete pass then
     * continues in the same task unless rescheduling replaced the
     * callback `curCallbackNode` the scheduler task was started for, and a finished
     * pass is handed over and committed (`HandOff`).
     */
    method ContinueOrCommit(heap: FiberHeap, host: NoopHostState, refs: CommitRefs.RefCells, root: FiberRootNode, sync: SyncQueueState,
                            queues: map<QueueId, UQ.UpdateQueueRec>, lane: Lane, exit: ExitStatus, curCallbackNode: Option<nat>,
                            ghost t: Tree, ghost plans: map<FiberId, CommitEffects.StepPlan>, ghost del: set<FiberId>,
                            ghost f0: map<FiberId, Fiber>, ghost nextId: FiberId, ghost current: FiberId, ghost freshPass: bool,
                            ghost prepared: map<FiberId, Fiber>)
      returns (r: PerformEnd)
      requires lane == GetHighestPriorityLane(root.pendingLanes) && wipRootRenderLane == lane
      requires exit != RootInComplete ==>
        && Paired(heap.fibers, root.current, t.id)
        && CommitsAfterRender(f0, nextId, current, freshPass, host.nodes, host.containers, root.containerInfo, root, queues, t, plans, del)
        && (!freshPass ==> prepared == f0)
        && (freshPass ==> current in f0 && Created(f0, nextId, current, Rec(map[]), t.id, prepared))
        && OnlyMemo(prepared, heap.fibers)
      modifies heap`fibers, host`nodes, host`containers, refs, root`pendingPassiveEffects, sync`syncQueue
      modifies root`finishedWork, root`finishedLane, root`pendingLanes, root`current, root`callbackNode, root`callbackPriority
      modifies this`wipRootRenderLane, this`rootDoesHasPassiveEffect, this`tasks, this`cancelled, this`microtasks
      ensures exit == RootInComplete ==>
        && (r == Continue || r == Superseded) && (r == Continue <==> root.callbackNode == curCallbackNode)
        && heap.fibers == old(heap.fibers) && wipRootRenderLane == lane && root.pendingLanes == old(root.pendingLanes)
      ensures r == Continue || r == Superseded || (r.Finished? && r.commit.Done?) ==>
        root.callbackPriority == GetHighestPriorityLane(root.pendingLanes)
      ensures exit != RootInComplete ==>
        && r.Finished? && r.lane == lane
        && wipRootRenderLane == NoLane && root.finishedWork.None? && root.finishedLane == NoLane
        && root.pendingLanes == RemoveLanes(old(root.pendingLanes), lane)
        && (r.commit.Done? ==>
              && root.current == t.id && !rootDoesHasPassiveEffect
              && host.View() == CommitView(old(heap.fibers), root.containerInfo, plans, t, old(host.View()))
              && (!HasMutation(old(heap.fibers)[t.id]) ==> heap.fibers == old(heap.fibers)))
    {
      hide Paired, Schedule, GetHighestPriorityLane, CommitReady, CommitsAfterRender, Created, CommitView, PassiveTask, RemoveLanes,
        HasMutation, OnlyMemo;
      ghost var s0 := Snap(root, sync);
      EnsureRootIsScheduled(root, sync);
      ScheduleTracksHighest(s0);
      if exit == RootInComplete {
        r := if root.callbackNode != curCallbackNode then Superseded else Continue;
      } else {
        var commit := HandOff(heap, host, refs, root, sync, queues, lane, t, plans, del, f0, nextId, current, freshPass, prepared);
        r := Finished(lane, commit);
      }
    }

    // ------------------------------------------------------------ the commit

    /** Schedules the passive flush for the finished fiber `f` when it needs one and none is scheduled. */
    method SchedulePassiveFlush(f: Fiber)
      modifies this`rootDoesHasPassiveEffect, this`tasks
      ensures tasks == old(tasks) + PassiveTask(f, old(rootDoesHasPassiveEffect))
      ensures rootDoesHasPassiveEffect == (old(rootDoesHasPassiveEffect) || HasAny(f.flags, PassiveMask) || HasAny(f.subtreeFlags, PassiveMask))
    {
      if HasAny(f.flags, PassiveMask) || HasAny(f.subtreeFlags, PassiveMask) {
        if !rootDoesHasPassiveEffect {
          rootDoesHasPassiveEffect := true;
          tasks := tasks + [Task(NormalPriority, FlushPassiveWork)];
        }
      }
    }

    /**
     * What `commitRoot` does before its phases: clears the finished work
     * and lane, removes the lane from the pending lanes, and schedules the
     * passive flush the finished fiber `f` needs.
     */
    method ClearFinished(root: FiberRootNode, f: Fiber)
      modifies root`finishedWork, root`finishedLane, root`pendingLanes, this`rootDoesHasPassiveEffect, this`tasks
      ensures root.finishedWork.None? && root.finishedLane == NoLane
      ensures root.pendingLanes == RemoveLanes(old(root.pendingLanes), old(root.finishedLane))
      ensures tasks == old(tasks) + PassiveTask(f, old(rootDoesHasPassiveEffect))
    {
      var lane := root.finishedLane;
      root.finishedWork := None;
      root.finishedLane := NoLane;
      root.MarkRootFinished(lane);
      SchedulePassiveFlush(f);
    }

    // ------------------------------------------------------------ the commit

    /**
     * `commitRoot(root)`: with no finished work, nothing. Otherwise
     * clears the finished work and lane and the lane from the pending
     * lanes; schedules one passive flush at normal priority when the
     * finished fiber or its subtree has passive flags and none is
     * scheduled; runs the mutation phase when it or its subtree has
     * mutation flags, switches `current` to it, and runs the layout phase
     * (only switches otherwise); then clears the passive flag and
     * reschedules the root. A phase that throws ends the commit there.
     */
    method CommitRoot(heap: FiberHeap, host: NoopHostState, refs: CommitRefs.RefCells, root: FiberRootNode, sync: SyncQueueState,
                      queues: map<QueueId, UQ.UpdateQueueRec>, ghost t: Tree,
                      ghost plans: map<FiberId, CommitEffects.StepPlan>, ghost del: set<FiberId>)
      returns (outcome: Outcome)
      requires root.finishedWork.Some? ==>
        root.finishedWork.value == t.id && CommitReady(heap.fibers, host.nodes, host.containers, root.containerInfo, root, queues, t, plans, del)
      modifies heap`fibers, host`nodes, host`containers, refs, root`pendingPassiveEffects
      modifies root`finishedWork, root`finishedLane, root`pendingLanes, root`current, root`callbackNode, root`callbackPriority, sync`syncQueue
      modifies this`rootDoesHasPassiveEffect, this`tasks, this`cancelled, this`microtasks
      ensures old(root.finishedWork).None? ==>
        && outcome.Done? && heap.fibers == old(heap.fibers) && root.current == old(root.current)
        && rootDoesHasPassiveEffect == old(rootDoesHasPassiveEffect) && Snap(root, sync) == old(Snap(root, sync))
        && host.View() == old(host.View())
      ensures old(root.finishedWork).Some? ==>
        && root.finishedWork.None? && root.finishedLane == NoLane
        && (outcome.Done? ==>
              && root.current == t.id && !rootDoesHasPassiveEffect
              && Snap(root, sync) == Schedule(old(Snap(root, sync)).(
                   pendingLanes := RemoveLanes(old(root.pendingLanes), old(root.finishedLane)),
                   tasks := old(tasks) + PassiveTask(old(heap.fibers)[t.id], old(rootDoesHasPassiveEffect)))))
        && (outcome.Done? && !HasMutation(old(heap.fibers)[t.id]) ==> heap.fibers == old(heap.fibers))
        && (outcome.Done? ==> host.View() == CommitView(old(heap.fibers), root.containerInfo, plans, t, old(host.View())))
      ensures old(root.finishedWork).Some? ==> root.pendingLanes == RemoveLanes(old(root.pendingLanes), old(root.finishedLane))
    {
      // Every step below comes from a callee's contract or a named lemma.
      hide *;
      var finishedWork := root.finishedWork;
      if finishedWork.None? {
        return Done;
      }
      var fw := finishedWork.value;
      ghost var f0 := heap.fibers;
      SnapOpen(root, sync);
      CommitReadyIn(heap.fibers, host.nodes, host.containers, root.containerInfo, root, queues, t, plans, del);
      ClearFinished(root, heap.fibers[fw]);
      ghost var lanes := root.pendingLanes;
      outcome := CommitPhases(heap, host, refs, root, queues, fw, t, plans, del);
      assert root.pendingLanes == lanes;
      if outcome.Thrown? {
        return;
      }
      rootDoesHasPassiveEffect := false;
      SnapOpen(root, sync);
      EnsureRootIsScheduled(root, sync);
    }

    /** `Snap` unfolded. */
    lemma SnapOpen(root: FiberRootNode, sync: SyncQueueState)
      ensures Snap(root, sync) == SchedState(root.pendingLanes, root.callbackNode, root.callbackPriority, tasks, cancelled, sync.syncQueue, microtasks)
    {
    }
  }
}
