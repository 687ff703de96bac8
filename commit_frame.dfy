/**
 * What the mutation phase of a commit may rely on from one fiber to the
 * next. Its steps change a fiber record in two ways only: a visited
 * fiber loses flag bits, and a deleted fiber loses its `return` and
 * `child` links. `Drift` names that relation between two arenas, and the
 * lemmas here show that the shapes, host-parent climbs, topmost host
 * fibers and unmount callbacks the steps depend on survive it, as long as
 * they do not pass through a fiber whose links were cleared. On the host
 * side, the steps keep every node and container and the kind of every
 * node (`HostKept`).
 */
module CommitFrame {
  import opened Wrappers
  import opened Fiber
  import opened FiberFlags
  import opened FiberRoot
  import opened CommitRefs
  import opened NoopHost
  import opened FiberTree
  import opened FiberChains
  import opened CompleteWalks
  import opened CommitHost
  import opened CommitPlacement
  import opened CommitDeletion
  import UQ = UpdateQueue

  // ------------------------------------------------------------ the fiber side

  /** `f1` is `f0` with at most its flags changed, and, when `loose`, its `return` and `child` cleared. */
  ghost predicate Kept(f0: Fiber, f1: Fiber, loose: bool)
  {
    && f1 == f0.(flags := f1.flags, ret := f1.ret, child := f1.child)
    && (f1.ret == f0.ret || (loose && f1.ret.None?))
    && (f1.child == f0.child || (loose && f1.child.None?))
  }

  /** Every fiber of `f0` is kept in `f1`, loosely for the fibers of `cleared`. */
  ghost predicate Drift(f0: map<FiberId, Fiber>, f1: map<FiberId, Fiber>, cleared: set<FiberId>)
  {
    && f1.Keys == f0.Keys
    && forall id :: id in f0 ==> Kept(f0[id], f1[id], id in cleared)
  }

  lemma DriftRefl(f: map<FiberId, Fiber>)
    ensures Drift(f, f, {})
  {
  }

  lemma DriftTrans(f0: map<FiberId, Fiber>, f1: map<FiberId, Fiber>, f2: map<FiberId, Fiber>, c1: set<FiberId>, c2: set<FiberId>)
    requires Drift(f0, f1, c1) && Drift(f1, f2, c2)
    ensures Drift(f0, f2, c1 + c2)
  {
    forall id | id in f0
      ensures Kept(f0[id], f2[id], id in c1 + c2)
    {
      assert Kept(f0[id], f1[id], id in c1) && Kept(f1[id], f2[id], id in c2);
    }
  }

  lemma DriftFlags(f: map<FiberId, Fiber>, x: FiberId, flags: Flags)
    requires x in f
    ensures Drift(f, f[x := f[x].(flags := flags)], {})
  {
  }

  lemma DriftClear(f: map<FiberId, Fiber>, d: FiberId)
    requires d in f
    ensures Drift(f, f[d := f[d].(ret := None, child := None)], {d})
  {
  }

  /** A shape that no cleared fiber belongs to survives. */
  lemma {:induction false} ShapedDrift(f0: map<FiberId, Fiber>, f1: map<FiberId, Fiber>, cleared: set<FiberId>, t: Tree)
    requires Shaped(f0, t) && Drift(f0, f1, cleared) && forall y :: y in IdSet(t) ==> y !in cleared
    ensures Shaped(f1, t)
    decreases t
  {
    assert Kept(f0[t.id], f1[t.id], false);
    forall i | 0 <= i < |t.kids|
      ensures Linked(f1, t.id, t.kids, i) && Shaped(f1, t.kids[i])
    {
      IdSetKids(t, i);
      assert t.kids[i..][0] == t.kids[i];
      assert IdSet(t.kids[i]) <= RowIds(t.kids[i..]);
      assert Linked(f0, t.id, t.kids, i);
      assert Kept(f0[t.kids[i].id], f1[t.kids[i].id], false);
      ShapedDrift(f0, f1, cleared, t.kids[i]);
    }
  }

  /** Every fiber of a shaped tree is in the arena. */
  lemma {:induction false} ShapedIn(fibers: map<FiberId, Fiber>, t: Tree)
    requires Shaped(fibers, t)
    ensures forall y :: y in IdSet(t) ==> y in fibers
    decreases t
  {
    forall i | 0 <= i < |t.kids|
      ensures forall y :: y in IdSet(t.kids[i]) ==> y in fibers
    {
      ShapedIn(fibers, t.kids[i]);
    }
  }

  /** Clearing links keeps every remaining link inside the arena. */
  lemma ClosedDrift(f0: map<FiberId, Fiber>, f1: map<FiberId, Fiber>, cleared: set<FiberId>)
    requires Closed(f0) && Drift(f0, f1, cleared)
    ensures Closed(f1)
  {
    forall id | id in f1
      ensures LinksIn(f1, id)
    {
      assert LinksIn(f0, id);
      assert Kept(f0[id], f1[id], id in cleared);
    }
  }

  lemma RootsInDrift(f0: map<FiberId, Fiber>, f1: map<FiberId, Fiber>, cleared: set<FiberId>, root: FiberRootNode)
    requires RootsIn(f0, root) && Drift(f0, f1, cleared)
    ensures RootsIn(f1, root)
  {
    forall id | id in f1
      ensures (f1[id].tag == HostRoot ==> f1[id].stateNode == RootRef(root)) && (f1[id].tag != HostRoot ==> !f1[id].stateNode.RootRef?)
    {
      assert Kept(f0[id], f1[id], id in cleared);
    }
  }

  lemma QueuesInDrift(f0: map<FiberId, Fiber>, f1: map<FiberId, Fiber>, cleared: set<FiberId>,
                      queues: map<QueueId, UQ.UpdateQueueRec>, us: seq<FiberId>)
    requires QueuesIn(f0, queues, us) && Drift(f0, f1, cleared)
    ensures QueuesIn(f1, queues, us)
  {
    forall u | u in us
      ensures u in f1 && (f1[u].tag == FunctionComponent && f1[u].updateQueue.Some? ==> f1[u].updateQueue.value in queues)
    {
      assert Kept(f0[u], f1[u], u in cleared);
    }
  }

  /** The topmost host fibers depend on tags only. */
  lemma {:induction false} TopsDrift(f0: map<FiberId, Fiber>, f1: map<FiberId, Fiber>, cleared: set<FiberId>, t: Tree)
    requires Drift(f0, f1, cleared)
    ensures Tops(f1, t) == Tops(f0, t)
    decreases t, 1
  {
    if t.id in f0 {
      assert Kept(f0[t.id], f1[t.id], t.id in cleared);
    }
    TopsRowDrift(f0, f1, cleared, t.kids);
  }

  lemma {:induction false} TopsRowDrift(f0: map<FiberId, Fiber>, f1: map<FiberId, Fiber>, cleared: set<FiberId>, ts: seq<Tree>)
    requires Drift(f0, f1, cleared)
    ensures TopsRow(f1, ts) == TopsRow(f0, ts)
    decreases ts, 0
  {
    if |ts| > 0 {
      TopsDrift(f0, f1, cleared, ts[0]);
      TopsRowDrift(f0, f1, cleared, ts[1..]);
    }
  }

  /** The callbacks of a deletion depend on tags, refs and update queues only. */
  lemma {:induction false} UnmountRunDrift(f0: map<FiberId, Fiber>, f1: map<FiberId, Fiber>, cleared: set<FiberId>,
                                           queues: map<QueueId, UQ.UpdateQueueRec>, us: seq<FiberId>, s: Unmounts)
    requires QueuesIn(f0, queues, us) && Drift(f0, f1, cleared)
    ensures QueuesIn(f1, queues, us)
    ensures UnmountRun(f1, queues, us, s) == UnmountRun(f0, queues, us, s)
    ensures PassiveUnmounts(f1, queues, us) == PassiveUnmounts(f0, queues, us)
    decreases |us|
  {
    QueuesInDrift(f0, f1, cleared, queues, us);
    if |us| > 0 {
      var prefix := us[..|us| - 1];
      var last := us[|us| - 1];
      assert forall u :: u in prefix ==> u in us;
      UnmountRunDrift(f0, f1, cleared, queues, prefix, s);
      assert Kept(f0[last], f1[last], last in cleared);
    }
  }

  // ------------------------------------------------------------ host-parent climbs

  /** The fibers whose `return` link `getHostParent` follows from `p` within `fuel` steps. */
  ghost function ClimbSet(fibers: map<FiberId, Fiber>, p: Option<FiberId>, fuel: nat): set<FiberId>
    requires Closed(fibers) && (p.Some? ==> p.value in fibers)
    decreases fuel
  {
    if p.None? then {}
    else
      assert LinksIn(fibers, p.value);
      var f := fibers[p.value];
      if HostParentTag(f.tag) || fuel == 0 then {}
      else {p.value} + ClimbSet(fibers, f.ret, fuel - 1)
  }

  /** The climb from `x` reads no link of a fiber in `s`, and `x` is not in `s`. */
  ghost predicate ClimbAvoids(fibers: map<FiberId, Fiber>, x: FiberId, s: set<FiberId>)
    requires Closed(fibers) && x in fibers
  {
    assert LinksIn(fibers, x);
    x !in s && ClimbSet(fibers, fibers[x].ret, |fibers|) !! s
  }

  lemma {:induction false} ClimbFromDrift(f0: map<FiberId, Fiber>, f1: map<FiberId, Fiber>, cleared: set<FiberId>,
                                          container: nat, p: Option<FiberId>, fuel: nat)
    requires Closed(f0) && Closed(f1) && Drift(f0, f1, cleared) && (p.Some? ==> p.value in f0)
    requires ClimbSet(f0, p, fuel) !! cleared
    ensures HostParentFrom(f1, container, p, fuel) == HostParentFrom(f0, container, p, fuel)
    ensures ClimbSet(f1, p, fuel) == ClimbSet(f0, p, fuel)
    decreases fuel
  {
    if p.Some? {
      assert LinksIn(f0, p.value) && LinksIn(f1, p.value);
      var g := f0[p.value];
      assert Kept(g, f1[p.value], p.value in cleared);
      if !HostParentTag(g.tag) && fuel > 0 {
        ClimbFromDrift(f0, f1, cleared, container, g.ret, fuel - 1);
      }
    }
  }

  /** A climb that avoids the cleared fibers finds the same host parent, and still avoids any set it avoided. */
  lemma HostParentDrift(f0: map<FiberId, Fiber>, f1: map<FiberId, Fiber>, cleared: set<FiberId>, container: nat,
                        x: FiberId, s: set<FiberId>)
    requires Closed(f0) && Drift(f0, f1, cleared) && x in f0
    requires cleared <= s && ClimbAvoids(f0, x, s)
    ensures Closed(f1) && x in f1
    ensures HostParentOf(f1, container, x) == HostParentOf(f0, container, x)
    ensures ClimbAvoids(f1, x, s)
  {
    ClosedDrift(f0, f1, cleared);
    assert LinksIn(f0, x) && LinksIn(f1, x);
    assert Kept(f0[x], f1[x], false);
    assert |f1| == |f1.Keys| == |f0.Keys| == |f0|;
    ClimbFromDrift(f0, f1, cleared, container, f0[x].ret, |f0|);
  }

  // ------------------------------------------------------------ the host side

  /** The host node a host fiber owns exists and is of its kind. */
  ghost predicate InstanceOK(f: Fiber, nodes: map<nat, HostNode>)
  {
    && (f.tag == HostComponent ==> f.stateNode.HostInstance? && f.stateNode.id in nodes && nodes[f.stateNode.id].Instance?)
    && (f.tag == HostText ==> f.stateNode.HostInstance? && f.stateNode.id in nodes && nodes[f.stateNode.id].TextInstance?)
  }

  /** Every host fiber of the arena owns its host node, and the root's container exists. */
  ghost predicate HostWF(fibers: map<FiberId, Fiber>, nodes: map<nat, HostNode>, containers: map<nat, seq<nat>>, container: nat)
  {
    container in containers && forall id :: id in fibers ==> InstanceOK(fibers[id], nodes)
  }

  /** The same host nodes and containers, each node of the same kind. */
  ghost predicate HostKept(n0: map<nat, HostNode>, c0: map<nat, seq<nat>>, n1: map<nat, HostNode>, c1: map<nat, seq<nat>>)
  {
    && n1.Keys == n0.Keys && c1.Keys == c0.Keys
    && forall id :: id in n0 ==> n1[id].Instance? == n0[id].Instance?
  }

  lemma HostKeptTrans(n0: map<nat, HostNode>, c0: map<nat, seq<nat>>, n1: map<nat, HostNode>, c1: map<nat, seq<nat>>,
                      n2: map<nat, HostNode>, c2: map<nat, seq<nat>>)
    requires HostKept(n0, c0, n1, c1) && HostKept(n1, c1, n2, c2)
    ensures HostKept(n0, c0, n2, c2)
  {
  }

  lemma HostWFDrift(f0: map<FiberId, Fiber>, f1: map<FiberId, Fiber>, cleared: set<FiberId>, container: nat,
                    n0: map<nat, HostNode>, c0: map<nat, seq<nat>>, n1: map<nat, HostNode>, c1: map<nat, seq<nat>>)
    requires HostWF(f0, n0, c0, container) && Drift(f0, f1, cleared) && HostKept(n0, c0, n1, c1)
    ensures HostWF(f1, n1, c1, container)
  {
    forall id | id in f1
      ensures InstanceOK(f1[id], n1)
    {
      assert Kept(f0[id], f1[id], id in cleared);
      assert InstanceOK(f0[id], n0);
    }
  }

  /** Between two states where only the children of `p` (and recorded parents) changed, the nodes keep their kinds. */
  lemma SettledKept(n0: map<nat, HostNode>, n1: map<nat, HostNode>, p: HostParent)
    requires Settled(n0, n1, p)
    requires p.InstanceRef? ==> p.id in n0 && p.id in n1 && n0[p.id].Instance? && n1[p.id].Instance?
    ensures forall id :: id in n0 ==> n1[id].Instance? == n0[id].Instance?
  {
  }

  lemma ChildrenOnlyKept(n0: map<nat, HostNode>, n1: map<nat, HostNode>, p: HostParent)
    requires ChildrenOnly(n0, n1, p)
    requires p.InstanceRef? ==> p.id in n0 && p.id in n1 && n0[p.id].Instance? && n1[p.id].Instance?
    ensures forall id :: id in n0 ==> n1[id].Instance? == n0[id].Instance?
  {
  }

  /** A host parent found by the climb is a node or container that exists. */
  lemma {:induction false} FoundHasParent(fibers: map<FiberId, Fiber>, host: NoopHostState, container: nat, p: Option<FiberId>, fuel: nat)
    requires Closed(fibers) && (p.Some? ==> p.value in fibers)
    requires HostWF(fibers, host.nodes, host.containers, container)
    ensures var r := HostParentFrom(fibers, container, p, fuel); r.ParentFound? ==> host.HasParent(r.parent)
    decreases fuel
  {
    if p.Some? {
      assert LinksIn(fibers, p.value);
      assert InstanceOK(fibers[p.value], host.nodes);
      if !HostParentTag(fibers[p.value].tag) && fuel > 0 {
        FoundHasParent(fibers, host, container, fibers[p.value].ret, fuel - 1);
      }
    }
  }

  lemma ParentOfHasParent(fibers: map<FiberId, Fiber>, host: NoopHostState, container: nat, x: FiberId)
    requires Closed(fibers) && x in fibers && HostWF(fibers, host.nodes, host.containers, container)
    ensures var r := HostParentOf(fibers, container, x); r.ParentFound? ==> host.HasParent(r.parent)
  {
    assert LinksIn(fibers, x);
    FoundHasParent(fibers, host, container, fibers[x].ret, |fibers|);
  }

  // ------------------------------------------------------------ what a placement and a deletion need

  /** No topmost host fiber of `t` owns the instance `getHostParent(x)` finds. */
  ghost predicate Apart(fibers: map<FiberId, Fiber>, container: nat, x: FiberId, t: Tree)
    requires Closed(fibers) && x in fibers
  {
    var r := HostParentOf(fibers, container, x);
    r.ParentFound? && r.parent.InstanceRef? ==>
      forall y :: y in Tops(fibers, t) && y in fibers ==> fibers[y].stateNode != HostInstance(r.parent.id)
  }

  /**
   * What placing `x` needs of the fibers: `t` is its shaped subtree, its
   * topmost host fibers do not own the host parent, and neither the
   * subtree nor the climb to the host parent meets a fiber of `avoid`.
   */
  ghost predicate PlacementReady(fibers: map<FiberId, Fiber>, container: nat, x: FiberId, t: Tree, avoid: set<FiberId>)
  {
    && Closed(fibers) && Shaped(fibers, t) && t.id == x
    && (forall y :: y in IdSet(t) ==> y !in avoid)
    && ClimbAvoids(fibers, x, avoid) && Apart(fibers, container, x, t)
  }

  /**
   * What deleting `d` needs of the fibers: `t` is its shaped subtree,
   * `d` does not occur below itself, the function components of the
   * subtree have their update queues, and neither the subtree nor the
   * climb to the host parent meets a fiber of `others`.
   */
  ghost predicate DeletionReady(fibers: map<FiberId, Fiber>, queues: map<QueueId, UQ.UpdateQueueRec>, d: FiberId, t: Tree, others: set<FiberId>)
  {
    && Closed(fibers) && Shaped(fibers, t) && t.id == d && d !in RowIds(t.kids)
    && QueuesIn(fibers, queues, PreOrder(t))
    && (forall y :: y in IdSet(t) ==> y !in others)
    && ClimbAvoids(fibers, d, others)
  }

  /** With host nodes for every host fiber, a ready placement meets `CommitPlacement`'s requirement on the host. */
  lemma PlacementHost(fibers: map<FiberId, Fiber>, host: NoopHostState, container: nat, x: FiberId, t: Tree, avoid: set<FiberId>)
    requires PlacementReady(fibers, container, x, t, avoid) && HostWF(fibers, host.nodes, host.containers, container)
    ensures var r := HostParentOf(fibers, container, x);
      r.ParentFound? ==> host.HasParent(r.parent) && Placeable(fibers, host.nodes, r.parent, Tops(fibers, t))
  {
    ParentOfHasParent(fibers, host, container, x);
    TopsAreHost(fibers, t);
    var r := HostParentOf(fibers, container, x);
    if r.ParentFound? {
      forall y | y in Tops(fibers, t)
        ensures y in fibers && fibers[y].stateNode.HostInstance? && fibers[y].stateNode.id in host.nodes
        ensures r.parent.InstanceRef? ==> fibers[y].stateNode.id != r.parent.id
      {
        assert InstanceOK(fibers[y], host.nodes);
      }
    }
  }

  lemma PlacementReadyDrift(f0: map<FiberId, Fiber>, f1: map<FiberId, Fiber>, cleared: set<FiberId>, container: nat,
                            x: FiberId, t: Tree, avoid: set<FiberId>)
    requires PlacementReady(f0, container, x, t, avoid) && Drift(f0, f1, cleared) && cleared <= avoid
    ensures PlacementReady(f1, container, x, t, avoid)
  {
    ShapedDrift(f0, f1, cleared, t);
    HostParentDrift(f0, f1, cleared, container, x, avoid);
    TopsDrift(f0, f1, cleared, t);
    var r := HostParentOf(f0, container, x);
    if r.ParentFound? && r.parent.InstanceRef? {
      forall y | y in Tops(f1, t) && y in f1
        ensures f1[y].stateNode != HostInstance(r.parent.id)
      {
        assert Kept(f0[y], f1[y], y in cleared);
      }
    }
  }

  lemma DeletionReadyDrift(f0: map<FiberId, Fiber>, f1: map<FiberId, Fiber>, cleared: set<FiberId>,
                           queues: map<QueueId, UQ.UpdateQueueRec>, d: FiberId, t: Tree, others: set<FiberId>, container: nat,
                           s: Unmounts)
    requires DeletionReady(f0, queues, d, t, others) && Drift(f0, f1, cleared) && cleared <= others
    ensures DeletionReady(f1, queues, d, t, others)
    ensures HostParentOf(f1, container, d) == HostParentOf(f0, container, d)
    ensures Tops(f1, t) == Tops(f0, t)
    ensures UnmountRun(f1, queues, PreOrder(t), s) == UnmountRun(f0, queues, PreOrder(t), s)
    ensures PassiveUnmounts(f1, queues, PreOrder(t)) == PassiveUnmounts(f0, queues, PreOrder(t))
  {
    ShapedDrift(f0, f1, cleared, t);
    HostParentDrift(f0, f1, cleared, container, d, others);
    QueuesInDrift(f0, f1, cleared, queues, PreOrder(t));
    TopsDrift(f0, f1, cleared, t);
    UnmountRunDrift(f0, f1, cleared, queues, PreOrder(t), s);
  }

  lemma DeletionReadyMono(fibers: map<FiberId, Fiber>, queues: map<QueueId, UQ.UpdateQueueRec>, d: FiberId, t: Tree,
                          others: set<FiberId>, fewer: set<FiberId>)
    requires DeletionReady(fibers, queues, d, t, others) && fewer <= others
    ensures DeletionReady(fibers, queues, d, t, fewer)
  {
  }

  lemma PlacementReadyMono(fibers: map<FiberId, Fiber>, container: nat, x: FiberId, t: Tree, avoid: set<FiberId>, fewer: set<FiberId>)
    requires PlacementReady(fibers, container, x, t, avoid) && fewer <= avoid
    ensures PlacementReady(fibers, container, x, t, fewer)
  {
  }
}
