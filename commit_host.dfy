/**
 * The two searches `commitPlacement` makes before it touches the host
 * (`getHostParent` and `getHostSibling` in commitWork.ts): the host node
 * the placed fiber's instances go into, and the host instance they go
 * in front of.
 *
 * Both searches follow links with no bound of their own. The model gives
 * each a budget of steps (`fuel`); `FiberChains.RetChainFits` and
 * `HostParentNearest` show that the budget the methods use, the size of
 * the arena, is enough for the parent search whenever the `return` chain
 * is finite.
 */
module CommitHost {
  import opened Wrappers
  import opened JsValues
  import opened FiberFlags
  import opened Fiber
  import opened FiberRoot
  import opened NoopHost
  import opened FiberChains
  import opened CompleteWalks
  import opened FiberTree

  // ---------------------------------------------------------------- getHostParent

  /** The tags whose fibers own the host node their descendants are placed into. */
  predicate HostParentTag(tag: WorkTag)
  {
    tag == HostComponent || tag == HostRoot
  }

  /** What a fiber with a host-parent tag yields: the root's container, or the component's instance (null when it has none). */
  function ParentOf(f: Fiber, container: nat): ParentSearch
  {
    if f.tag == HostRoot then ParentFound(ContainerRef(container))
    else if f.stateNode.HostInstance? then ParentFound(InstanceRef(f.stateNode.id))
    else NoHostParent
  }

  datatype ParentSearch = ParentFound(parent: HostParent) | NoHostParent | ParentOutOfFuel

  /** The message of a climb that found no end within its bound. */
  const OUT_OF_FUEL := "return chain does not end"

  /** Every HostRoot fiber holds `root` as its stateNode, and no other fiber holds a root. */
  ghost predicate RootsIn(fibers: map<FiberId, Fiber>, root: FiberRootNode)
  {
    forall id :: id in fibers ==>
      (fibers[id].tag == HostRoot ==> fibers[id].stateNode == RootRef(root))
      && (fibers[id].tag != HostRoot ==> !fibers[id].stateNode.RootRef?)
  }

  /**
   * `getHostParent` from the fiber `p` upwards, within `fuel` steps: the
   * first HostComponent or HostRoot on the way, or null when the chain
   * of `return` links ends first.
   */
  ghost function HostParentFrom(fibers: map<FiberId, Fiber>, container: nat, p: Option<FiberId>, fuel: nat): ParentSearch
    requires Closed(fibers) && (p.Some? ==> p.value in fibers)
    decreases fuel
  {
    if p.None? then NoHostParent
    else
      assert LinksIn(fibers, p.value);
      var f := fibers[p.value];
      if HostParentTag(f.tag) then ParentOf(f, container)
      else if fuel == 0 then ParentOutOfFuel
      else HostParentFrom(fibers, container, f.ret, fuel - 1)
  }

  /** `getHostParent(x)` with the budget `GetHostParent` runs with: one step per fiber of the arena. */
  ghost function HostParentOf(fibers: map<FiberId, Fiber>, container: nat, x: FiberId): ParentSearch
    requires Closed(fibers) && x in fibers
  {
    assert LinksIn(fibers, x);
    HostParentFrom(fibers, container, fibers[x].ret, |fibers|)
  }

  /**
   * Along a finite chain of `return` links, a budget as long as the chain
   * finds the nearest fiber with a host-parent tag, and null when there is
   * none.
   */
  lemma {:induction false} HostParentNearest(fibers: map<FiberId, Fiber>, container: nat, p: Option<FiberId>, up: seq<FiberId>, fuel: nat)
    requires Closed(fibers) && RetChain(fibers, p, up) && fuel >= |up|
    ensures (forall k :: 0 <= k < |up| ==> !HostParentTag(fibers[up[k]].tag)) ==>
      HostParentFrom(fibers, container, p, fuel) == NoHostParent
    ensures forall k :: 0 <= k < |up| && HostParentTag(fibers[up[k]].tag) && (forall j :: 0 <= j < k ==> !HostParentTag(fibers[up[j]].tag)) ==>
      HostParentFrom(fibers, container, p, fuel) == ParentOf(fibers[up[k]], container)
    decreases |up|
  {
    if |up| > 0 {
      var f := fibers[up[0]];
      if !HostParentTag(f.tag) {
        RetChainTail(fibers, p, up);
        HostParentNearest(fibers, container, f.ret, up[1..], fuel - 1);
        assert forall k :: 1 <= k < |up| ==> up[1..][k - 1] == up[k];
        forall k | 0 <= k < |up| && HostParentTag(fibers[up[k]].tag) && (forall j :: 0 <= j < k ==> !HostParentTag(fibers[up[j]].tag))
          ensures HostParentFrom(fibers, container, p, fuel) == ParentOf(fibers[up[k]], container)
        {
          assert k > 0 && up[1..][k - 1] == up[k];
          assert forall j :: 0 <= j < k - 1 ==> up[1..][j] == up[j + 1];
        }
      }
    }
  }

  /** With a finite `return` chain above `x`, the arena-sized budget of `GetHostParent` never runs out. */
  lemma HostParentFound(fibers: map<FiberId, Fiber>, container: nat, x: FiberId, up: seq<FiberId>)
    requires Closed(fibers) && x in fibers && RetChain(fibers, fibers[x].ret, up)
    ensures HostParentOf(fibers, container, x) != ParentOutOfFuel
  {
    RetChainFits(fibers, fibers[x].ret, up);
    HostParentNearest(fibers, container, fibers[x].ret, up, |fibers|);
    if exists k :: 0 <= k < |up| && HostParentTag(fibers[up[k]].tag) {
      var k := Nearest(fibers, up);
      assert HostParentFrom(fibers, container, fibers[x].ret, |fibers|) == ParentOf(fibers[up[k]], container);
    }
  }

  /** The first position of `up` with a host-parent tag. */
  lemma Nearest(fibers: map<FiberId, Fiber>, up: seq<FiberId>) returns (k: nat)
    requires forall i :: 0 <= i < |up| ==> up[i] in fibers
    requires exists k :: 0 <= k < |up| && HostParentTag(fibers[up[k]].tag)
    ensures k < |up| && HostParentTag(fibers[up[k]].tag)
    ensures forall j :: 0 <= j < k ==> !HostParentTag(fibers[up[j]].tag)
  {
    k := 0;
    while !HostParentTag(fibers[up[k]].tag)
      invariant k < |up| && forall j :: 0 <= j < k ==> !HostParentTag(fibers[up[j]].tag)
      invariant exists i :: k <= i < |up| && HostParentTag(fibers[up[i]].tag)
      decreases |up| - k
    {
      k := k + 1;
    }
  }

  /**
   * `getHostParent(fiber)`: climbs the `return` links from the fiber's
   * parent to the first HostComponent (its instance) or HostRoot (the
   * root's container). The HostRoot's stateNode is the root, so its
   * container is `root.containerInfo`.
   */
  method GetHostParent(heap: FiberHeap, root: FiberRootNode, x: FiberId) returns (r: ParentSearch)
    requires Closed(heap.fibers) && x in heap.fibers && RootsIn(heap.fibers, root)
    ensures r == HostParentOf(heap.fibers, root.containerInfo, x)
  {
    var fibers := heap.fibers;
    assert LinksIn(fibers, x);
    var parent := fibers[x].ret;
    var fuel: nat := |fibers|;
    while parent.Some?
      invariant parent.Some? ==> parent.value in fibers
      invariant HostParentFrom(fibers, root.containerInfo, fibers[x].ret, |fibers|) == HostParentFrom(fibers, root.containerInfo, parent, fuel)
      decreases fuel
    {
      assert LinksIn(fibers, parent.value);
      var f := fibers[parent.value];
      if f.tag == HostComponent {
        return if f.stateNode.HostInstance? then ParentFound(InstanceRef(f.stateNode.id)) else NoHostParent;
      }
      if f.tag == HostRoot {
        return ParentFound(ContainerRef(root.containerInfo));
      }
      if fuel == 0 {
        return ParentOutOfFuel;
      }
      parent := f.ret;
      fuel := fuel - 1;
    }
    r := NoHostParent;
  }

  // ---------------------------------------------------------------- getHostSibling

  /**
   * How `getHostSibling` ends: with the instance of a host fiber that is
   * not being placed itself, with null, by spinning forever, or (in the
   * model only) by running out of budget.
   */
  datatype SiblingSearch = SiblingFound(instance: StateNode) | NoHostSibling | Spins | SiblingOutOfFuel

  /**
   * The outer loop of `getHostSibling` standing at `n`: climb while there
   * is no sibling, stopping with null at a null parent or one with a
   * host-parent tag; then step to the sibling and descend from it.
   */
  ghost function SiblingFrom(fibers: map<FiberId, Fiber>, fixed: bool, n: FiberId, fuel: nat): SiblingSearch
    requires Closed(fibers) && n in fibers
    decreases fuel, 0
  {
    assert LinksIn(fibers, n);
    var f := fibers[n];
    if f.sibling.None? then
      if f.ret.None? || HostParentTag(fibers[f.ret.value].tag) then NoHostSibling
      else if fuel == 0 then SiblingOutOfFuel
      else SiblingFrom(fibers, fixed, f.ret.value, fuel - 1)
    else if fuel == 0 then SiblingOutOfFuel
    else DescendFrom(fibers, fixed, f.sibling.value, fuel - 1)
  }

  /**
   * The inner loop of `getHostSibling` at `n`: a host fiber ends the
   * search unless it is being placed, in which case the outer loop goes
   * on from it; a non-host fiber is descended into. On a non-host fiber
   * that is being placed or has no child the loop as written `continue`s
   * without moving and never ends (`fixed == false`); the evident intent
   * (`fixed == true`) is to go on with the outer loop from it.
   */
  ghost function DescendFrom(fibers: map<FiberId, Fiber>, fixed: bool, n: FiberId, fuel: nat): SiblingSearch
    requires Closed(fibers) && n in fibers
    decreases fuel, 1
  {
    assert LinksIn(fibers, n);
    var f := fibers[n];
    if IsHost(f.tag) then
      if !HasAny(f.flags, Placement) then SiblingFound(f.stateNode) else SiblingFrom(fibers, fixed, n, fuel)
    else if HasAny(f.flags, Placement) || f.child.None? then
      if fixed then SiblingFrom(fibers, fixed, n, fuel) else Spins
    else if fuel == 0 then SiblingOutOfFuel
    else DescendFrom(fibers, fixed, f.child.value, fuel - 1)
  }

  /** Whatever instance the search finds belongs to a host fiber of the arena that is not being placed. */
  lemma {:induction false} SiblingFoundIsHost(fibers: map<FiberId, Fiber>, fixed: bool, n: FiberId, fuel: nat)
    requires Closed(fibers) && n in fibers
    ensures SiblingFrom(fibers, fixed, n, fuel).SiblingFound? ==>
      exists y :: y in fibers && IsHost(fibers[y].tag) && !HasAny(fibers[y].flags, Placement)
        && fibers[y].stateNode == SiblingFrom(fibers, fixed, n, fuel).instance
    decreases fuel, 0
  {
    assert LinksIn(fibers, n);
    var f := fibers[n];
    if f.sibling.None? {
      if !(f.ret.None? || HostParentTag(fibers[f.ret.value].tag)) && fuel > 0 {
        SiblingFoundIsHost(fibers, fixed, f.ret.value, fuel - 1);
      }
    } else if fuel > 0 {
      DescendFoundIsHost(fibers, fixed, f.sibling.value, fuel - 1);
    }
  }

  lemma {:induction false} DescendFoundIsHost(fibers: map<FiberId, Fiber>, fixed: bool, n: FiberId, fuel: nat)
    requires Closed(fibers) && n in fibers
    ensures DescendFrom(fibers, fixed, n, fuel).SiblingFound? ==>
      exists y :: y in fibers && IsHost(fibers[y].tag) && !HasAny(fibers[y].flags, Placement)
        && fibers[y].stateNode == DescendFrom(fibers, fixed, n, fuel).instance
    decreases fuel, 1
  {
    assert LinksIn(fibers, n);
    var f := fibers[n];
    if IsHost(f.tag) {
      if HasAny(f.flags, Placement) {
        SiblingFoundIsHost(fibers, fixed, n, fuel);
      }
    } else if HasAny(f.flags, Placement) || f.child.None? {
      if fixed {
        SiblingFoundIsHost(fibers, fixed, n, fuel);
      }
    } else if fuel > 0 {
      DescendFoundIsHost(fibers, fixed, f.child.value, fuel - 1);
    }
  }

  /** Wherever the search as written ends, the repaired search ends the same way. */
  lemma {:induction false} SiblingFixAgrees(fibers: map<FiberId, Fiber>, n: FiberId, fuel: nat)
    requires Closed(fibers) && n in fibers
    ensures SiblingFrom(fibers, false, n, fuel) != Spins ==> SiblingFrom(fibers, true, n, fuel) == SiblingFrom(fibers, false, n, fuel)
    decreases fuel, 0
  {
    assert LinksIn(fibers, n);
    var f := fibers[n];
    if f.sibling.None? {
      if !(f.ret.None? || HostParentTag(fibers[f.ret.value].tag)) && fuel > 0 {
        SiblingFixAgrees(fibers, f.ret.value, fuel - 1);
      }
    } else if fuel > 0 {
      DescendFixAgrees(fibers, f.sibling.value, fuel - 1);
    }
  }

  lemma {:induction false} DescendFixAgrees(fibers: map<FiberId, Fiber>, n: FiberId, fuel: nat)
    requires Closed(fibers) && n in fibers
    ensures DescendFrom(fibers, false, n, fuel) != Spins ==> DescendFrom(fibers, true, n, fuel) == DescendFrom(fibers, false, n, fuel)
    decreases fuel, 1
  {
    assert LinksIn(fibers, n);
    var f := fibers[n];
    if IsHost(f.tag) {
      if HasAny(f.flags, Placement) {
        SiblingFixAgrees(fibers, n, fuel);
      }
    } else if !(HasAny(f.flags, Placement) || f.child.None?) && fuel > 0 {
      DescendFixAgrees(fibers, f.child.value, fuel - 1);
    }
  }

  /**
   * Placing a host node in front of a function component that renders
   * nothing: fiber 0 is a HostComponent whose children are fiber 1 (a
   * HostComponent being placed) and fiber 2 (a FunctionComponent with no
   * child). The search as written reaches fiber 2 and spins on it; the
   * repaired search climbs to fiber 0 and reports no host sibling.
   */
  lemma SiblingSpinExample(fuel: nat)
    requires fuel >= 1
    ensures var fibers := SpinArena();
      Closed(fibers) && 1 in fibers
      && SiblingFrom(fibers, false, 1, fuel) == Spins
      && SiblingFrom(fibers, true, 1, fuel) == NoHostSibling
  {
    var fibers := SpinArena();
    assert DescendFrom(fibers, false, 2, fuel - 1) == Spins;
    assert SiblingFrom(fibers, true, 2, fuel - 1) == NoHostSibling;
    assert DescendFrom(fibers, true, 2, fuel - 1) == NoHostSibling;
  }

  function SpinArena(): map<FiberId, Fiber>
  {
    var div := NewFiber(HostComponent, Null, Null);
    var fn := NewFiber(FunctionComponent, Null, Null);
    map[0 := div.(child := Some(1)),
        1 := div.(ret := Some(0), sibling := Some(2), flags := Placement),
        2 := fn.(ret := Some(0))]
  }


  // ---------------------------------------------------------------- getHostSibling in document order

  /**
   * The host fibers of `t` that a placed fiber could go in front of, in
   * document order: `t` itself when it is a host fiber; nothing below a
   * non-host fiber that is being placed; otherwise those of its children
   * in turn.
   */
  ghost function Cands(fibers: map<FiberId, Fiber>, t: Tree): seq<FiberId>
    decreases t
  {
    if t.id !in fibers then []
    else if IsHost(fibers[t.id].tag) then [t.id]
    else if HasAny(fibers[t.id].flags, Placement) then []
    else RowCands(fibers, t.kids)
  }

  ghost function RowCands(fibers: map<FiberId, Fiber>, ts: seq<Tree>): seq<FiberId>
    decreases ts
  {
    if |ts| == 0 then [] else Cands(fibers, ts[0]) + RowCands(fibers, ts[1..])
  }

  /**
   * The candidates after a finished fiber, innermost frame first: those
   * of the siblings still to the right, then the next frame's, stopping
   * after the first frame whose fiber has a host-parent tag.
   */
  ghost function CtxCands(fibers: map<FiberId, Fiber>, ctx: seq<Frame>): seq<FiberId>
  {
    if |ctx| == 0 then []
    else if ctx[0].parent in fibers && HostParentTag(fibers[ctx[0].parent].tag) then RowCands(fibers, ctx[0].right)
    else RowCands(fibers, ctx[0].right) + CtxCands(fibers, ctx[1..])
  }

  /** The instance of the first candidate that is not being placed itself; null when there is none. */
  ghost function FirstUnplaced(fibers: map<FiberId, Fiber>, cs: seq<FiberId>): SiblingSearch
  {
    if |cs| == 0 then NoHostSibling
    else if cs[0] in fibers && !HasAny(fibers[cs[0]].flags, Placement) then SiblingFound(fibers[cs[0]].stateNode)
    else FirstUnplaced(fibers, cs[1..])
  }

  /** No fiber still to the right of the walk is a HostRoot: a HostRoot is only ever the top of a tree. */
  ghost predicate RootFree(fibers: map<FiberId, Fiber>, ctx: seq<Frame>)
  {
    forall i, y :: 0 <= i < |ctx| && y in RowIds(ctx[i].right) ==> y in fibers && fibers[y].tag != HostRoot
  }

  /** The fibers a zipper names, outermost last: each frame's fiber, then its remaining siblings' subtrees in pre-order. */
  ghost function ZipOrder(ctx: seq<Frame>): seq<FiberId>
  {
    if |ctx| == 0 then [] else [ctx[0].parent] + PreOrderRow(ctx[0].right) + ZipOrder(ctx[1..])
  }

  /**
   * `getHostSibling(x)` in document order: for `x` strictly inside the
   * subtree of a host parent `top`, with no HostRoot to its right and
   * every fiber named once by the zipper, the search with the size of the
   * arena as its budget never runs out, and finds the first host fiber
   * after `x` that is not being placed, below the nearest frame whose
   * fiber has a host-parent tag; null when there is none.
   */
  lemma HostSiblingInOrder(fibers: map<FiberId, Fiber>, top: FiberId, x: FiberId, ctx: seq<Frame>)
    requires Closed(fibers) && Fin(fibers, top, x, ctx) && top in fibers && HostParentTag(fibers[top].tag)
    requires RootFree(fibers, ctx) && NoRepeats(ZipOrder(ctx))
    ensures SiblingFrom(fibers, true, x, 2 * |fibers|) == FirstUnplaced(fibers, CtxCands(fibers, ctx))
    ensures !SiblingFrom(fibers, true, x, 2 * |fibers|).SiblingOutOfFuel?
  {
    forall i | 0 <= i < |ctx|
      ensures ctx[i].parent in fibers && RowShaped(fibers, ctx[i].parent, ctx[i].right)
    {
      if i + 1 < |ctx| {
        assert Up(fibers, top, ctx, i);
      }
    }
    ZipOrderFits(fibers, ctx);
    var z := ZipOrder(ctx);
    NoRepeatsCard(z);
    SubsetCard(Members(z), fibers.Keys);
    SiblingInOrder(fibers, top, x, ctx, 2 * |fibers|);
    FirstUnplacedEnds(fibers, CtxCands(fibers, ctx));
  }

  lemma {:induction false} ZipOrderFits(fibers: map<FiberId, Fiber>, ctx: seq<Frame>)
    requires forall i :: 0 <= i < |ctx| ==> ctx[i].parent in fibers && RowShaped(fibers, ctx[i].parent, ctx[i].right)
    ensures |ZipOrder(ctx)| == |ctx| + AfterSize(ctx)
    ensures forall y :: y in ZipOrder(ctx) ==> y in fibers
    decreases |ctx|
  {
    if |ctx| > 0 {
      assert RowShaped(fibers, ctx[0].parent, ctx[0].right);
      PreOrderRowFits(fibers, ctx[0].right);
      forall i | 0 <= i < |ctx[1..]|
        ensures ctx[1..][i].parent in fibers && RowShaped(fibers, ctx[1..][i].parent, ctx[1..][i].right)
      {
        assert ctx[1..][i] == ctx[i + 1];
      }
      ZipOrderFits(fibers, ctx[1..]);
    }
  }

  lemma {:induction false} FirstUnplacedEnds(fibers: map<FiberId, Fiber>, cs: seq<FiberId>)
    ensures FirstUnplaced(fibers, cs).SiblingFound? || FirstUnplaced(fibers, cs).NoHostSibling?
    decreases |cs|
  {
    if |cs| > 0 {
      FirstUnplacedEnds(fibers, cs[1..]);
    }
  }

  lemma FirstUnplacedAppend(fibers: map<FiberId, Fiber>, a: seq<FiberId>, b: seq<FiberId>)
    ensures FirstUnplaced(fibers, a + b) ==
      if |a| == 0 then FirstUnplaced(fibers, b)
      else if a[0] in fibers && !HasAny(fibers[a[0]].flags, Placement) then SiblingFound(fibers[a[0]].stateNode)
      else FirstUnplaced(fibers, a[1..] + b)
  {
    if |a| > 0 {
      assert (a + b)[1..] == a[1..] + b;
    } else {
      assert a + b == b;
    }
  }

  /**
   * The outer loop at a finished fiber `n` inside the subtree of the host
   * parent `top`, with enough budget: it ends with the first candidate
   * after `n` that is not being placed.
   */
  lemma {:induction false} SiblingInOrder(fibers: map<FiberId, Fiber>, top: FiberId, n: FiberId, ctx: seq<Frame>, fuel: nat)
    requires Closed(fibers) && Fin(fibers, top, n, ctx) && top in fibers && HostParentTag(fibers[top].tag) && RootFree(fibers, ctx)
    requires fuel + 1 >= 2 * AfterSize(ctx) + |ctx|
    ensures SiblingFrom(fibers, true, n, fuel) == FirstUnplaced(fibers, CtxCands(fibers, ctx))
    decreases fuel, 0
  {
    hide IdSet, RowIds, RootFree, Zip, Cands, DescendFrom;
    assert LinksIn(fibers, n);
    var f := fibers[n];
    var p := ctx[0].parent;
    if ctx[0].right == [] {
      assert RowCands(fibers, ctx[0].right) == [];
      assert f.sibling.None? && f.ret == Some(p);
      if |ctx| > 1 {
        assert Up(fibers, top, ctx, 0);
        if HostParentTag(fibers[p].tag) {
          assert CtxCands(fibers, ctx) == [];
        } else {
          Climb(fibers, top, n, ctx);
          RootFreeTail(fibers, ctx);
          assert AfterSize(ctx) == AfterSize(ctx[1..]);
          assert CtxCands(fibers, ctx) == CtxCands(fibers, ctx[1..]);
          SiblingInOrder(fibers, top, p, ctx[1..], fuel - 1);
          assert SiblingFrom(fibers, true, n, fuel) == SiblingFrom(fibers, true, p, fuel - 1);
        }
      }
    } else {
      var r := ctx[0].right;
      Advance(fibers, top, n, ctx);
      var c2 := NextCtx(ctx, 0);
      NextCtxSize(ctx, 0);
      RootFreeNext(fibers, ctx);
      DescendInOrder(fibers, top, r[0], c2, fuel - 1);
      assert RowCands(fibers, r) == Cands(fibers, r[0]) + RowCands(fibers, r[1..]);
      assert CtxCands(fibers, ctx) == Cands(fibers, r[0]) + CtxCands(fibers, c2);
    }
  }

  /**
   * The inner loop entering the subtree `cur`: it ends with the first
   * candidate, in `cur` or after it, that is not being placed.
   */
  lemma {:induction false} DescendInOrder(fibers: map<FiberId, Fiber>, top: FiberId, cur: Tree, ctx: seq<Frame>, fuel: nat)
    requires Closed(fibers) && Zip(fibers, top, cur, ctx) && top in fibers && HostParentTag(fibers[top].tag)
    requires RootFree(fibers, ctx) && forall y :: y in IdSet(cur) ==> y in fibers && fibers[y].tag != HostRoot
    requires fuel + 2 >= 2 * Size(cur) + 2 * AfterSize(ctx) + |ctx|
    ensures DescendFrom(fibers, true, cur.id, fuel) == FirstUnplaced(fibers, Cands(fibers, cur) + CtxCands(fibers, ctx))
    decreases fuel, 1
  {
    var f := fibers[cur.id];
    FirstUnplacedAppend(fibers, Cands(fibers, cur), CtxCands(fibers, ctx));
    if IsHost(f.tag) {
      assert Cands(fibers, cur) == [cur.id];
      if HasAny(f.flags, Placement) {
        SiblingInOrder(fibers, top, cur.id, ctx, fuel);
      }
    } else if HasAny(f.flags, Placement) || f.child.None? {
      assert Cands(fibers, cur) == [] by {
        if !HasAny(f.flags, Placement) {
          assert cur.kids == [];
        }
      }
      SiblingInOrder(fibers, top, cur.id, ctx, fuel);
    } else {
      var kids := cur.kids;
      var c2 := [Frame(cur.id, kids[1..])] + ctx;
      Descend(fibers, top, cur, ctx);
      assert f.tag != HostRoot;
      RootFreeDescend(fibers, cur, ctx);
      assert Size(cur) == 1 + Size(kids[0]) + RowSize(kids[1..]);
      assert AfterSize(c2) == RowSize(kids[1..]) + AfterSize(ctx) by {
        assert c2[1..] == ctx;
      }
      DescendInOrder(fibers, top, kids[0], c2, fuel - 1);
      assert RowCands(fibers, kids) == Cands(fibers, kids[0]) + RowCands(fibers, kids[1..]);
      assert CtxCands(fibers, c2) == RowCands(fibers, kids[1..]) + CtxCands(fibers, ctx) by {
        assert c2[1..] == ctx;
      }
      assert Cands(fibers, cur) + CtxCands(fibers, ctx) == Cands(fibers, kids[0]) + CtxCands(fibers, c2);
    }
  }

  lemma RootFreeNext(fibers: map<FiberId, Fiber>, ctx: seq<Frame>)
    requires RootFree(fibers, ctx) && |ctx| > 0 && ctx[0].right != []
    ensures RootFree(fibers, NextCtx(ctx, 0))
    ensures forall y :: y in IdSet(ctx[0].right[0]) ==> y in fibers && fibers[y].tag != HostRoot
  {
    var c2 := NextCtx(ctx, 0);
    RowIdsTail(ctx[0].right);
    forall i, y | 0 <= i < |c2| && y in RowIds(c2[i].right)
      ensures y in fibers && fibers[y].tag != HostRoot
    {
      if i > 0 { assert c2[i] == ctx[i]; }
    }
  }

  lemma RootFreeTail(fibers: map<FiberId, Fiber>, ctx: seq<Frame>)
    requires RootFree(fibers, ctx) && |ctx| > 0
    ensures RootFree(fibers, ctx[1..])
  {
    forall i, y | 0 <= i < |ctx[1..]| && y in RowIds(ctx[1..][i].right)
      ensures y in fibers && fibers[y].tag != HostRoot
    {
      assert ctx[1..][i] == ctx[i + 1];
    }
  }

  lemma RootFreeDescend(fibers: map<FiberId, Fiber>, cur: Tree, ctx: seq<Frame>)
    requires RootFree(fibers, ctx) && |cur.kids| > 0 && forall y :: y in IdSet(cur) ==> y in fibers && fibers[y].tag != HostRoot
    ensures RootFree(fibers, [Frame(cur.id, cur.kids[1..])] + ctx)
    ensures forall y :: y in IdSet(cur.kids[0]) ==> y in fibers && fibers[y].tag != HostRoot
  {
    hide IdSet, RowIds;
    var c2 := [Frame(cur.id, cur.kids[1..])] + ctx;
    IdSetKids(cur, 0);
    IdSetKids(cur, 1);
    RowIdsTail(cur.kids);
    assert cur.kids[0..] == cur.kids;
    forall i, y | 0 <= i < |c2| && y in RowIds(c2[i].right)
      ensures y in fibers && fibers[y].tag != HostRoot
    {
      if i > 0 {
        assert c2[i] == ctx[i - 1];
      }
    }
  }

  /**
   * `getHostSibling(fiber)` as evidently intended, not as written: here the
   * inner `continue` goes on with the outer loop, where the code as written
   * re-tests the same fiber forever (`SiblingFrom(fibers, false, ...)`,
   * `SiblingSpinExample`; see "## Findings" in the README). The result is
   * the instance of the first host fiber after `x` in document order,
   * below the same host parent, that is not being placed itself, and the
   * budget never runs out: `HostSiblingInOrder` proves both of the
   * search this method follows. The links are read-only here: the writes
   * that restore `return` pointers on the way (commitWork.ts:281 and
   * :295) are not modelled; in a tree whose links agree (`Shaped`) they
   * store what the pointers already hold.
   */
  method GetHostSibling(heap: FiberHeap, x: FiberId) returns (r: SiblingSearch)
    requires Closed(heap.fibers) && x in heap.fibers
    ensures r == SiblingFrom(heap.fibers, true, x, 2 * |heap.fibers|)
  {
    var fibers := heap.fibers;
    ghost var spec := SiblingFrom(fibers, true, x, 2 * |fibers|);
    var node := x;
    var fuel: nat := 2 * |fibers|;
    while true
      invariant node in fibers && spec == SiblingFrom(fibers, true, node, fuel)
      decreases fuel
    {
      while fibers[node].sibling.None?
        invariant node in fibers && spec == SiblingFrom(fibers, true, node, fuel)
        decreases fuel
      {
        assert LinksIn(fibers, node);
        var parent := fibers[node].ret;
        if parent.None? || HostParentTag(fibers[parent.value].tag) {
          return NoHostSibling;
        }
        if fuel == 0 {
          return SiblingOutOfFuel;
        }
        node := parent.value;
        fuel := fuel - 1;
      }
      if fuel == 0 {
        return SiblingOutOfFuel;
      }
      ghost var before := fuel;
      assert LinksIn(fibers, node);
      node := fibers[node].sibling.value;
      fuel := fuel - 1;
      var restart := false;
      while !IsHost(fibers[node].tag) && !restart
        invariant node in fibers && fuel < before
        invariant !restart ==> spec == DescendFrom(fibers, true, node, fuel)
        invariant restart ==> spec == SiblingFrom(fibers, true, node, fuel)
        decreases fuel, if restart then 0 else 1
      {
        assert LinksIn(fibers, node);
        var f := fibers[node];
        if HasAny(f.flags, Placement) || f.child.None? {
          restart := true;
        } else {
          if fuel == 0 {
            return SiblingOutOfFuel;
          }
          node := f.child.value;
          fuel := fuel - 1;
        }
      }
      if !restart && !HasAny(fibers[node].flags, Placement) {
        return SiblingFound(fibers[node].stateNode);
      }
    }
  }
}
