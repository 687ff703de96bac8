/**
 * `commitDeletion`, `commitNestedComponent` and
 * `recordHostChildrenToDelete` (commitWork.ts). Deleting a fiber walks
 * its subtree in pre-order and hands every fiber to the unmount callback:
 * a HostComponent's ref is detached, a function component's effect list
 * is queued on the root's `unmount` buffer, and host fibers are recorded
 * for removal. The recorded host nodes are then removed from the host
 * parent, and the deleted fiber loses its `return` and `child` links.
 */
module CommitDeletion {
  import opened Wrappers
  import opened JsValues
  import opened Fiber
  import opened FiberRoot
  import opened NoopHost
  import opened FiberTree
  import opened FiberChains
  import opened ChildFiber
  import opened CompleteWalks
  import opened CommitHost
  import opened CommitRefs
  import UQ = UpdateQueue

  // ------------------------------------------------------------ pre-order

  /** The pre-order lists exactly the fibers of the subtree. */
  lemma {:induction false} PreOrderCovers(t: Tree)
    ensures forall y :: y in PreOrder(t) <==> y in IdSet(t)
    decreases t, 1
  {
    PreOrderRowCovers(t.kids);
    IdSetKids(t, 0);
    assert t.kids[0..] == t.kids;
    forall y | y in IdSet(t) && y != t.id
      ensures y in RowIds(t.kids)
    {
      var i :| 0 <= i < |t.kids| && y in IdSet(t.kids[i]);
    }
  }

  lemma {:induction false} PreOrderRowCovers(ts: seq<Tree>)
    ensures forall y :: y in PreOrderRow(ts) <==> y in RowIds(ts)
    decreases ts, 0
  {
    if |ts| > 0 {
      PreOrderCovers(ts[0]);
      PreOrderRowCovers(ts[1..]);
      RowIdsTail(ts);
    }
  }

  lemma AfterPreSkip(ctx: seq<Frame>, k: nat)
    requires k <= |ctx| && forall i :: 0 <= i < k ==> ctx[i].right == []
    ensures AfterPre(ctx) == AfterPre(ctx[k..])
  {
    if k > 0 {
      AfterPreSkip(ctx[1..], k - 1);
      assert ctx[1..][k - 1..] == ctx[k..];
    }
  }

  /** After climbing to frame `k`, what is left is its next sibling's subtree, then the frames above. */
  lemma AfterPreNext(ctx: seq<Frame>, k: nat)
    requires k < |ctx| && ctx[k].right != [] && forall i :: 0 <= i < k ==> ctx[i].right == []
    ensures AfterPre(ctx) == PreOrder(ctx[k].right[0]) + AfterPre(NextCtx(ctx, k))
  {
    hide *;
    AfterPreSkip(ctx, k);
    var c2 := [Frame(ctx[k].parent, ctx[k].right[1..])] + ctx[k + 1..];
    var right, rest := ctx[k].right, AfterPre(ctx[k + 1..]);
    AfterPreCons(ctx[k..]);
    assert ctx[k..][0] == ctx[k] && ctx[k..][1..] == ctx[k + 1..];
    AfterPreCons(c2);
    assert c2[0].right == right[1..] && c2[1..] == ctx[k + 1..];
    PreOrderRowCons(right);
    NextCtxIs(ctx, k);
  }

  lemma AfterPreCons(ctx: seq<Frame>)
    requires |ctx| > 0
    ensures AfterPre(ctx) == PreOrderRow(ctx[0].right) + AfterPre(ctx[1..])
  {
  }

  lemma NextCtxIs(ctx: seq<Frame>, k: nat)
    requires k < |ctx| && ctx[k].right != []
    ensures NextCtx(ctx, k) == [Frame(ctx[k].parent, ctx[k].right[1..])] + ctx[k + 1..]
  {
  }

  lemma PreOrderRowCons(ts: seq<Tree>)
    requires |ts| > 0
    ensures PreOrderRow(ts) == PreOrder(ts[0]) + PreOrderRow(ts[1..])
  {
  }


  // ------------------------------------------------------------ commitNestedComponent

  /**
   * The walk of `commitNestedComponent` below `top`: the fibers visited so
   * far are `order`; while a fiber `cur` is next, it, its subtree and the
   * siblings still to the right hold the rest of `total`.
   */
  ghost predicate PreWalk(fibers: map<FiberId, Fiber>, top: FiberId, node: Option<FiberId>, cur: Tree, ctx: seq<Frame>,
                          order: seq<FiberId>, total: seq<FiberId>)
  {
    && (node.Some? ==> node == Some(cur.id) && Zip(fibers, top, cur, ctx) && order + PreOrder(cur) + AfterPre(ctx) == total)
    && (node.None? ==> order == total)
  }

  /** After visiting `top`, the walk goes to its first child, or ends when it has none. */
  lemma StartPre(fibers: map<FiberId, Fiber>, t: Tree) returns (cur: Tree, ctx: seq<Frame>)
    requires Shaped(fibers, t) && t.id !in RowIds(t.kids)
    ensures PreWalk(fibers, t.id, fibers[t.id].child, cur, ctx, [t.id], PreOrder(t))
    ensures fibers[t.id].child.Some? ==> fibers[t.id].child.value in fibers && fibers[fibers[t.id].child.value].ret == Some(t.id)
  {
    if |t.kids| > 0 {
      Start(fibers, t);
      cur, ctx := t.kids[0], [Frame(t.id, t.kids[1..])];
      assert ctx[1..] == [];
      assert PreOrder(t) == [t.id] + PreOrder(cur) + AfterPre(ctx);
    } else {
      cur, ctx := Tree(t.id, []), [];
      assert PreOrder(t) == [t.id];
    }
  }

  /** A fiber with a child: the walk enters the child, whose `return` already is the fiber. */
  lemma PreDescend(fibers: map<FiberId, Fiber>, top: FiberId, cur: Tree, ctx: seq<Frame>, order: seq<FiberId>, total: seq<FiberId>)
    requires PreWalk(fibers, top, Some(cur.id), cur, ctx, order, total) && fibers[cur.id].child.Some?
    ensures |cur.kids| > 0 && fibers[cur.id].child == Some(cur.kids[0].id)
    ensures cur.kids[0].id in fibers && fibers[cur.kids[0].id].ret == Some(cur.id)
    ensures PreWalk(fibers, top, Some(cur.kids[0].id), cur.kids[0], [Frame(cur.id, cur.kids[1..])] + ctx, order + [cur.id], total)
  {
    assert |cur.kids| > 0;
    assert Linked(fibers, cur.id, cur.kids, 0);
    Descend(fibers, top, cur, ctx);
    var c2 := [Frame(cur.id, cur.kids[1..])] + ctx;
    assert c2[1..] == ctx;
    assert PreOrder(cur) == [cur.id] + PreOrder(cur.kids[0]) + PreOrderRow(cur.kids[1..]);
    assert order + [cur.id] + PreOrder(cur.kids[0]) + AfterPre(c2) == total;
  }

  /** A fiber without children is finished; the rest of `total` lies in the siblings still to visit. */
  lemma PreLeaf(fibers: map<FiberId, Fiber>, top: FiberId, cur: Tree, ctx: seq<Frame>, order: seq<FiberId>, total: seq<FiberId>)
    requires PreWalk(fibers, top, Some(cur.id), cur, ctx, order, total) && fibers[cur.id].child.None?
    ensures Fin(fibers, top, cur.id, ctx) && order + [cur.id] + AfterPre(ctx) == total
  {
    assert cur.kids == [];
    assert PreOrder(cur) == [cur.id];
  }

  /** The climb to the next sibling continues the walk, or ends it when nothing is left. */
  lemma PreClimb(fibers: map<FiberId, Fiber>, top: FiberId, ctx: seq<Frame>, order: seq<FiberId>, total: seq<FiberId>,
                 next: Option<FiberId>, cur: Tree, ctx2: seq<Frame>)
    requires order + AfterPre(ctx) == total
    requires next.None? <==> FirstNonEmpty(ctx) == |ctx|
    requires next.Some? ==>
      var k := FirstNonEmpty(ctx);
      && k < |ctx| && cur == ctx[k].right[0] && ctx2 == NextCtx(ctx, k) && next == Some(cur.id)
      && Zip(fibers, top, cur, ctx2)
    ensures PreWalk(fibers, top, next, cur, ctx2, order, total)
  {
    var k := FirstNonEmpty(ctx);
    if next.Some? {
      AfterPreNext(ctx, k);
    } else {
      AfterPreSkip(ctx, k);
      assert ctx[|ctx|..] == [];
      assert order + [] == order;
    }
  }

  /** One turn of the walk at fiber `n`: visit it, then go to its child, or climb to the next sibling. */
  method PreStep(heap: FiberHeap, top: FiberId, n: FiberId, ghost cur: Tree, ghost ctx: seq<Frame>, order: seq<FiberId>,
                 ghost total: seq<FiberId>)
    returns (node: Option<FiberId>, ghost cur2: Tree, ghost ctx2: seq<Frame>, order2: seq<FiberId>)
    requires PreWalk(heap.fibers, top, Some(n), cur, ctx, order, total)
    modifies heap`fibers
    ensures heap.fibers == old(heap.fibers)
    ensures order2 == order + [n]
    ensures PreWalk(heap.fibers, top, node, cur2, ctx2, order2, total)
  {
    order2 := order + [n];
    var child := heap.fibers[n].child;
    if child.Some? {
      PreDescend(heap.fibers, top, cur, ctx, order, total);
      Relink(heap, child.value, Some(n));
      node, cur2, ctx2 := child, cur.kids[0], [Frame(cur.id, cur.kids[1..])] + ctx;
    } else {
      PreLeaf(heap.fibers, top, cur, ctx, order, total);
      node, cur2, ctx2 := ClimbToSibling(heap, top, n, ctx);
      PreClimb(heap.fibers, top, ctx, order2, total, node, cur2, ctx2);
    }
  }

  /**
   * The fibers `commitNestedComponent(root, onCommitUnmount)` hands to the
   * callback, in order: the subtree of `top` in pre-order. Its `return`
   * writes rewrite links the shape already holds, and the callback of
   * `commitDeletion` changes no link, so the order can be taken first and
   * the callbacks run along it.
   */
  method NestedOrder(heap: FiberHeap, top: FiberId, ghost t: Tree) returns (order: seq<FiberId>)
    requires Shaped(heap.fibers, t) && t.id == top && top !in RowIds(t.kids)
    modifies heap`fibers
    ensures heap.fibers == old(heap.fibers)
    ensures order == PreOrder(t)
  {
    ghost var total := PreOrder(t);
    order := [top];
    var node := heap.fibers[top].child;
    ghost var cur, ctx := StartPre(heap.fibers, t);
    if node.Some? {
      Relink(heap, node.value, Some(top));
    }
    while node.Some?
      invariant heap.fibers == old(heap.fibers)
      invariant PreWalk(heap.fibers, top, node, cur, ctx, order, total)
      decreases |total| - |order|
    {
      node, cur, ctx, order := PreStep(heap, top, node.value, cur, ctx, order, total);
    }
  }

  // ------------------------------------------------------------ recordHostChildrenToDelete

  /** The entries of `s` equal to `u`, in order. */
  function Matches(s: seq<FiberId>, u: FiberId): seq<FiberId>
  {
    if |s| == 0 then [] else (if s[0] == u then [u] else []) + Matches(s[1..], u)
  }

  /**
   * What `recordHostChildrenToDelete(list, u)` leaves in `list`: `u` is
   * pushed when the list is empty, and otherwise once for each time it
   * occurs among the later siblings `sibs` of the last recorded fiber.
   */
  ghost function Recorded(list: seq<FiberId>, u: FiberId, sibs: seq<FiberId>): seq<FiberId>
  {
    if |list| == 0 then [u] else list + Matches(sibs, u)
  }

  /**
   * `recordHostChildrenToDelete(childrenToDelete, unmountFiber)` as
   * written: `sibs` is the sibling chain after the last recorded fiber.
   */
  method RecordHostChildrenToDelete(heap: FiberHeap, list: seq<FiberId>, u: FiberId, ghost sibs: seq<FiberId>)
    returns (r: seq<FiberId>)
    requires |list| > 0 ==> list[|list| - 1] in heap.fibers && SiblingChain(heap.fibers, heap.fibers[list[|list| - 1]].sibling, sibs)
    ensures r == Recorded(list, u, sibs)
    ensures |list| > 0 ==> (r == list <==> u !in sibs)
  {
    if |list| == 0 {
      r := [u];
    } else {
      var fibers := heap.fibers;
      var node := fibers[list[|list| - 1]].sibling;
      ghost var i := 0;
      r := list;
      while node.Some?
        invariant 0 <= i <= |sibs|
        invariant node.Some? <==> i < |sibs|
        invariant node.Some? ==> node == Some(sibs[i])
        invariant r + Matches(sibs[i..], u) == list + Matches(sibs, u)
        decreases |sibs| - i
      {
        MatchesStep(sibs, i, u);
        if u == node.value {
          r := r + [u];
        }
        SiblingAt(fibers, fibers[list[|list| - 1]].sibling, sibs, i);
        node := fibers[node.value].sibling;
        i := i + 1;
      }
      assert sibs[i..] == [];
      MatchesHas(sibs, u);
    }
  }

  lemma MatchesStep(s: seq<FiberId>, i: nat, u: FiberId)
    requires i < |s|
    ensures Matches(s[i..], u) == (if s[i] == u then [u] else []) + Matches(s[i + 1..], u)
  {
    assert s[i..][1..] == s[i + 1..];
  }

  lemma {:induction false} MatchesHas(s: seq<FiberId>, u: FiberId)
    ensures u in s <==> Matches(s, u) != []
    ensures Matches(s, u) != [] ==> u in Matches(s, u)
  {
    if |s| > 0 {
      MatchesHas(s[1..], u);
    }
  }

  /**
   * Recording by the rule as written over a deleted subtree: the host
   * fibers of `us` (its pre-order) in turn, where `sibsOf` gives each
   * fiber's chain of later siblings.
   */
  ghost function RecordAll(fibers: map<FiberId, Fiber>, list: seq<FiberId>, us: seq<FiberId>, sibsOf: map<FiberId, seq<FiberId>>): seq<FiberId>
    decreases |us|
  {
    if |us| == 0 then list
    else
      var u := us[0];
      var list2 := if u in fibers && IsHost(fibers[u].tag) then
          (if |list| == 0 then [u] else if list[|list| - 1] in sibsOf then Recorded(list, u, sibsOf[list[|list| - 1]]) else list)
        else list;
      RecordAll(fibers, list2, us[1..], sibsOf)
  }

  /**
   * Deleting Fragment 0 whose children are a function component 1 (with
   * child div 2) and span 3. The host nodes to remove are the div and the
   * span, but the rule as written records the div and then looks for the
   * span only among the div's siblings, where it is not: the span's host
   * node stays in its parent.
   */
  function DeletionArena(): map<FiberId, Fiber>
  {
    var base := NewFiber(Fragment, Null, Null);
    map[0 := base.(child := Some(1)),
        1 := NewFiber(FunctionComponent, Null, Null).(ret := Some(0), sibling := Some(3), child := Some(2)),
        2 := NewFiber(HostComponent, Null, Null).(ret := Some(1), stateNode := HostInstance(10)),
        3 := NewFiber(HostComponent, Null, Null).(ret := Some(0), stateNode := HostInstance(11))]
  }

  function DeletionTree(): Tree
  {
    Tree(0, [Tree(1, [Tree(2, [])]), Tree(3, [])])
  }

  /** The later siblings of each fiber of the example. */
  function DeletionSiblings(): map<FiberId, seq<FiberId>>
  {
    map[0 := [], 1 := [3], 2 := [], 3 := []]
  }

  lemma DeletionMissesHost()
    ensures Shaped(DeletionArena(), DeletionTree())
    ensures forall x :: x in DeletionSiblings() ==> SiblingChain(DeletionArena(), DeletionArena()[x].sibling, DeletionSiblings()[x])
    ensures Tops(DeletionArena(), DeletionTree()) == [2, 3]
    ensures RecordAll(DeletionArena(), [], PreOrder(DeletionTree()), DeletionSiblings()) == [2]
  {
    DeletionShaped();
    DeletionTops();
    DeletionRecords();
  }

  lemma DeletionShaped()
    ensures Shaped(DeletionArena(), DeletionTree())
  {
    var f, t := DeletionArena(), DeletionTree();
    assert Shaped(f, t.kids[0].kids[0]) && Shaped(f, t.kids[1]);
    assert Linked(f, 1, t.kids[0].kids, 0);
    assert Shaped(f, t.kids[0]);
    assert Linked(f, 0, t.kids, 0) && Linked(f, 0, t.kids, 1);
  }

  lemma DeletionTops()
    ensures PreOrder(DeletionTree()) == [0, 1, 2, 3]
    ensures Tops(DeletionArena(), DeletionTree()) == [2, 3]
  {
    var f, t := DeletionArena(), DeletionTree();
    assert PreOrder(t.kids[0]) == [1, 2];
    assert PreOrderRow(t.kids) == [1, 2, 3];
    assert Tops(f, t.kids[0]) == [2];
    assert TopsRow(f, t.kids) == [2, 3];
  }

  lemma DeletionRecords()
    ensures forall x :: x in DeletionSiblings() ==> SiblingChain(DeletionArena(), DeletionArena()[x].sibling, DeletionSiblings()[x])
    ensures RecordAll(DeletionArena(), [], [0, 1, 2, 3], DeletionSiblings()) == [2]
  {
    DeletionChains();
    DeletionTags();
    var f, sibsOf := DeletionArena(), DeletionSiblings();
    assert [0, 1, 2, 3][1..] == [1, 2, 3] && [1, 2, 3][1..] == [2, 3] && [2, 3][1..] == [3] && [3][1..] == [];
    assert RecordAll(f, [], [0, 1, 2, 3], sibsOf) == RecordAll(f, [], [1, 2, 3], sibsOf);
    assert RecordAll(f, [], [1, 2, 3], sibsOf) == RecordAll(f, [], [2, 3], sibsOf);
    assert RecordAll(f, [], [2, 3], sibsOf) == RecordAll(f, [2], [3], sibsOf);
    assert Recorded([2], 3, []) == [2];
    assert RecordAll(f, [2], [3], sibsOf) == RecordAll(f, [2], [], sibsOf);
  }

  lemma DeletionTags()
    ensures var f := DeletionArena();
      && 0 in f && 1 in f && 2 in f && 3 in f
      && !IsHost(f[0].tag) && !IsHost(f[1].tag) && IsHost(f[2].tag) && IsHost(f[3].tag)
  {
  }

  lemma DeletionChains()
    ensures forall x :: x in DeletionSiblings() ==> SiblingChain(DeletionArena(), DeletionArena()[x].sibling, DeletionSiblings()[x])
  {
    var f := DeletionArena();
    assert SiblingChain(f, f[1].sibling, [3]);
  }

  // ------------------------------------------------------------ the host nodes to remove

  /**
   * The topmost host fibers of a deleted subtree, the nodes whose removal
   * takes the whole subtree out of the host parent: the walk of
   * `appendAllChildren`, which does not enter host fibers. The deletion
   * removes these (see "## Findings" of the README for the rule as written).
   */
  method HostTops(heap: FiberHeap, x: FiberId, ghost t: Tree) returns (tops: seq<FiberId>)
    requires Shaped(heap.fibers, t) && t.id == x && x !in RowIds(t.kids)
    modifies heap`fibers
    ensures heap.fibers == old(heap.fibers)
    ensures tops == Tops(heap.fibers, t)
  {
    var f := heap.fibers[x];
    if f.tag == HostComponent || f.tag == HostText {
      tops := [x];
    } else {
      ghost var f0 := heap.fibers;
      ghost var total := TopsRow(f0, t.kids);
      tops := [];
      var node := f.child;
      ghost var cur, ctx := StartWalk(f0, t);
      while node.Some?
        invariant heap.fibers == f0
        invariant Walk(f0, x, node, cur, ctx, tops, total)
        decreases if node.Some? then Size(cur) + AfterSize(ctx) else 0
      {
        node, cur, ctx, tops := TopsStep(heap, x, node.value, cur, ctx, tops, total);
      }
    }
  }

  /** One turn of the walk of `HostTops` at fiber `n`. */
  method TopsStep(heap: FiberHeap, x: FiberId, n: FiberId, ghost cur: Tree, ghost ctx: seq<Frame>, tops: seq<FiberId>,
                  ghost total: seq<FiberId>)
    returns (node: Option<FiberId>, ghost cur2: Tree, ghost ctx2: seq<Frame>, tops2: seq<FiberId>)
    requires Walk(heap.fibers, x, Some(n), cur, ctx, tops, total)
    modifies heap`fibers
    ensures heap.fibers == old(heap.fibers)
    ensures Walk(heap.fibers, x, node, cur2, ctx2, tops2, total)
    ensures node.Some? ==> Size(cur2) + AfterSize(ctx2) < Size(cur) + AfterSize(ctx)
  {
    var f := heap.fibers[n];
    if f.tag == HostComponent || f.tag == HostText {
      HostDone(heap.fibers, x, cur, ctx, tops, total);
      tops2 := tops + [n];
      node, cur2, ctx2 := ClimbWalk(heap, x, n, ctx, tops2, total);
    } else if f.child.Some? {
      DescendWalk(heap.fibers, x, cur, ctx, tops, total);
      node, cur2, ctx2, tops2 := f.child, cur.kids[0], [Frame(cur.id, cur.kids[1..])] + ctx, tops;
    } else {
      LeafDone(heap.fibers, x, cur, ctx, tops, total);
      tops2 := tops;
      node, cur2, ctx2 := ClimbWalk(heap, x, n, ctx, tops, total);
    }
  }

  // ------------------------------------------------------------ the unmount callback

  /** What the unmount callbacks change: the ref cells and the root's `unmount` buffer. */
  datatype Unmounts = Unmounts(refs: RefState, unmount: seq<Option<EffectId>>)

  /** Every function component of `us` with an update queue finds it in `queues`. */
  ghost predicate QueuesIn(fibers: map<FiberId, Fiber>, queues: map<QueueId, UQ.UpdateQueueRec>, us: seq<FiberId>)
  {
    forall u :: u in us ==>
      && u in fibers
      && (fibers[u].tag == FunctionComponent && fibers[u].updateQueue.Some? ==> fibers[u].updateQueue.value in queues)
  }

  /** Detaching this fiber's ref throws. */
  predicate DetachThrows(f: Fiber)
  {
    f.tag == HostComponent && WriteThrows(f.ref)
  }

  /**
   * The callback of `commitDeletion` on one fiber: a HostComponent's ref
   * receives null; a function component with an update queue queues its
   * `lastEffect` (`commitPassiveUnmountEffects`); other fibers change
   * nothing here. The flag is set when the ref write throws.
   */
  ghost function UnmountOne(f: Fiber, queues: map<QueueId, UQ.UpdateQueueRec>, s: Unmounts): (Unmounts, bool)
    requires f.tag == FunctionComponent && f.updateQueue.Some? ==> f.updateQueue.value in queues
  {
    if f.tag == HostComponent then
      if f.ref.Null? then (s, false)
      else if WriteThrows(f.ref) then (s, true)
      else (s.(refs := WriteRef(s.refs, f.ref, NoStateNode)), false)
    else if f.tag == FunctionComponent && f.updateQueue.Some? then
      (s.(unmount := s.unmount + [queues[f.updateQueue.value].lastEffect]), false)
    else (s, false)
  }

  /** The callbacks along `us`, stopping at the first that throws. */
  ghost function UnmountRun(fibers: map<FiberId, Fiber>, queues: map<QueueId, UQ.UpdateQueueRec>, us: seq<FiberId>, s: Unmounts): (Unmounts, bool)
    requires QueuesIn(fibers, queues, us)
    decreases |us|
  {
    if |us| == 0 then (s, false)
    else
      var prefix := us[..|us| - 1];
      assert forall u :: u in prefix ==> u in us;
      var (s1, thrown) := UnmountRun(fibers, queues, prefix, s);
      if thrown then (s1, true) else UnmountOne(fibers[us[|us| - 1]], queues, s1)
  }

  /** The `lastEffect`s the function components of `us` queue, in order. */
  ghost function PassiveUnmounts(fibers: map<FiberId, Fiber>, queues: map<QueueId, UQ.UpdateQueueRec>, us: seq<FiberId>): seq<Option<EffectId>>
    requires QueuesIn(fibers, queues, us)
    decreases |us|
  {
    if |us| == 0 then []
    else
      var prefix := us[..|us| - 1];
      assert forall u :: u in prefix ==> u in us;
      var f := fibers[us[|us| - 1]];
      PassiveUnmounts(fibers, queues, prefix) +
        (if f.tag == FunctionComponent && f.updateQueue.Some? then [queues[f.updateQueue.value].lastEffect] else [])
  }

  /**
   * The callbacks throw exactly when some HostComponent's ref write does;
   * when none does, the buffer gains the function components' effect
   * lists in visit order and each non-null ref receives null.
   */
  lemma {:induction false} UnmountRunEffects(fibers: map<FiberId, Fiber>, queues: map<QueueId, UQ.UpdateQueueRec>, us: seq<FiberId>, s: Unmounts)
    requires QueuesIn(fibers, queues, us)
    ensures UnmountRun(fibers, queues, us, s).1 <==> exists u :: u in us && DetachThrows(fibers[u])
    ensures !UnmountRun(fibers, queues, us, s).1 ==>
      UnmountRun(fibers, queues, us, s).0.unmount == s.unmount + PassiveUnmounts(fibers, queues, us)
    decreases |us|
  {
    if |us| > 0 {
      var prefix := us[..|us| - 1];
      var last := us[|us| - 1];
      assert forall u :: u in prefix ==> u in us;
      UnmountRunEffects(fibers, queues, prefix, s);
      assert us == prefix + [last];
      assert forall u :: u in us <==> u in prefix || u == last;
    }
  }

  /** The first function component of the pre-order, the deleted fiber itself, queues its effects before any descendant. */
  lemma ParentUnmountsFirst(fibers: map<FiberId, Fiber>, queues: map<QueueId, UQ.UpdateQueueRec>, t: Tree)
    requires QueuesIn(fibers, queues, PreOrder(t))
    requires t.id in fibers && fibers[t.id].tag == FunctionComponent && fibers[t.id].updateQueue.Some?
    ensures var p := PassiveUnmounts(fibers, queues, PreOrder(t));
      |p| > 0 && p[0] == queues[fibers[t.id].updateQueue.value].lastEffect
  {
    PassiveUnmountsHead(fibers, queues, PreOrder(t));
  }

  lemma {:induction false} PassiveUnmountsHead(fibers: map<FiberId, Fiber>, queues: map<QueueId, UQ.UpdateQueueRec>, us: seq<FiberId>)
    requires QueuesIn(fibers, queues, us) && |us| > 0
    requires fibers[us[0]].tag == FunctionComponent && fibers[us[0]].updateQueue.Some?
    ensures var p := PassiveUnmounts(fibers, queues, us);
      |p| > 0 && p[0] == queues[fibers[us[0]].updateQueue.value].lastEffect
    decreases |us|
  {
    if |us| > 1 {
      var prefix := us[..|us| - 1];
      assert forall u :: u in prefix ==> u in us;
      assert prefix[0] == us[0];
      PassiveUnmountsHead(fibers, queues, prefix);
    }
  }

  /** The callback of `commitDeletion` on one fiber. */
  method UnmountFiber(refs: RefCells, root: FiberRootNode, f: Fiber, queues: map<QueueId, UQ.UpdateQueueRec>)
    returns (outcome: Outcome)
    requires f.tag == FunctionComponent && f.updateQueue.Some? ==> f.updateQueue.value in queues
    modifies refs, root`pendingPassiveEffects
    ensures var (s, thrown) := UnmountOne(f, queues, Unmounts(old(refs.state), old(root.pendingPassiveEffects.unmount)));
      && refs.state == s.refs && root.pendingPassiveEffects == old(root.pendingPassiveEffects).(unmount := s.unmount)
      && (outcome.Thrown? <==> thrown)
  {
    outcome := Done;
    if f.tag == HostComponent {
      outcome := refs.SafelyDetachRef(f);
    } else if f.tag == FunctionComponent && f.updateQueue.Some? {
      var last := queues[f.updateQueue.value].lastEffect;
      root.pendingPassiveEffects := root.pendingPassiveEffects.(unmount := root.pendingPassiveEffects.unmount + [last]);
    }
  }

  /** The callbacks along `us` in turn; a throw stops the rest. */
  method UnmountAll(refs: RefCells, root: FiberRootNode, fibers: map<FiberId, Fiber>, queues: map<QueueId, UQ.UpdateQueueRec>, us: seq<FiberId>)
    returns (outcome: Outcome)
    requires QueuesIn(fibers, queues, us)
    modifies refs, root`pendingPassiveEffects
    ensures var (s, thrown) := UnmountRun(fibers, queues, us, Unmounts(old(refs.state), old(root.pendingPassiveEffects.unmount)));
      && refs.state == s.refs && root.pendingPassiveEffects == old(root.pendingPassiveEffects).(unmount := s.unmount)
      && (outcome.Thrown? <==> thrown)
  {
    ghost var s0 := Unmounts(refs.state, root.pendingPassiveEffects.unmount);
    ghost var p0 := root.pendingPassiveEffects;
    var i := 0;
    outcome := Done;
    assert us[..0] == [];
    while i < |us|
      invariant 0 <= i <= |us|
      invariant QueuesIn(fibers, queues, us[..i])
      invariant var (s, thrown) := UnmountRun(fibers, queues, us[..i], s0);
        && refs.state == s.refs && root.pendingPassiveEffects == p0.(unmount := s.unmount)
        && !thrown && outcome.Done?
      decreases |us| - i
    {
      assert us[..i + 1][..i] == us[..i];
      assert forall u :: u in us[..i + 1] ==> u in us;
      outcome := UnmountFiber(refs, root, fibers[us[i]], queues);
      i := i + 1;
      if outcome.Thrown? {
        break;
      }
    }
    assert us[..|us|] == us;
    if outcome.Thrown? {
      assert us[..i] == us[..i][..i];
      ThrownRunStops(fibers, queues, us, i, s0);
    }
  }

  /** Once the run has thrown on a prefix, the whole run has thrown with the same state. */
  lemma {:induction false} ThrownRunStops(fibers: map<FiberId, Fiber>, queues: map<QueueId, UQ.UpdateQueueRec>, us: seq<FiberId>, i: nat, s: Unmounts)
    requires QueuesIn(fibers, queues, us) && i <= |us|
    requires forall u :: u in us[..i] ==> u in us
    requires UnmountRun(fibers, queues, us[..i], s).1
    ensures UnmountRun(fibers, queues, us, s) == UnmountRun(fibers, queues, us[..i], s)
    decreases |us| - i
  {
    if i < |us| {
      assert us[..i + 1][..i] == us[..i];
      assert forall u :: u in us[..i + 1] ==> u in us;
      ThrownRunStops(fibers, queues, us, i + 1, s);
    } else {
      assert us[..i] == us;
    }
  }

  // ------------------------------------------------------------ removing the host nodes

  /** The `stateNode`s of `xs`. */
  function StateNodes(fibers: map<FiberId, Fiber>, xs: seq<FiberId>): (r: seq<StateNode>)
    ensures |r| == |xs|
    ensures forall i :: 0 <= i < |xs| && xs[i] in fibers ==> r[i] == fibers[xs[i]].stateNode
  {
    seq(|xs|, i requires 0 <= i < |xs| => if xs[i] in fibers then fibers[xs[i]].stateNode else NoStateNode)
  }

  /**
   * `removeChild(node, parent)` on the children `children`: the first
   * occurrence goes; a node that is not a child (or no host node at all)
   * makes it throw, which the flag reports.
   */
  function RemoveOne(children: seq<nat>, sn: StateNode): (seq<nat>, bool)
  {
    if sn.HostInstance? && sn.id in children then (RemoveAt(children, IndexOf(children, sn.id)), false)
    else (children, true)
  }

  /** `removeChild` for each of `sns` in turn, stopping at the first that throws. */
  function RemoveRun(children: seq<nat>, sns: seq<StateNode>): (seq<nat>, bool)
    decreases |sns|
  {
    if |sns| == 0 then (children, false)
    else
      var (c1, thrown) := RemoveRun(children, sns[..|sns| - 1]);
      if thrown then (c1, true) else RemoveOne(c1, sns[|sns| - 1])
  }

  /** The instance ids of `sns`. */
  function InstanceIds(sns: seq<StateNode>): seq<nat>
    requires forall i :: 0 <= i < |sns| ==> sns[i].HostInstance?
  {
    seq(|sns|, i requires 0 <= i < |sns| => sns[i].id)
  }

  /**
   * Removing distinct host nodes that are all children never throws, and
   * takes exactly one copy of each out of the children.
   */
  lemma {:induction false} RemoveRunAll(children: seq<nat>, sns: seq<StateNode>)
    requires Removable(children, sns)
    ensures !RemoveRun(children, sns).1
    ensures multiset(RemoveRun(children, sns).0) == multiset(children) - multiset(InstanceIds(sns))
    decreases |sns|
  {
    if |sns| > 0 {
      var prefix := sns[..|sns| - 1];
      var last := sns[|sns| - 1];
      RemovablePrefix(children, sns);
      RemoveRunAll(children, prefix);
      var c1 := RemoveRun(children, prefix).0;
      var before := InstanceIds(prefix);
      LastNotRemoved(sns);
      IdsSnoc(sns);
      StillPresent(multiset(children), multiset(before), last.id);
      RemoveOneTakes(c1, last);
      MultisetDiffAssoc(multiset(children), multiset(before), multiset{last.id});
      assert RemoveRun(children, sns) == RemoveOne(c1, last);
    }
  }

  lemma IdsSnoc(sns: seq<StateNode>)
    requires |sns| > 0 && forall i :: 0 <= i < |sns| ==> sns[i].HostInstance?
    ensures multiset(InstanceIds(sns)) == multiset(InstanceIds(sns[..|sns| - 1])) + multiset{sns[|sns| - 1].id}
  {
    assert InstanceIds(sns) == InstanceIds(sns[..|sns| - 1]) + [sns[|sns| - 1].id];
  }

  /** Distinct host instances, each a child, among children held once each. */
  ghost predicate Removable(children: seq<nat>, sns: seq<StateNode>)
  {
    && (forall i :: 0 <= i < |sns| ==> sns[i].HostInstance? && sns[i].id in children)
    && (forall i, j :: 0 <= i < j < |sns| ==> sns[i] != sns[j])
    && (forall x :: multiset(children)[x] <= 1)
  }

  lemma RemovablePrefix(children: seq<nat>, sns: seq<StateNode>)
    requires |sns| > 0 && Removable(children, sns)
    ensures Removable(children, sns[..|sns| - 1])
    ensures sns[|sns| - 1].HostInstance? && multiset(children)[sns[|sns| - 1].id] == 1
  {
    assert sns[|sns| - 1].id in multiset(children);
  }

  /** Removing a present instance takes one copy of it out. */
  lemma RemoveOneTakes(c: seq<nat>, sn: StateNode)
    requires sn.HostInstance? && sn.id in multiset(c)
    ensures !RemoveOne(c, sn).1 && multiset(RemoveOne(c, sn).0) == multiset(c) - multiset{sn.id}
  {
  }

  /** Distinct instances: the last one's id is not among the earlier ones. */
  lemma LastNotRemoved(sns: seq<StateNode>)
    requires |sns| > 0 && forall i :: 0 <= i < |sns| ==> sns[i].HostInstance?
    requires forall i, j :: 0 <= i < j < |sns| ==> sns[i] != sns[j]
    ensures sns[|sns| - 1].id !in multiset(InstanceIds(sns[..|sns| - 1]))
  {
    var prefix := sns[..|sns| - 1];
    var ids := InstanceIds(prefix);
    forall i | 0 <= i < |ids|
      ensures ids[i] != sns[|sns| - 1].id
    {
      assert prefix[i] == sns[i];
    }
  }

  /** A value held once and not yet taken out is still there. */
  lemma StillPresent(m: multiset<nat>, taken: multiset<nat>, x: nat)
    requires m[x] <= 1 && x in m && x !in taken
    ensures x in m - taken
  {
  }

  lemma MultisetDiffAssoc(a: multiset<nat>, b: multiset<nat>, c: multiset<nat>)
    ensures a - b - c == a - (b + c)
  {
  }

  /** The `removeChild` calls for the recorded nodes, in order. */
  method RemoveHostChildren(host: NoopHostState, p: HostParent, sns: seq<StateNode>) returns (outcome: Outcome)
    requires host.HasParent(p)
    modifies host`nodes, host`containers
    ensures ContainersOnly(old(host.containers), host.containers, p)
    ensures host.HasParent(p)
    ensures var (c, thrown) := RemoveRun(old(host.ChildrenOf(p)), sns);
      host.ChildrenOf(p) == c && (outcome.Thrown? <==> thrown)
    ensures ChildrenOnly(old(host.nodes), host.nodes, p)
    ensures p.ContainerRef? ==> host.nodes == old(host.nodes)
    ensures p.InstanceRef? ==> host.containers == old(host.containers)
  {
    ghost var c0 := host.ChildrenOf(p);
    ghost var n0 := host.nodes;
    ghost var k0 := host.containers;
    ContainersOnlyRefl(k0, p);
    var i := 0;
    outcome := Done;
    assert sns[..0] == [];
    while i < |sns|
      invariant 0 <= i <= |sns|
      invariant host.HasParent(p) && ChildrenOnly(n0, host.nodes, p)
      invariant var (c, thrown) := RemoveRun(c0, sns[..i]);
        host.ChildrenOf(p) == c && !thrown && outcome.Done?
      invariant p.ContainerRef? ==> host.nodes == n0
      invariant p.InstanceRef? ==> host.containers == k0
      invariant ContainersOnly(k0, host.containers, p)
      decreases |sns| - i
    {
      ghost var k1 := host.containers;
      outcome := RemoveStep(host, p, c0, sns, i);
      ContainersOnlyTrans(k0, k1, host.containers, p);
      i := i + 1;
      if outcome.Thrown? {
        break;
      }
    }
    if outcome.Thrown? {
      RemoveRunStops(c0, sns, i);
    } else {
      assert sns[..|sns|] == sns;
    }
  }

  /** The `removeChild` call for the `i`-th recorded node; a node without a host instance is not found. */
  method RemoveStep(host: NoopHostState, p: HostParent, ghost c0: seq<nat>, sns: seq<StateNode>, i: nat) returns (outcome: Outcome)
    requires i < |sns| && host.HasParent(p)
    requires host.ChildrenOf(p) == RemoveRun(c0, sns[..i]).0 && !RemoveRun(c0, sns[..i]).1
    modifies host`nodes, host`containers
    ensures ContainersOnly(old(host.containers), host.containers, p)
    ensures host.HasParent(p) && ChildrenOnly(old(host.nodes), host.nodes, p)
    ensures host.ChildrenOf(p) == RemoveRun(c0, sns[..i + 1]).0
    ensures outcome.Thrown? <==> RemoveRun(c0, sns[..i + 1]).1
    ensures p.ContainerRef? ==> host.nodes == old(host.nodes)
    ensures p.InstanceRef? ==> host.containers == old(host.containers)
  {
    assert sns[..i + 1][..i] == sns[..i];
    var sn := sns[i];
    if sn.HostInstance? {
      outcome := host.RemoveChild(sn.id, p);
    } else {
      outcome := Thrown("child 不存在");
    }
  }

  lemma {:induction false} RemoveRunStops(children: seq<nat>, sns: seq<StateNode>, i: nat)
    requires i <= |sns| && RemoveRun(children, sns[..i]).1
    ensures RemoveRun(children, sns) == RemoveRun(children, sns[..i])
    decreases |sns| - i
  {
    if i < |sns| {
      assert sns[..i + 1][..i] == sns[..i];
      RemoveRunStops(children, sns, i + 1);
    } else {
      assert sns[..i] == sns;
    }
  }

  // ------------------------------------------------------------ commitDeletion

  /** The host parent the deletion removes from, when there is something to remove and a parent to remove it from. */
  ghost predicate Removes(fibers: map<FiberId, Fiber>, container: nat, x: FiberId, tops: seq<FiberId>)
    requires Closed(fibers) && x in fibers
  {
    |tops| > 0 && HostParentOf(fibers, container, x).ParentFound?
  }

  /**
   * `commitDeletion(childToDelete, root)`: the callbacks run over the
   * subtree in pre-order; if none throws, the topmost host nodes of the
   * subtree are removed from the host parent, as evidently intended (the
   * recording rule as written, `RecordAll`, can miss one: see
   * `DeletionMissesHost` and "## Findings" in the README) (when there are some and
   * there is a parent); if that does not throw either, the deleted fiber
   * loses its `return` and `child`. A `getHostParent` climb that runs out
   * of its bound is reported as thrown.
   */
  method CommitDeletion(heap: FiberHeap, host: NoopHostState, refs: RefCells, root: FiberRootNode,
                        queues: map<QueueId, UQ.UpdateQueueRec>, x: FiberId, ghost t: Tree)
    returns (outcome: Outcome)
    requires Shaped(heap.fibers, t) && t.id == x && x !in RowIds(t.kids)
    requires Closed(heap.fibers) && RootsIn(heap.fibers, root) && QueuesIn(heap.fibers, queues, PreOrder(t))
    requires var r := HostParentOf(heap.fibers, root.containerInfo, x); r.ParentFound? ==> host.HasParent(r.parent)
    modifies heap`fibers, host`nodes, host`containers, refs, root`pendingPassiveEffects
    ensures host.containers.Keys == old(host.containers).Keys
    ensures var (s, thrown) := UnmountRun(old(heap.fibers), queues, PreOrder(t), Unmounts(old(refs.state), old(root.pendingPassiveEffects.unmount)));
      && refs.state == s.refs && root.pendingPassiveEffects == old(root.pendingPassiveEffects).(unmount := s.unmount)
      && (thrown ==> outcome.Thrown? && heap.fibers == old(heap.fibers)
                     && host.nodes == old(host.nodes) && host.containers == old(host.containers))
    ensures var tops := Tops(old(heap.fibers), t);
      var r := HostParentOf(old(heap.fibers), root.containerInfo, x);
      && (Removes(old(heap.fibers), root.containerInfo, x, tops) ==>
            && host.HasParent(r.parent) && ChildrenOnly(old(host.nodes), host.nodes, r.parent)
            && ContainersOnly(old(host.containers), host.containers, r.parent)
            && (outcome.Done? ==> host.ChildrenOf(r.parent) == RemoveRun(old(host.ChildrenOf(r.parent)), StateNodes(old(heap.fibers), tops)).0))
      && (!Removes(old(heap.fibers), root.containerInfo, x, tops) ==> host.nodes == old(host.nodes) && host.containers == old(host.containers))
    ensures outcome.Done? <==>
      && !UnmountRun(old(heap.fibers), queues, PreOrder(t), Unmounts(old(refs.state), old(root.pendingPassiveEffects.unmount))).1
      && var tops := Tops(old(heap.fibers), t);
         var r := HostParentOf(old(heap.fibers), root.containerInfo, x);
         |tops| > 0 ==> !r.ParentOutOfFuel? && (r.ParentFound? ==> !RemoveRun(old(host.ChildrenOf(r.parent)), StateNodes(old(heap.fibers), tops)).1)
    ensures outcome.Done? ==> heap.fibers == old(heap.fibers)[x := old(heap.fibers)[x].(ret := None, child := None)]
    ensures outcome.Thrown? ==> heap.fibers == old(heap.fibers)
    ensures outcome.Done? ==> host.View() == DeletionView(old(heap.fibers), root.containerInfo, x, t, old(host.View()))
  {
    ghost var f0 := heap.fibers;
    var order := NestedOrder(heap, x, t);
    outcome := UnmountAll(refs, root, heap.fibers, queues, order);
    if outcome.Done? {
      var tops := HostTops(heap, x, t);
      TopsAreHost(f0, t);
      outcome := RemoveTops(heap, host, root, x, tops);
      if outcome.Done? {
        heap.Put(x, heap.fibers[x].(ret := None, child := None));
      }
    }
  }

  /**
   * The host after `commitDeletion(x)` completes: when the subtree has host
   * nodes and a host parent, those nodes are no longer among its children;
   * otherwise the host is as it was.
   */
  ghost function DeletionView(fibers: map<FiberId, Fiber>, container: nat, x: FiberId, t: Tree, v: HostView): HostView
  {
    RemovalView(fibers, container, x, Tops(fibers, t), v)
  }

  /** The host after the nodes of `tops` are removed from the host parent of `x`, if there are some and it has one. */
  ghost function RemovalView(fibers: map<FiberId, Fiber>, container: nat, x: FiberId, tops: seq<FiberId>, v: HostView): HostView
  {
    if !(Closed(fibers) && x in fibers) then v
    else
      var r := HostParentOf(fibers, container, x);
      if |tops| > 0 && r.ParentFound? then WithKids(v, r.parent, RemoveRun(KidsOf(v, r.parent), StateNodes(fibers, tops)).0)
      else v
  }

  /** What the removal does to the host, seen in the view. */
  lemma RemovedView(fibers: map<FiberId, Fiber>, container: nat, x: FiberId, tops: seq<FiberId>,
                    n0: map<nat, HostNode>, c0: map<nat, seq<nat>>, n1: map<nat, HostNode>, c1: map<nat, seq<nat>>)
    requires Closed(fibers) && x in fibers
    requires var r := HostParentOf(fibers, container, x);
      && (Removes(fibers, container, x, tops) ==>
            && ParentIn(n0, c0, r.parent) && ChildrenOnly(n0, n1, r.parent) && ContainersOnly(c0, c1, r.parent)
            && KidsOf(ViewOf(n1, c1), r.parent) == RemoveRun(KidsOf(ViewOf(n0, c0), r.parent), StateNodes(fibers, tops)).0)
      && (!Removes(fibers, container, x, tops) ==> n1 == n0 && c1 == c0)
    ensures ViewOf(n1, c1) == RemovalView(fibers, container, x, tops, ViewOf(n0, c0))
  {
    var r := HostParentOf(fibers, container, x);
    if Removes(fibers, container, x, tops) {
      OnlyKidsView(n0, c0, n1, c1, r.parent);
    }
  }

  /** The removal step of `commitDeletion`: find the host parent and remove the recorded nodes from it. */
  method RemoveTops(heap: FiberHeap, host: NoopHostState, root: FiberRootNode, x: FiberId, tops: seq<FiberId>)
    returns (outcome: Outcome)
    requires Closed(heap.fibers) && x in heap.fibers && RootsIn(heap.fibers, root)
    requires forall y :: y in tops ==> y in heap.fibers
    requires var r := HostParentOf(heap.fibers, root.containerInfo, x); r.ParentFound? ==> host.HasParent(r.parent)
    modifies host`nodes, host`containers
    ensures host.containers.Keys == old(host.containers).Keys
    ensures var r := HostParentOf(heap.fibers, root.containerInfo, x);
      && (Removes(heap.fibers, root.containerInfo, x, tops) ==>
            && host.HasParent(r.parent) && ChildrenOnly(old(host.nodes), host.nodes, r.parent)
            && ContainersOnly(old(host.containers), host.containers, r.parent)
            && (outcome.Done? ==> host.ChildrenOf(r.parent) == RemoveRun(old(host.ChildrenOf(r.parent)), StateNodes(heap.fibers, tops)).0))
      && (!Removes(heap.fibers, root.containerInfo, x, tops) ==> host.nodes == old(host.nodes) && host.containers == old(host.containers))
      && (outcome.Done? <==>
            |tops| > 0 ==> !r.ParentOutOfFuel? && (r.ParentFound? ==> !RemoveRun(old(host.ChildrenOf(r.parent)), StateNodes(heap.fibers, tops)).1))
    ensures outcome.Done? ==> host.View() == RemovalView(heap.fibers, root.containerInfo, x, tops, old(host.View()))
  {
    ghost var n0, c0 := host.nodes, host.containers;
    outcome := Done;
    if |tops| > 0 {
      var hostParent := GetHostParent(heap, root, x);
      if hostParent.ParentOutOfFuel? {
        outcome := Thrown(OUT_OF_FUEL);
      } else if hostParent.ParentFound? {
        outcome := RemoveHostChildren(host, hostParent.parent, StateNodes(heap.fibers, tops));
        KidsOfView(n0, c0, hostParent.parent);
        KidsOfView(host.nodes, host.containers, hostParent.parent);
      }
    }
    if outcome.Done? {
      RemovedView(heap.fibers, root.containerInfo, x, tops, n0, c0, host.nodes, host.containers);
    }
  }
}
