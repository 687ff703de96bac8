/**
 * The shape of a fiber subtree as the walks in completeWork.ts and
 * commitWork.ts see it. A `Tree` names a fiber and its children in order;
 * `Shaped` says the `child`, `sibling` and `return` links in the arena
 * realise it. A walk that is somewhere inside the subtree is described by
 * a zipper: the subtree it is at (`cur`) and, innermost first, one `Frame`
 * per ancestor holding the ancestor and the siblings still to the right.
 */
module FiberTree {
  import opened Wrappers
  import opened Fiber
  import opened ChildFiber

  datatype Tree = Tree(id: FiberId, kids: seq<Tree>)

  function FirstId(ts: seq<Tree>): Option<FiberId>
  {
    if |ts| == 0 then None else Some(ts[0].id)
  }

  function KidIds(ts: seq<Tree>): (r: seq<FiberId>)
    ensures |r| == |ts| && forall i :: 0 <= i < |ts| ==> r[i] == ts[i].id
  {
    if |ts| == 0 then [] else [ts[0].id] + KidIds(ts[1..])
  }

  /** The `i`-th tree of a row hangs under `parent`, and its sibling is the next tree of the row. */
  ghost predicate Linked(fibers: map<FiberId, Fiber>, parent: FiberId, ts: seq<Tree>, i: nat)
    requires i < |ts|
  {
    ts[i].id in fibers && fibers[ts[i].id].ret == Some(parent) && fibers[ts[i].id].sibling == FirstId(ts[i + 1..])
  }

  /** The arena's `child`, `sibling` and `return` links realise `t`. */
  ghost predicate Shaped(fibers: map<FiberId, Fiber>, t: Tree)
    decreases t
  {
    && t.id in fibers
    && fibers[t.id].child == FirstId(t.kids)
    && (forall i :: 0 <= i < |t.kids| ==> Linked(fibers, t.id, t.kids, i))
    && (forall i :: 0 <= i < |t.kids| ==> Shaped(fibers, t.kids[i]))
  }

  /** A row of siblings under `parent`, each shaped. */
  ghost predicate RowShaped(fibers: map<FiberId, Fiber>, parent: FiberId, ts: seq<Tree>)
  {
    forall i :: 0 <= i < |ts| ==> Linked(fibers, parent, ts, i) && Shaped(fibers, ts[i])
  }

  /** Every fiber of `t`. */
  ghost function IdSet(t: Tree): set<FiberId>
    decreases t
  {
    {t.id} + set i, x | 0 <= i < |t.kids| && x in IdSet(t.kids[i]) :: x
  }

  ghost function RowIds(ts: seq<Tree>): set<FiberId>
  {
    set i, x | 0 <= i < |ts| && x in IdSet(ts[i]) :: x
  }

  /** The number of fibers of `t`, counted with repetition. */
  function Size(t: Tree): nat
    decreases t
  {
    1 + RowSize(t.kids)
  }

  function RowSize(ts: seq<Tree>): nat
    decreases ts
  {
    if |ts| == 0 then 0 else Size(ts[0]) + RowSize(ts[1..])
  }

  /** One ancestor of the walk's position: the ancestor and the siblings not yet reached. */
  datatype Frame = Frame(parent: FiberId, right: seq<Tree>)

  /** The fibers the walk has still to reach once it leaves the current subtree. */
  function AfterSize(ctx: seq<Frame>): nat
  {
    if |ctx| == 0 then 0 else RowSize(ctx[0].right) + AfterSize(ctx[1..])
  }

  /** Frame `i` is not the outermost, and its ancestor links up to frame `i + 1`. */
  ghost predicate Up(fibers: map<FiberId, Fiber>, top: FiberId, ctx: seq<Frame>, i: nat)
    requires i + 1 < |ctx|
  {
    && ctx[i].parent in fibers && ctx[i].parent != top
    && fibers[ctx[i].parent].ret == Some(ctx[i + 1].parent)
    && fibers[ctx[i].parent].sibling == FirstId(ctx[i + 1].right)
  }

  /**
   * The walk has finished fiber `n`, which lies strictly inside the
   * subtree of `top`: the outermost frame is `top`, `n`'s links lead to
   * the innermost frame, and every frame's remaining siblings are shaped
   * and do not contain `top`.
   */
  ghost predicate Fin(fibers: map<FiberId, Fiber>, top: FiberId, n: FiberId, ctx: seq<Frame>)
  {
    && |ctx| > 0 && ctx[|ctx| - 1].parent == top
    && n in fibers && n != top
    && fibers[n].ret == Some(ctx[0].parent) && fibers[n].sibling == FirstId(ctx[0].right)
    && (forall i :: 0 <= i < |ctx| ==> RowShaped(fibers, ctx[i].parent, ctx[i].right))
    && (forall i :: 0 <= i < |ctx| ==> top !in RowIds(ctx[i].right))
    && (forall i :: 0 <= i && i + 1 < |ctx| ==> Up(fibers, top, ctx, i))
  }

  /** The walk is about to enter the shaped subtree `cur`. */
  ghost predicate Zip(fibers: map<FiberId, Fiber>, top: FiberId, cur: Tree, ctx: seq<Frame>)
  {
    Fin(fibers, top, cur.id, ctx) && Shaped(fibers, cur) && top !in IdSet(cur)
  }

  /** The first frame with siblings left, or `|ctx|` when there is none. */
  function FirstNonEmpty(ctx: seq<Frame>): (k: nat)
    ensures k <= |ctx|
    ensures forall i :: 0 <= i < k ==> ctx[i].right == []
    ensures k < |ctx| ==> ctx[k].right != []
  {
    if |ctx| == 0 then 0
    else if ctx[0].right != [] then 0
    else 1 + FirstNonEmpty(ctx[1..])
  }

  /** The position after climbing to frame `k` and stepping to its next sibling. */
  function NextCtx(ctx: seq<Frame>, k: nat): seq<Frame>
    requires k < |ctx| && ctx[k].right != []
  {
    [Frame(ctx[k].parent, ctx[k].right[1..])] + ctx[k + 1..]
  }

  /** The fibers of `t` in pre-order: `t` first, then each child's subtree in turn. */
  ghost function PreOrder(t: Tree): seq<FiberId>
    decreases t
  {
    [t.id] + PreOrderRow(t.kids)
  }

  ghost function PreOrderRow(ts: seq<Tree>): seq<FiberId>
    decreases ts
  {
    if |ts| == 0 then [] else PreOrder(ts[0]) + PreOrderRow(ts[1..])
  }

  /** What the walk visits once it leaves the current subtree: per frame, the siblings still to the right. */
  ghost function AfterPre(ctx: seq<Frame>): seq<FiberId>
  {
    if |ctx| == 0 then [] else PreOrderRow(ctx[0].right) + AfterPre(ctx[1..])
  }

  // ------------------------------------------------------------- lemmas

  lemma RowShapedFromShaped(fibers: map<FiberId, Fiber>, t: Tree, j: nat)
    requires Shaped(fibers, t) && j <= |t.kids|
    ensures RowShaped(fibers, t.id, t.kids[j..])
  {
    var r := t.kids[j..];
    forall i | 0 <= i < |r|
      ensures Linked(fibers, t.id, r, i) && Shaped(fibers, r[i])
    {
      assert Linked(fibers, t.id, t.kids, j + i);
      assert r[i + 1..] == t.kids[j + i + 1..];
    }
  }

  lemma RowShapedTail(fibers: map<FiberId, Fiber>, p: FiberId, ts: seq<Tree>)
    requires RowShaped(fibers, p, ts) && |ts| > 0
    ensures RowShaped(fibers, p, ts[1..])
  {
    var r := ts[1..];
    forall i | 0 <= i < |r|
      ensures Linked(fibers, p, r, i) && Shaped(fibers, r[i])
    {
      assert Linked(fibers, p, ts, i + 1);
      assert r[i + 1..] == ts[i + 2..];
    }
  }

  lemma RowIdsTail(ts: seq<Tree>)
    requires |ts| > 0
    ensures RowIds(ts) == IdSet(ts[0]) + RowIds(ts[1..])
  {
    forall x | x in RowIds(ts) ensures x in IdSet(ts[0]) + RowIds(ts[1..])
    {
      var i :| 0 <= i < |ts| && x in IdSet(ts[i]);
      if i > 0 {
        assert ts[1..][i - 1] == ts[i];
      }
    }
    forall x | x in RowIds(ts[1..]) ensures x in RowIds(ts)
    {
      var i :| 0 <= i < |ts[1..]| && x in IdSet(ts[1..][i]);
      assert ts[1..][i] == ts[i + 1];
    }
  }

  lemma IdSetKids(t: Tree, j: nat)
    requires j <= |t.kids|
    ensures RowIds(t.kids[j..]) <= IdSet(t)
  {
    forall x | x in RowIds(t.kids[j..]) ensures x in IdSet(t)
    {
      var i :| 0 <= i < |t.kids[j..]| && x in IdSet(t.kids[j..][i]);
      assert t.kids[j..][i] == t.kids[j + i];
    }
  }

  lemma DescendRows(fibers: map<FiberId, Fiber>, top: FiberId, cur: Tree, ctx: seq<Frame>)
    requires Zip(fibers, top, cur, ctx) && |cur.kids| > 0
    ensures var c2 := [Frame(cur.id, cur.kids[1..])] + ctx;
      forall i :: 0 <= i < |c2| ==> RowShaped(fibers, c2[i].parent, c2[i].right) && top !in RowIds(c2[i].right)
  {
    var c2 := [Frame(cur.id, cur.kids[1..])] + ctx;
    RowShapedFromShaped(fibers, cur, 1);
    IdSetKids(cur, 1);
    forall i | 0 <= i < |c2|
      ensures RowShaped(fibers, c2[i].parent, c2[i].right) && top !in RowIds(c2[i].right)
    {
      if i > 0 { assert c2[i] == ctx[i - 1]; }
    }
  }

  lemma DescendUps(fibers: map<FiberId, Fiber>, top: FiberId, cur: Tree, ctx: seq<Frame>)
    requires Fin(fibers, top, cur.id, ctx) && top != cur.id && |cur.kids| > 0
    ensures var c2 := [Frame(cur.id, cur.kids[1..])] + ctx;
      forall i :: 0 <= i && i + 1 < |c2| ==> Up(fibers, top, c2, i)
  {
    var c2 := [Frame(cur.id, cur.kids[1..])] + ctx;
    forall i | 0 <= i && i + 1 < |c2|
      ensures Up(fibers, top, c2, i)
    {
      if i > 0 { assert Up(fibers, top, ctx, i - 1); }
    }
  }

  /** Entering the first child of `cur`. */
  lemma Descend(fibers: map<FiberId, Fiber>, top: FiberId, cur: Tree, ctx: seq<Frame>)
    requires Zip(fibers, top, cur, ctx) && |cur.kids| > 0
    ensures Zip(fibers, top, cur.kids[0], [Frame(cur.id, cur.kids[1..])] + ctx)
  {
    assert Linked(fibers, cur.id, cur.kids, 0);
    IdSetKids(cur, 0);
    RowIdsTail(cur.kids);
    assert top !in IdSet(cur.kids[0]);
    DescendRows(fibers, top, cur, ctx);
    DescendUps(fibers, top, cur, ctx);
  }

  /** Stepping from a finished fiber to its next sibling. */
  lemma Advance(fibers: map<FiberId, Fiber>, top: FiberId, n: FiberId, ctx: seq<Frame>)
    requires Fin(fibers, top, n, ctx) && ctx[0].right != []
    ensures Zip(fibers, top, ctx[0].right[0], NextCtx(ctx, 0))
    ensures fibers[n].sibling == Some(ctx[0].right[0].id)
  {
    var r := ctx[0].right;
    var c2 := NextCtx(ctx, 0);
    assert RowShaped(fibers, ctx[0].parent, r);
    assert Linked(fibers, ctx[0].parent, r, 0);
    RowShapedTail(fibers, ctx[0].parent, r);
    RowIdsTail(r);
    forall i | 0 <= i < |c2|
      ensures RowShaped(fibers, c2[i].parent, c2[i].right) && top !in RowIds(c2[i].right)
    {
      if i > 0 { assert c2[i] == ctx[i]; }
    }
    forall i | 0 <= i && i + 1 < |c2|
      ensures Up(fibers, top, c2, i)
    {
      assert Up(fibers, top, ctx, i);
    }
  }

  /** Below the outermost frame, a finished fiber's parent exists and is not `top`. */
  lemma InnerParent(fibers: map<FiberId, Fiber>, top: FiberId, n: FiberId, ctx: seq<Frame>)
    requires Fin(fibers, top, n, ctx)
    ensures |ctx| > 1 ==> fibers[n].ret.Some? && fibers[n].ret.value != top
  {
    if |ctx| > 1 { assert Up(fibers, top, ctx, 0); }
  }

  /** Climbing from a finished last child to its parent, which is then finished too. */
  lemma Climb(fibers: map<FiberId, Fiber>, top: FiberId, n: FiberId, ctx: seq<Frame>)
    requires Fin(fibers, top, n, ctx) && ctx[0].right == [] && |ctx| > 1
    ensures Fin(fibers, top, ctx[0].parent, ctx[1..])
  {
    assert Up(fibers, top, ctx, 0);
    forall i | 0 <= i && i + 1 < |ctx[1..]|
      ensures Up(fibers, top, ctx[1..], i)
    {
      assert Up(fibers, top, ctx, i + 1);
    }
  }

  /** The pre-order of a shaped subtree lists fibers of the arena, one per fiber of the tree. */
  lemma {:induction false} PreOrderFits(fibers: map<FiberId, Fiber>, t: Tree)
    requires Shaped(fibers, t)
    ensures |PreOrder(t)| == Size(t)
    ensures forall y :: y in PreOrder(t) ==> y in fibers
    decreases t, 1
  {
    PreOrderRowFits(fibers, t.kids);
  }

  lemma {:induction false} PreOrderRowFits(fibers: map<FiberId, Fiber>, ts: seq<Tree>)
    requires forall i :: 0 <= i < |ts| ==> Shaped(fibers, ts[i])
    ensures |PreOrderRow(ts)| == RowSize(ts)
    ensures forall y :: y in PreOrderRow(ts) ==> y in fibers
    decreases ts, 0
  {
    if |ts| > 0 {
      PreOrderFits(fibers, ts[0]);
      PreOrderRowFits(fibers, ts[1..]);
    }
  }

  lemma AfterSizeSkip(ctx: seq<Frame>, k: nat)
    requires k <= |ctx| && forall i :: 0 <= i < k ==> ctx[i].right == []
    ensures AfterSize(ctx) == AfterSize(ctx[k..])
  {
    if k > 0 {
      AfterSizeSkip(ctx[1..], k - 1);
      assert ctx[1..][k - 1..] == ctx[k..];
    }
  }

  /** Leaving the current position for the next sibling up the frames never grows the work left. */
  lemma NextCtxSize(ctx: seq<Frame>, k: nat)
    requires k < |ctx| && ctx[k].right != [] && forall i :: 0 <= i < k ==> ctx[i].right == []
    ensures Size(ctx[k].right[0]) + AfterSize(NextCtx(ctx, k)) == AfterSize(ctx)
  {
    AfterSizeSkip(ctx, k);
    var c2 := NextCtx(ctx, k);
    assert c2[1..] == ctx[k + 1..];
    assert ctx[k..][1..] == ctx[k + 1..];
  }

  /**
   * The shared climb of `appendAllChildren` and `commitNestedComponent`:
   * while the fiber has no sibling, stop if its parent is `top` (or
   * missing), else move up; then relink the sibling's `return` and step to
   * it. Under `Fin` the relinking writes back the value already there.
   */
  method ClimbToSibling(heap: FiberHeap, top: FiberId, n: FiberId, ghost ctx: seq<Frame>)
    returns (next: Option<FiberId>, ghost cur: Tree, ghost ctx2: seq<Frame>)
    requires Fin(heap.fibers, top, n, ctx)
    modifies heap`fibers
    ensures heap.fibers == old(heap.fibers)
    ensures next.None? <==> FirstNonEmpty(ctx) == |ctx|
    ensures next.Some? ==>
      var k := FirstNonEmpty(ctx);
      && k < |ctx| && cur == ctx[k].right[0] && ctx2 == NextCtx(ctx, k) && next == Some(cur.id)
      && Zip(heap.fibers, top, cur, ctx2)
  {
    var node := n;
    ghost var i := 0;
    while heap.fibers[node].sibling.None?
      invariant 0 <= i < |ctx| && Fin(heap.fibers, top, node, ctx[i..])
      invariant forall j :: 0 <= j < i ==> ctx[j].right == []
      invariant heap.fibers == old(heap.fibers)
      decreases |ctx| - i
    {
      var r := heap.fibers[node].ret;
      if r.None? || r.value == top {
        InnerParent(heap.fibers, top, node, ctx[i..]);
        next, cur, ctx2 := None, Tree(top, []), [];
        return;
      }
      assert ctx[i..][1..] == ctx[i + 1..];
      Climb(heap.fibers, top, node, ctx[i..]);
      node := r.value;
      i := i + 1;
    }
    assert FirstNonEmpty(ctx) == i;
    Advance(heap.fibers, top, node, ctx[i..]);
    assert NextCtx(ctx[i..], 0) == NextCtx(ctx, i);
    var s := heap.fibers[node].sibling.value;
    Relink(heap, s, heap.fibers[node].ret);
    next := Some(s);
    cur := ctx[i].right[0];
    ctx2 := NextCtx(ctx, i);
  }

  /** `x.return = p` where the link is already `p`: the arena is unchanged. */
  method Relink(heap: FiberHeap, x: FiberId, p: Option<FiberId>)
    requires x in heap.fibers && heap.fibers[x].ret == p
    modifies heap`fibers
    ensures heap.fibers == old(heap.fibers)
  {
    heap.Put(x, heap.fibers[x].(ret := p));
    assert heap.fibers == old(heap.fibers);
  }

  /** A shaped fiber's children form its sibling chain. */
  lemma ShapedChain(fibers: map<FiberId, Fiber>, t: Tree)
    requires Shaped(fibers, t)
    ensures SiblingChain(fibers, fibers[t.id].child, KidIds(t.kids))
  {
    var c := KidIds(t.kids);
    forall i | 0 <= i < |c|
      ensures c[i] in fibers && fibers[c[i]].sibling == (if i + 1 < |c| then Some(c[i + 1]) else None)
    {
      assert Linked(fibers, t.id, t.kids, i);
      if i + 1 < |c| {
        assert t.kids[i + 1..][0] == t.kids[i + 1];
      }
    }
    assert |c| == 0 <==> fibers[t.id].child.None?;
    assert |c| > 0 ==> fibers[t.id].child == Some(c[0]);
    assert forall i :: 0 <= i < |c| ==> c[i] in fibers;
    assert forall i {:trigger fibers[c[i]]} :: 0 <= i < |c| ==>
          fibers[c[i]].sibling == (if i + 1 < |c| then Some(c[i + 1]) else None);
  }
}
