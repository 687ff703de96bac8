/**
 * The traversal of `commitEffects` (commitWork.ts): starting at the
 * finished host root, the walk goes down first children while the
 * fiber's `subtreeFlags` meet the phase's mask, and otherwise calls the
 * phase's per-fiber step on the fiber, moves to its sibling, or climbs to
 * its parent and calls the step there. The visit order is therefore a
 * post-order of the part of the tree the mask lets the walk enter.
 */
module CommitWalk {
  import opened Wrappers
  import opened FiberFlags
  import opened Fiber
  import opened FiberTree
  import opened CompleteWalks

  /** The walk goes below `f`: its subtree flags meet the mask and it has a child. */
  predicate Descends(f: Fiber, mask: Flags)
  {
    HasAny(f.subtreeFlags, mask) && f.child.Some?
  }

  /** The fibers of `t` the walk hands to the per-fiber step, in order: the entered children's visits, then `t`. */
  ghost function Visit(fibers: map<FiberId, Fiber>, t: Tree, mask: Flags): seq<FiberId>
    decreases t
  {
    (if t.id in fibers && Descends(fibers[t.id], mask) then VisitRow(fibers, t.kids, mask) else []) + [t.id]
  }

  ghost function VisitRow(fibers: map<FiberId, Fiber>, ts: seq<Tree>, mask: Flags): seq<FiberId>
    decreases ts
  {
    if |ts| == 0 then [] else Visit(fibers, ts[0], mask) + VisitRow(fibers, ts[1..], mask)
  }

  /** What the walk visits after leaving the current subtree: per frame, the siblings to the right, then the parent. */
  ghost function After(fibers: map<FiberId, Fiber>, ctx: seq<Frame>, mask: Flags): seq<FiberId>
  {
    if |ctx| == 0 then [] else VisitRow(fibers, ctx[0].right, mask) + [ctx[0].parent] + After(fibers, ctx[1..], mask)
  }

  /**
   * `n`'s `return` and `sibling` lead into the frames `ctx`, innermost
   * first, whose remaining siblings are shaped; the outermost fiber has
   * neither a `return` nor a `sibling`.
   */
  ghost predicate Above(fibers: map<FiberId, Fiber>, n: FiberId, ctx: seq<Frame>)
    decreases |ctx|
  {
    && n in fibers
    && (if |ctx| == 0 then fibers[n].ret.None? && fibers[n].sibling.None?
        else
          && fibers[n].ret == Some(ctx[0].parent) && fibers[n].sibling == FirstId(ctx[0].right)
          && RowShaped(fibers, ctx[0].parent, ctx[0].right)
          && Above(fibers, ctx[0].parent, ctx[1..]))
  }

  // ------------------------------------------------------------ walk steps

  /** The first child of a shaped fiber sits in the frame of its parent and its right siblings. */
  lemma DescendLinks(fibers: map<FiberId, Fiber>, cur: Tree, ctx: seq<Frame>)
    requires Shaped(fibers, cur) && Above(fibers, cur.id, ctx) && fibers[cur.id].child.Some?
    ensures |cur.kids| > 0 && fibers[cur.id].child == Some(cur.kids[0].id)
    ensures Shaped(fibers, cur.kids[0]) && Above(fibers, cur.kids[0].id, [Frame(cur.id, cur.kids[1..])] + ctx)
    ensures Size(cur.kids[0]) < Size(cur)
  {
    var c2 := [Frame(cur.id, cur.kids[1..])] + ctx;
    assert Linked(fibers, cur.id, cur.kids, 0);
    RowShapedFromShaped(fibers, cur, 1);
    assert c2[1..] == ctx;
  }

  /** Entering the first child of a fiber the walk descends below. */
  lemma DescendStep(fibers: map<FiberId, Fiber>, mask: Flags, order: seq<FiberId>, cur: Tree, ctx: seq<Frame>, total: seq<FiberId>)
    requires Entering(fibers, mask, order, cur, ctx, total) && Descends(fibers[cur.id], mask)
    ensures |cur.kids| > 0 && fibers[cur.id].child == Some(cur.kids[0].id) && Size(cur.kids[0]) < Size(cur)
    ensures Entering(fibers, mask, order, cur.kids[0], [Frame(cur.id, cur.kids[1..])] + ctx, total)
  {
    DescendLinks(fibers, cur, ctx);
    DescendOrder(fibers, mask, cur, ctx);
  }

  lemma DescendOrder(fibers: map<FiberId, Fiber>, mask: Flags, cur: Tree, ctx: seq<Frame>)
    requires |cur.kids| > 0 && cur.id in fibers && Descends(fibers[cur.id], mask)
    ensures Rest(fibers, mask, cur, ctx) == Rest(fibers, mask, cur.kids[0], [Frame(cur.id, cur.kids[1..])] + ctx)
  {
    var c2 := [Frame(cur.id, cur.kids[1..])] + ctx;
    assert c2[1..] == ctx;
    var v0, vr := Visit(fibers, cur.kids[0], mask), VisitRow(fibers, cur.kids[1..], mask);
    assert VisitRow(fibers, cur.kids, mask) == v0 + vr;
    assert After(fibers, c2, mask) == vr + [cur.id] + After(fibers, ctx, mask);
  }

  /** Calling the step on `n` and moving to its sibling. */
  lemma SiblingStep(fibers: map<FiberId, Fiber>, n: FiberId, ctx: seq<Frame>, mask: Flags)
    requires Above(fibers, n, ctx) && fibers[n].sibling.Some?
    ensures |ctx| > 0 && ctx[0].right != [] && fibers[n].sibling == Some(ctx[0].right[0].id)
    ensures var c2 := [Frame(ctx[0].parent, ctx[0].right[1..])] + ctx[1..];
      && Shaped(fibers, ctx[0].right[0]) && Above(fibers, ctx[0].right[0].id, c2)
      && After(fibers, ctx, mask) == Rest(fibers, mask, ctx[0].right[0], c2)
  {
    var r := ctx[0].right;
    var c2 := [Frame(ctx[0].parent, r[1..])] + ctx[1..];
    assert Linked(fibers, ctx[0].parent, r, 0);
    RowShapedTail(fibers, ctx[0].parent, r);
    assert c2[1..] == ctx[1..];
    assert Above(fibers, r[0].id, c2);
    SiblingOrder(fibers, mask, ctx);
  }

  lemma SiblingOrder(fibers: map<FiberId, Fiber>, mask: Flags, ctx: seq<Frame>)
    requires |ctx| > 0 && ctx[0].right != []
    ensures After(fibers, ctx, mask) == Rest(fibers, mask, ctx[0].right[0], [Frame(ctx[0].parent, ctx[0].right[1..])] + ctx[1..])
  {
    var r, p := ctx[0].right, ctx[0].parent;
    var c2 := [Frame(p, r[1..])] + ctx[1..];
    assert c2[1..] == ctx[1..];
    var v0, vr, up := Visit(fibers, r[0], mask), VisitRow(fibers, r[1..], mask), After(fibers, ctx[1..], mask);
    assert VisitRow(fibers, r, mask) == v0 + vr;
    assert After(fibers, c2, mask) == vr + [p] + up;
    assert After(fibers, ctx, mask) == v0 + vr + [p] + up;
  }

  /** Calling the step on a last child and climbing to its parent. */
  lemma ParentStep(fibers: map<FiberId, Fiber>, n: FiberId, ctx: seq<Frame>, mask: Flags)
    requires Above(fibers, n, ctx) && fibers[n].sibling.None?
    ensures |ctx| == 0 <==> fibers[n].ret.None?
    ensures |ctx| == 0 ==> After(fibers, ctx, mask) == []
    ensures |ctx| > 0 ==> (fibers[n].ret == Some(ctx[0].parent) && Above(fibers, ctx[0].parent, ctx[1..])
      && After(fibers, ctx, mask) == [ctx[0].parent] + After(fibers, ctx[1..], mask))
  {
    if |ctx| > 0 {
      assert ctx[0].right == [];
    }
  }

  /** What is left to visit once the walk enters `cur` under the frames `ctx`. */
  ghost function Rest(fibers: map<FiberId, Fiber>, mask: Flags, cur: Tree, ctx: seq<Frame>): seq<FiberId>
  {
    Visit(fibers, cur, mask) + After(fibers, ctx, mask)
  }

  /** The walk is about to enter `cur`, the frames `ctx` above it, having visited `order` so far out of `total`. */
  ghost predicate Entering(fibers: map<FiberId, Fiber>, mask: Flags, order: seq<FiberId>, cur: Tree, ctx: seq<Frame>, total: seq<FiberId>)
  {
    Shaped(fibers, cur) && Above(fibers, cur.id, ctx) && order + Rest(fibers, mask, cur, ctx) == total
  }

  /** The walk is about to call the step on `n`, which it climbed to or which it did not descend below. */
  ghost predicate Leaving(fibers: map<FiberId, Fiber>, mask: Flags, order: seq<FiberId>, n: FiberId, ctx: seq<Frame>, total: seq<FiberId>)
  {
    Above(fibers, n, ctx) && order + [n] + After(fibers, ctx, mask) == total
  }

  /**
   * The inner loop of `commitEffects`: call the step on `n`, then on each
   * parent reached, until a fiber with a sibling is found (the walk
   * enters it next) or the top is passed (`next` is null).
   */
  method ClimbOrder(fibers: map<FiberId, Fiber>, mask: Flags, n: FiberId, ghost cur0: Tree, ghost c0: seq<Frame>,
                    ghost total: seq<FiberId>, order0: seq<FiberId>)
    returns (order: seq<FiberId>, next: Option<FiberId>, ghost cur: Tree, ghost ctx: seq<Frame>)
    requires n == cur0.id && Entering(fibers, mask, order0, cur0, c0, total) && !Descends(fibers[n], mask)
    ensures |order0| < |order| <= |total|
    ensures next.None? ==> order == total
    ensures next.Some? ==> next == Some(cur.id) && Entering(fibers, mask, order, cur, ctx, total)
  {
    assert Visit(fibers, cur0, mask) == [n];
    assert Leaving(fibers, mask, order0, n, c0, total);
    order := order0;
    next := Some(n);
    ghost var c := c0;
    cur, ctx := Tree(n, []), c0;
    var stepped := false;
    while next.Some? && !stepped
      invariant |order0| <= |order| <= |total| && (stepped || next.None? ==> |order| > |order0|)
      invariant !stepped && next.Some? ==> Leaving(fibers, mask, order, next.value, c, total)
      invariant !stepped && next.None? ==> order == total
      invariant stepped ==> next == Some(cur.id) && Entering(fibers, mask, order, cur, ctx, total)
      decreases |total| - |order|, if stepped then 0 else 1
    {
      var x := next.value;
      order := order + [x];
      var g := fibers[x];
      if g.sibling.Some? {
        SiblingStep(fibers, x, c, mask);
        cur := c[0].right[0];
        ctx := [Frame(c[0].parent, c[0].right[1..])] + c[1..];
        next := g.sibling;
        stepped := true;
      } else {
        ParentStep(fibers, x, c, mask);
        next := g.ret;
        if |c| > 0 {
          c := c[1..];
        }
      }
    }
  }

  /**
   * The traversal of `commitEffects(phase, mask, callback)` from the
   * finished host root `top`: `order` lists the fibers the callback is
   * called on, in the order of the calls. The steps of both phases leave
   * every link and subtree flag of the finished tree as it was, so the
   * order does not depend on what the steps do.
   */
  method CommitOrder(heap: FiberHeap, top: FiberId, mask: Flags, ghost t: Tree) returns (order: seq<FiberId>)
    requires Shaped(heap.fibers, t) && t.id == top
    requires heap.fibers[top].ret.None? && heap.fibers[top].sibling.None?
    ensures order == Visit(heap.fibers, t, mask)
  {
    var fibers := heap.fibers;
    ghost var total := Visit(fibers, t, mask);
    ghost var cur := t;
    ghost var ctx: seq<Frame> := [];
    var next: Option<FiberId> := Some(top);
    order := [];
    assert Entering(fibers, mask, order, cur, ctx, total);
    while next.Some?
      invariant next.Some? ==> next == Some(cur.id) && Entering(fibers, mask, order, cur, ctx, total)
      invariant next.None? ==> order == total
      invariant |order| <= |total|
      decreases |total| - |order|, Size(cur)
    {
      var f := fibers[next.value];
      if HasAny(f.subtreeFlags, mask) && f.child.Some? {
        DescendStep(fibers, mask, order, cur, ctx, total);
        next := f.child;
        ctx := [Frame(cur.id, cur.kids[1..])] + ctx;
        cur := cur.kids[0];
      } else {
        order, next, cur, ctx := ClimbOrder(fibers, mask, next.value, cur, ctx, total, order);
      }
    }
  }

  // ------------------------------------------------------------ coverage

  /** Every fiber of `t` whose children carry a mask bit has that bit in its own `subtreeFlags`, as `bubbleProperties` leaves it. */
  ghost predicate Bubbled(fibers: map<FiberId, Fiber>, t: Tree, mask: Flags)
    decreases t
  {
    && t.id in fibers
    && (forall i :: 0 <= i < |t.kids| ==> t.kids[i].id in fibers)
    && (forall i :: 0 <= i < |t.kids| && Carries(fibers[t.kids[i].id], mask) ==> HasAny(fibers[t.id].subtreeFlags, mask))
    && (forall i :: 0 <= i < |t.kids| ==> Bubbled(fibers, t.kids[i], mask))
  }

  /** A fiber of `t` with a mask bit in its own flags makes `t` carry the mask. */
  lemma {:induction false} CarriesUp(fibers: map<FiberId, Fiber>, t: Tree, y: FiberId, mask: Flags)
    requires Bubbled(fibers, t, mask) && y in IdSet(t) && y in fibers && HasAny(fibers[y].flags, mask)
    ensures Carries(fibers[t.id], mask)
    decreases t
  {
    if y != t.id {
      var i :| 0 <= i < |t.kids| && y in IdSet(t.kids[i]);
      CarriesUp(fibers, t.kids[i], y, mask);
    }
  }

  lemma {:induction false} InVisitRow(fibers: map<FiberId, Fiber>, ts: seq<Tree>, i: nat, y: FiberId, mask: Flags)
    requires i < |ts| && y in Visit(fibers, ts[i], mask)
    ensures y in VisitRow(fibers, ts, mask)
    decreases i
  {
    if i > 0 {
      assert ts[1..][i - 1] == ts[i];
      InVisitRow(fibers, ts[1..], i - 1, y, mask);
    }
  }

  /**
   * With subtree flags bubbled, the walk reaches every fiber whose own
   * flags meet the mask: no pending effect of the finished tree is
   * skipped.
   */
  lemma {:induction false} VisitCovers(fibers: map<FiberId, Fiber>, t: Tree, y: FiberId, mask: Flags)
    requires Shaped(fibers, t) && Bubbled(fibers, t, mask)
    requires y in IdSet(t) && y in fibers && HasAny(fibers[y].flags, mask)
    ensures y in Visit(fibers, t, mask)
    decreases t
  {
    if y != t.id {
      var i :| 0 <= i < |t.kids| && y in IdSet(t.kids[i]);
      CarriesUp(fibers, t.kids[i], y, mask);
      assert HasAny(fibers[t.id].subtreeFlags, mask);
      VisitCovers(fibers, t.kids[i], y, mask);
      InVisitRow(fibers, t.kids, i, y, mask);
    }
  }

  lemma {:induction false} VisitWithin(fibers: map<FiberId, Fiber>, t: Tree, mask: Flags)
    ensures forall y :: y in Visit(fibers, t, mask) ==> y in IdSet(t)
    decreases t, 1
  {
    VisitRowWithin(fibers, t.kids, mask);
    forall y | y in RowIds(t.kids) ensures y in IdSet(t)
    {
      IdSetKids(t, 0);
      assert t.kids[0..] == t.kids;
    }
  }

  lemma {:induction false} VisitRowWithin(fibers: map<FiberId, Fiber>, ts: seq<Tree>, mask: Flags)
    ensures forall y :: y in VisitRow(fibers, ts, mask) ==> y in RowIds(ts)
    decreases ts, 0
  {
    if |ts| > 0 {
      VisitWithin(fibers, ts[0], mask);
      VisitRowWithin(fibers, ts[1..], mask);
      RowIdsTail(ts);
    }
  }

  /** The walk never leaves the finished tree, and the root is always the last fiber visited. */
  lemma VisitShape(fibers: map<FiberId, Fiber>, t: Tree, mask: Flags)
    ensures forall y :: y in Visit(fibers, t, mask) ==> y in IdSet(t)
    ensures |Visit(fibers, t, mask)| > 0 && Visit(fibers, t, mask)[|Visit(fibers, t, mask)| - 1] == t.id
  {
    VisitWithin(fibers, t, mask);
  }
}
