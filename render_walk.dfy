/**
 * The walk of the render phase (workLoop.ts): `performUnitOfWork` calls
 * `beginWork` on the cursor and moves down to the child it returns; when
 * there is none, `completeUnitOfWork` calls `completeWork` on the fiber and
 * then on each ancestor it climbs to, until it reaches a fiber with a
 * sibling, which becomes the cursor. Over the tree the pass builds this
 * begins the fibers in pre-order and completes them in post-order.
 *
 * `beginWork` itself is modelled in BeginWork; here it is a parameter
 * saying, per fiber, the child it returns or that it throws. The
 * `return` and `sibling` links it writes are taken as present in the
 * arena, so the tree the walk follows is `Built`: each fiber's begin
 * returns its first child, and its children are linked into a row.
 */
module RenderWalk {
  import opened Wrappers
  import opened Fiber
  import opened FiberTree
  import opened CommitDeletion

  /** What `beginWork` does for a fiber: returns the next unit of work (its child, or null), or throws. */
  datatype BeginResult = Next(child: Option<FiberId>) | BeginThrew

  type BeginOracle = FiberId -> BeginResult

  /** The tree `t` as the walk meets it: each fiber's begin returns its first child or throws, and the children are linked. */
  ghost predicate Built(fibers: map<FiberId, Fiber>, begin: BeginOracle, t: Tree)
    decreases t
  {
    && (begin(t.id) == Next(FirstId(t.kids)) || begin(t.id) == BeginThrew)
    && (forall i :: 0 <= i < |t.kids| ==> Linked(fibers, t.id, t.kids, i))
    && (forall i :: 0 <= i < |t.kids| ==> Built(fibers, begin, t.kids[i]))
  }

  /** A row of siblings under `parent`, linked and built. */
  ghost predicate RowBuilt(fibers: map<FiberId, Fiber>, begin: BeginOracle, parent: FiberId, ts: seq<Tree>)
  {
    forall i :: 0 <= i < |ts| ==> Linked(fibers, parent, ts, i) && Built(fibers, begin, ts[i])
  }

  /**
   * `n`'s `return` and `sibling` lead into the frames `ctx`, innermost
   * first, whose remaining siblings are built; the outermost fiber has
   * neither a `return` nor a `sibling`.
   */
  ghost predicate Under(fibers: map<FiberId, Fiber>, begin: BeginOracle, n: FiberId, ctx: seq<Frame>)
    decreases |ctx|
  {
    && n in fibers
    && (if |ctx| == 0 then fibers[n].ret.None? && fibers[n].sibling.None?
        else
          && fibers[n].ret == Some(ctx[0].parent) && fibers[n].sibling == FirstId(ctx[0].right)
          && RowBuilt(fibers, begin, ctx[0].parent, ctx[0].right)
          && Under(fibers, begin, ctx[0].parent, ctx[1..]))
  }

  /** The fibers of `t` in post-order: each child's subtree in turn, then `t`. */
  ghost function PostOrder(t: Tree): seq<FiberId>
    decreases t
  {
    PostOrderRow(t.kids) + [t.id]
  }

  ghost function PostOrderRow(ts: seq<Tree>): seq<FiberId>
    decreases ts
  {
    if |ts| == 0 then [] else PostOrder(ts[0]) + PostOrderRow(ts[1..])
  }

  /** What the walk completes once it leaves the current subtree: per frame, the siblings to the right, then the parent. */
  ghost function AfterPost(ctx: seq<Frame>): seq<FiberId>
  {
    if |ctx| == 0 then [] else PostOrderRow(ctx[0].right) + [ctx[0].parent] + AfterPost(ctx[1..])
  }

  /**
   * The cursor is at `cur` under the frames `ctx`: so far `begun` were
   * begun and `completed` completed, and what is left of the pass makes
   * them the pre-order `pre` and the post-order `post`.
   */
  ghost predicate Walking(fibers: map<FiberId, Fiber>, begin: BeginOracle, begun: seq<FiberId>, completed: seq<FiberId>,
                          cur: Tree, ctx: seq<Frame>, pre: seq<FiberId>, post: seq<FiberId>)
  {
    && Built(fibers, begin, cur) && Under(fibers, begin, cur.id, ctx)
    && begun + PreOrder(cur) + AfterPre(ctx) == pre
    && completed + PostOrder(cur) + AfterPost(ctx) == post
  }

  /** `completeUnitOfWork` is about to complete `n`, whose subtree is done. */
  ghost predicate Climbing(fibers: map<FiberId, Fiber>, begin: BeginOracle, begun: seq<FiberId>, completed: seq<FiberId>,
                           n: FiberId, ctx: seq<Frame>, pre: seq<FiberId>, post: seq<FiberId>)
  {
    && Under(fibers, begin, n, ctx)
    && begun + AfterPre(ctx) == pre
    && completed + [n] + AfterPost(ctx) == post
  }

  /** `a` is a prefix of `b`. */
  ghost predicate Prefix(a: seq<FiberId>, b: seq<FiberId>)
  {
    |a| <= |b| && b[..|a|] == a
  }

  /** Every fiber of `f0` is in `f1` with the same `return` and `sibling` links, which are all the walk reads of the arena. */
  ghost predicate LinksKept(f0: map<FiberId, Fiber>, f1: map<FiberId, Fiber>)
  {
    && f0.Keys <= f1.Keys
    && forall id :: id in f0 ==> f1[id].ret == f0[id].ret && f1[id].sibling == f0[id].sibling
  }

  // ------------------------------------------------------------ walk steps

  /** Beginning a fiber whose begin returns a child moves the cursor to its first child. */
  lemma {:induction false} DescendStep(fibers: map<FiberId, Fiber>, begin: BeginOracle, begun: seq<FiberId>, completed: seq<FiberId>,
                    cur: Tree, ctx: seq<Frame>, pre: seq<FiberId>, post: seq<FiberId>)
    requires Walking(fibers, begin, begun, completed, cur, ctx, pre, post) && begin(cur.id).Next? && begin(cur.id).child.Some?
    ensures |cur.kids| > 0 && begin(cur.id).child == Some(cur.kids[0].id)
    ensures Walking(fibers, begin, begun + [cur.id], completed, cur.kids[0], [Frame(cur.id, cur.kids[1..])] + ctx, pre, post)
  {
    hide *;
    WalkingOpen(fibers, begin, begun, completed, cur, ctx, pre, post);
    BuiltOpen(fibers, begin, cur);
    UnderPush(fibers, begin, cur.id, cur.kids, ctx);
    DescendOrders(cur, ctx);
    var k0, c2 := cur.kids[0], [Frame(cur.id, cur.kids[1..])] + ctx;
    assert begun + [cur.id] + PreOrder(k0) + AfterPre(c2) == begun + (PreOrder(cur) + AfterPre(ctx));
    assert completed + PostOrder(k0) + AfterPost(c2) == completed + (PostOrder(cur) + AfterPost(ctx));
    WalkingPack(fibers, begin, begun + [cur.id], completed, k0, c2, pre, post);
  }

  lemma {:induction false} DescendOrders(cur: Tree, ctx: seq<Frame>)
    requires |cur.kids| > 0
    ensures PreOrder(cur) + AfterPre(ctx) == [cur.id] + PreOrder(cur.kids[0]) + AfterPre([Frame(cur.id, cur.kids[1..])] + ctx)
    ensures PostOrder(cur) + AfterPost(ctx) == PostOrder(cur.kids[0]) + AfterPost([Frame(cur.id, cur.kids[1..])] + ctx)
  {
    var c2 := [Frame(cur.id, cur.kids[1..])] + ctx;
    var k0, rest := cur.kids[0], cur.kids[1..];
    assert c2[0] == Frame(cur.id, rest) && c2[1..] == ctx;
    assert PreOrderRow(cur.kids) == PreOrder(k0) + PreOrderRow(rest);
    assert AfterPre(c2) == PreOrderRow(rest) + AfterPre(ctx);
    assert PostOrderRow(cur.kids) == PostOrder(k0) + PostOrderRow(rest);
    assert AfterPost(c2) == PostOrderRow(rest) + [cur.id] + AfterPost(ctx);
  }

  lemma {:induction false} WalkingOpen(fibers: map<FiberId, Fiber>, begin: BeginOracle, begun: seq<FiberId>, completed: seq<FiberId>,
                                        cur: Tree, ctx: seq<Frame>, pre: seq<FiberId>, post: seq<FiberId>)
    requires Walking(fibers, begin, begun, completed, cur, ctx, pre, post)
    ensures Built(fibers, begin, cur) && Under(fibers, begin, cur.id, ctx)
    ensures begun + PreOrder(cur) + AfterPre(ctx) == pre && completed + PostOrder(cur) + AfterPost(ctx) == post
  {
  }

  lemma {:induction false} WalkingPack(fibers: map<FiberId, Fiber>, begin: BeginOracle, begun: seq<FiberId>, completed: seq<FiberId>,
                                        cur: Tree, ctx: seq<Frame>, pre: seq<FiberId>, post: seq<FiberId>)
    requires Built(fibers, begin, cur) && Under(fibers, begin, cur.id, ctx)
    requires begun + PreOrder(cur) + AfterPre(ctx) == pre && completed + PostOrder(cur) + AfterPost(ctx) == post
    ensures Walking(fibers, begin, begun, completed, cur, ctx, pre, post)
  {
  }

  /** A built fiber's begin returns its first child or throws, and its children form a built row. */
  lemma {:induction false} BuiltOpen(fibers: map<FiberId, Fiber>, begin: BeginOracle, t: Tree)
    requires Built(fibers, begin, t)
    ensures begin(t.id) == BeginThrew || (begin(t.id) == Next(FirstId(t.kids)) && (begin(t.id).child.Some? <==> |t.kids| > 0))
    ensures |t.kids| > 0 && begin(t.id).Next? ==> begin(t.id).child == Some(t.kids[0].id)
    ensures forall i :: 0 <= i < |t.kids| ==> Linked(fibers, t.id, t.kids, i) && Built(fibers, begin, t.kids[i])
  {
  }

  /** Moving the cursor to the head of a built row pushes a frame holding the rest of the row. */
  lemma {:induction false} UnderPush(fibers: map<FiberId, Fiber>, begin: BeginOracle, p: FiberId, r: seq<Tree>, ctx: seq<Frame>)
    requires |r| > 0 && (forall i :: 0 <= i < |r| ==> Linked(fibers, p, r, i) && Built(fibers, begin, r[i]))
    requires Under(fibers, begin, p, ctx)
    ensures Built(fibers, begin, r[0]) && Under(fibers, begin, r[0].id, [Frame(p, r[1..])] + ctx)
  {
    var c2 := [Frame(p, r[1..])] + ctx;
    assert c2[0] == Frame(p, r[1..]) && c2[1..] == ctx;
    RowTail(fibers, begin, p, r);
  }

  /** The children of a built fiber form a built row; its head is linked and built, and so is its tail. */
  lemma {:induction false} RowTail(fibers: map<FiberId, Fiber>, begin: BeginOracle, p: FiberId, r: seq<Tree>)
    requires |r| > 0 && forall i :: 0 <= i < |r| ==> Linked(fibers, p, r, i) && Built(fibers, begin, r[i])
    ensures Linked(fibers, p, r, 0) && Built(fibers, begin, r[0]) && RowBuilt(fibers, begin, p, r[1..])
  {
    forall i | 0 <= i < |r[1..]|
      ensures Linked(fibers, p, r[1..], i) && Built(fibers, begin, r[1..][i])
    {
      assert r[1..][i] == r[i + 1] && r[1..][i + 1..] == r[i + 2..];
      assert Linked(fibers, p, r, i + 1);
    }
  }

  /** Beginning a fiber whose begin returns null leaves it to be completed; it has no children. */
  lemma {:induction false} LeafStep(fibers: map<FiberId, Fiber>, begin: BeginOracle, begun: seq<FiberId>, completed: seq<FiberId>,
                 cur: Tree, ctx: seq<Frame>, pre: seq<FiberId>, post: seq<FiberId>)
    requires Walking(fibers, begin, begun, completed, cur, ctx, pre, post) && begin(cur.id) == Next(None)
    ensures cur.kids == []
    ensures Climbing(fibers, begin, begun + [cur.id], completed, cur.id, ctx, pre, post)
  {
    assert PreOrder(cur) == [cur.id] && PostOrder(cur) == [cur.id];
  }

  /** Completing a fiber with a sibling moves the cursor to the sibling. */
  lemma {:induction false} SiblingStep(fibers: map<FiberId, Fiber>, begin: BeginOracle, begun: seq<FiberId>, completed: seq<FiberId>,
                    n: FiberId, ctx: seq<Frame>, pre: seq<FiberId>, post: seq<FiberId>)
    requires Climbing(fibers, begin, begun, completed, n, ctx, pre, post) && fibers[n].sibling.Some?
    ensures |ctx| > 0 && ctx[0].right != [] && fibers[n].sibling == Some(ctx[0].right[0].id)
    ensures Walking(fibers, begin, begun, completed + [n], ctx[0].right[0], [Frame(ctx[0].parent, ctx[0].right[1..])] + ctx[1..], pre, post)
  {
    UnderPush(fibers, begin, ctx[0].parent, ctx[0].right, ctx[1..]);
    SiblingOrders(ctx);
  }

  lemma {:induction false} SiblingOrders(ctx: seq<Frame>)
    requires |ctx| > 0 && ctx[0].right != []
    ensures AfterPre(ctx) == PreOrder(ctx[0].right[0]) + AfterPre([Frame(ctx[0].parent, ctx[0].right[1..])] + ctx[1..])
    ensures AfterPost(ctx) == PostOrder(ctx[0].right[0]) + AfterPost([Frame(ctx[0].parent, ctx[0].right[1..])] + ctx[1..])
  {
    var c2 := [Frame(ctx[0].parent, ctx[0].right[1..])] + ctx[1..];
    var r := ctx[0].right;
    assert c2[0] == Frame(ctx[0].parent, r[1..]) && c2[1..] == ctx[1..];
    AfterPreCons(ctx);
    AfterPreCons(c2);
    PreOrderRowCons(r);
    AfterPostCons(ctx);
    AfterPostCons(c2);
    PostOrderRowCons(r);
  }

  lemma {:induction false} AfterPostCons(ctx: seq<Frame>)
    requires |ctx| > 0
    ensures AfterPost(ctx) == PostOrderRow(ctx[0].right) + [ctx[0].parent] + AfterPost(ctx[1..])
  {
  }

  lemma {:induction false} PostOrderRowCons(ts: seq<Tree>)
    requires |ts| > 0
    ensures PostOrderRow(ts) == PostOrder(ts[0]) + PostOrderRow(ts[1..])
  {
  }

  /** Completing a last child climbs to its parent; completing the top ends the pass. */
  lemma {:induction false} ParentStep(fibers: map<FiberId, Fiber>, begin: BeginOracle, begun: seq<FiberId>, completed: seq<FiberId>,
                   n: FiberId, ctx: seq<Frame>, pre: seq<FiberId>, post: seq<FiberId>)
    requires Climbing(fibers, begin, begun, completed, n, ctx, pre, post) && fibers[n].sibling.None?
    ensures |ctx| == 0 <==> fibers[n].ret.None?
    ensures |ctx| == 0 ==> begun == pre && completed + [n] == post
    ensures |ctx| > 0 ==>
      && fibers[n].ret == Some(ctx[0].parent)
      && Climbing(fibers, begin, begun, completed + [n], ctx[0].parent, ctx[1..], pre, post)
  {
    if |ctx| > 0 {
      assert ctx[0].right == [];
      assert AfterPre(ctx) == AfterPre(ctx[1..]);
    }
  }

  /** Both logs are prefixes of the whole pass, and the cursor's own entries are still to come. */
  lemma {:induction false} WalkingBounds(fibers: map<FiberId, Fiber>, begin: BeginOracle, begun: seq<FiberId>, completed: seq<FiberId>,
                      cur: Tree, ctx: seq<Frame>, pre: seq<FiberId>, post: seq<FiberId>)
    requires Walking(fibers, begin, begun, completed, cur, ctx, pre, post)
    ensures cur.id in fibers
    ensures |begun| < |pre| && |completed| < |post| && Prefix(begun, pre) && Prefix(completed, post)
  {
    assert pre == begun + ([cur.id] + PreOrderRow(cur.kids) + AfterPre(ctx));
    assert post == completed + (PostOrder(cur) + AfterPost(ctx));
    assert pre[..|begun|] == begun && post[..|completed|] == completed;
  }

  lemma {:induction false} ClimbingBounds(fibers: map<FiberId, Fiber>, begin: BeginOracle, begun: seq<FiberId>, completed: seq<FiberId>,
                       n: FiberId, ctx: seq<Frame>, pre: seq<FiberId>, post: seq<FiberId>)
    requires Climbing(fibers, begin, begun, completed, n, ctx, pre, post)
    ensures n in fibers
    ensures |begun| <= |pre| && |completed| < |post| && Prefix(begun, pre) && Prefix(completed + [n], post)
  {
    assert pre == begun + AfterPre(ctx);
    assert post == (completed + [n]) + AfterPost(ctx);
    assert pre[..|begun|] == begun && post[..|completed| + 1] == completed + [n];
  }

  // ------------------------------------------------------------ the walk keeps to the links

  /** The walk reads only `return` and `sibling`, so an arena that keeps the links carries the same walk. */
  lemma {:induction false} WalkingLinks(f0: map<FiberId, Fiber>, f1: map<FiberId, Fiber>, begin: BeginOracle, begun: seq<FiberId>, completed: seq<FiberId>,
                     cur: Tree, ctx: seq<Frame>, pre: seq<FiberId>, post: seq<FiberId>)
    requires Walking(f0, begin, begun, completed, cur, ctx, pre, post) && LinksKept(f0, f1)
    ensures Walking(f1, begin, begun, completed, cur, ctx, pre, post)
  {
    BuiltLinks(f0, f1, begin, cur);
    UnderLinks(f0, f1, begin, cur.id, ctx);
  }

  lemma {:induction false} ClimbingLinks(f0: map<FiberId, Fiber>, f1: map<FiberId, Fiber>, begin: BeginOracle, begun: seq<FiberId>, completed: seq<FiberId>,
                      n: FiberId, ctx: seq<Frame>, pre: seq<FiberId>, post: seq<FiberId>)
    requires Climbing(f0, begin, begun, completed, n, ctx, pre, post) && LinksKept(f0, f1)
    ensures Climbing(f1, begin, begun, completed, n, ctx, pre, post)
  {
    UnderLinks(f0, f1, begin, n, ctx);
  }

  lemma {:induction false} BuiltLinks(f0: map<FiberId, Fiber>, f1: map<FiberId, Fiber>, begin: BeginOracle, t: Tree)
    requires Built(f0, begin, t) && LinksKept(f0, f1)
    ensures Built(f1, begin, t)
    decreases t
  {
    forall i | 0 <= i < |t.kids|
      ensures Linked(f1, t.id, t.kids, i) && Built(f1, begin, t.kids[i])
    {
      assert Linked(f0, t.id, t.kids, i);
      BuiltLinks(f0, f1, begin, t.kids[i]);
    }
  }

  lemma {:induction false} UnderLinks(f0: map<FiberId, Fiber>, f1: map<FiberId, Fiber>, begin: BeginOracle, n: FiberId, ctx: seq<Frame>)
    requires Under(f0, begin, n, ctx) && LinksKept(f0, f1)
    ensures Under(f1, begin, n, ctx)
    decreases |ctx|
  {
    if |ctx| > 0 {
      var r := ctx[0].right;
      forall i | 0 <= i < |r|
        ensures Linked(f1, ctx[0].parent, r, i) && Built(f1, begin, r[i])
      {
        assert Linked(f0, ctx[0].parent, r, i) && Built(f0, begin, r[i]);
        BuiltLinks(f0, f1, begin, r[i]);
      }
      UnderLinks(f0, f1, begin, ctx[0].parent, ctx[1..]);
    }
  }

  /** Over a fully built tree the walk begins every fiber once in pre-order and completes it once in post-order. */
  lemma {:induction false} PostOrderCovers(t: Tree)
    ensures multiset(PostOrder(t)) == multiset(PreOrder(t))
    decreases t, 1
  {
    PostOrderRowCovers(t.kids);
    assert multiset(PostOrder(t)) == multiset(PostOrderRow(t.kids)) + multiset{t.id};
    assert multiset(PreOrder(t)) == multiset{t.id} + multiset(PreOrderRow(t.kids));
  }

  lemma {:induction false} PostOrderRowCovers(ts: seq<Tree>)
    ensures multiset(PostOrderRow(ts)) == multiset(PreOrderRow(ts))
    decreases ts, 0
  {
    if |ts| > 0 {
      PostOrderCovers(ts[0]);
      PostOrderRowCovers(ts[1..]);
    }
  }
}
