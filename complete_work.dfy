/**
 * The two walks of the complete phase (completeWork.ts): `bubbleProperties`
 * collects the children's flags into the parent's `subtreeFlags`, and
 * `appendAllChildren` hands a new host instance its topmost host
 * descendants.
 */
module CompleteWalks {
  import opened Wrappers
  import opened JsValues
  import opened FiberFlags
  import opened Fiber
  import opened ChildFiber
  import opened FiberTree
  import opened NoopHost

  predicate IsHost(tag: WorkTag)
  {
    tag == HostComponent || tag == HostText
  }

  // ------------------------------------------------------ bubbleProperties

  /** The OR of `subtreeFlags | flags` over the children `chain`, in the order the loop takes them. */
  ghost function ChildFlags(fibers: map<FiberId, Fiber>, chain: seq<FiberId>): Flags
    requires forall i :: 0 <= i < |chain| ==> chain[i] in fibers
  {
    if |chain| == 0 then NoFlags
    else
      var last := fibers[chain[|chain| - 1]];
      ChildFlags(fibers, chain[..|chain| - 1]) | last.subtreeFlags | last.flags
  }

  /** Bit `b` is set in the flags or the subtree flags of `f`. */
  predicate Carries(f: Fiber, b: Flags)
  {
    HasAny(f.flags, b) || HasAny(f.subtreeFlags, b)
  }

  lemma ChildFlagsStep(fibers: map<FiberId, Fiber>, chain: seq<FiberId>, i: nat, acc: Flags, sub: Flags, own: Flags)
    requires i < |chain| && forall j :: 0 <= j < |chain| ==> chain[j] in fibers
    requires acc == ChildFlags(fibers, chain[..i])
    requires sub == fibers[chain[i]].subtreeFlags && own == fibers[chain[i]].flags
    ensures acc | sub | own == ChildFlags(fibers, chain[..i + 1])
  {
    var c := chain[..i + 1];
    assert |c| == i + 1 && c[..|c| - 1] == chain[..i] && c[|c| - 1] == chain[i];
  }

  lemma PrefixStep(s: seq<FiberId>, i: nat)
    requires i < |s|
    ensures forall x :: x in s[..i + 1] <==> x in s[..i] || x == s[i]
  {
    assert s[..i + 1] == s[..i] + [s[i]];
  }

  lemma OrKeepsLeft(a: Flags, s: Flags, f: Flags, b: Flags)
    requires HasAny(a, b)
    ensures HasAny(a | s | f, b)
  {
  }

  lemma OrKeepsMid(a: Flags, s: Flags, f: Flags, b: Flags)
    requires HasAny(s, b)
    ensures HasAny(a | s | f, b)
  {
  }

  lemma OrKeepsLast(a: Flags, s: Flags, f: Flags, b: Flags)
    requires HasAny(f, b)
    ensures HasAny(a | s | f, b)
  {
  }

  lemma OrSplit(a: Flags, s: Flags, f: Flags, b: Flags)
    requires HasAny(a | s | f, b) && !HasAny(a, b)
    ensures HasAny(s, b) || HasAny(f, b)
  {
  }

  /** The bits of the prefix survive one more child. */
  lemma CoverPre(fibers: map<FiberId, Fiber>, chain: seq<FiberId>, b: Flags)
    requires |chain| > 0 && forall j :: 0 <= j < |chain| ==> chain[j] in fibers
    requires HasAny(ChildFlags(fibers, chain[..|chain| - 1]), b)
    ensures HasAny(ChildFlags(fibers, chain), b)
  {
    var last := fibers[chain[|chain| - 1]];
    OrKeepsLeft(ChildFlags(fibers, chain[..|chain| - 1]), last.subtreeFlags, last.flags, b);
  }

  /** The bits of the last child's subtree flags reach the result. */
  lemma CoverLastSub(fibers: map<FiberId, Fiber>, chain: seq<FiberId>, b: Flags)
    requires |chain| > 0 && forall j :: 0 <= j < |chain| ==> chain[j] in fibers
    requires HasAny(fibers[chain[|chain| - 1]].subtreeFlags, b)
    ensures HasAny(ChildFlags(fibers, chain), b)
  {
    var last := fibers[chain[|chain| - 1]];
    OrKeepsMid(ChildFlags(fibers, chain[..|chain| - 1]), last.subtreeFlags, last.flags, b);
  }

  /** The bits of the last child's own flags reach the result. */
  lemma CoverLastOwn(fibers: map<FiberId, Fiber>, chain: seq<FiberId>, b: Flags)
    requires |chain| > 0 && forall j :: 0 <= j < |chain| ==> chain[j] in fibers
    requires HasAny(fibers[chain[|chain| - 1]].flags, b)
    ensures HasAny(ChildFlags(fibers, chain), b)
  {
    var last := fibers[chain[|chain| - 1]];
    OrKeepsLast(ChildFlags(fibers, chain[..|chain| - 1]), last.subtreeFlags, last.flags, b);
  }

  lemma {:induction false} ChildFlagsCoverAt(fibers: map<FiberId, Fiber>, chain: seq<FiberId>, i: nat, b: Flags)
    requires i < |chain| && forall j :: 0 <= j < |chain| ==> chain[j] in fibers
    requires Carries(fibers[chain[i]], b)
    ensures HasAny(ChildFlags(fibers, chain), b)
  {
    var n := |chain|;
    assert n > 0;
    var pre := chain[..n - 1];
    if i < n - 1 {
      assert pre[i] == chain[i];
      ChildFlagsCoverAt(fibers, pre, i, b);
      CoverPre(fibers, chain, b);
    } else {
      assert i == n - 1;
      if HasAny(fibers[chain[i]].subtreeFlags, b) {
        CoverLastSub(fibers, chain, b);
      } else {
        CoverLastOwn(fibers, chain, b);
      }
    }
  }

  lemma {:induction false} ChildFlagsFromChildAt(fibers: map<FiberId, Fiber>, chain: seq<FiberId>, b: Flags)
    requires forall j :: 0 <= j < |chain| ==> chain[j] in fibers
    requires HasAny(ChildFlags(fibers, chain), b)
    ensures exists i :: 0 <= i < |chain| && Carries(fibers[chain[i]], b)
    decreases |chain|, 1
  {
    assert |chain| > 0;
    var pre := chain[..|chain| - 1];
    if HasAny(ChildFlags(fibers, pre), b) {
      ChildFlagsFromPrefix(fibers, chain, b);
    } else {
      LastCarries(fibers, chain, b);
    }
  }

  lemma {:induction false} ChildFlagsFromPrefix(fibers: map<FiberId, Fiber>, chain: seq<FiberId>, b: Flags)
    requires |chain| > 0 && forall j :: 0 <= j < |chain| ==> chain[j] in fibers
    requires HasAny(ChildFlags(fibers, chain[..|chain| - 1]), b)
    ensures exists i :: 0 <= i < |chain| && Carries(fibers[chain[i]], b)
    decreases |chain|, 0
  {
    var pre := chain[..|chain| - 1];
    ChildFlagsFromChildAt(fibers, pre, b);
    var i :| 0 <= i < |pre| && Carries(fibers[pre[i]], b);
    assert pre[i] == chain[i];
  }

  lemma LastCarries(fibers: map<FiberId, Fiber>, chain: seq<FiberId>, b: Flags)
    requires |chain| > 0 && forall j :: 0 <= j < |chain| ==> chain[j] in fibers
    requires HasAny(ChildFlags(fibers, chain), b) && !HasAny(ChildFlags(fibers, chain[..|chain| - 1]), b)
    ensures Carries(fibers[chain[|chain| - 1]], b)
  {
    var last := fibers[chain[|chain| - 1]];
    OrSplit(ChildFlags(fibers, chain[..|chain| - 1]), last.subtreeFlags, last.flags, b);
  }

  /** A bit is in the bubbled flags iff some child carries it. */
  lemma ChildFlagsExact(fibers: map<FiberId, Fiber>, chain: seq<FiberId>, b: Flags)
    requires forall i :: 0 <= i < |chain| ==> chain[i] in fibers
    ensures HasAny(ChildFlags(fibers, chain), b) <==> exists i :: 0 <= i < |chain| && Carries(fibers[chain[i]], b)
  {
    if HasAny(ChildFlags(fibers, chain), b) {
      ChildFlagsFromChildAt(fibers, chain, b);
    }
    if exists i :: 0 <= i < |chain| && Carries(fibers[chain[i]], b) {
      var i :| 0 <= i < |chain| && Carries(fibers[chain[i]], b);
      ChildFlagsCoverAt(fibers, chain, i, b);
    }
  }

  /** The arena after `child.return = wip` for each fiber of `xs`, in order. */
  ghost function Adopt(fibers: map<FiberId, Fiber>, xs: seq<FiberId>, wip: FiberId): (r: map<FiberId, Fiber>)
    requires forall i :: 0 <= i < |xs| ==> xs[i] in fibers
    ensures r.Keys == fibers.Keys
  {
    if |xs| == 0 then fibers
    else
      var m := Adopt(fibers, xs[..|xs| - 1], wip);
      m[xs[|xs| - 1] := m[xs[|xs| - 1]].(ret := Some(wip))]
  }

  /** Adoption changes only the `return` link, and only of the adopted fibers. */
  lemma {:induction false} AdoptAt(fibers: map<FiberId, Fiber>, xs: seq<FiberId>, wip: FiberId, id: FiberId)
    requires forall i :: 0 <= i < |xs| ==> xs[i] in fibers
    requires id in fibers
    ensures Adopt(fibers, xs, wip)[id] == if id in xs then fibers[id].(ret := Some(wip)) else fibers[id]
  {
    if |xs| > 0 {
      var pre := xs[..|xs| - 1];
      AdoptAt(fibers, pre, wip, id);
      assert xs == pre + [xs[|xs| - 1]];
    }
  }

  lemma AdoptStep(fibers: map<FiberId, Fiber>, xs: seq<FiberId>, wip: FiberId, i: nat)
    requires i < |xs| && forall j :: 0 <= j < |xs| ==> xs[j] in fibers
    ensures Adopt(fibers, xs[..i + 1], wip) ==
      Adopt(fibers, xs[..i], wip)[xs[i] := Adopt(fibers, xs[..i], wip)[xs[i]].(ret := Some(wip))]
  {
    var c := xs[..i + 1];
    assert |c| == i + 1 && c[..|c| - 1] == xs[..i] && c[|c| - 1] == xs[i];
  }

  /** `after` is `before` with the children adopted by `wip` and their flags bubbled into it. */
  ghost predicate BubbledFrom(before: map<FiberId, Fiber>, after: map<FiberId, Fiber>, wip: FiberId, chain: seq<FiberId>)
    requires wip in before && forall i :: 0 <= i < |chain| ==> chain[i] in before
  {
    after == Adopt(before, chain, wip)[wip := before[wip].(subtreeFlags := before[wip].subtreeFlags | ChildFlags(before, chain))]
  }

  /** What `BubbledFrom` means field by field: children point at `wip`, which gains their flags; nothing else changes. */
  lemma BubbledFromMeans(before: map<FiberId, Fiber>, after: map<FiberId, Fiber>, wip: FiberId, chain: seq<FiberId>)
    requires wip in before && forall i :: 0 <= i < |chain| ==> chain[i] in before
    requires wip !in chain && BubbledFrom(before, after, wip, chain)
    ensures after.Keys == before.Keys
    ensures after[wip] == before[wip].(subtreeFlags := before[wip].subtreeFlags | ChildFlags(before, chain))
    ensures forall i :: 0 <= i < |chain| ==> after[chain[i]] == before[chain[i]].(ret := Some(wip))
    ensures forall id :: id in before && id != wip && id !in chain ==> after[id] == before[id]
  {
    forall i | 0 <= i < |chain|
      ensures after[chain[i]] == before[chain[i]].(ret := Some(wip))
    {
      AdoptAt(before, chain, wip, chain[i]);
    }
    forall id | id in before && id != wip && id !in chain
      ensures after[id] == before[id]
    {
      AdoptAt(before, chain, wip, id);
    }
  }

  /** `subtreeFlags |= child.subtreeFlags; subtreeFlags |= child.flags;` for the `i`-th child. */
  method AddChildFlags(acc: Flags, child: Fiber, ghost fibers: map<FiberId, Fiber>, ghost chain: seq<FiberId>, ghost i: nat)
    returns (r: Flags)
    requires i < |chain| && forall j :: 0 <= j < |chain| ==> chain[j] in fibers
    requires acc == ChildFlags(fibers, chain[..i])
    requires child.subtreeFlags == fibers[chain[i]].subtreeFlags && child.flags == fibers[chain[i]].flags
    ensures r == ChildFlags(fibers, chain[..i + 1])
  {
    ChildFlagsStep(fibers, chain, i, acc, child.subtreeFlags, child.flags);
    r := acc | child.subtreeFlags;
    r := r | child.flags;
  }

  /** `child.return = wip` for the `i`-th child `c`; returns the child's record as it was read. */
  method AdoptNext(heap: FiberHeap, wip: FiberId, c: FiberId, ghost f0: map<FiberId, Fiber>, ghost chain: seq<FiberId>, ghost i: nat)
    returns (f: Fiber)
    requires i < |chain| && c == chain[i] && forall j :: 0 <= j < |chain| ==> chain[j] in f0
    requires heap.fibers == Adopt(f0, chain[..i], wip)
    modifies heap`fibers
    ensures f.flags == f0[c].flags && f.subtreeFlags == f0[c].subtreeFlags && f.sibling == f0[c].sibling
    ensures heap.fibers == Adopt(f0, chain[..i + 1], wip)
  {
    AdoptAt(f0, chain[..i], wip, c);
    AdoptStep(f0, chain, wip, i);
    f := heap.fibers[c];
    heap.Put(c, f.(ret := Some(wip)));
  }

  /** The state of the `bubbleProperties` loop after the first `i` children. */
  ghost predicate Scanned(f0: map<FiberId, Fiber>, fibers: map<FiberId, Fiber>, wip: FiberId, chain: seq<FiberId>,
                          i: nat, child: Option<FiberId>, acc: Flags)
    requires forall j :: 0 <= j < |chain| ==> chain[j] in f0
  {
    && i <= |chain|
    && child == (if i < |chain| then Some(chain[i]) else None)
    && acc == ChildFlags(f0, chain[..i])
    && fibers == Adopt(f0, chain[..i], wip)
  }

  /** One turn of the `bubbleProperties` loop, on the child `c`. */
  method BubbleStep(heap: FiberHeap, wip: FiberId, c: FiberId, acc: Flags,
                    ghost f0: map<FiberId, Fiber>, ghost first: Option<FiberId>, ghost chain: seq<FiberId>, ghost i: nat)
    returns (acc2: Flags, next: Option<FiberId>)
    requires SiblingChain(f0, first, chain)
    requires Scanned(f0, heap.fibers, wip, chain, i, Some(c), acc)
    modifies heap`fibers
    ensures Scanned(f0, heap.fibers, wip, chain, i + 1, next, acc2)
  {
    SiblingAt(f0, first, chain, i);
    var f := AdoptNext(heap, wip, c, f0, chain, i);
    acc2 := AddChildFlags(acc, f, f0, chain, i);
    next := f.sibling;
  }

  /** `wip.subtreeFlags |= subtreeFlags` once every child is scanned. */
  method BubbleFinish(heap: FiberHeap, wip: FiberId, acc: Flags, ghost f0: map<FiberId, Fiber>, ghost chain: seq<FiberId>)
    requires wip in f0 && wip !in chain && forall j :: 0 <= j < |chain| ==> chain[j] in f0
    requires Scanned(f0, heap.fibers, wip, chain, |chain|, None, acc)
    modifies heap`fibers
    ensures BubbledFrom(f0, heap.fibers, wip, chain)
  {
    assert chain[..|chain|] == chain;
    ghost var adopted := Adopt(f0, chain, wip);
    assert heap.fibers == adopted && acc == ChildFlags(f0, chain);
    AdoptAt(f0, chain, wip, wip);
    var w := heap.fibers[wip];
    assert w == f0[wip];
    var merged := w.subtreeFlags | acc;
    assert merged == f0[wip].subtreeFlags | ChildFlags(f0, chain);
    heap.Put(wip, w.(subtreeFlags := merged));
  }

  /**
   * `bubbleProperties(wip)`: walks the child chain, ORing each child's
   * `subtreeFlags` and `flags` and pointing its `return` at `wip`, then ORs
   * the result into `wip.subtreeFlags` (existing bits are kept).
   */
  method BubbleProperties(heap: FiberHeap, wip: FiberId, ghost chain: seq<FiberId>)
    requires wip in heap.fibers && SiblingChain(heap.fibers, heap.fibers[wip].child, chain) && wip !in chain
    modifies heap`fibers
    ensures BubbledFrom(old(heap.fibers), heap.fibers, wip, chain)
  {
    ghost var f0 := heap.fibers;
    ghost var first := f0[wip].child;
    assert forall j :: 0 <= j < |chain| ==> chain[j] in f0;
    var subtreeFlags := NoFlags;
    var child := heap.fibers[wip].child;
    ghost var i := 0;
    assert chain[..0] == [];
    while child.Some?
      invariant Scanned(f0, heap.fibers, wip, chain, i, child, subtreeFlags)
      decreases |chain| - i
    {
      subtreeFlags, child := BubbleStep(heap, wip, child.value, subtreeFlags, f0, first, chain, i);
      i := i + 1;
    }
    BubbleFinish(heap, wip, subtreeFlags, f0, chain);
  }

  // ------------------------------------------------------ appendAllChildren

  /** The topmost host fibers of `t`, in document order: `t` itself if it is a host fiber. */
  ghost function Tops(fibers: map<FiberId, Fiber>, t: Tree): seq<FiberId>
    decreases t
  {
    if t.id in fibers && IsHost(fibers[t.id].tag) then [t.id] else TopsRow(fibers, t.kids)
  }

  ghost function TopsRow(fibers: map<FiberId, Fiber>, ts: seq<Tree>): seq<FiberId>
    decreases ts
  {
    if |ts| == 0 then [] else Tops(fibers, ts[0]) + TopsRow(fibers, ts[1..])
  }

  /** The topmost host fibers among the siblings the zipper has still to visit. */
  ghost function AfterTops(fibers: map<FiberId, Fiber>, ctx: seq<Frame>): seq<FiberId>
  {
    if |ctx| == 0 then [] else TopsRow(fibers, ctx[0].right) + AfterTops(fibers, ctx[1..])
  }

  /** Every topmost host fiber is a host fiber of the subtree, and a host fiber hides its own subtree. */
  lemma {:induction false} TopsAreHost(fibers: map<FiberId, Fiber>, t: Tree)
    ensures forall x :: x in Tops(fibers, t) ==> x in IdSet(t) && x in fibers && IsHost(fibers[x].tag)
    ensures t.id in fibers && IsHost(fibers[t.id].tag) ==> Tops(fibers, t) == [t.id]
    decreases t, 1
  {
    if !(t.id in fibers && IsHost(fibers[t.id].tag)) {
      TopsRowAreHost(fibers, t.kids);
      IdSetKids(t, 0);
      assert t.kids[0..] == t.kids;
    }
  }

  lemma {:induction false} TopsRowAreHost(fibers: map<FiberId, Fiber>, ts: seq<Tree>)
    ensures forall x :: x in TopsRow(fibers, ts) ==> x in RowIds(ts) && x in fibers && IsHost(fibers[x].tag)
    decreases ts, 0
  {
    if |ts| > 0 {
      TopsAreHost(fibers, ts[0]);
      TopsRowAreHost(fibers, ts[1..]);
      RowIdsTail(ts);
    }
  }

  lemma AfterTopsSkip(fibers: map<FiberId, Fiber>, ctx: seq<Frame>, k: nat)
    requires k <= |ctx| && forall i :: 0 <= i < k ==> ctx[i].right == []
    ensures AfterTops(fibers, ctx) == AfterTops(fibers, ctx[k..])
  {
    if k > 0 {
      AfterTopsSkip(fibers, ctx[1..], k - 1);
      assert ctx[1..][k - 1..] == ctx[k..];
    }
  }

  /** What is left after climbing to frame `k` is its next sibling's tops, then the frames above. */
  lemma AfterTopsNext(fibers: map<FiberId, Fiber>, ctx: seq<Frame>, k: nat)
    requires k < |ctx| && ctx[k].right != [] && forall i :: 0 <= i < k ==> ctx[i].right == []
    ensures AfterTops(fibers, ctx) == Tops(fibers, ctx[k].right[0]) + AfterTops(fibers, NextCtx(ctx, k))
  {
    AfterTopsSkip(fibers, ctx, k);
    var c2 := NextCtx(ctx, k);
    assert c2[1..] == ctx[k + 1..];
    assert ctx[k..][1..] == ctx[k + 1..];
  }

  /** The walk entering a non-host fiber's first child. */
  lemma TopsDescend(fibers: map<FiberId, Fiber>, cur: Tree, ctx: seq<Frame>)
    requires |cur.kids| > 0 && !(cur.id in fibers && IsHost(fibers[cur.id].tag))
    ensures Tops(fibers, cur) + AfterTops(fibers, ctx) ==
      Tops(fibers, cur.kids[0]) + AfterTops(fibers, [Frame(cur.id, cur.kids[1..])] + ctx)
  {
    assert ([Frame(cur.id, cur.kids[1..])] + ctx)[1..] == ctx;
  }

  lemma SizeDescend(cur: Tree, ctx: seq<Frame>)
    requires |cur.kids| > 0
    ensures Size(cur.kids[0]) + AfterSize([Frame(cur.id, cur.kids[1..])] + ctx) < Size(cur) + AfterSize(ctx)
  {
    assert ([Frame(cur.id, cur.kids[1..])] + ctx)[1..] == ctx;
  }

  /** The walk's starting point: the first child of `wip`, with the remaining children as its frame. */
  lemma Start(fibers: map<FiberId, Fiber>, t: Tree)
    requires Shaped(fibers, t) && t.id !in RowIds(t.kids) && |t.kids| > 0
    ensures Zip(fibers, t.id, t.kids[0], [Frame(t.id, t.kids[1..])])
    ensures TopsRow(fibers, t.kids) == Tops(fibers, t.kids[0]) + AfterTops(fibers, [Frame(t.id, t.kids[1..])])
  {
    assert Linked(fibers, t.id, t.kids, 0);
    RowShapedFromShaped(fibers, t, 1);
    RowIdsTail(t.kids);
    assert [Frame(t.id, t.kids[1..])][1..] == [];
  }

  /** Every fiber of `xs` holds a host instance of `nodes` other than `p`. */
  ghost predicate Ready(fibers: map<FiberId, Fiber>, nodes: map<nat, HostNode>, p: nat, xs: seq<FiberId>)
  {
    forall x :: x in xs ==>
      x in fibers && fibers[x].stateNode.HostInstance? && fibers[x].stateNode.id in nodes && fibers[x].stateNode.id != p
  }

  /** The host instances of `xs` are unattached or already under `p`, so appending them to `p` cannot throw. */
  ghost predicate Attachable(fibers: map<FiberId, Fiber>, nodes: map<nat, HostNode>, p: nat, xs: seq<FiberId>)
    requires Ready(fibers, nodes, p, xs)
  {
    forall x :: x in xs ==> nodes[fibers[x].stateNode.id].parent in {Num(-1), Num(p)}
  }

  /** The host instance ids of `xs`. */
  ghost function StateIds(fibers: map<FiberId, Fiber>, xs: seq<FiberId>): (r: seq<nat>)
    requires forall x :: x in xs ==> x in fibers && fibers[x].stateNode.HostInstance?
    ensures |r| == |xs| && forall i :: 0 <= i < |xs| ==> r[i] == fibers[xs[i]].stateNode.id
  {
    if |xs| == 0 then [] else StateIds(fibers, xs[..|xs| - 1]) + [fibers[xs[|xs| - 1]].stateNode.id]
  }

  /**
   * The state of the `appendAllChildren` walk over the snapshot `fibers`:
   * `appended` is a prefix of the topmost host fibers `tops`; while a
   * fiber is current, it and the siblings still to visit hold the rest.
   */
  ghost predicate Walk(fibers: map<FiberId, Fiber>, wip: FiberId, node: Option<FiberId>, cur: Tree, ctx: seq<Frame>,
                       appended: seq<FiberId>, tops: seq<FiberId>)
  {
    && appended <= tops
    && (node.Some? ==>
          node == Some(cur.id) && Zip(fibers, wip, cur, ctx)
          && appended + Tops(fibers, cur) + AfterTops(fibers, ctx) == tops)
    && (node.None? ==> appended == tops)
  }

  /** The walk has just finished fiber `n`; the rest of `tops` lies in the siblings still to visit. */
  ghost predicate Finished(fibers: map<FiberId, Fiber>, wip: FiberId, n: FiberId, ctx: seq<Frame>,
                           appended: seq<FiberId>, tops: seq<FiberId>)
  {
    Fin(fibers, wip, n, ctx) && appended + AfterTops(fibers, ctx) == tops
  }

  /** The host side of the walk: `p`'s children are the old ones plus the instances of `appended`. */
  ghost predicate HostInv(nodes: map<nat, HostNode>, keys: set<nat>, p: nat, fibers: map<FiberId, Fiber>, tops: seq<FiberId>,
                          attachable: bool, children0: seq<nat>, appended: seq<FiberId>)
  {
    && nodes.Keys == keys && p in nodes && nodes[p].Instance?
    && Ready(fibers, nodes, p, tops)
    && (attachable ==> Attachable(fibers, nodes, p, tops))
    && appended <= tops
    && nodes[p].children == children0 + StateIds(fibers, appended)
  }

  /** The walk's first position: the first child of `wip`, or the end when it has none. */
  lemma StartWalk(fibers: map<FiberId, Fiber>, t: Tree) returns (cur: Tree, ctx: seq<Frame>)
    requires Shaped(fibers, t) && t.id !in RowIds(t.kids)
    ensures Walk(fibers, t.id, fibers[t.id].child, cur, ctx, [], TopsRow(fibers, t.kids))
  {
    if |t.kids| > 0 {
      Start(fibers, t);
      cur, ctx := t.kids[0], [Frame(t.id, t.kids[1..])];
    } else {
      cur, ctx := Tree(t.id, []), [];
    }
  }

  /** A host fiber is appended and its subtree skipped. */
  lemma HostDone(fibers: map<FiberId, Fiber>, wip: FiberId, cur: Tree, ctx: seq<Frame>, appended: seq<FiberId>, tops: seq<FiberId>)
    requires Walk(fibers, wip, Some(cur.id), cur, ctx, appended, tops) && IsHost(fibers[cur.id].tag)
    ensures cur.id in tops && appended + [cur.id] <= tops
    ensures Finished(fibers, wip, cur.id, ctx, appended + [cur.id], tops)
  {
    TopsAreHost(fibers, cur);
    assert appended + [cur.id] + AfterTops(fibers, ctx) == tops;
    assert tops[|appended|] == cur.id;
  }

  /** A non-host fiber without children contributes nothing. */
  lemma LeafDone(fibers: map<FiberId, Fiber>, wip: FiberId, cur: Tree, ctx: seq<Frame>, appended: seq<FiberId>, tops: seq<FiberId>)
    requires Walk(fibers, wip, Some(cur.id), cur, ctx, appended, tops)
    requires !IsHost(fibers[cur.id].tag) && fibers[cur.id].child.None?
    ensures Finished(fibers, wip, cur.id, ctx, appended, tops)
  {
    assert cur.kids == [];
    assert Tops(fibers, cur) == [];
    assert appended + [] == appended;
  }

  /** A non-host fiber with children: the walk enters the first child, whose `return` already is the fiber. */
  lemma DescendWalk(fibers: map<FiberId, Fiber>, wip: FiberId, cur: Tree, ctx: seq<Frame>, appended: seq<FiberId>, tops: seq<FiberId>)
    requires Walk(fibers, wip, Some(cur.id), cur, ctx, appended, tops)
    requires !IsHost(fibers[cur.id].tag) && fibers[cur.id].child.Some?
    ensures |cur.kids| > 0 && fibers[cur.id].child == Some(cur.kids[0].id)
    ensures cur.kids[0].id in fibers && fibers[cur.kids[0].id].ret == Some(cur.id)
    ensures Walk(fibers, wip, Some(cur.kids[0].id), cur.kids[0], [Frame(cur.id, cur.kids[1..])] + ctx, appended, tops)
    ensures Size(cur.kids[0]) + AfterSize([Frame(cur.id, cur.kids[1..])] + ctx) < Size(cur) + AfterSize(ctx)
  {
    assert |cur.kids| > 0;
    assert Linked(fibers, cur.id, cur.kids, 0);
    Descend(fibers, wip, cur, ctx);
    TopsDescend(fibers, cur, ctx);
    SizeDescend(cur, ctx);
    assert appended + Tops(fibers, cur.kids[0]) + AfterTops(fibers, [Frame(cur.id, cur.kids[1..])] + ctx) == tops;
  }

  /** The inner `while (node.sibling === null)` climb followed by the step to the sibling. */
  method ClimbWalk(heap: FiberHeap, wip: FiberId, n: FiberId, ghost ctx: seq<Frame>, ghost appended: seq<FiberId>, ghost tops: seq<FiberId>)
    returns (node: Option<FiberId>, ghost cur: Tree, ghost ctx2: seq<Frame>)
    requires Finished(heap.fibers, wip, n, ctx, appended, tops)
    modifies heap`fibers
    ensures heap.fibers == old(heap.fibers)
    ensures Walk(heap.fibers, wip, node, cur, ctx2, appended, tops)
    ensures node.Some? ==> Size(cur) + AfterSize(ctx2) <= AfterSize(ctx)
  {
    node, cur, ctx2 := ClimbToSibling(heap, wip, n, ctx);
    if node.Some? {
      AfterTopsNext(heap.fibers, ctx, FirstNonEmpty(ctx));
      NextCtxSize(ctx, FirstNonEmpty(ctx));
      assert appended + Tops(heap.fibers, cur) + AfterTops(heap.fibers, ctx2) == tops;
    } else {
      AfterTopsSkip(heap.fibers, ctx, |ctx|);
      assert ctx[|ctx|..] == [];
      assert appended + [] == appended;
    }
  }

  /** `appendInitialChild(parent, node.stateNode)` for the topmost host fiber `n`. */
  method AppendTop(host: NoopHostState, p: nat, sid: nat, ghost fibers: map<FiberId, Fiber>, ghost n: FiberId,
                   ghost keys: set<nat>, ghost tops: seq<FiberId>, ghost attachable: bool, ghost children0: seq<nat>,
                   ghost appended: seq<FiberId>)
    returns (outcome: Outcome)
    requires HostInv(host.nodes, keys, p, fibers, tops, attachable, children0, appended)
    requires n in tops && appended + [n] <= tops && fibers[n].stateNode == HostInstance(sid)
    modifies host`nodes, host`containers
    ensures outcome.Thrown? ==> !attachable && HostInv(host.nodes, keys, p, fibers, tops, attachable, children0, appended)
    ensures outcome.Done? ==> HostInv(host.nodes, keys, p, fibers, tops, attachable, children0, appended + [n])
  {
    ghost var nodes0 := host.nodes;
    assert sid in host.nodes && sid != p;
    outcome := host.AppendInitialChild(InstanceRef(p), sid);
    if outcome.Done? {
      assert StateIds(fibers, appended + [n])[..|appended|] == StateIds(fibers, appended);
      assert host.nodes[p].children == children0 + StateIds(fibers, appended + [n]);
      forall x | x in tops
        ensures host.nodes[fibers[x].stateNode.id].parent == if fibers[x].stateNode.id == sid then Num(p) else nodes0[fibers[x].stateNode.id].parent
      {
      }
    }
  }

  /** A topmost host fiber: its instance is appended to `p`, then the walk climbs to the next sibling. */
  method VisitHost(heap: FiberHeap, host: NoopHostState, p: nat, wip: FiberId, n: FiberId, sid: nat, ghost f0: map<FiberId, Fiber>,
                   ghost cur: Tree, ghost ctx: seq<Frame>, ghost appended: seq<FiberId>,
                   ghost keys: set<nat>, ghost tops: seq<FiberId>, ghost attachable: bool, ghost children0: seq<nat>)
    returns (outcome: Outcome, node: Option<FiberId>, ghost cur2: Tree, ghost ctx2: seq<Frame>, ghost appended2: seq<FiberId>)
    requires heap.fibers == f0 && cur.id == n && n in f0 && IsHost(f0[n].tag) && f0[n].stateNode == HostInstance(sid)
    requires Walk(f0, wip, Some(n), cur, ctx, appended, tops)
    requires HostInv(host.nodes, keys, p, f0, tops, attachable, children0, appended)
    modifies heap`fibers, host`nodes, host`containers
    ensures heap.fibers == f0
    ensures outcome.Thrown? ==> !attachable && appended2 == appended
    ensures HostInv(host.nodes, keys, p, f0, tops, attachable, children0, appended2)
    ensures outcome.Done? ==> Walk(f0, wip, node, cur2, ctx2, appended2, tops)
    ensures outcome.Done? && node.Some? ==> Size(cur2) + AfterSize(ctx2) <= AfterSize(ctx)
  {
    HostDone(f0, wip, cur, ctx, appended, tops);
    outcome := AppendTop(host, p, sid, f0, n, keys, tops, attachable, children0, appended);
    if outcome.Thrown? {
      node, cur2, ctx2, appended2 := None, cur, ctx, appended;
      return;
    }
    appended2 := appended + [n];
    node, cur2, ctx2 := ClimbWalk(heap, wip, n, ctx, appended2, tops);
  }

  /** One turn of the `appendAllChildren` loop at the current fiber `n`. */
  method WalkStep(heap: FiberHeap, host: NoopHostState, p: nat, wip: FiberId, n: FiberId, ghost f0: map<FiberId, Fiber>,
                  ghost cur: Tree, ghost ctx: seq<Frame>, ghost appended: seq<FiberId>,
                  ghost keys: set<nat>, ghost tops: seq<FiberId>, ghost attachable: bool, ghost children0: seq<nat>)
    returns (outcome: Outcome, node: Option<FiberId>, ghost cur2: Tree, ghost ctx2: seq<Frame>, ghost appended2: seq<FiberId>)
    requires heap.fibers == f0
    requires Walk(f0, wip, Some(n), cur, ctx, appended, tops)
    requires HostInv(host.nodes, keys, p, f0, tops, attachable, children0, appended)
    modifies heap`fibers, host`nodes, host`containers
    ensures heap.fibers == f0
    ensures outcome.Thrown? ==> !attachable && appended2 == appended
    ensures HostInv(host.nodes, keys, p, f0, tops, attachable, children0, appended2)
    ensures outcome.Done? ==> Walk(f0, wip, node, cur2, ctx2, appended2, tops)
    ensures outcome.Done? && node.Some? ==> Size(cur2) + AfterSize(ctx2) < Size(cur) + AfterSize(ctx)
  {
    var f := heap.fibers[n];
    if f.tag == HostComponent || f.tag == HostText {
      outcome, node, cur2, ctx2, appended2 := VisitHost(heap, host, p, wip, n, f.stateNode.id, f0, cur, ctx, appended, keys, tops, attachable, children0);
    } else if f.child.Some? {
      DescendWalk(f0, wip, cur, ctx, appended, tops);
      var c := f.child.value;
      Relink(heap, c, Some(n));
      outcome, node, appended2 := Done, Some(c), appended;
      cur2, ctx2 := cur.kids[0], [Frame(cur.id, cur.kids[1..])] + ctx;
    } else {
      LeafDone(f0, wip, cur, ctx, appended, tops);
      // The source's `node === wip` exit cannot fire: the walk stays strictly below `wip`.
      outcome, appended2 := Done, appended;
      node, cur2, ctx2 := ClimbWalk(heap, wip, n, ctx, appended, tops);
    }
  }

  /**
   * `appendAllChildren(parent, wip)`: appends the host instance of every
   * topmost host fiber below `wip`, in document order, to the new instance
   * `p`. Its `return` writes rewrite links the shape already holds, so the
   * arena is unchanged; an append that throws stops the walk.
   */
  method AppendAllChildren(heap: FiberHeap, host: NoopHostState, p: nat, wip: FiberId, ghost t: Tree)
    returns (outcome: Outcome, ghost appended: seq<FiberId>)
    requires Shaped(heap.fibers, t) && t.id == wip && wip !in RowIds(t.kids)
    requires host.HasParent(InstanceRef(p)) && Ready(heap.fibers, host.nodes, p, TopsRow(heap.fibers, t.kids))
    modifies heap`fibers, host`nodes, host`containers
    ensures heap.fibers == old(heap.fibers)
    ensures host.nodes.Keys == old(host.nodes).Keys && host.HasParent(InstanceRef(p))
    ensures outcome.Done? ==> appended == TopsRow(heap.fibers, t.kids)
    ensures Attachable(heap.fibers, old(host.nodes), p, TopsRow(heap.fibers, t.kids)) ==> outcome.Done?
    ensures appended <= TopsRow(heap.fibers, t.kids)
    ensures host.ChildrenOf(InstanceRef(p)) == old(host.ChildrenOf(InstanceRef(p))) + StateIds(heap.fibers, appended)
  {
    ghost var f0 := heap.fibers;
    ghost var tops := TopsRow(f0, t.kids);
    ghost var attachable := Attachable(f0, host.nodes, p, tops);
    ghost var children0 := host.nodes[p].children;
    ghost var keys := host.nodes.Keys;
    outcome := Done;
    appended := [];
    assert StateIds(f0, []) == [];
    var node := heap.fibers[wip].child;
    ghost var cur, ctx := StartWalk(f0, t);
    while node.Some?
      invariant heap.fibers == f0
      invariant Walk(f0, wip, node, cur, ctx, appended, tops)
      invariant HostInv(host.nodes, keys, p, f0, tops, attachable, children0, appended)
      invariant outcome.Done?
      decreases if node.Some? then Size(cur) + AfterSize(ctx) else 0
    {
      outcome, node, cur, ctx, appended := WalkStep(heap, host, p, wip, node.value, f0, cur, ctx, appended, keys, tops, attachable, children0);
      if outcome.Thrown? {
        return;
      }
    }
  }
}
