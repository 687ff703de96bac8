/**
 * `commitPlacement` and `insertOrAppendPlacementNodeIntoContainer`
 * (commitWork.ts): a fiber flagged Placement puts the host instances of
 * its topmost host fibers into its host parent, in document order, in
 * front of its host sibling when it has one and at the end otherwise.
 */
module CommitPlacement {
  import opened Wrappers
  import opened JsValues
  import opened Fiber
  import opened FiberRoot
  import opened NoopHost
  import opened FiberTree
  import opened FiberChains
  import opened CompleteWalks
  import opened CommitHost

  /** The parent id `appendChildToContainer` records: the container's `rootId`, or undefined under an instance, which has no `rootId`. */
  function RecordedParent(p: HostParent): Value
  {
    if p.ContainerRef? then Num(p.rootId) else Undefined
  }

  /** Every fiber of `xs` holds a host instance of `nodes`, other than the instance `p` itself. */
  ghost predicate Placeable(fibers: map<FiberId, Fiber>, nodes: map<nat, HostNode>, p: HostParent, xs: seq<FiberId>)
  {
    forall x :: x in xs ==>
      && x in fibers && fibers[x].stateNode.HostInstance? && fibers[x].stateNode.id in nodes
      && (p.InstanceRef? ==> fibers[x].stateNode.id != p.id)
  }

  /** The instances of `xs` are unattached or already recorded under `p`, so appending them to `p` cannot throw. */
  ghost predicate Appendable(fibers: map<FiberId, Fiber>, nodes: map<nat, HostNode>, p: HostParent, xs: seq<FiberId>)
    requires Placeable(fibers, nodes, p, xs)
  {
    forall x :: x in xs ==> nodes[fibers[x].stateNode.id].parent in {Num(-1), RecordedParent(p)}
  }

  /** Between `n0` and `n1` host nodes other than `p` at most had their parent recorded as `p`. */
  ghost predicate Settled(n0: map<nat, HostNode>, n1: map<nat, HostNode>, p: HostParent)
  {
    && n1.Keys == n0.Keys
    && (forall id :: id in n0 && !(p.InstanceRef? && id == p.id) ==>
          n1[id] == n0[id] || n1[id] == n0[id].(parent := RecordedParent(p)))
    && (p.InstanceRef? && p.id in n0 && n0[p.id].Instance? ==>
          n1[p.id].Instance? && n1[p.id] == n0[p.id].(children := n1[p.id].children))
  }

  /** `children` after each of `ids` is put in front of `b` in turn; once `b` is missing every insertion throws. */
  function InsertAll(children: seq<nat>, ids: seq<nat>, b: nat): seq<nat>
    decreases |ids|
  {
    if |ids| == 0 || b !in children then children
    else InsertAll(InsertResult(children, ids[0], b), ids[1..], b)
  }

  /** A host parent's children after `ids` are placed: appended, or each put in front of `before`. */
  function Placed(children: seq<nat>, ids: seq<nat>, before: Option<nat>): seq<nat>
  {
    if before.None? then children + ids else InsertAll(children, ids, before.value)
  }

  // ---------------------------------------------------------------- helper lemmas

  lemma {:induction false} InsertAllAppend(s: seq<nat>, a: seq<nat>, c: seq<nat>, b: nat)
    ensures InsertAll(s, a + c, b) == InsertAll(InsertAll(s, a, b), c, b)
    decreases |a|
  {
    if |a| == 0 {
      assert a + c == c;
    } else if b in s {
      assert (a + c)[0] == a[0] && (a + c)[1..] == a[1..] + c;
      InsertAllAppend(InsertResult(s, a[0], b), a[1..], c, b);
    }
  }

  lemma PlacedAppend(s: seq<nat>, a: seq<nat>, c: seq<nat>, before: Option<nat>)
    ensures Placed(s, a + c, before) == Placed(Placed(s, a, before), c, before)
  {
    if before.Some? {
      InsertAllAppend(s, a, c, before.value);
    }
  }

  lemma InsertKeepsBefore(s: seq<nat>, child: nat, b: nat)
    requires b in s
    ensures b in InsertResult(s, child, b)
  {
    var r := InsertResult(s, child, b);
    InsertResultCount(s, child, b);
    assert b in multiset(s);
    assert b in multiset(r);
  }

  lemma {:induction false} StateIdsAppend(fibers: map<FiberId, Fiber>, a: seq<FiberId>, c: seq<FiberId>)
    requires forall x :: x in a + c ==> x in fibers && fibers[x].stateNode.HostInstance?
    ensures StateIds(fibers, a + c) == StateIds(fibers, a) + StateIds(fibers, c)
  {
    var l, r := StateIds(fibers, a + c), StateIds(fibers, a) + StateIds(fibers, c);
    forall k | 0 <= k < |l| ensures l[k] == r[k]
    {
      if k >= |a| {
        assert (a + c)[k] == c[k - |a|];
      }
    }
  }

  lemma {:induction false} TopsRowAppend(fibers: map<FiberId, Fiber>, a: seq<Tree>, c: seq<Tree>)
    ensures TopsRow(fibers, a + c) == TopsRow(fibers, a) + TopsRow(fibers, c)
    decreases |a|
  {
    if |a| == 0 {
      assert a + c == c;
    } else {
      assert (a + c)[0] == a[0] && (a + c)[1..] == a[1..] + c;
      TopsRowAppend(fibers, a[1..], c);
    }
  }

  /** The tops of a row split at `i`: those before, those of the `i`-th tree, those after. */
  lemma TopsRowAt(fibers: map<FiberId, Fiber>, ts: seq<Tree>, i: nat)
    requires i < |ts|
    ensures TopsRow(fibers, ts[..i + 1]) == TopsRow(fibers, ts[..i]) + Tops(fibers, ts[i])
    ensures TopsRow(fibers, ts) == TopsRow(fibers, ts[..i + 1]) + TopsRow(fibers, ts[i + 1..])
  {
    assert ts[..i + 1] == ts[..i] + [ts[i]];
    TopsRowAppend(fibers, ts[..i], [ts[i]]);
    assert TopsRow(fibers, [ts[i]]) == Tops(fibers, ts[i]) + TopsRow(fibers, []);
    assert ts == ts[..i + 1] + ts[i + 1..];
    TopsRowAppend(fibers, ts[..i + 1], ts[i + 1..]);
  }

  lemma SettledTrans(n0: map<nat, HostNode>, n1: map<nat, HostNode>, n2: map<nat, HostNode>, p: HostParent)
    requires Settled(n0, n1, p) && Settled(n1, n2, p)
    ensures Settled(n0, n2, p)
  {
    forall id | id in n0 && !(p.InstanceRef? && id == p.id)
      ensures n2[id] == n0[id] || n2[id] == n0[id].(parent := RecordedParent(p))
    {
      assert id in n1;
    }
  }

  /** Recording `p` as the parent of other nodes keeps the instances of `xs` placeable and appendable. */
  lemma SettledKeeps(fibers: map<FiberId, Fiber>, n0: map<nat, HostNode>, n1: map<nat, HostNode>, p: HostParent, xs: seq<FiberId>)
    requires Settled(n0, n1, p) && Placeable(fibers, n0, p, xs)
    ensures Placeable(fibers, n1, p, xs)
    ensures Appendable(fibers, n0, p, xs) ==> Appendable(fibers, n1, p, xs)
  {
    if Appendable(fibers, n0, p, xs) {
      forall x | x in xs ensures n1[fibers[x].stateNode.id].parent in {Num(-1), RecordedParent(p)}
      {
        var id := fibers[x].stateNode.id;
        assert n1[id] == n0[id] || n1[id] == n0[id].(parent := RecordedParent(p));
      }
    }
  }

  // ---------------------------------------------------------------- insertOrAppend

  /**
   * `insertOrAppendPlacementNodeIntoContainer(fiber, hostParent, before)`
   * as evidently intended: a host fiber's instance goes in front of
   * `before` when there is one and at the end otherwise; a fiber of
   * another kind does the same for each child in turn, passing `before`
   * on. The code as written drops `before` in its recursive calls, so
   * every child of a non-host fiber is appended (`AsWrittenPlaced`,
   * `DroppedBefore`; see "## Findings" in the README). `placed` lists the topmost
   * host fibers whose instances went in; an insertion or append that
   * throws stops the walk.
   */
  method InsertOrAppend(heap: FiberHeap, host: NoopHostState, x: FiberId, parent: HostParent, before: Option<nat>, ghost t: Tree)
    returns (outcome: Outcome, ghost placed: seq<FiberId>)
    requires Shaped(heap.fibers, t) && t.id == x
    requires host.HasParent(parent) && Placeable(heap.fibers, host.nodes, parent, Tops(heap.fibers, t))
    modifies host`nodes, host`containers
    ensures ContainersOnly(old(host.containers), host.containers, parent)
    ensures host.HasParent(parent) && Settled(old(host.nodes), host.nodes, parent)
    ensures placed <= Tops(heap.fibers, t) && forall y :: y in placed ==> y in Tops(heap.fibers, t)
    ensures outcome.Done? <==> placed == Tops(heap.fibers, t)
    ensures host.ChildrenOf(parent) == Placed(old(host.ChildrenOf(parent)), StateIds(heap.fibers, placed), before)
    ensures before.None? && Appendable(heap.fibers, old(host.nodes), parent, Tops(heap.fibers, t)) ==> outcome.Done?
    ensures before.Some? && before.value in old(host.ChildrenOf(parent)) ==>
      outcome.Done? && before.value in host.ChildrenOf(parent)
    decreases t, 2
  {
    ghost var fibers := heap.fibers;
    var f := heap.fibers[x];
    if f.tag == HostComponent || f.tag == HostText {
      TopsAreHost(fibers, t);
      outcome := PlaceInstance(host, f.stateNode.id, parent, before);
      placed := if outcome.Done? then [x] else [];
      assert StateIds(fibers, [x]) == [f.stateNode.id];
      return;
    }
    outcome, placed := PlaceChildren(heap, host, x, parent, before, t);
  }

  /** One host instance into the host parent: `insertChildToContainer` in front of `before`, else `appendChildToContainer`. */
  method PlaceInstance(host: NoopHostState, id: nat, parent: HostParent, before: Option<nat>) returns (outcome: Outcome)
    requires host.HasParent(parent) && id in host.nodes && (parent.InstanceRef? ==> id != parent.id)
    modifies host`nodes, host`containers
    ensures ContainersOnly(old(host.containers), host.containers, parent)
    ensures host.HasParent(parent) && Settled(old(host.nodes), host.nodes, parent)
    ensures host.ChildrenOf(parent) == Placed(old(host.ChildrenOf(parent)), if outcome.Done? then [id] else [], before)
    ensures before.None? ==>
      (outcome.Done? <==> old(host.nodes)[id].parent in {Num(-1), RecordedParent(parent)})
    ensures before.Some? ==> (outcome.Done? <==> before.value in old(host.ChildrenOf(parent)))
    ensures before.Some? && outcome.Done? ==> before.value in host.ChildrenOf(parent)
  {
    ghost var n0, c0 := host.nodes, host.ChildrenOf(parent);
    PlacedOne(c0, id, before);
    if before.Some? {
      outcome := host.InsertChildToContainer(id, parent, before.value);
      ChildrenOnlySettled(n0, host.nodes, parent);
      if outcome.Done? {
        InsertKeepsBefore(c0, id, before.value);
      }
    } else {
      outcome := host.AppendChildToContainer(parent, id);
      AppendSettled(n0, host.nodes, parent, id, outcome.Done?);
    }
  }

  lemma PlacedOne(c0: seq<nat>, id: nat, before: Option<nat>)
    ensures Placed(c0, [], before) == c0
    ensures before.None? ==> Placed(c0, [id], before) == c0 + [id]
    ensures before.Some? && before.value in c0 ==> Placed(c0, [id], before) == InsertResult(c0, id, before.value)
  {
    if before.Some? && before.value in c0 {
      assert InsertAll(c0, [id], before.value) == InsertAll(InsertResult(c0, id, before.value), [], before.value);
    }
  }

  lemma ChildrenOnlySettled(n0: map<nat, HostNode>, n1: map<nat, HostNode>, p: HostParent)
    requires ChildrenOnly(n0, n1, p)
    ensures Settled(n0, n1, p)
  {
  }

  /** `appendChildToContainer` records `p` on the child (when it succeeds) and leaves other nodes but `p` alone. */
  lemma AppendSettled(n0: map<nat, HostNode>, n1: map<nat, HostNode>, p: HostParent, child: nat, done: bool)
    requires n1.Keys == n0.Keys && child in n0
    requires !done ==> n1 == n0
    requires done ==> n1[child] == n0[child].(parent := RecordedParent(p))
    requires done ==> forall id :: id in n0 && id != child && !(p.InstanceRef? && id == p.id) ==> id in n1 && n1[id] == n0[id]
    requires done && p.InstanceRef? && p.id in n0 && n0[p.id].Instance? ==> p.id in n1 && n1[p.id].Instance? && n1[p.id] == n0[p.id].(children := n1[p.id].children)
    ensures Settled(n0, n1, p)
  {
  }

  /**
   * What a walk over a row of trees has kept so far: the host nodes are
   * settled under `parent`, `placed` is a prefix of the row's tops, whose
   * instances sit in the parent's children as placement puts them, and
   * `before` is still among the children if it was at the start.
   */
  ghost predicate Progress(fibers: map<FiberId, Fiber>, n0: map<nat, HostNode>, c0: seq<nat>, nodes: map<nat, HostNode>,
                           children: seq<nat>, parent: HostParent, before: Option<nat>, tops: seq<FiberId>, placed: seq<FiberId>)
  {
    && Settled(n0, nodes, parent)
    && Placeable(fibers, n0, parent, tops)
    && placed <= tops && (forall y :: y in placed ==> y in tops)
    && children == Placed(c0, StateIds(fibers, placed), before)
    && (before.Some? && before.value in c0 ==> before.value in children)
  }

  /** The non-host case of `insertOrAppendPlacementNodeIntoContainer`: the child, then each of its siblings. */
  method PlaceChildren(heap: FiberHeap, host: NoopHostState, x: FiberId, parent: HostParent, before: Option<nat>, ghost t: Tree)
    returns (outcome: Outcome, ghost placed: seq<FiberId>)
    requires Shaped(heap.fibers, t) && t.id == x && !IsHost(heap.fibers[x].tag)
    requires host.HasParent(parent) && Placeable(heap.fibers, host.nodes, parent, TopsRow(heap.fibers, t.kids))
    modifies host`nodes, host`containers
    ensures ContainersOnly(old(host.containers), host.containers, parent)
    ensures host.HasParent(parent) && Settled(old(host.nodes), host.nodes, parent)
    ensures placed <= TopsRow(heap.fibers, t.kids) && forall y :: y in placed ==> y in TopsRow(heap.fibers, t.kids)
    ensures outcome.Done? <==> placed == TopsRow(heap.fibers, t.kids)
    ensures host.ChildrenOf(parent) == Placed(old(host.ChildrenOf(parent)), StateIds(heap.fibers, placed), before)
    ensures before.None? && Appendable(heap.fibers, old(host.nodes), parent, TopsRow(heap.fibers, t.kids)) ==> outcome.Done?
    ensures before.Some? && before.value in old(host.ChildrenOf(parent)) ==>
      outcome.Done? && before.value in host.ChildrenOf(parent)
    decreases t, 1
  {
    ghost var fibers := heap.fibers;
    ghost var kids := t.kids;
    ghost var tops := TopsRow(fibers, kids);
    ghost var n0, c0 := host.nodes, host.ChildrenOf(parent);
    hide ContainersOnly, Progress;
    ContainersOnlyRefl(host.containers, parent);
    ProgressStart(fibers, n0, c0, parent, before, tops);
    var node := heap.fibers[x].child;
    ghost var i := 0;
    outcome, placed := Done, [];
    assert kids[..0] == [];
    assert TopsRow(fibers, []) == [];
    while node.Some?
      invariant i <= |kids| && node == FirstId(kids[i..])
      invariant placed == TopsRow(fibers, kids[..i]) && outcome.Done?
      invariant host.HasParent(parent) && Progress(fibers, n0, c0, host.nodes, host.ChildrenOf(parent), parent, before, tops, placed)
      invariant ContainersOnly(old(host.containers), host.containers, parent)
      decreases |kids| - i
    {
      var o2;
      ghost var k1 := host.containers;
      o2, node, placed := PlaceKid(heap, host, node.value, parent, before, t, i, n0, c0, placed);
      ContainersOnlyTrans(old(host.containers), k1, host.containers, parent);
      if o2.Thrown? {
        outcome := o2;
        return;
      }
      i := i + 1;
    }
    assert kids[..i] == kids;
    ProgressEnd(fibers, n0, c0, host.nodes, host.ChildrenOf(parent), parent, before, tops, placed);
  }

  lemma ProgressStart(fibers: map<FiberId, Fiber>, n0: map<nat, HostNode>, c0: seq<nat>, parent: HostParent,
                      before: Option<nat>, tops: seq<FiberId>)
    requires Placeable(fibers, n0, parent, tops)
    ensures Progress(fibers, n0, c0, n0, c0, parent, before, tops, [])
  {
    PlacedOne(c0, 0, before);
  }

  lemma ProgressEnd(fibers: map<FiberId, Fiber>, n0: map<nat, HostNode>, c0: seq<nat>, nodes: map<nat, HostNode>,
                    children: seq<nat>, parent: HostParent, before: Option<nat>, tops: seq<FiberId>, placed: seq<FiberId>)
    requires Progress(fibers, n0, c0, nodes, children, parent, before, tops, placed)
    ensures Settled(n0, nodes, parent) && placed <= tops && (forall y :: y in placed ==> y in tops)
    ensures children == Placed(c0, StateIds(fibers, placed), before)
    ensures before.Some? && before.value in c0 ==> before.value in children
  {
  }

  /** One pass of the loop in `insertOrAppendPlacementNodeIntoContainer`: the `i`-th child of `t` and its tops. */
  method PlaceKid(heap: FiberHeap, host: NoopHostState, id: FiberId, parent: HostParent, before: Option<nat>, ghost t: Tree, ghost i: nat,
                  ghost n0: map<nat, HostNode>, ghost c0: seq<nat>, ghost placed: seq<FiberId>)
    returns (outcome: Outcome, next: Option<FiberId>, ghost placed2: seq<FiberId>)
    requires Shaped(heap.fibers, t) && i < |t.kids| && id == t.kids[i].id && placed == TopsRow(heap.fibers, t.kids[..i])
    requires host.HasParent(parent)
    requires Progress(heap.fibers, n0, c0, host.nodes, host.ChildrenOf(parent), parent, before, TopsRow(heap.fibers, t.kids), placed)
    modifies host`nodes, host`containers
    ensures ContainersOnly(old(host.containers), host.containers, parent)
    ensures host.HasParent(parent)
    ensures Progress(heap.fibers, n0, c0, host.nodes, host.ChildrenOf(parent), parent, before, TopsRow(heap.fibers, t.kids), placed2)
    ensures outcome.Done? ==> placed2 == TopsRow(heap.fibers, t.kids[..i + 1]) && next == FirstId(t.kids[i + 1..])
    ensures outcome.Thrown? ==> placed2 != TopsRow(heap.fibers, t.kids)
    ensures before.None? && Appendable(heap.fibers, n0, parent, TopsRow(heap.fibers, t.kids)) ==> outcome.Done?
    ensures before.Some? && before.value in c0 ==> outcome.Done?
    decreases t, 0
  {
    ghost var fibers := heap.fibers;
    ghost var n1, c1 := host.nodes, host.ChildrenOf(parent);
    assert Linked(fibers, t.id, t.kids, i);
    KidPlaceable(fibers, n0, c0, n1, c1, parent, before, t.kids, i, placed);
    ghost var p2;
    outcome, p2 := InsertOrAppend(heap, host, id, parent, before, t.kids[i]);
    ProgressStep(fibers, n0, c0, n1, c1, host.nodes, host.ChildrenOf(parent), parent, before, t.kids, i, placed, p2);
    placed2 := placed + p2;
    next := heap.fibers[id].sibling;
  }

  /** Before the `i`-th child is placed: its tops are placeable, and appendable if the whole row was. */
  lemma KidPlaceable(fibers: map<FiberId, Fiber>, n0: map<nat, HostNode>, c0: seq<nat>, n1: map<nat, HostNode>, c1: seq<nat>,
                     parent: HostParent, before: Option<nat>, kids: seq<Tree>, i: nat, placed: seq<FiberId>)
    requires i < |kids| && Progress(fibers, n0, c0, n1, c1, parent, before, TopsRow(fibers, kids), placed)
    ensures Placeable(fibers, n1, parent, Tops(fibers, kids[i]))
    ensures Appendable(fibers, n0, parent, TopsRow(fibers, kids)) ==> Appendable(fibers, n1, parent, Tops(fibers, kids[i]))
  {
    var tops := TopsRow(fibers, kids);
    TopsRowAt(fibers, kids, i);
    SettledKeeps(fibers, n0, n1, parent, tops);
  }

  /** After the `i`-th child is placed, with `p2` the prefix of its tops that went in. */
  lemma ProgressStep(fibers: map<FiberId, Fiber>, n0: map<nat, HostNode>, c0: seq<nat>, n1: map<nat, HostNode>, c1: seq<nat>,
                     n2: map<nat, HostNode>, c2: seq<nat>, parent: HostParent, before: Option<nat>, kids: seq<Tree>, i: nat,
                     placed: seq<FiberId>, p2: seq<FiberId>)
    requires i < |kids| && placed == TopsRow(fibers, kids[..i])
    requires Progress(fibers, n0, c0, n1, c1, parent, before, TopsRow(fibers, kids), placed)
    requires p2 <= Tops(fibers, kids[i]) && forall y :: y in p2 ==> y in Tops(fibers, kids[i])
    requires Placeable(fibers, n1, parent, Tops(fibers, kids[i]))
    requires Settled(n1, n2, parent)
    requires c2 == Placed(c1, StateIds(fibers, p2), before)
    requires before.Some? && before.value in c1 ==> before.value in c2
    ensures Progress(fibers, n0, c0, n2, c2, parent, before, TopsRow(fibers, kids), placed + p2)
    ensures p2 == Tops(fibers, kids[i]) ==> placed + p2 == TopsRow(fibers, kids[..i + 1])
    ensures p2 != Tops(fibers, kids[i]) ==> placed + p2 != TopsRow(fibers, kids)
  {
    TopsStep(fibers, kids, i, placed, p2);
    SettledTrans(n0, n1, n2, parent);
    ChildrenStep(fibers, c0, c1, c2, before, placed, p2);
  }

  lemma TopsStep(fibers: map<FiberId, Fiber>, kids: seq<Tree>, i: nat, placed: seq<FiberId>, p2: seq<FiberId>)
    requires i < |kids| && placed == TopsRow(fibers, kids[..i]) && p2 <= Tops(fibers, kids[i])
    ensures placed + p2 <= TopsRow(fibers, kids)
    ensures forall y :: y in placed + p2 ==> y in TopsRow(fibers, kids)
    ensures p2 == Tops(fibers, kids[i]) ==> placed + p2 == TopsRow(fibers, kids[..i + 1])
    ensures p2 != Tops(fibers, kids[i]) ==> placed + p2 != TopsRow(fibers, kids)
  {
    var tops := TopsRow(fibers, kids);
    TopsRowAt(fibers, kids, i);
    if p2 != Tops(fibers, kids[i]) {
      assert |p2| < |Tops(fibers, kids[i])|;
      assert |placed + p2| < |tops|;
    }
  }

  lemma ChildrenStep(fibers: map<FiberId, Fiber>, c0: seq<nat>, c1: seq<nat>, c2: seq<nat>, before: Option<nat>,
                     placed: seq<FiberId>, p2: seq<FiberId>)
    requires forall y :: y in placed + p2 ==> y in fibers && fibers[y].stateNode.HostInstance?
    requires c1 == Placed(c0, StateIds(fibers, placed), before)
    requires c2 == Placed(c1, StateIds(fibers, p2), before)
    ensures c2 == Placed(c0, StateIds(fibers, placed + p2), before)
  {
    StateIdsAppend(fibers, placed, p2);
    PlacedAppend(c0, StateIds(fibers, placed), StateIds(fibers, p2), before);
  }

  // ---------------------------------------------------------------- what placement promises

  /** With `before` at the head of `post`, a fresh child lands right in front of it. */
  lemma InsertFresh(pre: seq<nat>, post: seq<nat>, child: nat, b: nat)
    requires b !in pre && |post| > 0 && post[0] == b && child !in pre && child !in post
    ensures InsertResult(pre + post, child, b) == pre + [child] + post
  {
    var s := pre + post;
    assert s[..|pre|] == pre && s[|pre|..] == post && s[|pre|] == b;
    assert IndexOf(s, b) == |pre|;
  }

  /**
   * Placing fresh, distinct instances in front of `before` puts them, in
   * order, right where `before` stood: between what preceded it and it.
   */
  lemma {:induction false} InsertAllFresh(pre: seq<nat>, post: seq<nat>, ids: seq<nat>, b: nat)
    requires b !in pre && |post| > 0 && post[0] == b
    requires forall k :: 0 <= k < |ids| ==> ids[k] !in pre && ids[k] !in post
    requires forall j, k :: 0 <= j < k < |ids| ==> ids[j] != ids[k]
    ensures InsertAll(pre + post, ids, b) == pre + ids + post
    decreases |ids|
  {
    if |ids| > 0 {
      var s, pre', rest := pre + post, pre + [ids[0]], ids[1..];
      assert s[|pre|] == b;
      InsertFresh(pre, post, ids[0], b);
      assert forall k :: 0 <= k < |rest| ==> rest[k] == ids[k + 1];
      InsertAllFresh(pre', post, rest, b);
      calc {
        InsertAll(s, ids, b);
        InsertAll(InsertResult(s, ids[0], b), rest, b);
        { assert InsertResult(s, ids[0], b) == pre' + post; }
        InsertAll(pre' + post, rest, b);
        pre' + rest + post;
        { Regroup(pre, ids, post); }
        pre + ids + post;
      }
    }
  }

  lemma Regroup(pre: seq<nat>, ids: seq<nat>, post: seq<nat>)
    requires |ids| > 0
    ensures pre + [ids[0]] + ids[1..] + post == pre + ids + post
  {
    assert ids == [ids[0]] + ids[1..];
  }

  /** Appending fresh instances leaves the old children first, in order, and the new ones after them in order. */
  lemma AppendAllFresh(children: seq<nat>, ids: seq<nat>)
    ensures Placed(children, ids, None) == children + ids
  {
  }

  // ---------------------------------------------------------------- the code as written

  /**
   * Where `insertOrAppendPlacementNodeIntoContainer` as written puts the
   * tops of `t`: its recursive calls leave `before` out, so below a fiber
   * that is not a host fiber every instance is appended.
   */
  ghost function AsWrittenPlaced(fibers: map<FiberId, Fiber>, t: Tree, children: seq<nat>, before: Option<nat>): seq<nat>
    requires forall x :: x in Tops(fibers, t) ==> x in fibers && fibers[x].stateNode.HostInstance?
  {
    var ids := StateIds(fibers, Tops(fibers, t));
    if t.id in fibers && IsHost(fibers[t.id].tag) then Placed(children, ids, before) else children + ids
  }

  /** A function component placed in front of a host sibling: its `div` is wanted first, and goes last. */
  function DroppedBeforeArena(): map<FiberId, Fiber>
  {
    var fn := NewFiber(FunctionComponent, Null, Null);
    var div := NewFiber(HostComponent, Null, Null);
    map[0 := fn.(child := Some(1)),
        1 := div.(ret := Some(0), stateNode := HostInstance(7))]
  }

  lemma DroppedBefore()
    ensures var fibers, t := DroppedBeforeArena(), Tree(0, [Tree(1, [])]);
      && Shaped(fibers, t) && Tops(fibers, t) == [1]
      && AsWrittenPlaced(fibers, t, [5], Some(5)) == [5, 7]
      && Placed([5], StateIds(fibers, Tops(fibers, t)), Some(5)) == [7, 5]
  {
    var fibers, t := DroppedBeforeArena(), Tree(0, [Tree(1, [])]);
    assert Tops(fibers, Tree(1, [])) == [1];
    assert TopsRow(fibers, [Tree(1, [])]) == [1] + TopsRow(fibers, []);
    assert Linked(fibers, 0, t.kids, 0);
    assert Shaped(fibers, Tree(1, []));
    assert StateIds(fibers, [1]) == [7];
    assert IndexOf([5], 5) == 0;
    assert InsertResult([5], 7, 5) == [7, 5];
    assert InsertAll([5], [7], 5) == InsertAll([7, 5], [], 5);
  }

  // ---------------------------------------------------------------- commitPlacement

  /** The instance `insertOrAppendPlacementNodeIntoContainer` is handed as `before`: a host sibling's instance, if it has one. */
  function BeforeOf(s: SiblingSearch): Option<nat>
  {
    if s.SiblingFound? && s.instance.HostInstance? then Some(s.instance.id) else None
  }

  /**
   * The host after `commitPlacement(x)` completes: with a host parent, the
   * instances of the topmost host fibers of `t` are in it, in front of the
   * host sibling's instance when there is one and at the end otherwise;
   * with none, the host is as it was.
   */
  ghost function PlacementView(fibers: map<FiberId, Fiber>, container: nat, x: FiberId, t: Tree, v: HostView): HostView
  {
    if !(Closed(fibers) && x in fibers) then v
    else
      var r := HostParentOf(fibers, container, x);
      var tops := Tops(fibers, t);
      if r.ParentFound? && forall y :: y in tops ==> y in fibers && fibers[y].stateNode.HostInstance? then
        WithKids(v, r.parent, Placed(KidsOf(v, r.parent), StateIds(fibers, tops), BeforeOf(SiblingFrom(fibers, true, x, 2 * |fibers|))))
      else v
  }

  /** A placement that went through shows in the view as the new children of the host parent. */
  lemma PlacedView(fibers: map<FiberId, Fiber>, container: nat, x: FiberId, t: Tree,
                   n0: map<nat, HostNode>, c0: map<nat, seq<nat>>, n1: map<nat, HostNode>, c1: map<nat, seq<nat>>)
    requires Closed(fibers) && x in fibers && HostParentOf(fibers, container, x).ParentFound?
    requires var p := HostParentOf(fibers, container, x).parent;
      && ParentIn(n0, c0, p) && Settled(n0, n1, p) && ContainersOnly(c0, c1, p)
      && Placeable(fibers, n0, p, Tops(fibers, t))
      && KidsOf(ViewOf(n1, c1), p) ==
           Placed(KidsOf(ViewOf(n0, c0), p), StateIds(fibers, Tops(fibers, t)), BeforeOf(SiblingFrom(fibers, true, x, 2 * |fibers|)))
    ensures ViewOf(n1, c1) == PlacementView(fibers, container, x, t, ViewOf(n0, c0))
  {
    var p := HostParentOf(fibers, container, x).parent;
    OnlyKidsView(n0, c0, n1, c1, p);
  }

  /**
   * `commitPlacement(finishedWork)`: find the host parent and the host
   * sibling, then place the tops of `x` into that parent in front of that
   * sibling. The sibling search and the insertion are the repaired ones
   * of `GetHostSibling` and `InsertOrAppend` (see "## Findings" in the README). With no host parent nothing happens. A climb that runs out
   * of its bound (only possible over an arena whose `return` links loop)
   * is reported as thrown.
   */
  method CommitPlacement(heap: FiberHeap, host: NoopHostState, root: FiberRootNode, x: FiberId, ghost t: Tree)
    returns (outcome: Outcome, ghost placed: seq<FiberId>)
    requires Closed(heap.fibers) && RootsIn(heap.fibers, root) && Shaped(heap.fibers, t) && t.id == x
    requires var r := HostParentOf(heap.fibers, root.containerInfo, x);
      r.ParentFound? ==> host.HasParent(r.parent) && Placeable(heap.fibers, host.nodes, r.parent, Tops(heap.fibers, t))
    modifies host`nodes, host`containers
    ensures host.containers.Keys == old(host.containers).Keys
    ensures var r := HostParentOf(heap.fibers, root.containerInfo, x);
      var s := SiblingFrom(heap.fibers, true, x, 2 * |heap.fibers|);
      && (r.ParentOutOfFuel? || s.SiblingOutOfFuel? || r.NoHostParent? ==>
            && host.nodes == old(host.nodes) && host.containers == old(host.containers) && placed == []
            && (outcome.Done? <==> r.NoHostParent? && !s.SiblingOutOfFuel?))
      && (r.ParentFound? && !s.SiblingOutOfFuel? ==>
            && host.HasParent(r.parent) && Settled(old(host.nodes), host.nodes, r.parent)
            && ContainersOnly(old(host.containers), host.containers, r.parent)
            && placed <= Tops(heap.fibers, t)
            && (outcome.Done? <==> placed == Tops(heap.fibers, t))
            && host.ChildrenOf(r.parent) == Placed(old(host.ChildrenOf(r.parent)), StateIds(heap.fibers, placed), BeforeOf(s))
            && ((if BeforeOf(s).None? then Appendable(heap.fibers, old(host.nodes), r.parent, Tops(heap.fibers, t))
                 else BeforeOf(s).value in old(host.ChildrenOf(r.parent))) ==> outcome.Done?))
    ensures outcome.Done? ==> host.View() == PlacementView(heap.fibers, root.containerInfo, x, t, old(host.View()))
  {
    var hostParent := GetHostParent(heap, root, x);
    if hostParent.ParentOutOfFuel? {
      return Thrown(OUT_OF_FUEL), [];
    }
    var sibling := GetHostSibling(heap, x);
    if sibling.SiblingOutOfFuel? {
      return Thrown(OUT_OF_FUEL), [];
    }
    if hostParent.NoHostParent? {
      return Done, [];
    }
    ghost var n0, c0 := host.nodes, host.containers;
    outcome, placed := InsertOrAppend(heap, host, x, hostParent.parent, BeforeOf(sibling), t);
    if outcome.Done? {
      KidsOfView(n0, c0, hostParent.parent);
      KidsOfView(host.nodes, host.containers, hostParent.parent);
      PlacedView(heap.fibers, root.containerInfo, x, t, n0, c0, host.nodes, host.containers);
    }
  }
}
