/**
 * `completeWork(wip)` itself (completeWork.ts): the own work of a host
 * component or host text, followed by `bubbleProperties`.
 */
module CompleteFiber {
  import opened Wrappers
  import opened JsValues
  import opened FiberFlags
  import opened Fiber
  import opened ChildFiber
  import opened FiberTree
  import opened NoopHost
  import opened CompleteWalks

  /** A host fiber is completed as an update iff it has a current fiber and already holds a state node. */
  predicate IsUpdate(f: Fiber)
  {
    f.alternate.Some? && !f.stateNode.NoStateNode?
  }

  /** The alternate of `f`, when it has one, is in the arena. */
  predicate AlternateIn(fibers: map<FiberId, Fiber>, f: Fiber)
  {
    f.alternate.Some? ==> f.alternate.value in fibers
  }

  /** The record of `current` (`wip.alternate`); `f` itself stands in when there is none, where it is never read. */
  function CurrentOf(fibers: map<FiberId, Fiber>, f: Fiber): Fiber
    requires AlternateIn(fibers, f)
  {
    if f.alternate.Some? then fibers[f.alternate.value] else f
  }

  /** The tags `completeWork` handles; any other tag returns at once. */
  predicate Completes(tag: WorkTag)
  {
    tag == HostComponent || tag == HostText || tag == HostRoot || tag == FunctionComponent || tag == Fragment
  }

  /**
   * The fiber after its own part of `completeWork`, before bubbling:
   * `current` is its alternate and `instance` the id the host gives the
   * next instance it creates.
   */
  function OwnWork(f: Fiber, current: Fiber, instance: nat): Fiber
  {
    match f.tag
    case HostComponent => if IsUpdate(f) then UpdatedComponent(f, current) else MountedComponent(f, instance)
    case HostText => if IsUpdate(f) then UpdatedText(f, current) else MountedText(f, instance)
    case _ => f
  }

  /** `markUpdate(wip)`, then `markRef(wip)` when the ref object changed. */
  function UpdatedComponent(f: Fiber, current: Fiber): Fiber
  {
    if current.ref != f.ref then f.(flags := MarkRef(MarkUpdate(f.flags))) else f.(flags := MarkUpdate(f.flags))
  }

  /** `wip.stateNode = instance`, then `markRef(wip)` when the ref is not null. */
  function MountedComponent(f: Fiber, instance: nat): Fiber
  {
    if f.ref != Null then f.(stateNode := HostInstance(instance), flags := MarkRef(f.flags))
    else f.(stateNode := HostInstance(instance))
  }

  /** `markUpdate(wip)` when the old props' text differs from the new props' text. */
  function UpdatedText(f: Fiber, current: Fiber): Fiber
  {
    if Get(current.memoizedProps, "textContent") != Get(f.pendingProps, "textContent") then f.(flags := MarkUpdate(f.flags)) else f
  }

  /** `wip.stateNode = instance` */
  function MountedText(f: Fiber, instance: nat): Fiber
  {
    f.(stateNode := HostInstance(instance))
  }

  /** An updated host component always gets Update, and gets Ref iff its ref object changed; no flag is cleared. */
  lemma UpdatedHostComponentFlags(f: Fiber, current: Fiber, instance: nat)
    requires f.tag == HostComponent && IsUpdate(f)
    ensures var g := OwnWork(f, current, instance);
      && g.flags & f.flags == f.flags && g.stateNode == f.stateNode
      && HasAny(g.flags, Update)
      && (HasAny(g.flags, Ref) <==> HasAny(f.flags, Ref) || current.ref != f.ref)
  {
    if current.ref != f.ref {
      MarkBothBits(f.flags);
    } else {
      MarkUpdateBits(f.flags);
    }
  }

  /** A mounted host component gets the new instance, and Ref iff its ref is not null; Update is left as it was. */
  lemma MountedHostComponentFlags(f: Fiber, current: Fiber, instance: nat)
    requires f.tag == HostComponent && !IsUpdate(f)
    ensures var g := OwnWork(f, current, instance);
      && g.flags & f.flags == f.flags && g.stateNode == HostInstance(instance)
      && (HasAny(g.flags, Update) <==> HasAny(f.flags, Update))
      && (HasAny(g.flags, Ref) <==> HasAny(f.flags, Ref) || f.ref != Null)
  {
    if f.ref != Null {
      MarkRefBits(f.flags);
    } else {
      SelfAnd(f.flags);
    }
  }

  /** An updated host text gets Update iff the old props' text differs from the new props' text. */
  lemma UpdatedHostTextFlags(f: Fiber, current: Fiber, instance: nat)
    requires f.tag == HostText && IsUpdate(f)
    ensures var g := OwnWork(f, current, instance);
      && g.flags & f.flags == f.flags && g.stateNode == f.stateNode
      && (HasAny(g.flags, Update) <==>
            HasAny(f.flags, Update) || Get(current.memoizedProps, "textContent") != Get(f.pendingProps, "textContent"))
      && (HasAny(g.flags, Ref) <==> HasAny(f.flags, Ref))
  {
    if Get(current.memoizedProps, "textContent") != Get(f.pendingProps, "textContent") {
      MarkUpdateBits(f.flags);
    } else {
      SelfAnd(f.flags);
    }
  }

  /** Only a host fiber does work of its own; only its flags and state node can change. */
  lemma OwnWorkOnlyOnHosts(f: Fiber, current: Fiber, instance: nat)
    ensures !IsHost(f.tag) ==> OwnWork(f, current, instance) == f
    ensures var g := OwnWork(f, current, instance);
      g == f.(flags := g.flags, stateNode := g.stateNode)
  {
  }

  /** Every fiber of `xs` already holds a host instance of `nodes`. */
  ghost predicate Built(fibers: map<FiberId, Fiber>, nodes: map<nat, HostNode>, xs: seq<FiberId>)
  {
    forall x :: x in xs ==> x in fibers && fibers[x].stateNode.HostInstance? && fibers[x].stateNode.id in nodes
  }

  lemma BuiltReady(fibers: map<FiberId, Fiber>, nodes0: map<nat, HostNode>, nodes: map<nat, HostNode>, p: nat, xs: seq<FiberId>)
    requires Built(fibers, nodes0, xs) && p !in nodes0 && nodes0.Keys <= nodes.Keys
    ensures Ready(fibers, nodes, p, xs)
  {
  }

  lemma KidsOutsideTop(t: Tree)
    requires t.id !in RowIds(t.kids)
    ensures t.id !in KidIds(t.kids)
  {
    var c := KidIds(t.kids);
    forall i | 0 <= i < |c|
      ensures c[i] != t.id
    {
      assert c[i] in IdSet(t.kids[i]);
    }
  }

  /** The arena after the own work of `wip`; `completeWork` then bubbles over `chain`. */
  ghost function AfterOwnWork(fibers: map<FiberId, Fiber>, wip: FiberId, instance: nat): (r: map<FiberId, Fiber>)
    requires wip in fibers && AlternateIn(fibers, fibers[wip])
    ensures r.Keys == fibers.Keys
  {
    fibers[wip := OwnWork(fibers[wip], CurrentOf(fibers, fibers[wip]), instance)]
  }

  /** `after` is `before` with the own work of `wip` done and the flags of `chain` bubbled into it. */
  ghost predicate CompletedAs(before: map<FiberId, Fiber>, after: map<FiberId, Fiber>, wip: FiberId, chain: seq<FiberId>, instance: nat)
  {
    && wip in before && AlternateIn(before, before[wip])
    && (forall i :: 0 <= i < |chain| ==> chain[i] in before)
    && BubbledFrom(AfterOwnWork(before, wip, instance), after, wip, chain)
  }

  /** The host component part of `completeWork`: marks an update, or builds the instance and adopts the host descendants. */
  method CompleteHostComponent(heap: FiberHeap, host: NoopHostState, wip: FiberId, ghost t: Tree)
    returns (outcome: Outcome)
    requires Shaped(heap.fibers, t) && t.id == wip && wip !in RowIds(t.kids)
    requires heap.fibers[wip].tag == HostComponent && AlternateIn(heap.fibers, heap.fibers[wip])
    requires host.Valid() && Built(heap.fibers, host.nodes, TopsRow(heap.fibers, t.kids))
    modifies heap`fibers, host`nodes, host`containers, host`instanceCount
    ensures host.Valid()
    ensures outcome.Done? ==> heap.fibers == AfterOwnWork(old(heap.fibers), wip, old(host.instanceCount))
    ensures outcome.Thrown? ==> heap.fibers == old(heap.fibers)
    ensures IsUpdate(old(heap.fibers[wip])) ==>
      outcome.Done? && host.nodes == old(host.nodes) && host.containers == old(host.containers)
      && host.instanceCount == old(host.instanceCount)
    ensures !IsUpdate(old(heap.fibers[wip])) ==>
      NewInstance(old(heap.fibers), wip, old(host.nodes), old(host.instanceCount), host.nodes, host.instanceCount, TopsRow(old(heap.fibers), t.kids), outcome)
  {
    var f := heap.fibers[wip];
    if f.alternate.Some? && !f.stateNode.NoStateNode? {
      UpdateHostComponent(heap, wip);
      return Done;
    }
    outcome := MountHostComponent(heap, host, wip, t);
  }

  /** The update branch of the host component case: `markUpdate`, then Ref when the ref object changed. */
  method UpdateHostComponent(heap: FiberHeap, wip: FiberId)
    requires wip in heap.fibers && heap.fibers[wip].tag == HostComponent && IsUpdate(heap.fibers[wip])
    requires AlternateIn(heap.fibers, heap.fibers[wip])
    modifies heap`fibers
    ensures heap.fibers == old(heap.fibers)[wip := UpdatedComponent(old(heap.fibers[wip]), CurrentOf(old(heap.fibers), old(heap.fibers[wip])))]
  {
    var f := heap.fibers[wip];
    var current := heap.fibers[f.alternate.value];
    if current.ref != f.ref {
      heap.fibers := heap.fibers[wip := f.(flags := MarkRef(MarkUpdate(f.flags)))];
    } else {
      heap.fibers := heap.fibers[wip := f.(flags := MarkUpdate(f.flags))];
    }
  }

  /** The mount branch of the host component case: `createInstance`, `appendAllChildren`, `stateNode`, then Ref. */
  method MountHostComponent(heap: FiberHeap, host: NoopHostState, wip: FiberId, ghost t: Tree)
    returns (outcome: Outcome)
    requires Shaped(heap.fibers, t) && t.id == wip && wip !in RowIds(t.kids)
    requires heap.fibers[wip].tag == HostComponent && !IsUpdate(heap.fibers[wip]) && AlternateIn(heap.fibers, heap.fibers[wip])
    requires host.Valid() && Built(heap.fibers, host.nodes, TopsRow(heap.fibers, t.kids))
    modifies heap`fibers, host`nodes, host`containers, host`instanceCount
    ensures host.Valid()
    ensures outcome.Done? ==> heap.fibers == AfterOwnWork(old(heap.fibers), wip, old(host.instanceCount))
    ensures outcome.Thrown? ==> heap.fibers == old(heap.fibers)
    ensures NewInstance(old(heap.fibers), wip, old(host.nodes), old(host.instanceCount), host.nodes, host.instanceCount, TopsRow(old(heap.fibers), t.kids), outcome)
  {
    var instance;
    outcome, instance := BuildInstance(heap, host, wip, t);
    if outcome.Done? {
      StoreInstance(heap, wip, instance);
    }
  }

  /** `createInstance(wip.type, newProps)` followed by `appendAllChildren(instance, wip)`. */
  method BuildInstance(heap: FiberHeap, host: NoopHostState, wip: FiberId, ghost t: Tree)
    returns (outcome: Outcome, instance: nat)
    requires Shaped(heap.fibers, t) && t.id == wip && wip !in RowIds(t.kids)
    requires host.Valid() && Built(heap.fibers, host.nodes, TopsRow(heap.fibers, t.kids))
    modifies heap`fibers, host`nodes, host`containers, host`instanceCount
    ensures host.Valid() && heap.fibers == old(heap.fibers) && instance == old(host.instanceCount)
    ensures NewInstance(old(heap.fibers), wip, old(host.nodes), old(host.instanceCount), host.nodes, host.instanceCount, TopsRow(old(heap.fibers), t.kids), outcome)
  {
    var f := heap.fibers[wip];
    ghost var nodes0 := host.nodes;
    ghost var tops := TopsRow(heap.fibers, t.kids);
    instance := host.CreateInstance(f.ftype, f.pendingProps);
    BuiltReady(heap.fibers, nodes0, host.nodes, instance, tops);
    ghost var appended;
    outcome, appended := AppendAllChildren(heap, host, instance, wip, t);
  }

  /** `wip.stateNode = instance`, then Ref when the ref is not null. */
  method StoreInstance(heap: FiberHeap, wip: FiberId, instance: nat)
    requires wip in heap.fibers && heap.fibers[wip].tag == HostComponent && !IsUpdate(heap.fibers[wip])
    requires AlternateIn(heap.fibers, heap.fibers[wip])
    modifies heap`fibers
    ensures heap.fibers == old(heap.fibers)[wip := MountedComponent(old(heap.fibers[wip]), instance)]
  {
    var f := heap.fibers[wip];
    if f.ref != Null {
      heap.fibers := heap.fibers[wip := f.(stateNode := HostInstance(instance), flags := MarkRef(f.flags))];
    } else {
      heap.fibers := heap.fibers[wip := f.(stateNode := HostInstance(instance))];
    }
  }

  /**
   * A mounted host component: a new instance `n` (the counter's next id)
   * is created; the append of the topmost host descendants completes when
   * none of them has another parent, and then the instance holds them all.
   */
  ghost predicate NewInstance(fibers: map<FiberId, Fiber>, wip: FiberId, nodes0: map<nat, HostNode>, count0: nat,
                              nodes: map<nat, HostNode>, count: nat, tops: seq<FiberId>, outcome: Outcome)
  {
    && wip in fibers && count == count0 + 1 && count0 !in nodes0 && nodes.Keys == nodes0.Keys + {count0}
    && nodes[count0].Instance?
    && (Built(fibers, nodes0, tops)
        && Attachable(fibers, nodes0[count0 := Instance(fibers[wip].ftype, fibers[wip].pendingProps, [], Num(-1))], count0, tops)
        ==> outcome.Done?)
    && (outcome.Done? ==> Built(fibers, nodes0, tops) && nodes[count0].children == StateIds(fibers, tops))
  }

  /** The host text case: `newProps.textContent` throws on null props; otherwise Update on a changed text, or a new text instance. */
  method CompleteHostText(heap: FiberHeap, host: NoopHostState, wip: FiberId) returns (outcome: Outcome)
    requires wip in heap.fibers && heap.fibers[wip].tag == HostText && AlternateIn(heap.fibers, heap.fibers[wip])
    requires host.Valid()
    modifies heap`fibers, host`nodes, host`instanceCount
    ensures host.Valid()
    ensures outcome.Thrown? <==> Nullish(old(heap.fibers[wip]).pendingProps)
    ensures outcome.Thrown? ==> heap.fibers == old(heap.fibers)
    ensures outcome.Done? ==> heap.fibers == AfterOwnWork(old(heap.fibers), wip, old(host.instanceCount))
    ensures TextWork(old(heap.fibers[wip]), old(host.nodes), old(host.instanceCount), host.nodes, host.instanceCount, outcome)
  {
    var f := heap.fibers[wip];
    var newText := Read(f.pendingProps, "textContent");
    if newText.Throw? {
      return Thrown("TypeError: cannot read properties of null (reading 'textContent')");
    }
    outcome := Done;
    if f.alternate.Some? && !f.stateNode.NoStateNode? {
      var current := heap.fibers[f.alternate.value];
      var oldText := Get(current.memoizedProps, "textContent");
      if oldText != newText.value {
        heap.fibers := heap.fibers[wip := f.(flags := MarkUpdate(f.flags))];
      }
    } else {
      var instance := host.CreateTextInstance(newText.value);
      heap.fibers := heap.fibers[wip := f.(stateNode := HostInstance(instance))];
    }
  }

  /** The host side of the text case: a mount that does not throw creates one text instance holding the new text. */
  ghost predicate TextWork(f: Fiber, nodes0: map<nat, HostNode>, count0: nat, nodes: map<nat, HostNode>, count: nat, outcome: Outcome)
  {
    if outcome.Done? && !IsUpdate(f) then
      count0 !in nodes0 && count == count0 + 1
      && nodes == nodes0[count0 := TextInstance(Get(f.pendingProps, "textContent"), Num(-1))]
    else nodes == nodes0 && count == count0
  }

  /** `bubbleProperties(wip)` after the own work, over the children of the shape `t`. */
  method BubbleAfterOwnWork(heap: FiberHeap, wip: FiberId, ghost t: Tree, ghost f0: map<FiberId, Fiber>, ghost instance: nat)
    requires Shaped(f0, t) && t.id == wip && wip !in RowIds(t.kids) && AlternateIn(f0, f0[wip])
    requires heap.fibers == AfterOwnWork(f0, wip, instance)
    modifies heap`fibers
    ensures CompletedAs(f0, heap.fibers, wip, KidIds(t.kids), instance)
  {
    ghost var chain := KidIds(t.kids);
    ShapedChain(f0, t);
    KidsOutsideTop(t);
    OwnWorkOnlyOnHosts(f0[wip], CurrentOf(f0, f0[wip]), instance);
    SiblingChainFrame(f0, heap.fibers, f0[wip].child, chain);
    BubbleProperties(heap, wip, chain);
  }

  /**
   * `completeWork(wip)`: a host component or host text does its own work
   * (marking Update and Ref, or building its host instance), then the
   * handled tags bubble their children's flags; an unknown tag does
   * nothing. It always returns null: the work loop moves on by itself.
   * `t` is the shape of the finished subtree below `wip`, whose topmost
   * host fibers all hold instances already.
   */
  method CompleteWork(heap: FiberHeap, host: NoopHostState, wip: FiberId, ghost t: Tree) returns (outcome: Outcome)
    requires Shaped(heap.fibers, t) && t.id == wip && wip !in RowIds(t.kids)
    requires AlternateIn(heap.fibers, heap.fibers[wip])
    requires host.Valid() && Built(heap.fibers, host.nodes, TopsRow(heap.fibers, t.kids))
    modifies heap`fibers, host`nodes, host`containers, host`instanceCount
    ensures host.Valid()
    ensures outcome.Done? && Completes(old(heap.fibers[wip]).tag) ==>
      CompletedAs(old(heap.fibers), heap.fibers, wip, KidIds(t.kids), old(host.instanceCount))
    ensures outcome.Thrown? ==> heap.fibers == old(heap.fibers)
    ensures HostWork(old(heap.fibers), wip, TopsRow(old(heap.fibers), t.kids), old(host.nodes), old(host.instanceCount),
                     host.nodes, host.instanceCount, outcome)
    ensures !Completes(old(heap.fibers[wip]).tag) ==> outcome.Done? && heap.fibers == old(heap.fibers)
  {
    ghost var f0 := heap.fibers;
    ghost var count0 := host.instanceCount;
    var tag := heap.fibers[wip].tag;
    outcome := Done;
    match tag {
      case HostComponent =>
        outcome := CompleteHostComponent(heap, host, wip, t);
      case HostText =>
        outcome := CompleteHostText(heap, host, wip);
      case HostRoot =>
      case FunctionComponent =>
      case Fragment =>
      case _ =>
        return;
    }
    if outcome.Done? {
      OwnWorkOnlyOnHosts(f0[wip], CurrentOf(f0, f0[wip]), count0);
      BubbleAfterOwnWork(heap, wip, t, f0, count0);
    }
  }

  /** The host side of `completeWork`, by tag; only the host component and host text cases touch the host. */
  ghost predicate HostWork(fibers: map<FiberId, Fiber>, wip: FiberId, tops: seq<FiberId>, nodes0: map<nat, HostNode>, count0: nat,
                           nodes: map<nat, HostNode>, count: nat, outcome: Outcome)
  {
    wip in fibers &&
    var f := fibers[wip];
    match f.tag
    case HostComponent =>
      if IsUpdate(f) then outcome.Done? && nodes == nodes0 && count == count0
      else NewInstance(fibers, wip, nodes0, count0, nodes, count, tops, outcome)
    case HostText =>
      (outcome.Thrown? <==> Nullish(f.pendingProps)) && TextWork(f, nodes0, count0, nodes, count, outcome)
    case _ => outcome.Done? && nodes == nodes0 && count == count0
  }
}
