/**
 * Fiber nodes. Fibers live in an arena (`FiberHeap.fibers`), and every
 * fiber-to-fiber reference (`return`, `sibling`, `child`, `alternate`,
 * `deletions`) is an id into it, so ids play the part of object identity.
 */
module Fiber {
  import opened Wrappers
  import opened JsValues
  import opened FiberFlags
  import opened Jsx

  type FiberId = nat
  type HookId = nat
  type EffectId = nat
  type QueueId = nat

  datatype WorkTag =
    | FunctionComponent
    | ClassComponent
    | IndeterminateComponent
    | HostRoot
    | HostComponent
    | HostText
    | Fragment

  /** `stateNode`: nothing, a host instance (by id), or the root object of a HostRoot. */
  datatype StateNode = NoStateNode | HostInstance(id: nat) | RootRef(root: object)

  /** `memoizedState`: a state value (HostRoot) or the first hook of a function component. */
  datatype Memo = MemoValue(v: Value) | MemoHook(hook: HookId)

  /** A fiber node. `ftype` is the field `type`, `ret` the field `return`. */
  datatype Fiber = Fiber(
    tag: WorkTag,
    pendingProps: Value,
    key: Value,
    ftype: Value,
    stateNode: StateNode,
    ref: Value,
    ret: Option<FiberId>,
    sibling: Option<FiberId>,
    child: Option<FiberId>,
    index: int,
    memoizedProps: Value,
    memoizedState: Memo,
    updateQueue: Option<QueueId>,
    alternate: Option<FiberId>,
    flags: Flags,
    subtreeFlags: Flags,
    deletions: Option<seq<FiberId>>)

  /** `new FiberNode(tag, pendingProps, key)` */
  function NewFiber(tag: WorkTag, pendingProps: Value, key: Value): (f: Fiber)
    ensures f.tag == tag && f.pendingProps == pendingProps
    ensures f.key == (if Nullish(key) then Null else key)
    ensures f.ret.None? && f.sibling.None? && f.child.None? && f.alternate.None?
    ensures f.stateNode.NoStateNode? && f.ref == Null && f.ftype == Null && f.index == 0
    ensures f.memoizedProps == Null && f.memoizedState == MemoValue(Null) && f.updateQueue.None?
    ensures f.flags == NoFlags && f.subtreeFlags == NoFlags && f.deletions.None?
  {
    Fiber(tag, pendingProps, Coalesce(key, Null), Null, NoStateNode, Null, None, None, None, 0,
          Null, MemoValue(Null), None, None, NoFlags, NoFlags, None)
  }

  /** The fields `createWorkInProgress` copies from the current fiber. */
  function CopyFromCurrent(wip: Fiber, current: Fiber): Fiber
  {
    wip.(ftype := current.ftype, ref := current.ref, updateQueue := current.updateQueue,
         child := current.child, memoizedProps := current.memoizedProps,
         memoizedState := current.memoizedState)
  }

  /** `createFiberFromFragment(elements, key)` */
  function FiberFromFragment(elements: Value, key: Value): (f: Fiber)
    ensures f.tag == Fragment && f.pendingProps == elements
    ensures f == NewFiber(Fragment, elements, key)
  {
    NewFiber(Fragment, elements, key)
  }

  /** `createFiberFromText(textContent)`: props `{textContent}` and a null key. */
  function FiberFromText(text: Value): (f: Fiber)
    ensures f.tag == HostText && f.key == Null
    ensures f.pendingProps == Rec(map["textContent" := text])
  {
    NewFiber(HostText, Rec(map["textContent" := text]), Null)
  }

  /**
   * `createFiberFromElement(element)`: a function type makes a function
   * component, a string type a host component, the fragment type a fragment
   * of `props.children`, and any other type a function component.
   */
  function FiberFromElement(element: Value): (f: Fiber)
    ensures var t := Get(element, "type");
      && (f.tag == HostComponent <==> t.Str?)
      && (f.tag == Fragment <==> !t.Func? && !t.Str? && t == REACT_FRAGMENT_TYPE)
      && (f.tag == FunctionComponent <==> !t.Str? && (t.Func? || t != REACT_FRAGMENT_TYPE))
    ensures f.tag == Fragment ==> f == FiberFromFragment(Get(Get(element, "props"), "children"), Get(element, "key"))
    ensures f.tag != Fragment ==>
      f == NewFiber(f.tag, Get(element, "props"), Get(element, "key")).(ftype := Get(element, "type"), ref := Get(element, "ref"))
  {
    var key := Get(element, "key");
    var props := Get(element, "props");
    var t := Get(element, "type");
    if t.Func? then NewFiber(FunctionComponent, props, key).(ftype := t, ref := Get(element, "ref"))
    else if t.Str? then NewFiber(HostComponent, props, key).(ftype := t, ref := Get(element, "ref"))
    else if t == REACT_FRAGMENT_TYPE then FiberFromFragment(Get(props, "children"), key)
    else NewFiber(FunctionComponent, props, key).(ftype := t, ref := Get(element, "ref"))
  }

  /** The `alternate` links of `a` and `b` point at each other. */
  ghost predicate Paired(fibers: map<FiberId, Fiber>, a: FiberId, b: FiberId)
  {
    a in fibers && b in fibers && a != b && fibers[a].alternate == Some(b) && fibers[b].alternate == Some(a)
  }

  /**
   * `createWorkInProgress(current, pendingProps)` made `wip` and turned
   * `f0` into `f1`: without an alternate, a new fiber (the next id) with
   * the current fiber's tag, key and stateNode, paired with it; otherwise
   * the alternate itself with the new props and its flags and deletions
   * reset. Both copy type, ref, updateQueue, child, memoizedProps and
   * memoizedState from the current fiber.
   */
  ghost predicate Created(f0: map<FiberId, Fiber>, nextId: FiberId, current: FiberId, pendingProps: Value, wip: FiberId,
                          older f1: map<FiberId, Fiber>)
    requires current in f0
  {
    var c := f0[current];
    && (c.alternate.None? ==>
          && wip == nextId && wip !in f0
          && f1 == f0[current := c.(alternate := Some(wip))][wip :=
               CopyFromCurrent(NewFiber(c.tag, pendingProps, c.key).(stateNode := c.stateNode, alternate := Some(current)), c)])
    && (c.alternate.Some? ==>
          && c.alternate.value in f0
          && wip == c.alternate.value
          && f1 == f0[wip := CopyFromCurrent(f0[wip].(pendingProps := pendingProps,
               flags := NoFlags, subtreeFlags := NoFlags, deletions := None), c)])
  }

  class FiberHeap {
    var fibers: map<FiberId, Fiber>
    var nextId: FiberId

    ghost predicate Valid()
      reads this
    {
      forall id :: id in fibers ==> id < nextId
    }

    constructor()
      ensures Valid() && fibers == map[]
    {
      fibers := map[];
      nextId := 0;
    }

    /** Allocates a new fiber object holding `f`. */
    method Alloc(f: Fiber) returns (id: FiberId)
      requires Valid()
      modifies this
      ensures Valid()
      ensures id == old(nextId) && id !in old(fibers) && fibers == old(fibers)[id := f]
    {
      id := nextId;
      nextId := nextId + 1;
      fibers := fibers[id := f];
    }

    /** Replaces the record of an existing fiber. */
    method Put(id: FiberId, f: Fiber)
      requires id in fibers
      modifies this`fibers
      ensures fibers == old(fibers)[id := f]
      ensures old(Valid()) ==> Valid()
    {
      fibers := fibers[id := f];
    }

    /** `createWorkInProgress(current, pendingProps)`, as `Created` says. */
    method CreateWorkInProgress(current: FiberId, pendingProps: Value) returns (wip: FiberId)
      requires Valid() && current in fibers
      requires fibers[current].alternate.Some? ==> Paired(fibers, current, fibers[current].alternate.value)
      modifies this
      ensures Valid()
      ensures Paired(fibers, current, wip)
      ensures Created(old(fibers), old(nextId), current, pendingProps, wip, fibers)
      ensures wip == if old(fibers)[current].alternate.Some? then old(fibers)[current].alternate.value else old(nextId)
      ensures fibers[wip].pendingProps == pendingProps && fibers[wip].flags == NoFlags
      ensures fibers[wip].subtreeFlags == NoFlags && fibers[wip].deletions.None?
      ensures forall id :: id in old(fibers) ==>
        id in fibers && fibers[id].ret == old(fibers)[id].ret && fibers[id].sibling == old(fibers)[id].sibling
      ensures old(fibers)[current].alternate.None? ==> fibers[wip].ret.None? && fibers[wip].sibling.None?
    {
      var c := fibers[current];
      if c.alternate.None? {
        var w := NewFiber(c.tag, pendingProps, c.key).(stateNode := c.stateNode, alternate := Some(current));
        wip := Alloc(CopyFromCurrent(w, c));
        assert current in fibers && current < nextId;
        fibers := fibers[current := c.(alternate := Some(wip))];
        assert fibers == old(fibers)[current := c.(alternate := Some(wip))][wip := CopyFromCurrent(w, c)];
      } else {
        wip := c.alternate.value;
        var w := fibers[wip].(pendingProps := pendingProps, flags := NoFlags, subtreeFlags := NoFlags, deletions := None);
        assert wip < nextId;
        fibers := fibers[wip := CopyFromCurrent(w, c)];
      }
    }
  }

  /** Element types: function, string and fragment choose the tag; anything else is a function component. */
  lemma ElementTags(props: map<string, Value>, key: Value)
    ensures FiberFromElement(ReactElement(Func(7), key, Null, props)).tag == FunctionComponent
    ensures FiberFromElement(ReactElement(Str("div"), key, Null, props)).tag == HostComponent
    ensures FiberFromElement(ReactElement(REACT_FRAGMENT_TYPE, key, Null, props)).tag == Fragment
    ensures FiberFromElement(ReactElement(Num(1), key, Null, props)).tag == FunctionComponent
  {
  }
}
