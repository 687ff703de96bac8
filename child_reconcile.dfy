/**
 * `reconcileChildFibers(returnFiber, currentFirstChild, newChild)`
 * (packages/react-reconciler/src/childFiber.ts): unwraps an unkeyed
 * top-level fragment, then sends the child to the single-element, array or
 * single-text reconciler, rejects any other object, and deletes the old
 * children for anything else.
 */
module ChildReconcile {
  import opened Wrappers
  import opened JsValues
  import opened Jsx
  import opened FiberFlags
  import opened Fiber
  import opened ChildFiber
  import opened ChildArray
  import opened ChildMap
  import opened ChildDiff
  import opened ChildRest

  /** `isObject(newChild) && newChild.type === REACT_FRAGMENT_TYPE && newChild.key === null` */
  predicate UnkeyedFragment(v: Value)
  {
    IsObject(v) && Get(v, "type") == REACT_FRAGMENT_TYPE && Get(v, "key") == Null
  }

  /** The child actually reconciled: an unkeyed top-level fragment stands for its `props.children`. */
  function TopLevelChild(newChild: Value): Value
  {
    if UnkeyedFragment(newChild) then Get(Get(newChild, "props"), "children") else newChild
  }

  /** Where `reconcileChildFibers` sends a child. */
  datatype Route =
    | SingleElement(element: Value)
    | ChildList(items: seq<Value>)
    | BadObject
    | SingleText(text: string)
    | NoChildren

  /**
   * The branch taken for `newChild`: an element goes to
   * `reconcilerSingleElement`, an array to `reconcileChildrenArray`, any
   * other object is thrown on, a string or a number becomes text (`"" +
   * newChild`), and anything else deletes the old children.
   */
  function RouteOf(newChild: Value): (r: Route)
    ensures var c := TopLevelChild(newChild);
      && (r.SingleElement? <==> IsValidElement(c))
      && (r.SingleElement? ==> r.element == c)
      && (r.ChildList? <==> c.Arr?)
      && (r.ChildList? ==> r.items == c.items)
      && (r.BadObject? <==> IsObject(c) && !c.Arr? && !IsValidElement(c))
      && (r.SingleText? <==> c.Str? || c.Num?)
      && (r.SingleText? ==> ToJsString(c) == Ok(r.text))
  {
    var c := TopLevelChild(newChild);
    if IsObject(c) then
      if Get(c, "$$typeof") == REACT_ELEMENT_TYPE then SingleElement(c)
      else if c.Arr? then ChildList(c.items)
      else BadObject
    else if c.Str? then SingleText(c.s)
    else if c.Num? then SingleText(IntToString(c.n))
    else NoChildren
  }

  /** `<>{a}{b}</>` without a key reconciles its children as a list. */
  lemma UnkeyedFragmentIsList(items: seq<Value>, props: map<string, Value>)
    requires "children" in props && props["children"] == Arr(items)
    ensures RouteOf(ReactElement(REACT_FRAGMENT_TYPE, Null, Null, props)) == ChildList(items)
  {
  }

  /** A keyed fragment is not unwrapped: it is one element, reconciled on its own. */
  lemma KeyedFragmentIsSingle(key: string, props: map<string, Value>)
    ensures var e := ReactElement(REACT_FRAGMENT_TYPE, Str(key), Null, props);
      RouteOf(e) == SingleElement(e)
  {
    var e := ReactElement(REACT_FRAGMENT_TYPE, Str(key), Null, props);
    assert !UnkeyedFragment(e);
  }

  /** Unlike a slot of a list, an empty string at the top still makes a text fiber. */
  lemma EmptyStringIsText()
    ensures RouteOf(Str("")) == SingleText("")
    ensures KindOf(Str("")) == NoChild
  {
  }

  /** `placeSingleChild`'s effect on fiber `x`: `Placement` only when tracking and it has no alternate. */
  function PlacedSingle(fibers: map<FiberId, Fiber>, track: bool, x: FiberId): map<FiberId, Fiber>
    requires x in fibers
  {
    fibers[x := fibers[x].(flags := if track && fibers[x].alternate.None? then fibers[x].flags | Placement
                                    else fibers[x].flags)]
  }

  /** `placeSingleChild(fiber)` on a valid heap keeps it valid. */
  method PlaceSingle(heap: FiberHeap, track: bool, x: FiberId)
    requires heap.Valid() && x in heap.fibers
    modifies heap`fibers
    ensures heap.Valid() && heap.fibers == PlacedSingle(old(heap.fibers), track, x)
  {
    PlaceSingleChild(heap, track, x);
  }

  /** `placeSingleChild(reconcilerSingleElement(returnFiber, currentFirstChild, e))` */
  method SingleElementChild(heap: FiberHeap, track: bool, rf: FiberId, first: Option<FiberId>,
                            ghost chain: seq<FiberId>, e: Value)
    returns (x: FiberId, ghost mid: map<FiberId, Fiber>)
    requires heap.Valid() && ChildrenOK(heap.fibers, rf, chain) && SiblingChain(heap.fibers, first, chain)
    modifies heap
    ensures heap.Valid() && x in mid
    ensures PlanApplied(old(heap.fibers), mid, track, rf,
                        SingleElementPlan(old(heap.fibers), chain, Get(e, "key"), Get(e, "type"), false), e, x)
    ensures heap.fibers == PlacedSingle(mid, track, x)
  {
    x := ReconcileSingleElement(heap, track, rf, first, chain, e);
    mid := heap.fibers;
    PlaceSingle(heap, track, x);
  }

  /** `placeSingleChild(reconcilerSingleTextNode(returnFiber, currentFirstChild, text))` */
  method SingleTextChild(heap: FiberHeap, track: bool, rf: FiberId, first: Option<FiberId>,
                         ghost chain: seq<FiberId>, text: string)
    returns (x: FiberId, ghost mid: map<FiberId, Fiber>)
    requires heap.Valid() && ChildrenOK(heap.fibers, rf, chain) && SiblingChain(heap.fibers, first, chain)
    modifies heap
    ensures heap.Valid() && x in mid
    ensures TextApplied(old(heap.fibers), mid, track, rf, chain, Str(text), x)
    ensures heap.fibers == PlacedSingle(mid, track, x)
  {
    x := ReconcileSingleTextNode(heap, track, rf, first, chain, Str(text));
    mid := heap.fibers;
    PlaceSingle(heap, track, x);
  }

  /**
   * What `reconcileChildFibers(returnFiber, currentFirstChild, newChild)`
   * does, from `old0` to `fibers`. For a single element or text the fiber
   * returned is as the single reconcilers leave it (`mid`) and then placed;
   * for a list, the array diff; for any other object an error and no
   * change; otherwise every old child is deleted and there is no first
   * child. Whenever it returns, the return fiber is still there.
   */
  ghost predicate ChildFibersReconciled(old0: map<FiberId, Fiber>, fibers: map<FiberId, Fiber>, track: bool, rf: FiberId,
                                        chain: seq<FiberId>, newChild: Value, r: Result<Option<FiberId>>,
                                        mid: map<FiberId, Fiber>, produced: seq<FiberId>, from: seq<Option<FiberId>>,
                                        dels: seq<FiberId>)
  {
    && rf in old0 && (forall j :: 0 <= j < |chain| ==> chain[j] in old0)
    && (r.Ok? ==> rf in fibers)
    && (RouteOf(newChild).SingleElement? ==>
          var e := RouteOf(newChild).element;
          && r.Ok? && r.value.Some? && r.value.value in mid
          && PlanApplied(old0, mid, track, rf,
                         SingleElementPlan(old0, chain, Get(e, "key"), Get(e, "type"), false), e, r.value.value)
          && fibers == PlacedSingle(mid, track, r.value.value))
    && (RouteOf(newChild).SingleText? ==>
          && r.Ok? && r.value.Some? && r.value.value in mid
          && TextApplied(old0, mid, track, rf, chain, Str(RouteOf(newChild).text), r.value.value)
          && fibers == PlacedSingle(mid, track, r.value.value))
    && (RouteOf(newChild).ChildList? ==>
          var items := RouteOf(newChild).items;
          && (r.Ok? <==> forall i :: 0 <= i < |items| ==> KindOf(items[i]) != InvalidChild)
          && (r.Throw? ==> r.msg == INVALID_CHILD_MESSAGE)
          && (r.Ok? ==> Reconciled(old0, fibers, rf, track, chain, items, r.value, produced, from, dels))
          && (r.Ok? && track && UniqueKeys(old0, chain) ==>
                multiset(Reused(from)) + multiset(dels) == multiset(chain)))
    && (RouteOf(newChild).BadObject? ==> r == Throw(INVALID_CHILD_MESSAGE) && fibers == old0)
    && (RouteOf(newChild).NoChildren? ==>
          && r == Ok(None)
          && fibers == old0[rf := WithDeletions(old0[rf], if track then chain else [])])
  }

  /** `reconcileChildFibers(returnFiber, currentFirstChild, newChild)`, as `ChildFibersReconciled` describes it. */
  method ReconcileChildFibers(heap: FiberHeap, track: bool, rf: FiberId, first: Option<FiberId>,
                              ghost chain: seq<FiberId>, newChild: Value)
    returns (r: Result<Option<FiberId>>, ghost mid: map<FiberId, Fiber>, ghost produced: seq<FiberId>,
             ghost from: seq<Option<FiberId>>, ghost dels: seq<FiberId>)
    requires heap.Valid() && ChildrenOK(heap.fibers, rf, chain) && SiblingChain(heap.fibers, first, chain)
    requires RouteOf(newChild).ChildList? ==>
      KeysOK(heap.fibers, chain) && JsxKeyed(RouteOf(newChild).items) && (track || |chain| == 0)
    modifies heap
    ensures heap.Valid()
    ensures ChildFibersReconciled(old(heap.fibers), heap.fibers, track, rf, chain, newChild, r, mid, produced, from, dels)
  {
    produced, from, dels := [], [], [];
    var route := RouteOf(newChild);
    match route
    case SingleElement(e) =>
      var x;
      x, mid := SingleElementChild(heap, track, rf, first, chain, e);
      r := Ok(Some(x));
    case ChildList(items) =>
      mid := heap.fibers;
      r, produced, from, dels := ReconcileChildrenArray(heap, track, rf, first, chain, items);
    case BadObject =>
      mid := heap.fibers;
      r := Throw(INVALID_CHILD_MESSAGE);
    case SingleText(text) =>
      var x;
      x, mid := SingleTextChild(heap, track, rf, first, chain, text);
      r := Ok(Some(x));
    case NoChildren =>
      mid := heap.fibers;
      DeleteRemainingChildren(heap, track, rf, first, chain);
      r := Ok(None);
  }
}
