/**
 * The child reconciler, part two: the array diff (`reconcileChildrenArray`)
 * with its slot helpers, and the top-level `reconcileChildFibers`
 * dispatch.
 *
 * A JavaScript `Map` from keys to old fibers is modelled by its entries in
 * insertion order, since `forEach` visits them in that order.
 */
module ChildArray {
  import opened Wrappers
  import opened JsValues
  import opened FiberFlags
  import opened Jsx
  import opened Fiber
  import opened ChildFiber

  const INVALID_CHILD_MESSAGE: string := "Objects are not valid as a React child"

  /** How the reconciler sees one new child. */
  datatype ChildKind = TextChild(text: string) | ElementChild | ArrayChild | InvalidChild | NoChild

  /**
   * A non-empty string or a number is text (its string form); a non-null
   * object is an element when its `$$typeof` says so, an array, or an
   * invalid child; anything else makes no fiber.
   */
  function KindOf(c: Value): (k: ChildKind)
    ensures k.TextChild? <==> (c.Str? && c.s != "") || c.Num?
    ensures k.TextChild? ==> ToJsString(c) == Ok(k.text)
    ensures k == ElementChild <==> IsValidElement(c)
    ensures k == ArrayChild <==> c.Arr?
    ensures k == InvalidChild <==> IsObject(c) && !c.Arr? && !IsValidElement(c)
  {
    if c.Str? && c.s != "" then TextChild(c.s)
    else if c.Num? then TextChild(IntToString(c.n))
    else if IsValidElement(c) then ElementChild
    else if c.Arr? then ArrayChild
    else if IsObject(c) then InvalidChild
    else NoChild
  }

  /**
   * What a slot helper does: reuse old fiber `reuse` with `props`, or
   * allocate `created`.
   */
  datatype Make = Make(reuse: Option<FiberId>, props: Value, created: Fiber)

  /** `updateTextNode`: reuse a `HostText`, passing the bare text string as the new props. */
  function TextNodeMake(fibers: map<FiberId, Fiber>, current: Option<FiberId>, text: string): (m: Make)
    requires current.Some? ==> current.value in fibers
    ensures m.reuse.Some? <==> current.Some? && fibers[current.value].tag == HostText
    ensures m.reuse.Some? ==> m.reuse == current && m.props == Str(text)
    ensures m.reuse.None? ==> m.created == FiberFromText(Str(text))
  {
    if current.None? || fibers[current.value].tag != HostText then Make(None, Null, FiberFromText(Str(text)))
    else Make(current, Str(text), FiberFromText(Str(text)))
  }

  /** `updateFragment`: reuse a `Fragment` fiber with the children as props, or create a fragment. */
  function FragmentMake(fibers: map<FiberId, Fiber>, current: Option<FiberId>, fragment: Value, key: Value): (m: Make)
    requires current.Some? ==> current.value in fibers
    ensures m.reuse.Some? <==> current.Some? && fibers[current.value].tag == Fragment
    ensures m.reuse.Some? ==> m.reuse == current && m.props == fragment
    ensures m.reuse.None? ==> m.created == FiberFromFragment(fragment, key)
  {
    if current.None? || fibers[current.value].tag != Fragment then Make(None, Null, FiberFromFragment(fragment, key))
    else Make(current, fragment, FiberFromFragment(fragment, key))
  }

  /**
   * `updateElement`: a fragment element goes to `updateFragment` with its
   * children and key; otherwise an old fiber of the same `type` is reused
   * with the element's props, and anything else is created afresh.
   */
  function ElementMake(fibers: map<FiberId, Fiber>, current: Option<FiberId>, element: Value): (m: Make)
    requires current.Some? ==> current.value in fibers
    ensures Get(element, "type") == REACT_FRAGMENT_TYPE ==>
      m == FragmentMake(fibers, current, Get(Get(element, "props"), "children"), Get(element, "key"))
    ensures Get(element, "type") != REACT_FRAGMENT_TYPE ==>
      && (m.reuse.Some? <==> current.Some? && fibers[current.value].ftype == Get(element, "type"))
      && (m.reuse.Some? ==> m.reuse == current && m.props == Get(element, "props"))
      && (m.reuse.None? ==> m.created == FiberFromElement(element))
  {
    var etype := Get(element, "type");
    if etype == REACT_FRAGMENT_TYPE then FragmentMake(fibers, current, Get(Get(element, "props"), "children"), Get(element, "key"))
    else if current.Some? && fibers[current.value].ftype == etype then Make(current, Get(element, "props"), FiberFromElement(element))
    else Make(None, Null, FiberFromElement(element))
  }

  /** An old fiber the helpers may reuse: not the parent, and paired with its alternate if it has one. */
  ghost predicate Reusable(fibers: map<FiberId, Fiber>, rf: FiberId, c: FiberId)
  {
    && c in fibers && c != rf
    && (fibers[c].alternate.Some? ==>
          Paired(fibers, c, fibers[c].alternate.value) && fibers[c].alternate.value != rf)
  }

  /**
   * Old fiber `c` has been reused as `r`: its existing alternate, or a new
   * fiber when it had none, now paired with it and holding `props`, under
   * `rf`, first and without a sibling. Nothing else changes.
   */
  ghost predicate ReusedFor(old0: map<FiberId, Fiber>, fibers: map<FiberId, Fiber>, rf: FiberId, c: FiberId,
                            props: Value, r: FiberId)
  {
    && c in old0 && c != rf && r != rf
    && Paired(fibers, c, r)
    && (old0[c].alternate.Some? ==> r == old0[c].alternate.value && r in old0 && fibers[r].key == old0[r].key)
    && (old0[c].alternate.None? ==> r !in old0 && fibers[r].key == Coalesce(old0[c].key, Null))
    && fibers[c] == old0[c].(alternate := Some(r))
    && ReusedAs(fibers[r], old0[c], c, props, rf)
    && UnchangedExcept(old0, fibers, {c, r})
  }

  /** `r` is a new fiber holding `f` with `return` set to `rf`; nothing else changes. */
  ghost predicate CreatedAs(old0: map<FiberId, Fiber>, fibers: map<FiberId, Fiber>, rf: FiberId, f: Fiber, r: FiberId)
  {
    r !in old0 && fibers == old0[r := f.(ret := Some(rf))]
  }

  /** The heap after carrying out `m` under `rf`, with result `r`. */
  ghost predicate MadeAs(old0: map<FiberId, Fiber>, fibers: map<FiberId, Fiber>, rf: FiberId, m: Make, r: FiberId)
  {
    if m.reuse.Some? then ReusedFor(old0, fibers, rf, m.reuse.value, m.props, r)
    else CreatedAs(old0, fibers, rf, m.created, r)
  }

  /**
   * What `updateTextNode`, `updateFragment`, `updateElement` and
   * `createChild` do once they have decided: allocate `m.created`, or
   * `useFiber` the old fiber `m.reuse` with `m.props`; either way the
   * result's `return` is `rf`.
   */
  method Realize(heap: FiberHeap, rf: FiberId, m: Make) returns (r: FiberId)
    requires heap.Valid() && rf in heap.fibers
    requires m.reuse.Some? ==> Reusable(heap.fibers, rf, m.reuse.value)
    modifies heap
    ensures heap.Valid() && old(heap.fibers).Keys <= heap.fibers.Keys
    ensures MadeAs(old(heap.fibers), heap.fibers, rf, m, r)
  {
    if m.reuse.None? {
      r := heap.Alloc(m.created.(ret := Some(rf)));
    } else {
      r := ReuseAsOnly(heap, rf, m.reuse.value, m.props);
    }
  }

  /** What one slot helper decides for a new child: no fiber, a fiber made as `m` says, or a throw. */
  datatype SlotPlan = NoSlot | MakeSlot(m: Make) | BadChild

  /** `oldFiber?.key ?? null` */
  function OldKey(fibers: map<FiberId, Fiber>, oldFiber: Option<FiberId>): Value
    requires oldFiber.Some? ==> oldFiber.value in fibers
  {
    if oldFiber.Some? then Coalesce(fibers[oldFiber.value].key, Null) else Null
  }

  /**
   * `updateSlot(returnFiber, oldFiber, newChild)`. As written, a text child
   * gives up the slot when the old key is null, that is exactly when the
   * old fiber is unkeyed (or absent), and goes on to `updateTextNode` when
   * the old fiber has a key. An element keeps the slot iff its key equals
   * the old key; an array iff the old key is null.
   */
  function UpdateSlotPlan(fibers: map<FiberId, Fiber>, oldFiber: Option<FiberId>, child: Value): (p: SlotPlan)
    requires oldFiber.Some? ==> oldFiber.value in fibers
    ensures KindOf(child).TextChild? ==> (p.NoSlot? <==> OldKey(fibers, oldFiber) == Null)
    ensures KindOf(child) == ElementChild ==> (p.NoSlot? <==> Get(child, "key") != OldKey(fibers, oldFiber))
    ensures KindOf(child) == ArrayChild ==> (p.NoSlot? <==> OldKey(fibers, oldFiber) != Null)
    ensures KindOf(child) == NoChild ==> p.NoSlot?
    ensures p.BadChild? <==> KindOf(child) == InvalidChild
    ensures p.MakeSlot? && p.m.reuse.Some? ==> p.m.reuse == oldFiber
    ensures p.MakeSlot? ==> Unplaced(p.m.created)
  {
    var key := OldKey(fibers, oldFiber);
    match KindOf(child)
    case TextChild(t) => if key == Null then NoSlot else MakeSlot(TextNodeMake(fibers, oldFiber, t))
    case ElementChild =>
      if Get(child, "key") == key then MakeSlot(ElementMake(fibers, oldFiber, child)) else NoSlot
    case ArrayChild => if key != Null then NoSlot else MakeSlot(FragmentMake(fibers, oldFiber, child, Null))
    case InvalidChild => BadChild
    case NoChild => NoSlot
  }

  /** `createChild(returnFiber, newChild)`: a new fiber for any renderable child, never a reused one. */
  function CreateChildPlan(child: Value): (p: SlotPlan)
    ensures p.MakeSlot? ==> p.m.reuse.None? && Unplaced(p.m.created)
    ensures p.MakeSlot? <==> KindOf(child) != InvalidChild && KindOf(child) != NoChild
    ensures p.BadChild? <==> KindOf(child) == InvalidChild
    ensures KindOf(child).TextChild? ==> p == MakeSlot(Make(None, Null, FiberFromText(Str(KindOf(child).text))))
    ensures KindOf(child) == ElementChild ==> p == MakeSlot(Make(None, Null, FiberFromElement(child)))
    ensures KindOf(child) == ArrayChild ==> p == MakeSlot(Make(None, Null, FiberFromFragment(child, Null)))
  {
    match KindOf(child)
    case TextChild(t) => MakeSlot(Make(None, Null, FiberFromText(Str(t))))
    case ElementChild => MakeSlot(Make(None, Null, FiberFromElement(child)))
    case ArrayChild => MakeSlot(Make(None, Null, FiberFromFragment(child, Null)))
    case InvalidChild => BadChild
    case NoChild => NoSlot
  }

  /** The entries of a `Map` in insertion order. */
  type Entries = seq<(Value, FiberId)>

  /** The position of key `k` among the entries, or -1. */
  function Find(m: Entries, k: Value): (i: int)
    ensures -1 <= i < |m|
    ensures i >= 0 ==> m[i].0 == k
    ensures i < 0 ==> forall j :: 0 <= j < |m| ==> m[j].0 != k
  {
    if |m| == 0 then -1
    else if m[|m| - 1].0 == k then |m| - 1
    else Find(m[..|m| - 1], k)
  }

  /** `map.get(k)` */
  function MapGet(m: Entries, k: Value): (r: Option<FiberId>)
    ensures r.Some? <==> exists j :: 0 <= j < |m| && m[j].0 == k
    ensures r.Some? ==> 0 <= Find(m, k) && r.value == m[Find(m, k)].1
  {
    var i := Find(m, k);
    if i < 0 then None else Some(m[i].1)
  }

  /** `map.set(k, v)`: an existing key keeps its place, a new one goes last. */
  function MapSet(m: Entries, k: Value, v: FiberId): Entries
  {
    var i := Find(m, k);
    if i < 0 then m + [(k, v)] else m[i := (k, v)]
  }

  /** `map.delete(k)` */
  function MapDelete(m: Entries, k: Value): Entries
  {
    var i := Find(m, k);
    if i < 0 then m else m[..i] + m[i + 1..]
  }

  /** The values of the entries, in order. */
  function Values(m: Entries): (vs: seq<FiberId>)
    ensures |vs| == |m| && forall j :: 0 <= j < |m| ==> vs[j] == m[j].1
  {
    if |m| == 0 then [] else Values(m[..|m| - 1]) + [m[|m| - 1].1]
  }

  /** The key `mapRemainingChildren` files a fiber under: its key, or its index when the key is null. */
  function MapKeyOf(f: Fiber): Value
  {
    if f.key != Null then f.key else Num(f.index)
  }

  /** The map `mapRemainingChildren` builds from the old children `chain`. */
  function RemainingEntries(fibers: map<FiberId, Fiber>, chain: seq<FiberId>): Entries
    requires forall i :: 0 <= i < |chain| ==> chain[i] in fibers
  {
    if |chain| == 0 then []
    else
      var last := chain[|chain| - 1];
      MapSet(RemainingEntries(fibers, chain[..|chain| - 1]), MapKeyOf(fibers[last]), last)
  }

  /** `mapRemainingChildren(returnFiber, currentFirstChild)` */
  method MapRemainingChildren(heap: FiberHeap, first: Option<FiberId>, ghost chain: seq<FiberId>)
    returns (existing: Entries)
    requires SiblingChain(heap.fibers, first, chain)
    ensures existing == RemainingEntries(heap.fibers, chain)
  {
    existing := [];
    var child := first;
    ghost var i := 0;
    while child.Some?
      invariant 0 <= i <= |chain|
      invariant child == (if i < |chain| then Some(chain[i]) else None)
      invariant existing == RemainingEntries(heap.fibers, chain[..i])
      decreases |chain| - i
    {
      SiblingAt(heap.fibers, first, chain, i);
      var f := heap.fibers[child.value];
      assert chain[..i + 1][..i] == chain[..i];
      if f.key != Null {
        existing := MapSet(existing, f.key, child.value);
      } else {
        existing := MapSet(existing, Num(f.index), child.value);
      }
      child := f.sibling;
      i := i + 1;
    }
    assert chain[..i] == chain;
  }

  /** The key `updateFromMap` looks a new child up by: an element's key or, failing that, the position. */
  function LookupKey(child: Value, newIdx: int): Value
  {
    if KindOf(child) == ElementChild then Coalesce(Get(child, "key"), Num(newIdx)) else Num(newIdx)
  }

  /**
   * `updateFromMap(existingChildren, returnFiber, newIdx, newChild)`: the
   * fiber filed under the lookup key, if any, goes to the matching update
   * helper; the only old fiber it can reuse is that one.
   */
  function FromMapPlan(fibers: map<FiberId, Fiber>, existing: Entries, newIdx: int, child: Value): (p: SlotPlan)
    requires forall j :: 0 <= j < |existing| ==> existing[j].1 in fibers
    ensures p.MakeSlot? && p.m.reuse.Some? ==> p.m.reuse == MapGet(existing, LookupKey(child, newIdx))
    ensures p.BadChild? <==> KindOf(child) == InvalidChild
    ensures p.NoSlot? <==> KindOf(child) == NoChild
    ensures p.MakeSlot? ==> Unplaced(p.m.created)
  {
    var matched := MapGet(existing, LookupKey(child, newIdx));
    match KindOf(child)
    case TextChild(t) => MakeSlot(TextNodeMake(fibers, matched, t))
    case ElementChild => MakeSlot(ElementMake(fibers, matched, child))
    case ArrayChild => MakeSlot(FragmentMake(fibers, matched, child, Null))
    case InvalidChild => BadChild
    case NoChild => NoSlot
  }



  /** A fiber as the `create…` helpers return it: no flags, no sibling, no alternate. */
  ghost predicate Unplaced(f: Fiber)
  {
    f.flags == NoFlags && f.sibling.None? && f.alternate.None?
  }

  /** The old index `placeChild` sees for a fiber made from `src`: the reused fiber's index, or none. */
  function OldIndexOf(old0: map<FiberId, Fiber>, src: Option<FiberId>): Option<int>
  {
    if src.Some? && src.value in old0 then Some(old0[src.value].index) else None
  }

  /** The old indices along the new list. */
  function OldsOf(old0: map<FiberId, Fiber>, from: seq<Option<FiberId>>): (olds: seq<Option<int>>)
    ensures |olds| == |from|
  {
    if |from| == 0 then [] else OldsOf(old0, from[..|from| - 1]) + [OldIndexOf(old0, from[|from| - 1])]
  }

  /** The old fibers reused along the new list, in order. */
  function Reused(from: seq<Option<FiberId>>): seq<FiberId>
  {
    if |from| == 0 then []
    else Reused(from[..|from| - 1]) + (if from[|from| - 1].Some? then [from[|from| - 1].value] else [])
  }

  lemma OldsSnoc(old0: map<FiberId, Fiber>, from: seq<Option<FiberId>>, src: Option<FiberId>)
    ensures OldsOf(old0, from + [src]) == OldsOf(old0, from) + [OldIndexOf(old0, src)]
    ensures Reused(from + [src]) == Reused(from) + (if src.Some? then [src.value] else [])
  {
    assert (from + [src])[..|from|] == from;
  }

  lemma {:induction false} ReusedHas(from: seq<Option<FiberId>>, k: nat)
    requires k < |from| && from[k].Some?
    ensures from[k].value in Reused(from)
    decreases |from|
  {
    if k < |from| - 1 {
      var init := from[..|from| - 1];
      assert init[k] == from[k];
      ReusedHas(init, k);
    }
  }

  /** Placing one more fiber extends the flags and moves `lastPlacedIndex` on. */
  lemma {:induction false} PlaceAllSnoc(track: bool, olds: seq<Option<int>>, o: Option<int>, last: int)
    ensures PlaceAll(track, olds + [o], last)
      == PlaceAll(track, olds, last) + [PlaceDecision(track, o, LastPlaced(track, olds, last)).flag]
    ensures LastPlaced(track, olds + [o], last) == PlaceDecision(track, o, LastPlaced(track, olds, last)).lastPlacedIndex
    decreases |olds|
  {
    if |olds| == 0 {
      assert (olds + [o])[1..] == [];
    } else {
      assert (olds + [o])[1..] == olds[1..] + [o];
      PlaceAllSnoc(track, olds[1..], o, PlaceDecision(track, olds[0], last).lastPlacedIndex);
    }
  }

  /** `p` came from old fiber `c`: its old alternate when it had one, otherwise a fiber new to the heap. */
  ghost predicate ReuseLink(old0: map<FiberId, Fiber>, c: FiberId, p: FiberId)
  {
    c in old0 && (if old0[c].alternate.Some? then p == old0[c].alternate.value else p !in old0)
  }

  /** The new list so far: `produced`, linked by `sibling` from `head`, with `prev` its last fiber. */
  ghost predicate Linked(fibers: map<FiberId, Fiber>, head: Option<FiberId>, prev: Option<FiberId>,
                         produced: seq<FiberId>)
  {
    && Distinct(produced) && SiblingChain(fibers, head, produced)
    && prev == (if |produced| == 0 then None else Some(produced[|produced| - 1]))
  }

  /**
   * One fiber of the new list: under `rf`, not an old child, at an index
   * below `bound`, flagged `Placement` iff `placed`, and either paired
   * with the old fiber `src` it reuses or new to the heap.
   */
  ghost predicate NewChildOK(old0: map<FiberId, Fiber>, fibers: map<FiberId, Fiber>, rf: FiberId, chain: seq<FiberId>,
                             p: FiberId, src: Option<FiberId>, placed: bool, bound: int)
  {
    && p in fibers && p != rf && p !in chain
    && fibers[p].ret == Some(rf) && fibers[p].index < bound
    && fibers[p].flags == (if placed then Placement else NoFlags)
    && (src.Some? ==> src.value in chain && Paired(fibers, src.value, p) && ReuseLink(old0, src.value, p))
    && (src.None? ==> p !in old0 && fibers[p].alternate.None?)
  }

  /** Every fiber of the new list is as `NewChildOK` says, with the `k`-th of `flags`. */
  ghost predicate AllNewOK(old0: map<FiberId, Fiber>, fibers: map<FiberId, Fiber>, rf: FiberId, chain: seq<FiberId>,
                           produced: seq<FiberId>, from: seq<Option<FiberId>>, flags: seq<bool>, bound: int)
  {
    && |from| == |produced| == |flags|
    && forall k :: 0 <= k < |produced| ==> NewChildOK(old0, fibers, rf, chain, produced[k], from[k], flags[k], bound)
  }

  /** The fibers of the new list carry strictly increasing indices. */
  ghost predicate Ordered(fibers: map<FiberId, Fiber>, produced: seq<FiberId>)
  {
    forall k1, k2 :: 0 <= k1 < k2 < |produced| ==>
      produced[k1] in fibers && produced[k2] in fibers && fibers[produced[k1]].index < fibers[produced[k2]].index
  }

  /** Every fiber of the new list is as `NewChildOK` says, with the flags `placeChild` handed out, at increasing indices. */
  ghost predicate Marked(old0: map<FiberId, Fiber>, fibers: map<FiberId, Fiber>, rf: FiberId, track: bool,
                         chain: seq<FiberId>, produced: seq<FiberId>, from: seq<Option<FiberId>>, bound: int)
  {
    && AllNewOK(old0, fibers, rf, chain, produced, from, PlaceAll(track, OldsOf(old0, from), 0), bound)
    && Ordered(fibers, produced)
  }

  /** `Marked` only bounds the indices from above, so a larger bound keeps it. */
  lemma MarkedWiden(old0: map<FiberId, Fiber>, fibers: map<FiberId, Fiber>, rf: FiberId, track: bool,
                    chain: seq<FiberId>, produced: seq<FiberId>, from: seq<Option<FiberId>>, bound: int)
    requires Marked(old0, fibers, rf, track, chain, produced, from, bound)
    ensures Marked(old0, fibers, rf, track, chain, produced, from, bound + 1)
  {
    var flags := PlaceAll(track, OldsOf(old0, from), 0);
    forall k | 0 <= k < |produced|
      ensures NewChildOK(old0, fibers, rf, chain, produced[k], from[k], flags[k], bound + 1)
    {
      assert NewChildOK(old0, fibers, rf, chain, produced[k], from[k], flags[k], bound);
    }
  }

  /** An old child changed at most in its `alternate`, and not at all unless it was reused. */
  ghost predicate ChainKept(old0: map<FiberId, Fiber>, fibers: map<FiberId, Fiber>, c: FiberId, reused: bool)
  {
    && c in old0 && c in fibers
    && fibers[c] == old0[c].(alternate := fibers[c].alternate)
    && (!reused ==> fibers[c] == old0[c])
  }

  /**
   * What else the diff changed: the parent recorded the deletions `dels`;
   * old children changed only as `ChainKept` allows; every other old
   * fiber outside the new list is unchanged. Reused and deleted old
   * children are distinct old children, and none is both.
   */
  ghost predicate Framed(old0: map<FiberId, Fiber>, fibers: map<FiberId, Fiber>, rf: FiberId, track: bool,
                         chain: seq<FiberId>, produced: seq<FiberId>, from: seq<Option<FiberId>>, dels: seq<FiberId>)
  {
    && rf in old0 && rf in fibers && old0.Keys <= fibers.Keys
    && fibers[rf] == WithDeletions(old0[rf], if track then dels else [])
    && (forall i :: 0 <= i < |chain| ==> ChainKept(old0, fibers, chain[i], chain[i] in Reused(from)))
    && (forall id :: id in old0 && id != rf && id !in chain && id !in produced ==> fibers[id] == old0[id])
    && Distinct(Reused(from)) && Distinct(dels)
    && (forall x :: x in Reused(from) ==> x in chain)
    && (forall d :: d in dels ==> d in chain && d !in Reused(from))
  }

  /** The alternate of an old child not reused yet is not in the new list. */
  lemma TwinNotProduced(old0: map<FiberId, Fiber>, fibers: map<FiberId, Fiber>, rf: FiberId, track: bool,
                        chain: seq<FiberId>, produced: seq<FiberId>, from: seq<Option<FiberId>>, bound: int, c: FiberId)
    requires ChildrenOK(old0, rf, chain) && Marked(old0, fibers, rf, track, chain, produced, from, bound)
    requires c in chain && c !in Reused(from) && old0[c].alternate.Some?
    ensures old0[c].alternate.value !in produced
  {
    var a := old0[c].alternate.value;
    var i :| 0 <= i < |chain| && chain[i] == c;
    assert AltOK(old0, rf, chain, chain[i]);
    forall k | 0 <= k < |produced|
      ensures produced[k] != a
    {
      assert NewChildOK(old0, fibers, rf, chain, produced[k], from[k], PlaceAll(track, OldsOf(old0, from), 0)[k], bound);
      if from[k].Some? {
        ReusedHas(from, k);
        var i2 :| 0 <= i2 < |chain| && chain[i2] == from[k].value;
        assert AltOK(old0, rf, chain, chain[i2]);
      }
    }
  }

  /** An old child not reused yet can still be reused: it and its alternate are as they were. */
  lemma StillReusable(old0: map<FiberId, Fiber>, fibers: map<FiberId, Fiber>, rf: FiberId, track: bool,
                      chain: seq<FiberId>, produced: seq<FiberId>, from: seq<Option<FiberId>>, dels: seq<FiberId>,
                      bound: int, c: FiberId)
    requires ChildrenOK(old0, rf, chain) && Marked(old0, fibers, rf, track, chain, produced, from, bound)
    requires Framed(old0, fibers, rf, track, chain, produced, from, dels)
    requires c in chain && c !in Reused(from)
    ensures Reusable(fibers, rf, c) && fibers[c] == old0[c]
  {
    var i :| 0 <= i < |chain| && chain[i] == c;
    assert ChainKept(old0, fibers, chain[i], chain[i] in Reused(from));
    assert AltOK(old0, rf, chain, chain[i]);
    if old0[c].alternate.Some? {
      TwinNotProduced(old0, fibers, rf, track, chain, produced, from, bound, c);
    }
  }

  /**
   * What one step of the diff changed besides the new fiber `n`: the
   * parent recorded `deleted`, the reused old fiber `src` got `n` as its
   * alternate, and `prev` got `n` as its sibling.
   */
  ghost predicate StepDelta(pre: map<FiberId, Fiber>, post: map<FiberId, Fiber>, rf: FiberId, src: Option<FiberId>,
                            n: FiberId, prev: Option<FiberId>, deleted: seq<FiberId>)
  {
    && pre.Keys <= post.Keys && rf in pre && post[rf] == WithDeletions(pre[rf], deleted)
    && (forall x :: x in pre && x != rf && x != n && Some(x) != src && Some(x) != prev ==> post[x] == pre[x])
    && (prev.Some? ==> prev.value in pre && post[prev.value] == pre[prev.value].(sibling := Some(n)))
    && (src.Some? ==> src.value in pre && post[src.value] == pre[src.value].(alternate := Some(n)))
  }

  lemma LinkedSnoc(pre: map<FiberId, Fiber>, post: map<FiberId, Fiber>, rf: FiberId, src: Option<FiberId>,
                   n: FiberId, deleted: seq<FiberId>, head: Option<FiberId>, prev: Option<FiberId>,
                   newHead: Option<FiberId>, produced: seq<FiberId>)
    requires Linked(pre, head, prev, produced) && StepDelta(pre, post, rf, src, n, prev, deleted)
    requires n !in produced && rf !in produced && (src.Some? ==> src.value !in produced)
    requires n in post && post[n].sibling.None?
    requires newHead == (if prev.None? then Some(n) else head)
    ensures Linked(post, newHead, Some(n), produced + [n])
  {
    var ps := produced + [n];
    forall i | 0 <= i < |ps|
      ensures ps[i] in post && post[ps[i]].sibling == (if i + 1 < |ps| then Some(ps[i + 1]) else None)
    {
      if i < |produced| {
        SiblingAt(pre, head, produced, i);
      }
    }
  }

  /** A fiber already in the new list keeps what `NewChildOK` says through a step. */
  lemma KeepNewChild(old0: map<FiberId, Fiber>, pre: map<FiberId, Fiber>, post: map<FiberId, Fiber>, rf: FiberId,
                     chain: seq<FiberId>, src: Option<FiberId>, n: FiberId, prev: Option<FiberId>,
                     deleted: seq<FiberId>, p: FiberId, s: Option<FiberId>, placed: bool, bound: int)
    requires NewChildOK(old0, pre, rf, chain, p, s, placed, bound)
    requires StepDelta(pre, post, rf, src, n, prev, deleted)
    requires p != n && Some(p) != src && n !in chain && (prev.Some? ==> prev.value !in chain)
    requires s.Some? ==> s != src
    ensures NewChildOK(old0, post, rf, chain, p, s, placed, bound + 1)
  {
  }

  /** The fibers already in the new list keep what `AllNewOK` says through a step. */
  lemma AllNewKept(old0: map<FiberId, Fiber>, pre: map<FiberId, Fiber>, post: map<FiberId, Fiber>, rf: FiberId,
                   chain: seq<FiberId>, produced: seq<FiberId>, from: seq<Option<FiberId>>, flags: seq<bool>,
                   src: Option<FiberId>, n: FiberId, prev: Option<FiberId>, deleted: seq<FiberId>, bound: int)
    requires AllNewOK(old0, pre, rf, chain, produced, from, flags, bound)
    requires StepDelta(pre, post, rf, src, n, prev, deleted)
    requires n !in produced && n !in chain && (prev.Some? ==> prev.value in produced)
    requires src.Some? ==> src.value !in Reused(from) && src.value in chain
    ensures AllNewOK(old0, post, rf, chain, produced, from, flags, bound + 1)
  {
    if prev.Some? {
      var j :| 0 <= j < |produced| && produced[j] == prev.value;
      assert NewChildOK(old0, pre, rf, chain, produced[j], from[j], flags[j], bound);
    }
    forall k | 0 <= k < |produced|
      ensures NewChildOK(old0, post, rf, chain, produced[k], from[k], flags[k], bound + 1)
    {
      assert NewChildOK(old0, pre, rf, chain, produced[k], from[k], flags[k], bound);
      if from[k].Some? {
        ReusedHas(from, k);
      }
      KeepNewChild(old0, pre, post, rf, chain, src, n, prev, deleted, produced[k], from[k], flags[k], bound);
    }
  }

  /** A fiber at index `newIdx`, above every earlier one, extends an ordered list. */
  lemma OrderedSnoc(old0: map<FiberId, Fiber>, pre: map<FiberId, Fiber>, post: map<FiberId, Fiber>, rf: FiberId,
                    chain: seq<FiberId>, produced: seq<FiberId>, from: seq<Option<FiberId>>, flags: seq<bool>,
                    src: Option<FiberId>, n: FiberId, prev: Option<FiberId>, deleted: seq<FiberId>, newIdx: int)
    requires AllNewOK(old0, pre, rf, chain, produced, from, flags, newIdx) && Ordered(pre, produced)
    requires StepDelta(pre, post, rf, src, n, prev, deleted)
    requires n !in produced && (src.Some? ==> src.value in chain)
    requires n in post && post[n].index == newIdx
    ensures Ordered(post, produced + [n])
  {
    var ps := produced + [n];
    forall k | 0 <= k < |produced|
      ensures produced[k] in post && post[produced[k]].index == pre[produced[k]].index < newIdx
    {
      assert NewChildOK(old0, pre, rf, chain, produced[k], from[k], flags[k], newIdx);
    }
    forall k1, k2 | 0 <= k1 < k2 < |ps|
      ensures ps[k1] in post && ps[k2] in post && post[ps[k1]].index < post[ps[k2]].index
    {
    }
  }

  lemma MarkedSnoc(old0: map<FiberId, Fiber>, pre: map<FiberId, Fiber>, post: map<FiberId, Fiber>, rf: FiberId,
                   track: bool, chain: seq<FiberId>, produced: seq<FiberId>, from: seq<Option<FiberId>>,
                   src: Option<FiberId>, n: FiberId, prev: Option<FiberId>, deleted: seq<FiberId>, newIdx: int)
    requires Marked(old0, pre, rf, track, chain, produced, from, newIdx)
    requires StepDelta(pre, post, rf, src, n, prev, deleted)
    requires prev.Some? ==> prev.value in produced
    requires n !in produced && (src.Some? ==> src.value !in Reused(from) && src.value in chain)
    requires NewChildOK(old0, post, rf, chain, n, src,
                        PlaceDecision(track, OldIndexOf(old0, src), LastPlaced(track, OldsOf(old0, from), 0)).flag,
                        newIdx + 1)
    requires post[n].index == newIdx
    ensures Marked(old0, post, rf, track, chain, produced + [n], from + [src], newIdx + 1)
  {
    var before := PlaceAll(track, OldsOf(old0, from), 0);
    var f := PlaceDecision(track, OldIndexOf(old0, src), LastPlaced(track, OldsOf(old0, from), 0)).flag;
    OldsSnoc(old0, from, src);
    PlaceAllSnoc(track, OldsOf(old0, from), OldIndexOf(old0, src), 0);
    assert PlaceAll(track, OldsOf(old0, from + [src]), 0) == before + [f];
    AllNewKept(old0, pre, post, rf, chain, produced, from, before, src, n, prev, deleted, newIdx);
    OrderedSnoc(old0, pre, post, rf, chain, produced, from, before, src, n, prev, deleted, newIdx);
    AllNewSnoc(old0, post, rf, chain, produced, from, before, n, src, f, newIdx + 1);
  }

  lemma AllNewSnoc(old0: map<FiberId, Fiber>, fibers: map<FiberId, Fiber>, rf: FiberId, chain: seq<FiberId>,
                   produced: seq<FiberId>, from: seq<Option<FiberId>>, flags: seq<bool>,
                   n: FiberId, src: Option<FiberId>, f: bool, bound: int)
    requires AllNewOK(old0, fibers, rf, chain, produced, from, flags, bound)
    requires NewChildOK(old0, fibers, rf, chain, n, src, f, bound)
    ensures AllNewOK(old0, fibers, rf, chain, produced + [n], from + [src], flags + [f], bound)
  {
    forall k | 0 <= k < |produced| + 1
      ensures NewChildOK(old0, fibers, rf, chain, (produced + [n])[k], (from + [src])[k], (flags + [f])[k], bound)
    {
      if k < |produced| {
        assert NewChildOK(old0, fibers, rf, chain, produced[k], from[k], flags[k], bound);
      }
    }
  }

  /** What `Realize` changed: only the new fiber `n` and the alternate of the reused `src`. */
  ghost predicate MadeDelta(pre: map<FiberId, Fiber>, s1: map<FiberId, Fiber>, rf: FiberId, src: Option<FiberId>,
                            n: FiberId)
  {
    && pre.Keys <= s1.Keys && rf in pre && n != rf && n in s1 && s1[rf] == pre[rf]
    && (forall x :: x in pre && x != n && Some(x) != src ==> s1[x] == pre[x])
    && (src.Some? ==> src.value in pre && src.value != n && s1[src.value] == pre[src.value].(alternate := Some(n)))
  }

  /** The fiber `Realize` hands back for one step of the diff, and what else it changed. */
  /**
   * The key of the fiber `useFiber` hands back for old child `c`: its
   * alternate's key when it has one, else `c`'s key.
   */
  function ReuseKey(old0: map<FiberId, Fiber>, c: FiberId): Value
    requires c in old0
  {
    var alt := old0[c].alternate;
    if alt.Some? && alt.value in old0 then old0[alt.value].key else Coalesce(old0[c].key, Null)
  }

  /** What `Realize` did in one step of the diff, and where its fiber `n` stands. */
  ghost predicate Realized(old0: map<FiberId, Fiber>, pre: map<FiberId, Fiber>, s1: map<FiberId, Fiber>, rf: FiberId,
                           chain: seq<FiberId>, produced: seq<FiberId>, m: Make, n: FiberId)
  {
    && MadeDelta(pre, s1, rf, m.reuse, n)
    && rf !in chain && rf !in produced && n !in produced && n !in chain
    && s1[n].ret == Some(rf) && s1[n].flags == NoFlags && s1[n].sibling.None? && s1[n].alternate == m.reuse
    && s1[n].pendingProps == (if m.reuse.Some? then m.props else m.created.pendingProps)
    && (m.reuse.Some? ==>
          && m.reuse.value in chain && m.reuse.value !in produced && ReuseLink(old0, m.reuse.value, n)
          && m.reuse.value in old0 && pre[m.reuse.value] == old0[m.reuse.value]
          && s1[n].key == ReuseKey(old0, m.reuse.value))
    && (m.reuse.None? ==> n !in old0)
  }

  lemma RealizeStep(old0: map<FiberId, Fiber>, pre: map<FiberId, Fiber>, s1: map<FiberId, Fiber>, rf: FiberId,
                    track: bool, chain: seq<FiberId>, produced: seq<FiberId>, from: seq<Option<FiberId>>,
                    dels: seq<FiberId>, bound: int, m: Make, n: FiberId)
    requires ChildrenOK(old0, rf, chain) && Marked(old0, pre, rf, track, chain, produced, from, bound)
    requires Framed(old0, pre, rf, track, chain, produced, from, dels)
    requires m.reuse.Some? ==>
      m.reuse.value in chain && m.reuse.value !in Reused(from) && m.reuse.value in pre && pre[m.reuse.value] == old0[m.reuse.value]
    requires Unplaced(m.created) && MadeAs(pre, s1, rf, m, n)
    ensures Realized(old0, pre, s1, rf, chain, produced, m, n)
  {
    ProducedOutside(old0, pre, rf, track, chain, produced, from, bound, rf);
    if m.reuse.Some? {
      ProducedOutside(old0, pre, rf, track, chain, produced, from, bound, m.reuse.value);
    }
    if m.reuse.Some? {
      var c := m.reuse.value;
      var i :| 0 <= i < |chain| && chain[i] == c;
      assert AltOK(old0, rf, chain, chain[i]);
      if old0[c].alternate.Some? {
        TwinNotProduced(old0, pre, rf, track, chain, produced, from, bound, c);
        assert pre[old0[c].alternate.value] == old0[old0[c].alternate.value];
      } else {
        forall k | 0 <= k < |produced| ensures produced[k] in pre {
          assert NewChildOK(old0, pre, rf, chain, produced[k], from[k], PlaceAll(track, OldsOf(old0, from), 0)[k], bound);
        }
      }
    } else {
      forall k | 0 <= k < |produced| ensures produced[k] in pre {
        assert NewChildOK(old0, pre, rf, chain, produced[k], from[k], PlaceAll(track, OldsOf(old0, from), 0)[k], bound);
      }
      forall i | 0 <= i < |chain| ensures chain[i] in pre {
        assert ChainKept(old0, pre, chain[i], chain[i] in Reused(from));
      }
    }
  }

  /** `Realize`, then `deleteChild`, then `placeChild` on `n`, then linking `prev` to `n`, make up one `StepDelta`. */
  lemma ComposeDelta(pre: map<FiberId, Fiber>, s1: map<FiberId, Fiber>, s2: map<FiberId, Fiber>,
                     s3: map<FiberId, Fiber>, post: map<FiberId, Fiber>, rf: FiberId, src: Option<FiberId>,
                     n: FiberId, prev: Option<FiberId>, deleted: seq<FiberId>)
    requires MadeDelta(pre, s1, rf, src, n)
    requires s2 == s1[rf := WithDeletions(s1[rf], deleted)]
    requires n in s2 && s3.Keys == s2.Keys && (forall x :: x in s2 && x != n ==> s3[x] == s2[x])
    requires prev.Some? ==> prev.value in pre && prev.value != n && prev.value != rf && Some(prev.value) != src
    requires src.Some? ==> src.value != rf
    requires prev.None? ==> post == s3
    requires prev.Some? ==> post == s3[prev.value := s3[prev.value].(sibling := Some(n))]
    ensures StepDelta(pre, post, rf, src, n, prev, deleted)
  {
  }

  lemma DistinctAppend(a: seq<FiberId>, b: seq<FiberId>)
    requires Distinct(a) && Distinct(b) && forall x :: x in b ==> x !in a
    ensures Distinct(a + b)
  {
    var ab := a + b;
    forall i, j | 0 <= i < j < |ab| ensures ab[i] != ab[j] {
      if i < |a| <= j {
        assert ab[j] in b;
      }
    }
  }

  /** The old children stay as `ChainKept` says through a step that reuses `src`. */
  lemma ChainKeptSnoc(old0: map<FiberId, Fiber>, pre: map<FiberId, Fiber>, post: map<FiberId, Fiber>, rf: FiberId,
                      chain: seq<FiberId>, from: seq<Option<FiberId>>, src: Option<FiberId>, n: FiberId,
                      prev: Option<FiberId>, deleted: seq<FiberId>)
    requires forall i :: 0 <= i < |chain| ==> ChainKept(old0, pre, chain[i], chain[i] in Reused(from))
    requires StepDelta(pre, post, rf, src, n, prev, deleted)
    requires rf !in chain && n !in chain && (prev.Some? ==> prev.value !in chain)
    ensures forall i :: 0 <= i < |chain| ==> ChainKept(old0, post, chain[i], chain[i] in Reused(from + [src]))
  {
    OldsSnoc(old0, from, src);
    forall i | 0 <= i < |chain|
      ensures ChainKept(old0, post, chain[i], chain[i] in Reused(from + [src]))
    {
      assert ChainKept(old0, pre, chain[i], chain[i] in Reused(from));
    }
  }

  /** One step keeps `Framed`, with the reused `src` and the deleted `deleted` added. */
  lemma FramedSnoc(old0: map<FiberId, Fiber>, pre: map<FiberId, Fiber>, post: map<FiberId, Fiber>, rf: FiberId,
                   track: bool, chain: seq<FiberId>, produced: seq<FiberId>, from: seq<Option<FiberId>>,
                   dels: seq<FiberId>, src: Option<FiberId>, n: FiberId, prev: Option<FiberId>, deleted: seq<FiberId>)
    requires rf !in chain
    requires Framed(old0, pre, rf, track, chain, produced, from, dels)
    requires StepDelta(pre, post, rf, src, n, prev, deleted)
    requires n !in chain && (prev.Some? ==> prev.value in produced && prev.value !in chain)
    requires src.Some? ==> src.value in chain && src.value !in Reused(from) && src.value !in dels && src.value !in deleted
    requires !track ==> deleted == []
    requires forall d :: d in deleted ==> d in chain && d !in Reused(from) && d !in dels
    requires Distinct(deleted)
    ensures Framed(old0, post, rf, track, chain, produced + [n], from + [src], dels + deleted)
  {
    OldsSnoc(old0, from, src);
    WithDeletionsAppend(old0[rf], if track then dels else [], deleted);
    if !track {
      assert deleted + [] == [];
    }
    ChainKeptSnoc(old0, pre, post, rf, chain, from, src, n, prev, deleted);
    DistinctAppend(Reused(from), if src.Some? then [src.value] else []);
    DistinctAppend(dels, deleted);
  }

  /** The fiber a step made, once placed and linked, is as `NewChildOK` says. */
  lemma PlacedNewChild(old0: map<FiberId, Fiber>, pre: map<FiberId, Fiber>, s1: map<FiberId, Fiber>,
                       s2: map<FiberId, Fiber>, s3: map<FiberId, Fiber>, post: map<FiberId, Fiber>, rf: FiberId,
                       track: bool, chain: seq<FiberId>, src: Option<FiberId>, n: FiberId, prev: Option<FiberId>,
                       deleted: seq<FiberId>, lastPlacedIndex: int, newIdx: int)
    requires MadeDelta(pre, s1, rf, src, n) && n !in chain && rf !in chain
    requires s1[n].ret == Some(rf) && s1[n].flags == NoFlags && s1[n].sibling.None? && s1[n].alternate == src
    requires src.Some? ==> src.value in chain && ReuseLink(old0, src.value, n) && pre[src.value] == old0[src.value]
    requires src.None? ==> n !in old0
    requires rf in s1 && s2 == s1[rf := WithDeletions(s1[rf], deleted)]
    requires var p := PlaceDecision(track, OldIndex(s2, n), lastPlacedIndex);
      s3 == s2[n := s2[n].(index := newIdx, flags := if p.flag then s2[n].flags | Placement else s2[n].flags)]
    requires prev.Some? ==> prev.value in s3 && prev.value != n && Some(prev.value) != src && prev.value != rf
    requires prev.None? ==> post == s3
    requires prev.Some? ==> post == s3[prev.value := s3[prev.value].(sibling := Some(n))]
    ensures NewChildOK(old0, post, rf, chain, n, src,
                       PlaceDecision(track, OldIndexOf(old0, src), lastPlacedIndex).flag, newIdx + 1)
    ensures post[n].index == newIdx && post[n].sibling.None? && post[n].pendingProps == s1[n].pendingProps
    ensures post[n].key == s1[n].key && post[n].alternate == src
  {
    assert OldIndex(s2, n) == OldIndexOf(old0, src);
    assert NoFlags | Placement == Placement;
  }

  /** No old child and not `rf` itself is in the new list. */
  lemma ProducedOutside(old0: map<FiberId, Fiber>, fibers: map<FiberId, Fiber>, rf: FiberId, track: bool,
                        chain: seq<FiberId>, produced: seq<FiberId>, from: seq<Option<FiberId>>, bound: int, x: FiberId)
    requires Marked(old0, fibers, rf, track, chain, produced, from, bound)
    requires x in chain || x == rf
    ensures x !in produced
  {
    forall k | 0 <= k < |produced| ensures produced[k] != x {
      assert NewChildOK(old0, fibers, rf, chain, produced[k], from[k], PlaceAll(track, OldsOf(old0, from), 0)[k], bound);
    }
  }

  lemma ProducedIn(old0: map<FiberId, Fiber>, fibers: map<FiberId, Fiber>, rf: FiberId, track: bool,
                   chain: seq<FiberId>, produced: seq<FiberId>, from: seq<Option<FiberId>>, bound: int)
    requires Marked(old0, fibers, rf, track, chain, produced, from, bound)
    ensures forall k :: 0 <= k < |produced| ==> produced[k] in fibers
  {
    forall k | 0 <= k < |produced| ensures produced[k] in fibers {
      assert NewChildOK(old0, fibers, rf, chain, produced[k], from[k], PlaceAll(track, OldsOf(old0, from), 0)[k], bound);
    }
  }

  /** The last fiber of the new list so far is a new fiber of `rf`. */
  lemma PrevOutside(old0: map<FiberId, Fiber>, fibers: map<FiberId, Fiber>, rf: FiberId, track: bool,
                    chain: seq<FiberId>, produced: seq<FiberId>, from: seq<Option<FiberId>>,
                    head: Option<FiberId>, prev: Option<FiberId>, bound: int)
    requires Linked(fibers, head, prev, produced) && Marked(old0, fibers, rf, track, chain, produced, from, bound)
    ensures rf !in produced
    ensures prev.Some? ==> prev.value in produced && prev.value in fibers && prev.value !in chain && prev.value != rf
  {
    ProducedOutside(old0, fibers, rf, track, chain, produced, from, bound, rf);
    if prev.Some? {
      var k := |produced| - 1;
      assert NewChildOK(old0, fibers, rf, chain, produced[k], from[k], PlaceAll(track, OldsOf(old0, from), 0)[k], bound);
    }
  }

  lemma NoDeletion(fibers: map<FiberId, Fiber>, rf: FiberId)
    requires rf in fibers
    ensures fibers[rf := WithDeletions(fibers[rf], [])] == fibers
  {
  }

  /**
   * The state of the array diff after the new children before `newIdx`:
   * the new list `produced` is linked from `head` and ends at `prev`, its
   * fibers are marked as `placeChild` decided, the old children are
   * reused (`from`) or deleted (`dels`) at most once, and
   * `lastPlacedIndex` is what `placeChild` last returned.
   */
  ghost predicate DiffInv(old0: map<FiberId, Fiber>, fibers: map<FiberId, Fiber>, rf: FiberId, track: bool,
                          chain: seq<FiberId>, head: Option<FiberId>, prev: Option<FiberId>, produced: seq<FiberId>,
                          from: seq<Option<FiberId>>, dels: seq<FiberId>, newIdx: int, lastPlacedIndex: int)
  {
    && ChildrenOK(old0, rf, chain)
    && Linked(fibers, head, prev, produced)
    && Marked(old0, fibers, rf, track, chain, produced, from, newIdx)
    && Framed(old0, fibers, rf, track, chain, produced, from, dels)
    && lastPlacedIndex == LastPlaced(track, OldsOf(old0, from), 0)
  }

  /** `m` reuses, and `oldFiber` is, an old child neither reused nor deleted yet, the same one when both are given. */
  ghost predicate Fits(chain: seq<FiberId>, from: seq<Option<FiberId>>, dels: seq<FiberId>, m: Make,
                       oldFiber: Option<FiberId>)
  {
    && Unplaced(m.created)
    && (m.reuse.Some? ==> m.reuse.value in chain && m.reuse.value !in Reused(from) && m.reuse.value !in dels)
    && (oldFiber.Some? ==>
          && oldFiber.value in chain && oldFiber.value !in Reused(from) && oldFiber.value !in dels
          && (m.reuse.Some? ==> m.reuse == oldFiber))
  }

  /** What one step did, in terms of the heaps before and after it. */
  ghost predicate StepOK(old0: map<FiberId, Fiber>, pre: map<FiberId, Fiber>, post: map<FiberId, Fiber>, rf: FiberId,
                         track: bool, chain: seq<FiberId>, produced: seq<FiberId>, src: Option<FiberId>, n: FiberId,
                         prev: Option<FiberId>, deleted: seq<FiberId>, lastPlacedIndex: int, newIdx: int)
  {
    && StepDelta(pre, post, rf, src, n, prev, deleted)
    && n !in produced && n !in chain && rf !in produced && (src.Some? ==> src.value !in produced)
    && (prev.Some? ==> prev.value in produced && prev.value !in chain)
    && NewChildOK(old0, post, rf, chain, n, src, PlaceDecision(track, OldIndexOf(old0, src), lastPlacedIndex).flag, newIdx + 1)
    && post[n].index == newIdx && post[n].sibling.None? && post[n].alternate == src
  }

  /** `Realize`, `deleteChild`, `placeChild` and linking `prev` make one step as `StepOK` says. */
  lemma StepShape(old0: map<FiberId, Fiber>, pre: map<FiberId, Fiber>, s1: map<FiberId, Fiber>,
                  s2: map<FiberId, Fiber>, s3: map<FiberId, Fiber>, post: map<FiberId, Fiber>, rf: FiberId,
                  track: bool, chain: seq<FiberId>, produced: seq<FiberId>, m: Make, oldFiber: Option<FiberId>,
                  n: FiberId, prev: Option<FiberId>, deleted: seq<FiberId>, lastPlacedIndex: int, newIdx: int)
    requires Realized(old0, pre, s1, rf, chain, produced, m, n)
    requires prev.Some? ==> prev.value in produced && prev.value in pre && prev.value !in chain && prev.value != rf
    requires deleted == (if track && oldFiber.Some? && s1[n].alternate.None? then [oldFiber.value] else [])
    requires s2 == s1[rf := WithDeletions(s1[rf], deleted)]
    requires var p := PlaceDecision(track, OldIndex(s2, n), lastPlacedIndex);
      s3 == s2[n := s2[n].(index := newIdx, flags := if p.flag then s2[n].flags | Placement else s2[n].flags)]
    requires prev.None? ==> post == s3
    requires prev.Some? ==> post == s3[prev.value := s3[prev.value].(sibling := Some(n))]
    ensures deleted == (if track && oldFiber.Some? && m.reuse.None? then [oldFiber.value] else [])
    ensures StepOK(old0, pre, post, rf, track, chain, produced, m.reuse, n, prev, deleted, lastPlacedIndex, newIdx)
    ensures OldIndex(s2, n) == OldIndexOf(old0, m.reuse)
    ensures post[n].pendingProps == (if m.reuse.Some? then m.props else m.created.pendingProps)
    ensures m.reuse.Some? ==> m.reuse.value in old0 && post[n].key == ReuseKey(old0, m.reuse.value)
  {
    ComposeDelta(pre, s1, s2, s3, post, rf, m.reuse, n, prev, deleted);
    PlacedNewChild(old0, pre, s1, s2, s3, post, rf, track, chain, m.reuse, n, prev, deleted, lastPlacedIndex, newIdx);
  }

  /** The fibers of `produced` keep their indices from `pre` to `post`. */
  ghost predicate IndicesKept(pre: map<FiberId, Fiber>, post: map<FiberId, Fiber>, produced: seq<FiberId>)
  {
    forall k :: 0 <= k < |produced| ==> produced[k] in pre && produced[k] in post && post[produced[k]].index == pre[produced[k]].index
  }

  lemma IndicesKeptBy(pre: map<FiberId, Fiber>, post: map<FiberId, Fiber>, rf: FiberId, src: Option<FiberId>,
                      n: FiberId, prev: Option<FiberId>, deleted: seq<FiberId>, produced: seq<FiberId>)
    requires StepDelta(pre, post, rf, src, n, prev, deleted)
    requires forall k :: 0 <= k < |produced| ==> produced[k] in pre
    requires n !in produced && rf !in produced && (src.Some? ==> src.value !in produced)
    ensures IndicesKept(pre, post, produced)
  {
  }

  /** The invariants of the diff survive one step. */
  lemma StepKeeps(old0: map<FiberId, Fiber>, pre: map<FiberId, Fiber>, post: map<FiberId, Fiber>, rf: FiberId,
                  track: bool, chain: seq<FiberId>, produced: seq<FiberId>, from: seq<Option<FiberId>>,
                  dels: seq<FiberId>, m: Make, oldFiber: Option<FiberId>, n: FiberId, head: Option<FiberId>,
                  prev: Option<FiberId>, newHead: Option<FiberId>, deleted: seq<FiberId>, lastPlacedIndex: int,
                  newIdx: int, last: int)
    requires DiffInv(old0, pre, rf, track, chain, head, prev, produced, from, dels, newIdx, lastPlacedIndex)
    requires Fits(chain, from, dels, m, oldFiber)
    requires StepOK(old0, pre, post, rf, track, chain, produced, m.reuse, n, prev, deleted, lastPlacedIndex, newIdx)
    requires deleted == (if track && oldFiber.Some? && m.reuse.None? then [oldFiber.value] else [])
    requires newHead == (if prev.None? then Some(n) else head)
    requires last == PlaceDecision(track, OldIndexOf(old0, m.reuse), lastPlacedIndex).lastPlacedIndex
    ensures DiffInv(old0, post, rf, track, chain, newHead, Some(n), produced + [n], from + [m.reuse], dels + deleted,
                    newIdx + 1, last)
    ensures IndicesKept(pre, post, produced)
  {
    ProducedIn(old0, pre, rf, track, chain, produced, from, newIdx);
    IndicesKeptBy(pre, post, rf, m.reuse, n, prev, deleted, produced);
    OldsSnoc(old0, from, m.reuse);
    PlaceAllSnoc(track, OldsOf(old0, from), OldIndexOf(old0, m.reuse), 0);
    LinkedSnoc(pre, post, rf, m.reuse, n, deleted, head, prev, newHead, produced);
    MarkedSnoc(old0, pre, post, rf, track, chain, produced, from, m.reuse, n, prev, deleted, newIdx);
    FramedSnoc(old0, pre, post, rf, track, chain, produced, from, dels, m.reuse, n, prev, deleted);
  }

  /**
   * One new fiber of the array diff: carries out `m`, deletes `oldFiber`
   * when tracking and the new fiber is not a reuse, places it at `newIdx`
   * and links it after `prev`.
   */
  method Step(heap: FiberHeap, track: bool, rf: FiberId, m: Make, oldFiber: Option<FiberId>, newIdx: int,
              lastPlacedIndex: int, head: Option<FiberId>, prev: Option<FiberId>,
              ghost old0: map<FiberId, Fiber>, ghost chain: seq<FiberId>, ghost produced: seq<FiberId>,
              ghost from: seq<Option<FiberId>>, ghost dels: seq<FiberId>)
    returns (n: FiberId, last: int, newHead: Option<FiberId>, ghost deleted: seq<FiberId>)
    requires heap.Valid()
    requires DiffInv(old0, heap.fibers, rf, track, chain, head, prev, produced, from, dels, newIdx, lastPlacedIndex)
    requires Fits(chain, from, dels, m, oldFiber)
    modifies heap
    ensures heap.Valid()
    ensures deleted == (if track && oldFiber.Some? && m.reuse.None? then [oldFiber.value] else [])
    ensures DiffInv(old0, heap.fibers, rf, track, chain, newHead, Some(n), produced + [n], from + [m.reuse],
                    dels + deleted, newIdx + 1, last)
    ensures heap.fibers[n].index == newIdx && heap.fibers[n].alternate == m.reuse
    ensures heap.fibers[n].pendingProps == (if m.reuse.Some? then m.props else m.created.pendingProps)
    ensures m.reuse.Some? ==> m.reuse.value in old0 && heap.fibers[n].key == ReuseKey(old0, m.reuse.value)
    ensures IndicesKept(old(heap.fibers), heap.fibers, produced)
  {
    ghost var pre := heap.fibers;
    if m.reuse.Some? {
      StillReusable(old0, heap.fibers, rf, track, chain, produced, from, dels, newIdx, m.reuse.value);
    }
    n := Realize(heap, rf, m);
    ghost var s1 := heap.fibers;
    RealizeStep(old0, pre, s1, rf, track, chain, produced, from, dels, newIdx, m, n);
    deleted := [];
    if track && oldFiber.Some? && heap.fibers[n].alternate.None? {
      DeleteChild(heap, track, rf, oldFiber.value);
      deleted := [oldFiber.value];
    } else {
      NoDeletion(s1, rf);
    }
    ghost var s2 := heap.fibers;
    last := PlaceChild(heap, track, n, lastPlacedIndex, newIdx);
    ghost var s3 := heap.fibers;
    PrevOutside(old0, pre, rf, track, chain, produced, from, head, prev, newIdx);
    if prev.None? {
      newHead := Some(n);
    } else {
      newHead := head;
      heap.Put(prev.value, heap.fibers[prev.value].(sibling := Some(n)));
    }
    StepShape(old0, pre, s1, s2, s3, heap.fibers, rf, track, chain, produced, m, oldFiber,
              n, prev, deleted, lastPlacedIndex, newIdx);
    StepKeeps(old0, pre, heap.fibers, rf, track, chain, produced, from, dels, m, oldFiber,
              n, head, prev, newHead, deleted, lastPlacedIndex, newIdx, last);
  }
}
