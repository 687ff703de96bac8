/**
 * The child reconciler, part one: deletion bookkeeping, fiber reuse,
 * `placeChild`, and the single-element and single-text cases. Every
 * method takes `track` (`shouldTrackSideEffects`): false for the mount
 * reconciler, true for the update reconciler.
 *
 * An existing child list is given as a sibling chain: the first child id
 * and the ghost sequence of ids reached by following `sibling`.
 */
module ChildFiber {
  import opened Wrappers
  import opened JsValues
  import opened FiberFlags
  import opened Jsx
  import opened Fiber

  /** `chain` is exactly the list reached from `first` by `sibling` links, ending in null. */
  ghost predicate SiblingChain(fibers: map<FiberId, Fiber>, first: Option<FiberId>, chain: seq<FiberId>)
  {
    && (|chain| == 0 <==> first.None?)
    && (|chain| > 0 ==> first == Some(chain[0]))
    && (forall i :: 0 <= i < |chain| ==> chain[i] in fibers)
    && (forall i {:trigger fibers[chain[i]]} :: 0 <= i < |chain| ==>
          fibers[chain[i]].sibling == (if i + 1 < |chain| then Some(chain[i + 1]) else None))
  }

  ghost predicate Distinct(s: seq<FiberId>)
  {
    forall i, j :: 0 <= i < j < |s| ==> s[i] != s[j]
  }

  /**
   * The double-buffer shape the reconciler relies on: the parent is not one
   * of the old children, and an old child's alternate is paired with it and
   * is neither the parent nor another old child.
   */
  ghost predicate ChildrenOK(fibers: map<FiberId, Fiber>, rf: FiberId, chain: seq<FiberId>)
  {
    && rf in fibers && rf !in chain && Distinct(chain)
    && (forall i :: 0 <= i < |chain| ==> chain[i] in fibers)
    && (forall i :: 0 <= i < |chain| ==> AltOK(fibers, rf, chain, chain[i]))
  }

  ghost predicate AltOK(fibers: map<FiberId, Fiber>, rf: FiberId, chain: seq<FiberId>, c: FiberId)
    requires c in fibers
  {
    fibers[c].alternate.Some? ==>
      var a := fibers[c].alternate.value;
      Paired(fibers, c, a) && a != rf && a !in chain
  }

  /** Every fiber outside `touched` is still there with the same record. */
  ghost predicate UnchangedExcept(a: map<FiberId, Fiber>, b: map<FiberId, Fiber>, touched: set<FiberId>)
  {
    forall id :: id in a && id !in touched ==> id in b && b[id] == a[id]
  }

  lemma SiblingAt(fibers: map<FiberId, Fiber>, first: Option<FiberId>, chain: seq<FiberId>, i: nat)
    requires SiblingChain(fibers, first, chain) && i < |chain|
    ensures fibers[chain[i]].sibling == (if i + 1 < |chain| then Some(chain[i + 1]) else None)
  {
  }

  lemma SiblingChainSuffix(fibers: map<FiberId, Fiber>, first: Option<FiberId>, chain: seq<FiberId>, i: nat)
    requires SiblingChain(fibers, first, chain) && i < |chain|
    ensures SiblingChain(fibers, fibers[chain[i]].sibling, chain[i + 1..])
  {
    SiblingAt(fibers, first, chain, i);
    var rest := chain[i + 1..];
    forall k | 0 <= k < |rest|
      ensures rest[k] in fibers
      ensures fibers[rest[k]].sibling == (if k + 1 < |rest| then Some(rest[k + 1]) else None)
    {
      SiblingAt(fibers, first, chain, i + 1 + k);
    }
    var f := fibers[chain[i]].sibling;
    assert |rest| == 0 <==> f.None?;
    assert |rest| > 0 ==> f == Some(rest[0]);
    assert forall k :: 0 <= k < |rest| ==> rest[k] in fibers;
    assert forall k :: 0 <= k < |rest| ==>
      fibers[rest[k]].sibling == (if k + 1 < |rest| then Some(rest[k + 1]) else None);
    assert SiblingChain(fibers, f, rest);
  }

  /** The chain from position `i` on. */
  lemma SiblingChainDrop(fibers: map<FiberId, Fiber>, first: Option<FiberId>, chain: seq<FiberId>, i: nat)
    requires SiblingChain(fibers, first, chain) && i <= |chain|
    ensures SiblingChain(fibers, if i < |chain| then Some(chain[i]) else None, chain[i..])
  {
    var rest := chain[i..];
    forall k | 0 <= k < |rest|
      ensures rest[k] in fibers
      ensures fibers[rest[k]].sibling == (if k + 1 < |rest| then Some(rest[k + 1]) else None)
    {
      SiblingAt(fibers, first, chain, i + k);
    }
    var f: Option<FiberId> := if i < |chain| then Some(chain[i]) else None;
    assert |rest| == 0 <==> f.None?;
    assert |rest| > 0 ==> f == Some(rest[0]);
    assert forall k :: 0 <= k < |rest| ==> rest[k] in fibers;
    assert forall k :: 0 <= k < |rest| ==>
      fibers[rest[k]].sibling == (if k + 1 < |rest| then Some(rest[k + 1]) else None);
    assert SiblingChain(fibers, f, rest);
  }

  /** A chain survives any change that keeps its fibers' `sibling` links. */
  lemma SiblingChainFrame(a: map<FiberId, Fiber>, b: map<FiberId, Fiber>, first: Option<FiberId>, chain: seq<FiberId>)
    requires SiblingChain(a, first, chain)
    requires forall i :: 0 <= i < |chain| ==> chain[i] in b && b[chain[i]].sibling == a[chain[i]].sibling
    ensures SiblingChain(b, first, chain)
  {
  }

  function DeletionsOf(f: Fiber): seq<FiberId>
  {
    if f.deletions.Some? then f.deletions.value else []
  }

  /**
   * The parent after `deleteChild` has been called for each of `ds` in
   * turn: the first deletion creates the list and sets `ChildDeletion`,
   * later ones append. Nothing else in the parent changes.
   */
  function WithDeletions(f: Fiber, ds: seq<FiberId>): (r: Fiber)
    ensures |ds| == 0 ==> r == f
    ensures |ds| > 0 ==> r.deletions == Some(DeletionsOf(f) + ds)
    ensures |ds| > 0 ==> r.flags == (if f.deletions.None? then f.flags | ChildDeletion else f.flags)
  {
    if |ds| == 0 then f
    else if f.deletions.None? then
      assert DeletionsOf(f) + ds == ds;
      f.(deletions := Some(ds), flags := f.flags | ChildDeletion)
    else f.(deletions := Some(f.deletions.value + ds))
  }

  lemma AppendAssoc(a: seq<FiberId>, b: seq<FiberId>, c: seq<FiberId>)
    ensures a + (b + c) == (a + b) + c
  {
  }

  /** Recording deletions changes only the parent's `deletions` and `flags`. */
  lemma WithDeletionsKeepsRest(f: Fiber, ds: seq<FiberId>)
    ensures WithDeletions(f, ds).(deletions := f.deletions, flags := f.flags) == f
  {
  }

  /** Deleting `a` and then `b` is deleting `a + b`. */
  lemma WithDeletionsAppend(f: Fiber, a: seq<FiberId>, b: seq<FiberId>)
    ensures WithDeletions(WithDeletions(f, a), b) == WithDeletions(f, a + b)
  {
    if |a| == 0 {
      assert a + b == b;
    } else if |b| == 0 {
      assert a + b == a;
    } else if f.deletions.None? {
      assert (f.flags | ChildDeletion) | ChildDeletion == f.flags | ChildDeletion;
    } else {
      assert f.deletions.value + a + b == f.deletions.value + (a + b);
    }
  }

  /** `deleteChild(returnFiber, childToDelete)`: without tracking nothing happens. */
  method DeleteChild(heap: FiberHeap, track: bool, rf: FiberId, child: FiberId)
    requires rf in heap.fibers
    modifies heap`fibers
    ensures heap.fibers == old(heap.fibers)[rf := WithDeletions(old(heap.fibers)[rf], if track then [child] else [])]
    ensures old(heap.Valid()) ==> heap.Valid()
  {
    if !track {
      return;
    }
    var f := heap.fibers[rf];
    if f.deletions.None? {
      heap.Put(rf, f.(deletions := Some([child]), flags := f.flags | ChildDeletion));
    } else {
      heap.Put(rf, f.(deletions := Some(f.deletions.value + [child])));
    }
  }

  /** `deleteRemainingChildren(returnFiber, currentFirstChild)`: deletes the whole chain, in order. */
  method DeleteRemainingChildren(heap: FiberHeap, track: bool, rf: FiberId, first: Option<FiberId>, ghost chain: seq<FiberId>)
    requires rf in heap.fibers && SiblingChain(heap.fibers, first, chain)
    modifies heap`fibers
    ensures heap.fibers == old(heap.fibers)[rf := WithDeletions(old(heap.fibers)[rf], if track then chain else [])]
  {
    if !track {
      return;
    }
    var child := first;
    ghost var i := 0;
    while child.Some?
      invariant 0 <= i <= |chain|
      invariant child == (if i < |chain| then Some(chain[i]) else None)
      invariant rf in heap.fibers
      invariant heap.fibers == old(heap.fibers)[rf := WithDeletions(old(heap.fibers)[rf], chain[..i])]
      decreases |chain| - i
    {
      SiblingAt(old(heap.fibers), first, chain, i);
      DeleteChild(heap, track, rf, child.value);
      WithDeletionsAppend(old(heap.fibers)[rf], chain[..i], [chain[i]]);
      assert chain[..i] + [chain[i]] == chain[..i + 1];
      assert heap.fibers[chain[i]].sibling == old(heap.fibers)[chain[i]].sibling by {
        if chain[i] == rf {
          var w := WithDeletions(old(heap.fibers)[rf], chain[..i + 1]);
          WithDeletionsKeepsRest(old(heap.fibers)[rf], chain[..i + 1]);
          assert w.(deletions := old(heap.fibers)[rf].deletions, flags := old(heap.fibers)[rf].flags).sibling == w.sibling;
        }
      }
      child := heap.fibers[child.value].sibling;
      i := i + 1;
    }
    assert chain[..i] == chain;
  }

  /** The record `createWorkInProgress` leaves in `w` for current fiber `c` (id `cid`) and `props`. */
  ghost predicate WorkInProgressOf(w: Fiber, c: Fiber, cid: FiberId, props: Value)
  {
    && w.pendingProps == props && w.alternate == Some(cid)
    && w.ftype == c.ftype && w.ref == c.ref && w.updateQueue == c.updateQueue && w.child == c.child
    && w.memoizedProps == c.memoizedProps && w.memoizedState == c.memoizedState
    && w.flags == NoFlags && w.subtreeFlags == NoFlags && w.deletions.None?
  }

  /**
   * `useFiber(fiber, pendingProps)`: the work-in-progress twin of `fiber`,
   * placed first (`index` 0) with no sibling.
   */
  method UseFiber(heap: FiberHeap, fiber: FiberId, props: Value) returns (clone: FiberId)
    requires heap.Valid() && fiber in heap.fibers
    requires heap.fibers[fiber].alternate.Some? ==> Paired(heap.fibers, fiber, heap.fibers[fiber].alternate.value)
    modifies heap
    ensures heap.Valid() && old(heap.fibers).Keys <= heap.fibers.Keys
    ensures Paired(heap.fibers, fiber, clone)
    ensures old(heap.fibers)[fiber].alternate.Some? ==> clone == old(heap.fibers)[fiber].alternate.value
    ensures old(heap.fibers)[fiber].alternate.None? ==>
      clone !in old(heap.fibers) && heap.fibers[clone].tag == old(heap.fibers)[fiber].tag
    ensures heap.fibers[fiber] == old(heap.fibers)[fiber].(alternate := Some(clone))
    ensures WorkInProgressOf(heap.fibers[clone], old(heap.fibers)[fiber], fiber, props)
    ensures heap.fibers[clone].index == 0 && heap.fibers[clone].sibling.None?
    ensures heap.fibers[clone].key == (if old(heap.fibers)[fiber].alternate.Some? then old(heap.fibers)[clone].key
                                       else Coalesce(old(heap.fibers)[fiber].key, Null))
    ensures UnchangedExcept(old(heap.fibers), heap.fibers, {fiber, clone})
  {
    ghost var c := heap.fibers[fiber];
    clone := heap.CreateWorkInProgress(fiber, props);
    assert c.alternate.None? ==> heap.fibers[clone].tag == c.tag;
    heap.Put(clone, heap.fibers[clone].(index := 0, sibling := None));
  }

  /** What `placeChild` decides: whether to flag `Placement`, and the new `lastPlacedIndex`. */
  datatype Placed = Placed(flag: bool, lastPlacedIndex: int)

  /**
   * `placeChild` for a fiber whose alternate sits at `oldIndex` (None for a
   * new fiber): a new fiber is placed; a reused one moves when it stood
   * left of `lastPlacedIndex`, and otherwise stays and raises
   * `lastPlacedIndex` to its old index. Without tracking nothing is flagged.
   */
  function PlaceDecision(track: bool, oldIndex: Option<int>, lastPlacedIndex: int): (p: Placed)
    ensures !track ==> p == Placed(false, lastPlacedIndex)
    ensures track && oldIndex.None? ==> p == Placed(true, lastPlacedIndex)
    ensures track && oldIndex.Some? ==>
      (p.flag <==> oldIndex.value < lastPlacedIndex)
      && p.lastPlacedIndex == (if p.flag then lastPlacedIndex else oldIndex.value)
    ensures p.lastPlacedIndex >= lastPlacedIndex
  {
    if !track then Placed(false, lastPlacedIndex)
    else if oldIndex.Some? then
      if oldIndex.value < lastPlacedIndex then Placed(true, lastPlacedIndex) else Placed(false, oldIndex.value)
    else Placed(true, lastPlacedIndex)
  }

  /** The `Placement` flags `placeChild` hands out along a list of old indices, starting from `last`. */
  function PlaceAll(track: bool, olds: seq<Option<int>>, last: int): (flags: seq<bool>)
    ensures |flags| == |olds|
  {
    if |olds| == 0 then []
    else
      var p := PlaceDecision(track, olds[0], last);
      [p.flag] + PlaceAll(track, olds[1..], p.lastPlacedIndex)
  }

  /** The `lastPlacedIndex` after placing every one of `olds`. */
  function LastPlaced(track: bool, olds: seq<Option<int>>, last: int): int
  {
    if |olds| == 0 then last
    else LastPlaced(track, olds[1..], PlaceDecision(track, olds[0], last).lastPlacedIndex)
  }

  /**
   * The reused fibers left in place keep their old relative order: along
   * the new list, the old indices of unflagged reused fibers never
   * decrease, and none of them is below the starting `lastPlacedIndex`.
   */
  lemma {:induction false} UnmovedKeepOldOrder(olds: seq<Option<int>>, last: int, i: nat, j: nat)
    requires i < j < |olds| && olds[i].Some? && olds[j].Some?
    requires !PlaceAll(true, olds, last)[i] && !PlaceAll(true, olds, last)[j]
    ensures last <= olds[i].value <= olds[j].value
  {
    var p := PlaceDecision(true, olds[0], last);
    if i == 0 {
      UnmovedAtLeast(olds[1..], p.lastPlacedIndex, j - 1);
    } else {
      UnmovedKeepOldOrder(olds[1..], p.lastPlacedIndex, i - 1, j - 1);
    }
  }

  lemma {:induction false} UnmovedAtLeast(olds: seq<Option<int>>, last: int, j: nat)
    requires j < |olds| && olds[j].Some? && !PlaceAll(true, olds, last)[j]
    ensures last <= olds[j].value
  {
    var p := PlaceDecision(true, olds[0], last);
    if j > 0 {
      UnmovedAtLeast(olds[1..], p.lastPlacedIndex, j - 1);
    }
  }

  /** A reused fiber is flagged to move exactly when it stood left of some earlier fiber left in place (or the start). */
  lemma {:induction false} MovedStoodLeft(olds: seq<Option<int>>, last: int, j: nat)
    requires j < |olds| && olds[j].Some? && PlaceAll(true, olds, last)[j]
    ensures olds[j].value < last || exists i :: 0 <= i < j && olds[i].Some? && !PlaceAll(true, olds, last)[i] && olds[j].value < olds[i].value
  {
    var p := PlaceDecision(true, olds[0], last);
    if j > 0 {
      MovedStoodLeft(olds[1..], p.lastPlacedIndex, j - 1);
      var rest := PlaceAll(true, olds[1..], p.lastPlacedIndex);
      assert PlaceAll(true, olds, last) == [p.flag] + rest;
      if olds[j].value < p.lastPlacedIndex {
        if p.lastPlacedIndex != last {
          assert olds[0].Some? && !p.flag && olds[0].value == p.lastPlacedIndex;
        }
      } else {
        var i :| 0 <= i < j - 1 && olds[1..][i].Some? && !rest[i] && olds[1..][j - 1].value < olds[1..][i].value;
        assert olds[i + 1].Some? && !PlaceAll(true, olds, last)[i + 1];
      }
    }
  }

  /**
   * The worked example: old A B C D E F (indices 0..5) reordered to
   * A C E B D F flags exactly B and D to move, and ends with
   * `lastPlacedIndex` 5.
   */
  lemma ReorderExample()
    ensures PlaceAll(true, [Some(0), Some(2), Some(4), Some(1), Some(3), Some(5)], 0)
      == [false, false, false, true, true, false]
    ensures LastPlaced(true, [Some(0), Some(2), Some(4), Some(1), Some(3), Some(5)], 0) == 5
  {
    var olds := [Some(0), Some(2), Some(4), Some(1), Some(3), Some(5)];
    assert olds[1..] == [Some(2), Some(4), Some(1), Some(3), Some(5)];
    assert olds[2..] == [Some(4), Some(1), Some(3), Some(5)];
    assert olds[3..] == [Some(1), Some(3), Some(5)];
    assert olds[4..] == [Some(3), Some(5)];
    assert olds[5..] == [Some(5)];
    assert PlaceAll(true, olds[5..], 4) == [false];
    assert PlaceAll(true, olds[4..], 4) == [true, false];
    assert PlaceAll(true, olds[3..], 4) == [true, true, false];
    assert PlaceAll(true, olds[2..], 2) == [false, true, true, false];
    assert PlaceAll(true, olds[1..], 0) == [false, false, true, true, false];
    assert LastPlaced(true, olds[5..], 4) == 5;
    assert LastPlaced(true, olds[4..], 4) == 5;
    assert LastPlaced(true, olds[3..], 4) == 5;
    assert LastPlaced(true, olds[2..], 2) == 5;
    assert LastPlaced(true, olds[1..], 0) == 5;
  }

  /** The alternate's `index`, if the fiber has an alternate. */
  function OldIndex(fibers: map<FiberId, Fiber>, id: FiberId): Option<int>
    requires id in fibers
  {
    var alt := fibers[id].alternate;
    if alt.Some? && alt.value in fibers then Some(fibers[alt.value].index) else None
  }

  /**
   * `placeChild(newFiber, lastPlacedIndex, newIndex)`: sets `index`, and
   * flags and returns as `PlaceDecision` says.
   */
  method PlaceChild(heap: FiberHeap, track: bool, newFiber: FiberId, lastPlacedIndex: int, newIndex: int) returns (last: int)
    requires newFiber in heap.fibers
    modifies heap`fibers
    ensures var p := PlaceDecision(track, OldIndex(old(heap.fibers), newFiber), lastPlacedIndex);
      && last == p.lastPlacedIndex
      && heap.fibers == old(heap.fibers)[newFiber := old(heap.fibers)[newFiber].(index := newIndex,
           flags := if p.flag then old(heap.fibers)[newFiber].flags | Placement else old(heap.fibers)[newFiber].flags)]
    ensures old(heap.Valid()) ==> heap.Valid()
  {
    var f := heap.fibers[newFiber];
    var p := PlaceDecision(track, OldIndex(heap.fibers, newFiber), lastPlacedIndex);
    heap.Put(newFiber, f.(index := newIndex, flags := if p.flag then f.flags | Placement else f.flags));
    last := p.lastPlacedIndex;
  }

  /** `placeSingleChild(fiber)`: `Placement` only when tracking and the fiber has no alternate. */
  method PlaceSingleChild(heap: FiberHeap, track: bool, fiber: FiberId)
    requires fiber in heap.fibers
    modifies heap`fibers
    ensures var f := old(heap.fibers)[fiber];
      heap.fibers == old(heap.fibers)[fiber := f.(flags := if track && f.alternate.None? then f.flags | Placement else f.flags)]
  {
    var f := heap.fibers[fiber];
    if track && f.alternate.None? {
      heap.Put(fiber, f.(flags := f.flags | Placement));
    }
  }

  /** Which old children the single-element case deletes (in order) and which one, if any, it reuses. */
  datatype SinglePlan = SinglePlan(deleted: seq<FiberId>, reuse: Option<FiberId>)

  /** What the scan does with one old child. */
  datatype ScanStep = DeleteAndGo | Reuse | DeleteRest | Pass

  /**
   * The scan's decision for old child `c`: a key mismatch deletes it and
   * goes on; a key match with the same type (or a fragment over a
   * `Fragment` fiber) reuses it; a key match with another type deletes it
   * and the rest. A key match where the element is a fragment but the old
   * fiber is not a `Fragment` neither deletes nor stops (as written);
   * `intended` treats it as a type mismatch instead.
   */
  function SingleStep(c: Fiber, key: Value, etype: Value, intended: bool): ScanStep
  {
    if c.key == key then
      if etype == REACT_FRAGMENT_TYPE then
        if c.tag == Fragment then Reuse
        else if intended then DeleteRest
        else Pass
      else if etype == c.ftype then Reuse
      else DeleteRest
    else DeleteAndGo
  }

  /** The decision for each old child of the chain, in order. */
  function ScanSteps(fibers: map<FiberId, Fiber>, chain: seq<FiberId>, key: Value, etype: Value,
                     intended: bool): (s: seq<ScanStep>)
    requires forall j :: 0 <= j < |chain| ==> chain[j] in fibers
    ensures |s| == |chain|
  {
    if |chain| == 0 then []
    else [SingleStep(fibers[chain[0]], key, etype, intended)] + ScanSteps(fibers, chain[1..], key, etype, intended)
  }

  /** `ScanSteps` holds the decision for each old child. */
  lemma {:induction false} ScanStepAt(fibers: map<FiberId, Fiber>, chain: seq<FiberId>, key: Value, etype: Value,
                                      intended: bool, j: nat)
    requires forall j :: 0 <= j < |chain| ==> chain[j] in fibers
    requires j < |chain|
    ensures ScanSteps(fibers, chain, key, etype, intended)[j] == SingleStep(fibers[chain[j]], key, etype, intended)
  {
    if j > 0 {
      ScanStepAt(fibers, chain[1..], key, etype, intended, j - 1);
    }
  }

  lemma ScanStepsAll(fibers: map<FiberId, Fiber>, chain: seq<FiberId>, key: Value, etype: Value, intended: bool)
    requires forall j :: 0 <= j < |chain| ==> chain[j] in fibers
    ensures forall j :: 0 <= j < |chain| ==>
      ScanSteps(fibers, chain, key, etype, intended)[j] == SingleStep(fibers[chain[j]], key, etype, intended)
  {
    forall j | 0 <= j < |chain|
      ensures ScanSteps(fibers, chain, key, etype, intended)[j] == SingleStep(fibers[chain[j]], key, etype, intended)
    {
      ScanStepAt(fibers, chain, key, etype, intended, j);
    }
  }

  /**
   * The children the scan deletes (in order) and reuses, from old child `i`
   * on, given the decision for each: a reuse deletes everything after it,
   * a `DeleteRest` deletes the child and everything after it, both stop.
   */
  function PlanFrom(steps: seq<ScanStep>, chain: seq<FiberId>, i: nat): (p: SinglePlan)
    requires |steps| == |chain|
    ensures p.reuse.Some? ==> p.reuse.value in chain
    decreases |chain| - i
  {
    if i >= |chain| then SinglePlan([], None)
    else match steps[i]
      case Reuse => SinglePlan(chain[i + 1..], Some(chain[i]))
      case DeleteRest => SinglePlan(chain[i..], None)
      case Pass => PlanFrom(steps, chain, i + 1)
      case DeleteAndGo =>
        var rest := PlanFrom(steps, chain, i + 1);
        SinglePlan([chain[i]] + rest.deleted, rest.reuse)
  }

  /** What `reconcileSingleElement` deletes and reuses among the old children `chain`. */
  function SingleElementPlan(fibers: map<FiberId, Fiber>, chain: seq<FiberId>, key: Value, etype: Value,
                             intended: bool): (p: SinglePlan)
    requires forall j :: 0 <= j < |chain| ==> chain[j] in fibers
    ensures p.reuse.Some? ==> p.reuse.value in chain && p.reuse.value in fibers
  {
    PlanFrom(ScanSteps(fibers, chain, key, etype, intended), chain, 0)
  }

  /** How many old children a plan accounts for: each deleted one and the reused one. */
  function Accounted(p: SinglePlan): multiset<FiberId>
  {
    multiset(p.deleted) + (if p.reuse.Some? then multiset{p.reuse.value} else multiset{})
  }

  /** Without `Pass` steps, a plan from `i` on accounts for every old child from `i` on exactly once. */
  lemma {:induction false} PlanAccountsForAll(steps: seq<ScanStep>, chain: seq<FiberId>, i: nat)
    requires |steps| == |chain| && i <= |chain|
    requires forall j :: i <= j < |steps| ==> steps[j] != Pass
    ensures Accounted(PlanFrom(steps, chain, i)) == multiset(chain[i..])
    decreases |chain| - i
  {
    if i < |chain| {
      var x := chain[i];
      assert chain[i..] == [x] + chain[i + 1..];
      var whole := multiset(chain[i..]);
      assert whole == multiset{x} + multiset(chain[i + 1..]);
      var rest := PlanFrom(steps, chain, i + 1);
      match steps[i]
      case Reuse =>
        assert Accounted(SinglePlan(chain[i + 1..], Some(x))) == whole;
      case DeleteRest =>
        assert Accounted(SinglePlan(chain[i..], None)) == whole;
      case DeleteAndGo =>
        PlanAccountsForAll(steps, chain, i + 1);
        assert multiset([x] + rest.deleted) == multiset{x} + multiset(rest.deleted);
        assert Accounted(SinglePlan([x] + rest.deleted, rest.reuse)) == multiset{x} + Accounted(rest);
    }
  }

  /** Whatever the steps, a plan from `i` on accounts for old children from `i` on, none twice. */
  lemma {:induction false} PlanWithinChain(steps: seq<ScanStep>, chain: seq<FiberId>, i: nat)
    requires |steps| == |chain| && i <= |chain|
    ensures Accounted(PlanFrom(steps, chain, i)) <= multiset(chain[i..])
    decreases |chain| - i
  {
    if i < |chain| {
      var x := chain[i];
      assert chain[i..] == [x] + chain[i + 1..];
      var whole := multiset(chain[i..]);
      assert whole == multiset{x} + multiset(chain[i + 1..]);
      var rest := PlanFrom(steps, chain, i + 1);
      match steps[i]
      case Reuse =>
        assert Accounted(SinglePlan(chain[i + 1..], Some(x))) == whole;
      case DeleteRest =>
        assert Accounted(SinglePlan(chain[i..], None)) == whole;
      case Pass =>
        PlanWithinChain(steps, chain, i + 1);
      case DeleteAndGo =>
        PlanWithinChain(steps, chain, i + 1);
        assert multiset([x] + rest.deleted) == multiset{x} + multiset(rest.deleted);
        assert Accounted(SinglePlan([x] + rest.deleted, rest.reuse)) == multiset{x} + Accounted(rest);
    }
  }

  /** Only a fragment over a same-key non-`Fragment` fiber passes, and only as written. */
  lemma {:induction false} NoPassUnlessFragment(fibers: map<FiberId, Fiber>, chain: seq<FiberId>, key: Value,
                                                etype: Value, intended: bool)
    requires forall j :: 0 <= j < |chain| ==> chain[j] in fibers
    requires intended || etype != REACT_FRAGMENT_TYPE
    ensures forall j :: 0 <= j < |chain| ==> ScanSteps(fibers, chain, key, etype, intended)[j] != Pass
  {
    if |chain| > 0 {
      NoPassUnlessFragment(fibers, chain[1..], key, etype, intended);
    }
  }

  /** No old child is deleted or reused twice, and only old children are. */
  lemma SingleElementPlanWithinChain(fibers: map<FiberId, Fiber>, chain: seq<FiberId>, key: Value, etype: Value,
                                     intended: bool)
    requires forall j :: 0 <= j < |chain| ==> chain[j] in fibers
    ensures Accounted(SingleElementPlan(fibers, chain, key, etype, intended)) <= multiset(chain)
  {
    assert chain[0..] == chain;
    PlanWithinChain(ScanSteps(fibers, chain, key, etype, intended), chain, 0);
  }

  /**
   * The intended scan deletes or reuses every old child exactly once; as
   * written this also holds whenever the new element is not a fragment.
   */
  lemma SingleElementPlanAccountsForAll(fibers: map<FiberId, Fiber>, chain: seq<FiberId>, key: Value, etype: Value,
                                        intended: bool)
    requires forall j :: 0 <= j < |chain| ==> chain[j] in fibers
    requires intended || etype != REACT_FRAGMENT_TYPE
    ensures Accounted(SingleElementPlan(fibers, chain, key, etype, intended)) == multiset(chain)
  {
    assert chain[0..] == chain;
    NoPassUnlessFragment(fibers, chain, key, etype, intended);
    PlanAccountsForAll(ScanSteps(fibers, chain, key, etype, intended), chain, 0);
  }

  /**
   * As written, a keyed fragment replacing a non-fragment child with the
   * same key leaves that child alone: it is neither reused nor deleted,
   * while the intended scan deletes it.
   */
  lemma FragmentOverSameKeyKeepsOldChild()
    ensures var fibers := map[1 := NewFiber(HostComponent, Rec(map[]), Str("k")).(ftype := Str("div"))];
      && SingleElementPlan(fibers, [1], Str("k"), REACT_FRAGMENT_TYPE, false) == SinglePlan([], None)
      && SingleElementPlan(fibers, [1], Str("k"), REACT_FRAGMENT_TYPE, true) == SinglePlan([1], None)
  {
    var fibers := map[1 := NewFiber(HostComponent, Rec(map[]), Str("k")).(ftype := Str("div"))];
    assert ScanSteps(fibers, [1], Str("k"), REACT_FRAGMENT_TYPE, false)[0] == Pass;
    assert ScanSteps(fibers, [1], Str("k"), REACT_FRAGMENT_TYPE, true)[0] == DeleteRest;
    assert [1][0..] == [1];
  }

  /** The props a reused fiber gets: a fragment's children, or the element's props. */
  function ElementProps(element: Value): Value
  {
    if Get(element, "type") == REACT_FRAGMENT_TYPE then Get(Get(element, "props"), "children")
    else Get(element, "props")
  }

  /** `w` is the reused twin of `c` (id `cid`) with `props`, first in the list, under `rf`. */
  ghost predicate ReusedAs(w: Fiber, c: Fiber, cid: FiberId, props: Value, rf: FiberId)
  {
    WorkInProgressOf(w, c, cid, props) && w.index == 0 && w.sibling.None? && w.ret == Some(rf)
  }

  /** Reuses old child `cid` with `props` as the only remaining child of `rf`. */
  method ReuseAsOnly(heap: FiberHeap, rf: FiberId, cid: FiberId, props: Value) returns (r: FiberId)
    requires heap.Valid() && rf in heap.fibers && cid in heap.fibers && cid != rf
    requires heap.fibers[cid].alternate.Some? ==>
      Paired(heap.fibers, cid, heap.fibers[cid].alternate.value) && heap.fibers[cid].alternate.value != rf
    modifies heap
    ensures heap.Valid() && old(heap.fibers).Keys <= heap.fibers.Keys
    ensures Paired(heap.fibers, cid, r) && r != rf
    ensures ReusedAs(heap.fibers[r], old(heap.fibers)[cid], cid, props, rf)
    ensures old(heap.fibers)[cid].alternate.Some? ==> r == old(heap.fibers)[cid].alternate.value
    ensures old(heap.fibers)[cid].alternate.None? ==> r !in old(heap.fibers)
    ensures heap.fibers[cid] == old(heap.fibers)[cid].(alternate := Some(r))
    ensures heap.fibers[r].key == (if old(heap.fibers)[cid].alternate.Some? then old(heap.fibers)[r].key
                                   else Coalesce(old(heap.fibers)[cid].key, Null))
    ensures UnchangedExcept(old(heap.fibers), heap.fibers, {cid, r})
  {
    r := UseFiber(heap, cid, props);
    heap.Put(r, heap.fibers[r].(ret := Some(rf)));
  }

  /**
   * The scan after position `i`: `plan` is what it deleted so far,
   * `dels`, followed by the plan from `i` on.
   */
  ghost predicate ScanAt(steps: seq<ScanStep>, chain: seq<FiberId>, i: nat, dels: seq<FiberId>, plan: SinglePlan)
    requires |steps| == |chain|
  {
    var p := PlanFrom(steps, chain, i);
    plan == SinglePlan(dels + p.deleted, p.reuse)
  }

  /** One more step of the scan: a reuse or `DeleteRest` settles the plan, the other steps move on. */
  lemma ScanAdvance(steps: seq<ScanStep>, chain: seq<FiberId>, i: nat, dels: seq<FiberId>, plan: SinglePlan)
    requires |steps| == |chain| && i < |chain| && ScanAt(steps, chain, i, dels, plan)
    ensures steps[i] == Reuse ==> plan == SinglePlan(dels + chain[i + 1..], Some(chain[i]))
    ensures steps[i] == DeleteRest ==> plan == SinglePlan(dels + chain[i..], None)
    ensures steps[i] == Pass ==> ScanAt(steps, chain, i + 1, dels, plan)
    ensures steps[i] == DeleteAndGo ==> ScanAt(steps, chain, i + 1, dels + [chain[i]], plan)
  {
    var rest := PlanFrom(steps, chain, i + 1);
    if steps[i] == DeleteAndGo {
      AppendAssoc(dels, [chain[i]], rest.deleted);
    }
  }

  /** At the end of the chain the plan is what was deleted, with nothing reused. */
  lemma ScanAtEnd(steps: seq<ScanStep>, chain: seq<FiberId>, dels: seq<FiberId>, plan: SinglePlan)
    requires |steps| == |chain| && ScanAt(steps, chain, |chain|, dels, plan)
    ensures plan == SinglePlan(dels, None)
  {
    assert dels + [] == dels;
  }

  /** The heap after the scan has recorded the deletions `dels` (when tracking) against `old0`. */
  ghost predicate DeletedSoFar(fibers: map<FiberId, Fiber>, old0: map<FiberId, Fiber>, rf: FiberId, track: bool,
                               dels: seq<FiberId>)
    requires rf in old0
  {
    fibers == old0[rf := WithDeletions(old0[rf], if track then dels else [])]
  }

  /** `deleteChild` after the deletions `dels`. */
  method DeleteOneMore(heap: FiberHeap, track: bool, rf: FiberId, child: FiberId,
                       ghost old0: map<FiberId, Fiber>, ghost dels: seq<FiberId>)
    requires rf in old0 && DeletedSoFar(heap.fibers, old0, rf, track, dels)
    modifies heap`fibers
    ensures DeletedSoFar(heap.fibers, old0, rf, track, dels + [child])
    ensures heap.fibers.Keys == old(heap.fibers).Keys
  {
    DeleteChild(heap, track, rf, child);
    WithDeletionsAppend(old0[rf], if track then dels else [], if track then [child] else []);
  }

  /** `deleteRemainingChildren` from old child `i` on, after the deletions `dels`. */
  method DeleteRestMore(heap: FiberHeap, track: bool, rf: FiberId, first: Option<FiberId>, ghost chain: seq<FiberId>,
                        ghost i: nat, child: Option<FiberId>, ghost old0: map<FiberId, Fiber>, ghost dels: seq<FiberId>)
    requires rf in old0 && rf !in chain && SiblingChain(old0, first, chain) && i <= |chain|
    requires child == if i < |chain| then Some(chain[i]) else None
    requires DeletedSoFar(heap.fibers, old0, rf, track, dels)
    modifies heap`fibers
    ensures DeletedSoFar(heap.fibers, old0, rf, track, dels + chain[i..])
    ensures heap.fibers.Keys == old(heap.fibers).Keys
  {
    SiblingChainDrop(old0, first, chain, i);
    SiblingChainFrame(old0, heap.fibers, child, chain[i..]);
    DeleteRemainingChildren(heap, track, rf, child, chain[i..]);
    WithDeletionsAppend(old0[rf], if track then dels else [], if track then chain[i..] else []);
  }

  /**
   * One turn of the scan at old child `i` (`child`), after the deletions
   * `dels`: deletes the child on a key mismatch, deletes it and the rest
   * on a type mismatch, and otherwise changes nothing. Returns the
   * decision, the deletions made so far and the next sibling.
   */
  method ScanOne(heap: FiberHeap, track: bool, rf: FiberId, first: Option<FiberId>, ghost chain: seq<FiberId>,
                 ghost i: nat, child: FiberId, key: Value, etype: Value, ghost old0: map<FiberId, Fiber>,
                 ghost dels: seq<FiberId>, ghost steps: seq<ScanStep>, ghost plan: SinglePlan)
    returns (step: ScanStep, next: Option<FiberId>, ghost dels': seq<FiberId>)
    requires rf in old0 && rf !in chain && SiblingChain(old0, first, chain) && i < |chain| && child == chain[i]
    requires steps == ScanSteps(old0, chain, key, etype, false)
    requires DeletedSoFar(heap.fibers, old0, rf, track, dels) && ScanAt(steps, chain, i, dels, plan)
    requires plan == PlanFrom(steps, chain, 0)
    modifies heap`fibers
    ensures step == steps[i] && DeletedSoFar(heap.fibers, old0, rf, track, dels')
    ensures next == (if i + 1 < |chain| then Some(chain[i + 1]) else None)
    ensures step == Reuse ==> dels' == dels && ScanOutcome(steps, chain, Some(child), i, dels')
    ensures step == DeleteRest ==> ScanOutcome(steps, chain, None, i, dels')
    ensures step == Pass || step == DeleteAndGo ==> ScanAt(steps, chain, i + 1, dels', plan)
  {
    var c := heap.fibers[child];
    assert c == old0[chain[i]];
    ScanStepAt(old0, chain, key, etype, false, i);
    SiblingAt(old0, first, chain, i);
    next := c.sibling;
    step := SingleStep(c, key, etype, false);
    ScanAdvance(steps, chain, i, dels, plan);
    if step == DeleteRest {
      DeleteRestMore(heap, track, rf, first, chain, i, Some(child), old0, dels);
      dels' := dels + chain[i..];
    } else if step == DeleteAndGo {
      DeleteOneMore(heap, track, rf, child, old0, dels);
      dels' := dels + [child];
    } else {
      dels' := dels;
    }
  }

  /**
   * The scan ended as `steps` say: it deleted `dels` and either reuses
   * old child `k` (and everything after it is still to be deleted) or
   * reuses nothing.
   */
  ghost predicate ScanOutcome(steps: seq<ScanStep>, chain: seq<FiberId>, found: Option<FiberId>, k: nat,
                              dels: seq<FiberId>)
    requires |steps| == |chain|
  {
    var plan := PlanFrom(steps, chain, 0);
    && (found.Some? ==>
          k < |chain| && found.value == chain[k] && plan == SinglePlan(dels + chain[k + 1..], Some(chain[k])))
    && (found.None? ==> plan == SinglePlan(dels, None))
  }

  /**
   * The `while` loop of `reconcileSingleElement`: walks the old children,
   * deleting each key mismatch, until it finds the child to reuse
   * (returned, with its position `k`), or a key match of another type
   * (which it deletes with all that follow), or the end of the list.
   * `steps` holds the decision for each old child.
   */
  method ScanSingle(heap: FiberHeap, track: bool, rf: FiberId, first: Option<FiberId>,
                    ghost chain: seq<FiberId>, key: Value, etype: Value, ghost steps: seq<ScanStep>)
    returns (found: Option<FiberId>, ghost k: nat, ghost dels: seq<FiberId>)
    requires rf in heap.fibers && rf !in chain && SiblingChain(heap.fibers, first, chain)
    requires steps == ScanSteps(heap.fibers, chain, key, etype, false)
    modifies heap`fibers
    ensures DeletedSoFar(heap.fibers, old(heap.fibers), rf, track, dels)
    ensures ScanOutcome(steps, chain, found, k, dels)
  {
    ghost var old0 := heap.fibers;
    ghost var plan0 := PlanFrom(steps, chain, 0);
    dels := [];
    assert [] + plan0.deleted == plan0.deleted;
    ghost var i := 0;
    var child := first;
    while child.Some?
      invariant 0 <= i <= |chain|
      invariant child == (if i < |chain| then Some(chain[i]) else None)
      invariant DeletedSoFar(heap.fibers, old0, rf, track, dels)
      invariant ScanAt(steps, chain, i, dels, plan0)
      decreases |chain| - i
    {
      var step, next;
      step, next, dels := ScanOne(heap, track, rf, first, chain, i, child.value, key, etype, old0, dels, steps, plan0);
      if step == Reuse {
        return child, i, dels;
      } else if step == DeleteRest {
        return None, i, dels;
      }
      child := next;
      i := i + 1;
    }
    ScanAtEnd(steps, chain, dels, plan0);
    found, k := None, i;
  }

  /**
   * The reuse exit of the scan: deletes every old child after position `k`
   * and reuses old child `k` as the only child.
   */
  method ReuseAfterScan(heap: FiberHeap, track: bool, rf: FiberId, first: Option<FiberId>, ghost chain: seq<FiberId>,
                        ghost k: nat, child: FiberId, ghost old0: map<FiberId, Fiber>, ghost dels: seq<FiberId>,
                        element: Value)
    returns (r: FiberId)
    requires heap.Valid() && ChildrenOK(old0, rf, chain) && SiblingChain(old0, first, chain) && k < |chain|
    requires child == chain[k]
    requires DeletedSoFar(heap.fibers, old0, rf, track, dels)
    modifies heap
    ensures heap.Valid() && old0.Keys <= heap.fibers.Keys
    ensures PlanApplied(old0, heap.fibers, track, rf, SinglePlan(dels + chain[k + 1..], Some(chain[k])), element, r)
  {
    var c := heap.fibers[child];
    SiblingAt(old0, first, chain, k);
    DeleteRestMore(heap, track, rf, first, chain, k + 1, c.sibling, old0, dels);
    assert AltOK(old0, rf, chain, chain[k]);
    assert heap.fibers[child] == old0[child];
    if old0[child].alternate.Some? {
      var a := old0[child].alternate.value;
      assert heap.fibers[a] == old0[a];
    }
    ghost var mid := heap.fibers;
    r := ReuseAsOnly(heap, rf, child, ElementProps(element));
    ReuseApplied(old0, mid, heap.fibers, track, rf, child, r, dels + chain[k + 1..], element);
  }

  /** The reuse exit's heap, from the deletions recorded in `mid` and the reuse of `cid` as `r` after them. */
  lemma ReuseApplied(old0: map<FiberId, Fiber>, mid: map<FiberId, Fiber>, fibers: map<FiberId, Fiber>, track: bool,
                     rf: FiberId, cid: FiberId, r: FiberId, dels: seq<FiberId>, element: Value)
    requires rf in old0 && cid in old0 && cid != rf
    requires mid == old0[rf := WithDeletions(old0[rf], if track then dels else [])]
    requires mid.Keys <= fibers.Keys && r != rf && Paired(fibers, cid, r)
    requires ReusedAs(fibers[r], mid[cid], cid, ElementProps(element), rf)
    requires UnchangedExcept(mid, fibers, {cid, r})
    ensures PlanApplied(old0, fibers, track, rf, SinglePlan(dels, Some(cid)), element, r)
  {
    assert fibers[rf] == mid[rf];
    forall id | id in old0 && id !in {rf, r, cid}
      ensures id in fibers && fibers[id] == old0[id]
    {
      assert mid[id] == old0[id];
    }
  }

  /**
   * The heap after `plan` has been carried out for `element` under `rf`:
   * the parent has recorded the plan's deletions (when tracking); a reused
   * old child is paired with `r`, its work-in-progress with the element's
   * props; otherwise `r` is a new fiber made from the element. Nothing
   * else changes.
   */
  ghost predicate PlanApplied(old0: map<FiberId, Fiber>, fibers: map<FiberId, Fiber>, track: bool, rf: FiberId,
                              plan: SinglePlan, element: Value, r: FiberId)
  {
    && rf in old0 && rf in fibers && r in fibers
    && fibers[rf] == WithDeletions(old0[rf], if track then plan.deleted else [])
    && (plan.reuse.Some? ==>
          && plan.reuse.value in old0
          && Paired(fibers, plan.reuse.value, r)
          && ReusedAs(fibers[r], old0[plan.reuse.value], plan.reuse.value, ElementProps(element), rf)
          && UnchangedExcept(old0, fibers, {rf, r, plan.reuse.value}))
    && (plan.reuse.None? ==>
          && r !in old0 && fibers[r] == FiberFromElement(element).(ret := Some(rf))
          && UnchangedExcept(old0, fibers, {rf, r}))
  }

  /** The creation exit of the scan: a new fiber from the element, its `return` set to `rf`. */
  method CreateAfterScan(heap: FiberHeap, track: bool, rf: FiberId, element: Value, ghost old0: map<FiberId, Fiber>,
                         ghost dels: seq<FiberId>)
    returns (r: FiberId)
    requires heap.Valid() && rf in old0
    requires heap.fibers == old0[rf := WithDeletions(old0[rf], if track then dels else [])]
    modifies heap
    ensures heap.Valid() && old0.Keys <= heap.fibers.Keys
    ensures PlanApplied(old0, heap.fibers, track, rf, SinglePlan(dels, None), element, r)
  {
    if Get(element, "type") == REACT_FRAGMENT_TYPE {
      r := heap.Alloc(FiberFromFragment(Get(Get(element, "props"), "children"), Get(element, "key")).(ret := Some(rf)));
    } else {
      r := heap.Alloc(FiberFromElement(element).(ret := Some(rf)));
    }
  }

  /**
   * `reconcileSingleElement(returnFiber, currentFirstChild, element)`:
   * deletes and reuses as `SingleElementPlan` says (as written), and
   * otherwise creates a new fiber from the element.
   */
  method ReconcileSingleElement(heap: FiberHeap, track: bool, rf: FiberId, first: Option<FiberId>,
                                ghost chain: seq<FiberId>, element: Value) returns (r: FiberId)
    requires heap.Valid() && ChildrenOK(heap.fibers, rf, chain) && SiblingChain(heap.fibers, first, chain)
    modifies heap
    ensures heap.Valid() && old(heap.fibers).Keys <= heap.fibers.Keys
    ensures PlanApplied(old(heap.fibers), heap.fibers, track, rf,
                        SingleElementPlan(old(heap.fibers), chain, Get(element, "key"), Get(element, "type"), false),
                        element, r)
  {
    var key := Get(element, "key");
    var etype := Get(element, "type");
    ghost var old0 := heap.fibers;
    ghost var steps := ScanSteps(old0, chain, key, etype, false);
    var found, k, dels := ScanSingle(heap, track, rf, first, chain, key, etype, steps);
    if found.Some? {
      r := ReuseAfterScan(heap, track, rf, first, chain, k, found.value, old0, dels, element);
    } else {
      r := CreateAfterScan(heap, track, rf, element, old0, dels);
    }
  }

  /** The props of a text fiber: `{textContent}`. */
  function TextProps(text: Value): (p: Value)
    ensures Get(p, "textContent") == text
  {
    Rec(map["textContent" := text])
  }

  /**
   * The heap after the single-text case under `rf`: a first old child that
   * is a `HostText` is reused with the new text and every later child is
   * deleted; otherwise every old child is deleted and `r` is a new
   * `HostText` fiber. Nothing else changes.
   */
  ghost predicate TextApplied(old0: map<FiberId, Fiber>, fibers: map<FiberId, Fiber>, track: bool, rf: FiberId,
                              chain: seq<FiberId>, text: Value, r: FiberId)
  {
    && rf in old0 && rf in fibers && r in fibers
    && (forall i :: 0 <= i < |chain| ==> chain[i] in old0)
    && (if |chain| > 0 && old0[chain[0]].tag == HostText then
          && fibers[rf] == WithDeletions(old0[rf], if track then chain[1..] else [])
          && Paired(fibers, chain[0], r)
          && ReusedAs(fibers[r], old0[chain[0]], chain[0], TextProps(text), rf)
          && UnchangedExcept(old0, fibers, {rf, r, chain[0]})
        else
          && fibers[rf] == WithDeletions(old0[rf], if track then chain else [])
          && r !in old0 && fibers[r] == FiberFromText(text).(ret := Some(rf))
          && UnchangedExcept(old0, fibers, {rf, r}))
  }

  /**
   * `reconcilerSingleTextNode(returnFiber, currentFirstChild, textContent)`:
   * reuses the first old child iff it is a `HostText`.
   */
  method ReconcileSingleTextNode(heap: FiberHeap, track: bool, rf: FiberId, first: Option<FiberId>,
                                 ghost chain: seq<FiberId>, text: Value) returns (r: FiberId)
    requires heap.Valid() && ChildrenOK(heap.fibers, rf, chain) && SiblingChain(heap.fibers, first, chain)
    modifies heap
    ensures heap.Valid() && old(heap.fibers).Keys <= heap.fibers.Keys
    ensures TextApplied(old(heap.fibers), heap.fibers, track, rf, chain, text, r)
  {
    ghost var old0 := heap.fibers;
    if first.Some? && heap.fibers[first.value].tag == HostText {
      var child := first.value;
      var c := heap.fibers[child];
      SiblingAt(old0, first, chain, 0);
      assert heap.fibers == old0[rf := WithDeletions(old0[rf], [])];
      DeleteRestMore(heap, track, rf, first, chain, 1, c.sibling, old0, []);
      assert [] + chain[1..] == chain[1..];
      assert AltOK(old0, rf, chain, chain[0]);
      assert heap.fibers[child] == old0[child];
      if old0[child].alternate.Some? {
        var a := old0[child].alternate.value;
        assert heap.fibers[a] == old0[a];
      }
      r := ReuseAsOnly(heap, rf, child, TextProps(text));
    } else {
      DeleteRemainingChildren(heap, track, rf, first, chain);
      r := heap.Alloc(FiberFromText(text).(ret := Some(rf)));
    }
  }
}
