/**
 * `reconcileChildrenArray` (packages/react-reconciler/src/childFiber.ts):
 * the three passes of the keyed list diff. The first pass walks the old
 * children and the new ones side by side while the slots match; the
 * second either deletes the old children left over or creates fibers for
 * the new children left over; the third files the remaining old children
 * in a map by key (or index) and looks each new child up there.
 */
module ChildDiff {
  import opened Wrappers
  import opened JsValues
  import opened Fiber
  import opened ChildFiber
  import opened ChildArray

  /** A child that gets a fiber: text, an element or an array. */
  predicate Renderable(c: Value)
  {
    KindOf(c) != NoChild && KindOf(c) != InvalidChild
  }

  /** The positions, in order, of the renderable children among the first `n`. */
  function RenderSlots(children: seq<Value>, n: nat): (slots: seq<int>)
    requires n <= |children|
    ensures forall k :: 0 <= k < |slots| ==> 0 <= slots[k] < n && Renderable(children[slots[k]])
    decreases n
  {
    if n == 0 then []
    else RenderSlots(children, n - 1) + (if Renderable(children[n - 1]) then [n - 1] else [])
  }

  /** Where the diff stands: the next new child, `lastPlacedIndex`, the first and the last new fiber. */
  datatype Cursor = Cursor(newIdx: nat, last: int, head: Option<FiberId>, prev: Option<FiberId>)

  /** The `k`-th fiber of the new list sits at index `slots[k]`. */
  ghost predicate Slotted(fibers: map<FiberId, Fiber>, produced: seq<FiberId>, slots: seq<int>)
  {
    && |slots| == |produced|
    && forall k :: 0 <= k < |produced| ==> produced[k] in fibers && fibers[produced[k]].index == slots[k]
  }

  /**
   * The new children before `newIdx` are handled: none of them was an
   * invalid object, and each renderable one has a fiber in the new list at
   * its own position.
   */
  ghost predicate Progressed(fibers: map<FiberId, Fiber>, children: seq<Value>, newIdx: nat, produced: seq<FiberId>)
  {
    && newIdx <= |children|
    && (forall i :: 0 <= i < newIdx ==> KindOf(children[i]) != InvalidChild)
    && Slotted(fibers, produced, RenderSlots(children, newIdx))
  }

  /** The state of the diff at cursor `c`, as `DiffInv` and `Progressed` say. */
  ghost predicate Diffed(old0: map<FiberId, Fiber>, fibers: map<FiberId, Fiber>, rf: FiberId, track: bool,
                         chain: seq<FiberId>, children: seq<Value>, c: Cursor, produced: seq<FiberId>,
                         from: seq<Option<FiberId>>, dels: seq<FiberId>)
  {
    && DiffInv(old0, fibers, rf, track, chain, c.head, c.prev, produced, from, dels, c.newIdx, c.last)
    && Progressed(fibers, children, c.newIdx, produced)
  }

  lemma DiffedOf(old0: map<FiberId, Fiber>, fibers: map<FiberId, Fiber>, rf: FiberId, track: bool,
                 chain: seq<FiberId>, children: seq<Value>, c: Cursor, produced: seq<FiberId>,
                 from: seq<Option<FiberId>>, dels: seq<FiberId>)
    requires DiffInv(old0, fibers, rf, track, chain, c.head, c.prev, produced, from, dels, c.newIdx, c.last)
    requires Progressed(fibers, children, c.newIdx, produced)
    ensures Diffed(old0, fibers, rf, track, chain, children, c, produced, from, dels)
  {
  }

  /**
   * The first `j` old children have been dealt with and no other: each
   * reused or deleted fiber is among them, and when tracking each of them
   * is exactly one of the two.
   */
  ghost predicate Consumed(chain: seq<FiberId>, j: nat, track: bool, from: seq<Option<FiberId>>, dels: seq<FiberId>)
  {
    && j <= |chain|
    && (forall x :: x in Reused(from) ==> x in chain[..j])
    && (forall d :: d in dels ==> d in chain[..j])
    && (track ==> multiset(Reused(from)) + multiset(dels) == multiset(chain[..j]))
  }

  lemma DiffStart(old0: map<FiberId, Fiber>, rf: FiberId, track: bool, chain: seq<FiberId>, children: seq<Value>)
    requires ChildrenOK(old0, rf, chain)
    ensures Diffed(old0, old0, rf, track, chain, children, Cursor(0, 0, None, None), [], [], [])
    ensures Consumed(chain, 0, track, [], [])
  {
    assert WithDeletions(old0[rf], []) == old0[rf];
    forall i | 0 <= i < |chain| ensures ChainKept(old0, old0, chain[i], chain[i] in Reused([])) {
    }
  }

  /** An old child not dealt with yet still has its old index and sibling. */
  lemma OldChildNow(old0: map<FiberId, Fiber>, fibers: map<FiberId, Fiber>, rf: FiberId, track: bool,
                    chain: seq<FiberId>, children: seq<Value>, c: Cursor, produced: seq<FiberId>,
                    from: seq<Option<FiberId>>, dels: seq<FiberId>, first: Option<FiberId>, j: nat)
    requires Diffed(old0, fibers, rf, track, chain, children, c, produced, from, dels)
    requires SiblingChain(old0, first, chain) && j < |chain|
    ensures chain[j] in fibers && fibers[chain[j]].index == old0[chain[j]].index
    ensures fibers[chain[j]].sibling == (if j + 1 < |chain| then Some(chain[j + 1]) else None)
  {
    assert ChainKept(old0, fibers, chain[j], chain[j] in Reused(from));
    SiblingAt(old0, first, chain, j);
  }

  /** The old child at `j` is neither reused nor deleted yet. */
  lemma NotConsumed(chain: seq<FiberId>, j: nat, track: bool, from: seq<Option<FiberId>>, dels: seq<FiberId>)
    requires Consumed(chain, j, track, from, dels) && Distinct(chain) && j < |chain|
    ensures chain[j] !in Reused(from) && chain[j] !in dels
  {
    forall i | 0 <= i < j ensures chain[..j][i] != chain[j] {
    }
  }

  /** A slot made for the old child at `j`, or for none, fits the diff's state. */
  lemma SlotFits(chain: seq<FiberId>, j: nat, track: bool, from: seq<Option<FiberId>>, dels: seq<FiberId>,
                 m: Make, cur: Option<FiberId>)
    requires Consumed(chain, j, track, from, dels) && Distinct(chain) && j < |chain|
    requires cur.Some? ==> cur.value == chain[j]
    requires m.reuse.Some? ==> m.reuse == cur
    requires Unplaced(m.created)
    ensures Fits(chain, from, dels, m, cur)
  {
    NotConsumed(chain, j, track, from, dels);
  }

  /** A step of the first pass on the old child at `j` (or on none, `cur == None`) keeps `Consumed`. */
  lemma ConsumedStep(chain: seq<FiberId>, j: nat, track: bool, from: seq<Option<FiberId>>, dels: seq<FiberId>,
                     cur: Option<FiberId>, src: Option<FiberId>, deleted: seq<FiberId>)
    requires Consumed(chain, j, track, from, dels)
    requires cur.Some? ==> j < |chain| && cur.value == chain[j]
    requires src.Some? ==> src == cur
    requires deleted == (if track && cur.Some? && src.None? then [cur.value] else [])
    requires track ==> cur.Some? ==> src.Some? || |deleted| == 1
    ensures Consumed(chain, if cur.Some? then j + 1 else j, track, from + [src], dels + deleted)
  {
    OldsSnoc(map[], from, src);
    var j2 := if cur.Some? then j + 1 else j;
    assert chain[..j] <= chain[..j2];
    if cur.Some? {
      assert chain[..j + 1] == chain[..j] + [chain[j]];
    }
  }

  /** One more new child handled by a step that made fiber `n` for it. */
  lemma AdvanceMade(pre: map<FiberId, Fiber>, post: map<FiberId, Fiber>, children: seq<Value>, newIdx: nat,
                    produced: seq<FiberId>, n: FiberId)
    requires Progressed(pre, children, newIdx, produced)
    requires newIdx < |children| && Renderable(children[newIdx])
    requires IndicesKept(pre, post, produced) && n in post && post[n].index == newIdx
    ensures Progressed(post, children, newIdx + 1, produced + [n])
  {
    var slots := RenderSlots(children, newIdx);
    assert RenderSlots(children, newIdx + 1) == slots + [newIdx];
    var ps := produced + [n];
    forall k | 0 <= k < |ps| ensures ps[k] in post && post[ps[k]].index == (slots + [newIdx])[k] {
    }
  }

  /** One more new child that gets no fiber (null, a boolean, an empty string, a function). */
  lemma AdvanceSkipped(fibers: map<FiberId, Fiber>, children: seq<Value>, newIdx: nat, produced: seq<FiberId>)
    requires Progressed(fibers, children, newIdx, produced)
    requires newIdx < |children| && KindOf(children[newIdx]) == NoChild
    ensures Progressed(fibers, children, newIdx + 1, produced)
  {
    assert RenderSlots(children, newIdx + 1) == RenderSlots(children, newIdx);
  }

  /** How one turn of a pass ended: a fiber was made, the pass stops, or an invalid child throws. */
  datatype Turn = Made | Stop | Bad

  /** What a turn that made fiber `n` for the new child at `c.newIdx` leaves behind. */
  lemma TurnMade(old0: map<FiberId, Fiber>, pre: map<FiberId, Fiber>, post: map<FiberId, Fiber>, rf: FiberId,
                 track: bool, chain: seq<FiberId>, children: seq<Value>, c: Cursor, c2: Cursor,
                 produced: seq<FiberId>, from: seq<Option<FiberId>>, dels: seq<FiberId>, j: nat,
                 cur: Option<FiberId>, src: Option<FiberId>, n: FiberId, deleted: seq<FiberId>)
    requires Progressed(pre, children, c.newIdx, produced) && Consumed(chain, j, track, from, dels)
    requires c.newIdx < |children| && Renderable(children[c.newIdx])
    requires cur.Some? ==> j < |chain| && cur.value == chain[j]
    requires src.Some? ==> src == cur
    requires deleted == (if track && cur.Some? && src.None? then [cur.value] else [])
    requires c2.newIdx == c.newIdx + 1 && c2.prev == Some(n)
    requires DiffInv(old0, post, rf, track, chain, c2.head, c2.prev, produced + [n], from + [src], dels + deleted,
                     c2.newIdx, c2.last)
    requires IndicesKept(pre, post, produced) && n in post && post[n].index == c.newIdx
    ensures Diffed(old0, post, rf, track, chain, children, c2, produced + [n], from + [src], dels + deleted)
    ensures Consumed(chain, if cur.Some? then j + 1 else j, track, from + [src], dels + deleted)
  {
    AdvanceMade(pre, post, children, c.newIdx, produced, n);
    ConsumedStep(chain, j, track, from, dels, cur, src, deleted);
  }

  /**
   * A turn that made a slot: the fiber is stepped into the new list at
   * `newIdx`, and the old child `cur`, if any, is dealt with.
   */
  method MakeTurn(heap: FiberHeap, track: bool, rf: FiberId, ghost chain: seq<FiberId>, children: seq<Value>,
                  c: Cursor, m: Make, cur: Option<FiberId>, ghost j: nat, ghost old0: map<FiberId, Fiber>,
                  ghost produced: seq<FiberId>, ghost from: seq<Option<FiberId>>, ghost dels: seq<FiberId>)
    returns (c2: Cursor, ghost produced2: seq<FiberId>, ghost from2: seq<Option<FiberId>>, ghost dels2: seq<FiberId>)
    requires heap.Valid()
    requires Diffed(old0, heap.fibers, rf, track, chain, children, c, produced, from, dels)
    requires Consumed(chain, j, track, from, dels) && (cur.Some? ==> j < |chain| && cur.value == chain[j])
    requires m.reuse.Some? ==> m.reuse == cur
    requires Fits(chain, from, dels, m, cur)
    requires c.newIdx < |children| && Renderable(children[c.newIdx])
    modifies heap
    ensures heap.Valid()
    ensures Diffed(old0, heap.fibers, rf, track, chain, children, c2, produced2, from2, dels2)
    ensures Consumed(chain, if cur.Some? then j + 1 else j, track, from2, dels2)
    ensures c2.newIdx == c.newIdx + 1
  {
    ghost var pre := heap.fibers;
    var n, last, newHead, deleted := Step(heap, track, rf, m, cur, c.newIdx, c.last, c.head, c.prev,
                                          old0, chain, produced, from, dels);
    produced2, from2, dels2 := produced + [n], from + [m.reuse], dels + deleted;
    c2 := Cursor(c.newIdx + 1, last, newHead, Some(n));
    TurnMade(old0, pre, heap.fibers, rf, track, chain, children, c, c2, produced, from, dels, j, cur, m.reuse, n, deleted);
  }

  /**
   * One turn of the first pass on the old child `oldFiber` (the `j`-th):
   * `updateSlot` with it, or with none when its index is above `newIdx`;
   * a fiber made is stepped into the new list.
   */
  method SlotTurn(heap: FiberHeap, track: bool, rf: FiberId, first: Option<FiberId>, ghost chain: seq<FiberId>,
                  children: seq<Value>, c: Cursor, oldFiber: FiberId, ghost j: nat, ghost old0: map<FiberId, Fiber>,
                  ghost produced: seq<FiberId>, ghost from: seq<Option<FiberId>>, ghost dels: seq<FiberId>)
    returns (t: Turn, c2: Cursor, next: Option<FiberId>, ghost j2: nat, ghost produced2: seq<FiberId>,
             ghost from2: seq<Option<FiberId>>, ghost dels2: seq<FiberId>)
    requires heap.Valid() && SiblingChain(old0, first, chain)
    requires Diffed(old0, heap.fibers, rf, track, chain, children, c, produced, from, dels)
    requires Consumed(chain, j, track, from, dels) && j < |chain| && oldFiber == chain[j] && c.newIdx < |children|
    modifies heap
    ensures heap.Valid()
    ensures t == Stop ==> heap.fibers == old(heap.fibers)
    ensures t == Bad ==> KindOf(children[c.newIdx]) == InvalidChild
    ensures t == Made ==>
      && Diffed(old0, heap.fibers, rf, track, chain, children, c2, produced2, from2, dels2)
      && Consumed(chain, j2, track, from2, dels2) && next == (if j2 < |chain| then Some(chain[j2]) else None)
      && c2.newIdx == c.newIdx + 1
  {
    OldChildNow(old0, heap.fibers, rf, track, chain, children, c, produced, from, dels, first, j);
    var f := heap.fibers[oldFiber];
    var cur := Some(oldFiber);
    next := f.sibling;
    j2 := j + 1;
    if f.index > c.newIdx {
      cur, next, j2 := None, Some(oldFiber), j;
    }
    var plan := UpdateSlotPlan(heap.fibers, cur, children[c.newIdx]);
    if plan.NoSlot? || plan.BadChild? {
      t := if plan.NoSlot? then Stop else Bad;
      c2, produced2, from2, dels2 := c, produced, from, dels;
    } else {
      SlotFits(chain, j, track, from, dels, plan.m, cur);
      c2, produced2, from2, dels2 := MakeTurn(heap, track, rf, chain, children, c, plan.m, cur, j, old0, produced, from, dels);
      t := Made;
    }
  }

  /**
   * The first pass of `reconcileChildrenArray`: while there is an old
   * child and a new one, `updateSlot` decides; a null answer ends the
   * pass. When the old child's index is above `newIdx`, the slot is tried
   * with no old fiber and the old child waits for the next new child.
   */
  method UpdateSlots(heap: FiberHeap, track: bool, rf: FiberId, first: Option<FiberId>, ghost chain: seq<FiberId>,
                     children: seq<Value>)
    returns (r: Result<Cursor>, oldFiber: Option<FiberId>, ghost j: nat, ghost produced: seq<FiberId>,
             ghost from: seq<Option<FiberId>>, ghost dels: seq<FiberId>)
    requires heap.Valid() && ChildrenOK(heap.fibers, rf, chain) && SiblingChain(heap.fibers, first, chain)
    modifies heap
    ensures heap.Valid()
    ensures r.Ok? ==> Diffed(old(heap.fibers), heap.fibers, rf, track, chain, children, r.value, produced, from, dels)
    ensures r.Ok? ==> Consumed(chain, j, track, from, dels) && oldFiber == (if j < |chain| then Some(chain[j]) else None)
    ensures r.Throw? ==>
      r.msg == INVALID_CHILD_MESSAGE && exists i :: 0 <= i < |children| && KindOf(children[i]) == InvalidChild
  {
    ghost var old0 := heap.fibers;
    var c := Cursor(0, 0, None, None);
    oldFiber := first;
    j, produced, from, dels := 0, [], [], [];
    DiffStart(old0, rf, track, chain, children);
    while oldFiber.Some? && c.newIdx < |children|
      invariant heap.Valid() && SiblingChain(old0, first, chain)
      invariant Diffed(old0, heap.fibers, rf, track, chain, children, c, produced, from, dels)
      invariant Consumed(chain, j, track, from, dels) && oldFiber == (if j < |chain| then Some(chain[j]) else None)
      invariant c.newIdx <= |children|
      decreases |children| - c.newIdx
    {
      var t, c2, next, j2, produced2, from2, dels2 :=
        SlotTurn(heap, track, rf, first, chain, children, c, oldFiber.value, j, old0, produced, from, dels);
      if t == Stop {
        // After the swap `oldFiber` is restored from `nextOldFiber`; otherwise it stays.
        break;
      }
      if t == Bad {
        r := Throw(INVALID_CHILD_MESSAGE);
        return;
      }
      c, oldFiber := c2, next;
      j, produced, from, dels := j2, produced2, from2, dels2;
    }
    r := Ok(c);
  }

  /** The old children not dealt with yet are still linked as they were. */
  lemma RestChain(old0: map<FiberId, Fiber>, fibers: map<FiberId, Fiber>, rf: FiberId, track: bool,
                  chain: seq<FiberId>, produced: seq<FiberId>, from: seq<Option<FiberId>>, dels: seq<FiberId>,
                  first: Option<FiberId>, j: nat)
    requires Framed(old0, fibers, rf, track, chain, produced, from, dels)
    requires SiblingChain(old0, first, chain) && j <= |chain|
    ensures SiblingChain(fibers, if j < |chain| then Some(chain[j]) else None, chain[j..])
  {
    SiblingChainDrop(old0, first, chain, j);
    var rest := chain[j..];
    forall i | 0 <= i < |rest| ensures rest[i] in fibers && fibers[rest[i]].sibling == old0[rest[i]].sibling {
      assert ChainKept(old0, fibers, chain[j + i], chain[j + i] in Reused(from));
    }
    SiblingChainFrame(old0, fibers, if j < |chain| then Some(chain[j]) else None, rest);
  }

  /** The old children from `j` on, all of them left over, may be deleted together. */
  lemma ConsumeRest(chain: seq<FiberId>, j: nat, track: bool, from: seq<Option<FiberId>>, dels: seq<FiberId>)
    requires Consumed(chain, j, track, from, dels) && Distinct(chain) && Distinct(dels)
    requires forall d :: d in dels ==> d !in Reused(from)
    ensures Distinct(dels + chain[j..])
    ensures forall d :: d in dels + chain[j..] ==> d in chain && d !in Reused(from)
    ensures track ==> multiset(Reused(from)) + multiset(dels + chain[j..]) == multiset(chain)
  {
    var rest := chain[j..];
    assert chain == chain[..j] + rest;
    forall x | x in rest ensures x !in chain[..j] {
      var i :| 0 <= i < |rest| && rest[i] == x;
      forall k | 0 <= k < j ensures chain[..j][k] != x {
        assert chain[j + i] == x;
      }
    }
    forall i, k | 0 <= i < k < |rest| ensures rest[i] != rest[k] {
      assert rest[i] == chain[j + i] && rest[k] == chain[j + k];
    }
    DistinctAppend(dels, rest);
    forall d | d in dels + rest ensures d in chain && d !in Reused(from) {
      if d in dels {
        assert d in chain[..j];
      } else {
        assert d in rest && d !in chain[..j];
      }
    }
  }

  /** The new list does not notice a change to the parent alone. */
  lemma LinkedParent(old0: map<FiberId, Fiber>, pre: map<FiberId, Fiber>, post: map<FiberId, Fiber>, rf: FiberId,
                     track: bool, chain: seq<FiberId>, c: Cursor, produced: seq<FiberId>,
                     from: seq<Option<FiberId>>, x: Fiber)
    requires Marked(old0, pre, rf, track, chain, produced, from, c.newIdx) && Linked(pre, c.head, c.prev, produced)
    requires post == pre[rf := x]
    ensures Linked(post, c.head, c.prev, produced)
    ensures IndicesKept(pre, post, produced)
  {
    ProducedOutside(old0, pre, rf, track, chain, produced, from, c.newIdx, rf);
    ProducedIn(old0, pre, rf, track, chain, produced, from, c.newIdx);
    SiblingChainFrame(pre, post, c.head, produced);
  }

  lemma MarkedParent(old0: map<FiberId, Fiber>, pre: map<FiberId, Fiber>, post: map<FiberId, Fiber>, rf: FiberId,
                     track: bool, chain: seq<FiberId>, produced: seq<FiberId>, from: seq<Option<FiberId>>,
                     bound: int, x: Fiber)
    requires Marked(old0, pre, rf, track, chain, produced, from, bound) && rf !in chain
    requires post == pre[rf := x]
    ensures Marked(old0, post, rf, track, chain, produced, from, bound)
  {
    var flags := PlaceAll(track, OldsOf(old0, from), 0);
    forall k | 0 <= k < |produced|
      ensures NewChildOK(old0, post, rf, chain, produced[k], from[k], flags[k], bound)
    {
      assert NewChildOK(old0, pre, rf, chain, produced[k], from[k], flags[k], bound);
    }
  }

  lemma FramedParent(old0: map<FiberId, Fiber>, pre: map<FiberId, Fiber>, post: map<FiberId, Fiber>, rf: FiberId,
                     track: bool, chain: seq<FiberId>, produced: seq<FiberId>, from: seq<Option<FiberId>>,
                     dels: seq<FiberId>, dels2: seq<FiberId>)
    requires ChildrenOK(old0, rf, chain) && Framed(old0, pre, rf, track, chain, produced, from, dels)
    requires post == pre[rf := WithDeletions(old0[rf], if track then dels2 else [])]
    requires Distinct(dels2) && forall d :: d in dels2 ==> d in chain && d !in Reused(from)
    ensures Framed(old0, post, rf, track, chain, produced, from, dels2)
  {
    forall i | 0 <= i < |chain| ensures ChainKept(old0, post, chain[i], chain[i] in Reused(from)) {
      assert ChainKept(old0, pre, chain[i], chain[i] in Reused(from));
    }
  }

  lemma ProgressedParent(pre: map<FiberId, Fiber>, post: map<FiberId, Fiber>, children: seq<Value>, newIdx: nat,
                         produced: seq<FiberId>)
    requires Progressed(pre, children, newIdx, produced) && IndicesKept(pre, post, produced)
    ensures Progressed(post, children, newIdx, produced)
  {
  }

  /**
   * A change to the parent alone that records the deletions `dels2`, old
   * children not reused, keeps the state of the diff.
   */
  lemma ParentOnly(old0: map<FiberId, Fiber>, pre: map<FiberId, Fiber>, post: map<FiberId, Fiber>, rf: FiberId,
                   track: bool, chain: seq<FiberId>, children: seq<Value>, c: Cursor, produced: seq<FiberId>,
                   from: seq<Option<FiberId>>, dels: seq<FiberId>, dels2: seq<FiberId>)
    requires Diffed(old0, pre, rf, track, chain, children, c, produced, from, dels)
    requires post == pre[rf := WithDeletions(old0[rf], if track then dels2 else [])]
    requires Distinct(dels2) && forall d :: d in dels2 ==> d in chain && d !in Reused(from)
    ensures Diffed(old0, post, rf, track, chain, children, c, produced, from, dels2)
  {
    var x := WithDeletions(old0[rf], if track then dels2 else []);
    LinkedParent(old0, pre, post, rf, track, chain, c, produced, from, x);
    MarkedParent(old0, pre, post, rf, track, chain, produced, from, c.newIdx, x);
    FramedParent(old0, pre, post, rf, track, chain, produced, from, dels, dels2);
    ProgressedParent(pre, post, children, c.newIdx, produced);
  }

  /**
   * The second pass when the new children have run out (`newIdx ===
   * newChild.length`): the old children left over are all deleted.
   */
  method DeleteRest(heap: FiberHeap, track: bool, rf: FiberId, first: Option<FiberId>, ghost chain: seq<FiberId>,
                    children: seq<Value>, c: Cursor, oldFiber: Option<FiberId>, ghost j: nat,
                    ghost old0: map<FiberId, Fiber>, ghost produced: seq<FiberId>, ghost from: seq<Option<FiberId>>,
                    ghost dels: seq<FiberId>)
    returns (ghost dels2: seq<FiberId>)
    requires heap.Valid() && SiblingChain(old0, first, chain)
    requires Diffed(old0, heap.fibers, rf, track, chain, children, c, produced, from, dels)
    requires Consumed(chain, j, track, from, dels) && oldFiber == (if j < |chain| then Some(chain[j]) else None)
    modifies heap
    ensures heap.Valid()
    ensures Diffed(old0, heap.fibers, rf, track, chain, children, c, produced, from, dels2)
    ensures track ==> multiset(Reused(from)) + multiset(dels2) == multiset(chain)
  {
    RestChain(old0, heap.fibers, rf, track, chain, produced, from, dels, first, j);
    ConsumeRest(chain, j, track, from, dels);
    ghost var pre := heap.fibers;
    DeleteRemainingChildren(heap, track, rf, oldFiber, chain[j..]);
    dels2 := if track then dels + chain[j..] else dels;
    WithDeletionsAppend(old0[rf], if track then dels else [], if track then chain[j..] else []);
    ParentOnly(old0, pre, heap.fibers, rf, track, chain, children, c, produced, from, dels, dels2);
  }

  /** A new child that gets no fiber moves the cursor on and changes nothing else. */
  lemma SkipTurn(old0: map<FiberId, Fiber>, fibers: map<FiberId, Fiber>, rf: FiberId, track: bool,
                 chain: seq<FiberId>, children: seq<Value>, c: Cursor, produced: seq<FiberId>,
                 from: seq<Option<FiberId>>, dels: seq<FiberId>)
    requires Diffed(old0, fibers, rf, track, chain, children, c, produced, from, dels)
    requires c.newIdx < |children| && KindOf(children[c.newIdx]) == NoChild
    ensures Diffed(old0, fibers, rf, track, chain, children, c.(newIdx := c.newIdx + 1), produced, from, dels)
  {
    MarkedWiden(old0, fibers, rf, track, chain, produced, from, c.newIdx);
    AdvanceSkipped(fibers, children, c.newIdx, produced);
  }

  /**
   * The second pass when the old children have run out: every new child
   * left over goes through `createChild`, and each fiber made is placed
   * and linked.
   */
  method CreateRest(heap: FiberHeap, track: bool, rf: FiberId, ghost chain: seq<FiberId>, children: seq<Value>,
                    c0: Cursor, ghost old0: map<FiberId, Fiber>, ghost produced0: seq<FiberId>,
                    ghost from0: seq<Option<FiberId>>, ghost dels0: seq<FiberId>)
    returns (r: Result<Cursor>, ghost produced: seq<FiberId>, ghost from: seq<Option<FiberId>>, ghost dels: seq<FiberId>)
    requires heap.Valid()
    requires Diffed(old0, heap.fibers, rf, track, chain, children, c0, produced0, from0, dels0)
    requires Consumed(chain, |chain|, track, from0, dels0)
    modifies heap
    ensures heap.Valid()
    ensures r.Ok? ==>
      && Diffed(old0, heap.fibers, rf, track, chain, children, r.value, produced, from, dels)
      && Consumed(chain, |chain|, track, from, dels) && r.value.newIdx == |children|
    ensures r.Throw? ==>
      r.msg == INVALID_CHILD_MESSAGE && exists i :: 0 <= i < |children| && KindOf(children[i]) == InvalidChild
  {
    var c := c0;
    produced, from, dels := produced0, from0, dels0;
    while c.newIdx < |children|
      invariant heap.Valid()
      invariant Diffed(old0, heap.fibers, rf, track, chain, children, c, produced, from, dels)
      invariant Consumed(chain, |chain|, track, from, dels)
      decreases |children| - c.newIdx
    {
      var plan := CreateChildPlan(children[c.newIdx]);
      if plan.BadChild? {
        return Throw(INVALID_CHILD_MESSAGE), produced, from, dels;
      }
      if plan.NoSlot? {
        SkipTurn(old0, heap.fibers, rf, track, chain, children, c, produced, from, dels);
        c := c.(newIdx := c.newIdx + 1);
      } else {
        var c2, produced2, from2, dels2 :=
          MakeTurn(heap, track, rf, chain, children, c, plan.m, None, |chain|, old0, produced, from, dels);
        c, produced, from, dels := c2, produced2, from2, dels2;
      }
    }
    r := Ok(c);
  }
}
