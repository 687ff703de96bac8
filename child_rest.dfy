/**
 * `reconcileChildrenArray` (packages/react-reconciler/src/childFiber.ts),
 * the third pass and the whole: the old children left over are filed in a
 * map by key (or index), each new child left over is looked up there, and
 * whatever stays in the map at the end is deleted.
 */
module ChildRest {
  import opened Wrappers
  import opened JsValues
  import opened Fiber
  import opened ChildFiber
  import opened ChildArray
  import opened ChildMap
  import opened ChildDiff

  /** A key as `jsx` leaves it: a string, or null when none was given. */
  predicate KeyShape(k: Value)
  {
    k.Null? || k.Str?
  }

  /**
   * The old children carry keys as `jsx` makes them, and an old child's
   * alternate carries the same key (`createWorkInProgress` copies it).
   */
  ghost predicate KeysOK(old0: map<FiberId, Fiber>, chain: seq<FiberId>)
  {
    forall i :: 0 <= i < |chain| ==>
      && chain[i] in old0 && KeyShape(old0[chain[i]].key)
      && (old0[chain[i]].alternate.Some? && old0[chain[i]].alternate.value in old0 ==>
            old0[old0[chain[i]].alternate.value].key == old0[chain[i]].key)
  }

  /** The new elements carry keys as `jsx` makes them (a string, or null). */
  predicate JsxKeyed(children: seq<Value>)
  {
    forall i :: 0 <= i < |children| && KindOf(children[i]) == ElementChild ==>
      Get(children[i], "key").Str? || Nullish(Get(children[i], "key"))
  }

  /**
   * The map during the third pass: it files old children neither reused
   * nor deleted, each under its own key; when tracking, the reused, the
   * deleted and the filed add up to `total`; without tracking it is empty.
   */
  ghost predicate MapState(old0: map<FiberId, Fiber>, chain: seq<FiberId>, track: bool, from: seq<Option<FiberId>>,
                           dels: seq<FiberId>, existing: Entries, total: multiset<FiberId>)
  {
    && FiledFrom(old0, chain, existing)
    && (forall k :: 0 <= k < |existing| ==> existing[k].1 !in Reused(from) && existing[k].1 !in dels)
    && (track ==> multiset(Reused(from)) + multiset(dels) + multiset(Values(existing)) == total)
    && (!track ==> |existing| == 0)
  }

  /** The fiber `useFiber` hands back for old child `c` keeps `c`'s key. */
  lemma ReuseKeyIsKey(old0: map<FiberId, Fiber>, chain: seq<FiberId>, c: FiberId)
    requires KeysOK(old0, chain) && c in chain
    ensures c in old0 && KeyShape(old0[c].key) && ReuseKey(old0, c) == old0[c].key
  {
    var i :| 0 <= i < |chain| && chain[i] == c;
  }

  /**
   * After a reuse from the map, the key `map.delete` is given (`newFiber.key`,
   * or `newIdx` when that is null) is the key the old fiber was found under.
   */
  lemma DeleteKeyMatches(old0: map<FiberId, Fiber>, chain: seq<FiberId>, existing: Entries, child: Value,
                         newIdx: int, c: FiberId, key: Value)
    requires KeysOK(old0, chain) && FiledFrom(old0, chain, existing)
    requires KindOf(child) == ElementChild ==> Get(child, "key").Str? || Nullish(Get(child, "key"))
    requires MapGet(existing, LookupKey(child, newIdx)) == Some(c)
    requires key == ReuseKey(old0, c)
    ensures (if key == Null then Num(newIdx) else key) == LookupKey(child, newIdx)
  {
    var i := Find(existing, LookupKey(child, newIdx));
    assert existing[i].1 == c && existing[i].0 == MapKeyOf(old0[c]);
    ReuseKeyIsKey(old0, chain, c);
  }

  /** An old fiber found in the map may be reused. */
  lemma MapFits(old0: map<FiberId, Fiber>, chain: seq<FiberId>, track: bool, from: seq<Option<FiberId>>,
                dels: seq<FiberId>, existing: Entries, total: multiset<FiberId>, m: Make, lookup: Value)
    requires MapState(old0, chain, track, from, dels, existing, total)
    requires m.reuse.Some? ==> m.reuse == MapGet(existing, lookup)
    requires Unplaced(m.created)
    ensures Fits(chain, from, dels, m, None)
  {
    if m.reuse.Some? {
      var i := Find(existing, lookup);
      assert existing[i].1 == m.reuse.value;
    }
  }

  /** A turn that reused no old fiber leaves the map as it was. */
  lemma MapStateKeep(old0: map<FiberId, Fiber>, chain: seq<FiberId>, track: bool, from: seq<Option<FiberId>>,
                     dels: seq<FiberId>, existing: Entries, total: multiset<FiberId>)
    requires MapState(old0, chain, track, from, dels, existing, total)
    ensures MapState(old0, chain, track, from + [None], dels, existing, total)
  {
    OldsSnoc(old0, from, None);
  }

  /** A turn that reused the old fiber filed under `lk` takes its entry out of the map. */
  lemma MapStateReuse(old0: map<FiberId, Fiber>, chain: seq<FiberId>, track: bool, from: seq<Option<FiberId>>,
                      dels: seq<FiberId>, existing: Entries, total: multiset<FiberId>, lk: Value, c: FiberId)
    requires MapState(old0, chain, track, from, dels, existing, total)
    requires MapGet(existing, lk) == Some(c)
    ensures MapState(old0, chain, track, from + [Some(c)], dels, MapDelete(existing, lk), total)
  {
    OldsSnoc(old0, from, Some(c));
    var existing2 := MapDelete(existing, lk);
    MapDeleteFiled(existing, lk);
    forall q | 0 <= q < |existing2|
      ensures existing2[q].1 in chain && existing2[q].1 in old0 && existing2[q].0 == MapKeyOf(old0[existing2[q].1])
      ensures existing2[q].1 !in Reused(from + [Some(c)]) && existing2[q].1 !in dels
    {
      var k :| 0 <= k < |existing| && existing[k] == existing2[q];
    }
  }

  /** One turn of the third pass keeps `MapState`, the map losing the entry of a reused fiber. */
  lemma MapStateStep(old0: map<FiberId, Fiber>, chain: seq<FiberId>, track: bool, from: seq<Option<FiberId>>,
                     dels: seq<FiberId>, existing: Entries, total: multiset<FiberId>, child: Value, newIdx: int,
                     src: Option<FiberId>, key: Value, existing2: Entries, deleted: seq<FiberId>)
    requires MapState(old0, chain, track, from, dels, existing, total) && KeysOK(old0, chain) && deleted == []
    requires KindOf(child) == ElementChild ==> Get(child, "key").Str? || Nullish(Get(child, "key"))
    requires src.Some? ==> src == MapGet(existing, LookupKey(child, newIdx)) && key == ReuseKey(old0, src.value)
    requires existing2 == if track && src.Some? then MapDelete(existing, if key == Null then Num(newIdx) else key) else existing
    ensures MapState(old0, chain, track, from + [src], dels + deleted, existing2, total)
  {
    AppendNothing(dels, deleted);
    if src.None? {
      MapStateKeep(old0, chain, track, from, dels, existing, total);
    } else {
      var lk := LookupKey(child, newIdx);
      assert track;
      DeleteKeyMatches(old0, chain, existing, child, newIdx, src.value, key);
      MapStateReuse(old0, chain, track, from, dels, existing, total, lk, src.value);
    }
  }

  lemma AppendNothing(s: seq<FiberId>, t: seq<FiberId>)
    requires t == []
    ensures s + t == s
  {
  }

  /** What a turn of the third pass that made fiber `n` leaves behind, apart from the map. */
  lemma MapTurnMade(old0: map<FiberId, Fiber>, pre: map<FiberId, Fiber>, post: map<FiberId, Fiber>, rf: FiberId,
                    track: bool, chain: seq<FiberId>, children: seq<Value>, c: Cursor, c2: Cursor,
                    produced: seq<FiberId>, from: seq<Option<FiberId>>, dels: seq<FiberId>, src: Option<FiberId>,
                    n: FiberId, deleted: seq<FiberId>)
    requires Progressed(pre, children, c.newIdx, produced)
    requires c.newIdx < |children| && Renderable(children[c.newIdx])
    requires c2.newIdx == c.newIdx + 1 && c2.prev == Some(n)
    requires DiffInv(old0, post, rf, track, chain, c2.head, c2.prev, produced + [n], from + [src], dels + deleted,
                     c2.newIdx, c2.last)
    requires IndicesKept(pre, post, produced) && n in post && post[n].index == c.newIdx
    ensures Diffed(old0, post, rf, track, chain, children, c2, produced + [n], from + [src], dels + deleted)
  {
    AdvanceMade(pre, post, children, c.newIdx, produced, n);
  }

  /** The old fibers filed in the map are still in the heap. */
  lemma FiledInHeap(old0: map<FiberId, Fiber>, fibers: map<FiberId, Fiber>, chain: seq<FiberId>, existing: Entries)
    requires FiledFrom(old0, chain, existing) && old0.Keys <= fibers.Keys
    ensures forall k :: 0 <= k < |existing| ==> existing[k].1 in fibers
  {
  }

  /**
   * One turn of the third pass: `updateFromMap` for the new child at
   * `newIdx`; a fiber made is stepped into the new list and, when it
   * reuses an old fiber, that fiber's entry leaves the map.
   */
  method MapTurn(heap: FiberHeap, track: bool, rf: FiberId, ghost chain: seq<FiberId>, children: seq<Value>,
                 c: Cursor, existing: Entries, ghost old0: map<FiberId, Fiber>, ghost produced: seq<FiberId>,
                 ghost from: seq<Option<FiberId>>, ghost dels: seq<FiberId>, ghost total: multiset<FiberId>)
    returns (bad: bool, c2: Cursor, existing2: Entries, ghost produced2: seq<FiberId>,
             ghost from2: seq<Option<FiberId>>, ghost dels2: seq<FiberId>)
    requires heap.Valid() && KeysOK(old0, chain) && JsxKeyed(children) && c.newIdx < |children|
    requires Diffed(old0, heap.fibers, rf, track, chain, children, c, produced, from, dels)
    requires MapState(old0, chain, track, from, dels, existing, total)
    modifies heap
    ensures heap.Valid()
    ensures bad ==> KindOf(children[c.newIdx]) == InvalidChild
    ensures !bad ==>
      && Diffed(old0, heap.fibers, rf, track, chain, children, c2, produced2, from2, dels2)
      && MapState(old0, chain, track, from2, dels2, existing2, total) && c2.newIdx == c.newIdx + 1
  {
    FiledInHeap(old0, heap.fibers, chain, existing);
    var child := children[c.newIdx];
    var plan := FromMapPlan(heap.fibers, existing, c.newIdx, child);
    if plan.BadChild? {
      return true, c, existing, produced, from, dels;
    }
    if plan.NoSlot? {
      SkipTurn(old0, heap.fibers, rf, track, chain, children, c, produced, from, dels);
      return false, c.(newIdx := c.newIdx + 1), existing, produced, from, dels;
    }
    MapFits(old0, chain, track, from, dels, existing, total, plan.m, LookupKey(child, c.newIdx));
    ghost var pre := heap.fibers;
    var n, last, newHead, deleted := Step(heap, track, rf, plan.m, None, c.newIdx, c.last, c.head, c.prev,
                                          old0, chain, produced, from, dels);
    var key := heap.fibers[n].key;
    existing2 := existing;
    if track && heap.fibers[n].alternate.Some? {
      existing2 := MapDelete(existing, if key == Null then Num(c.newIdx) else key);
    }
    c2 := Cursor(c.newIdx + 1, last, newHead, Some(n));
    produced2, from2 := produced + [n], from + [plan.m.reuse];
    bad := false;
    MapTurnMade(old0, pre, heap.fibers, rf, track, chain, children, c, c2, produced, from, dels, plan.m.reuse, n, deleted);
    MapStateStep(old0, chain, track, from, dels, existing, total, child, c.newIdx, plan.m.reuse, key, existing2, deleted);
    dels2 := dels + deleted;
  }

  /** The map `mapRemainingChildren` builds from the old children left over, and the state it starts the pass in. */
  lemma MapStart(old0: map<FiberId, Fiber>, fibers: map<FiberId, Fiber>, rf: FiberId, track: bool,
                 chain: seq<FiberId>, produced: seq<FiberId>, from: seq<Option<FiberId>>, dels: seq<FiberId>, j: nat)
    requires ChildrenOK(old0, rf, chain) && Framed(old0, fibers, rf, track, chain, produced, from, dels)
    requires Consumed(chain, j, track, from, dels) && (track || |chain| == 0)
    ensures var e := RemainingEntries(old0, chain[j..]);
      && RemainingEntries(fibers, chain[j..]) == e
      && MapState(old0, chain, track, from, dels, e, multiset(chain[..j]) + multiset(Values(e)))
  {
    var rest := chain[j..];
    ConsumeRest(chain, j, track, from, dels);
    forall i | 0 <= i < |rest| ensures rest[i] in old0 && rest[i] in fibers && fibers[rest[i]] == old0[rest[i]] {
      assert rest[i] in dels + rest;
      assert ChainKept(old0, fibers, chain[j + i], chain[j + i] in Reused(from));
    }
    RemainingFrame(fibers, old0, rest);
    assert Distinct(rest) by {
      forall a, b | 0 <= a < b < |rest| ensures rest[a] != rest[b] {
        assert rest[a] == chain[j + a] && rest[b] == chain[j + b];
      }
    }
    RemainingFiled(old0, rest);
    var e := RemainingEntries(old0, rest);
    forall k | 0 <= k < |e| ensures e[k].1 in chain && e[k].1 !in Reused(from) && e[k].1 !in dels {
      assert e[k].1 in dels + rest;
      assert e[k].1 !in dels by {
        var a :| 0 <= a < |rest| && rest[a] == e[k].1;
        forall b | 0 <= b < |dels| ensures dels[b] != e[k].1 {
          assert (dels + rest)[b] == dels[b] && (dels + rest)[|dels| + a] == rest[a];
        }
      }
    }
    if !track {
      assert |rest| == 0;
    }
  }

  /** `existingChildren.forEach(child => deleteChild(returnFiber, child))`, in the map's order. */
  method DeleteEach(heap: FiberHeap, rf: FiberId, existing: Entries)
    requires rf in heap.fibers
    modifies heap`fibers
    ensures heap.fibers == old(heap.fibers)[rf := WithDeletions(old(heap.fibers)[rf], Values(existing))]
  {
    var k := 0;
    while k < |existing|
      invariant 0 <= k <= |existing| && rf in heap.fibers
      invariant heap.fibers == old(heap.fibers)[rf := WithDeletions(old(heap.fibers)[rf], Values(existing[..k]))]
    {
      DeleteChild(heap, true, rf, existing[k].1);
      WithDeletionsAppend(old(heap.fibers)[rf], Values(existing[..k]), [existing[k].1]);
      assert existing[..k + 1] == existing[..k] + [existing[k]];
      ValuesAppend(existing[..k], [existing[k]]);
      k := k + 1;
    }
    assert existing[..k] == existing;
  }

  /** The fibers left in the map, deleted at the end of the pass, complete the account of the old children. */
  lemma MapEnd(old0: map<FiberId, Fiber>, pre: map<FiberId, Fiber>, post: map<FiberId, Fiber>, rf: FiberId,
               chain: seq<FiberId>, children: seq<Value>, c: Cursor, produced: seq<FiberId>,
               from: seq<Option<FiberId>>, dels: seq<FiberId>, existing: Entries, total: multiset<FiberId>)
    requires Diffed(old0, pre, rf, true, chain, children, c, produced, from, dels)
    requires MapState(old0, chain, true, from, dels, existing, total)
    requires post == pre[rf := WithDeletions(pre[rf], Values(existing))]
    ensures Diffed(old0, post, rf, true, chain, children, c, produced, from, dels + Values(existing))
    ensures multiset(Reused(from)) + multiset(dels + Values(existing)) == total
  {
    var vs := Values(existing);
    WithDeletionsAppend(old0[rf], dels, vs);
    forall x | x in vs ensures x !in dels && x in chain && x !in Reused(from) {
      var k :| 0 <= k < |vs| && vs[k] == x;
      assert existing[k].1 == x;
    }
    DistinctAppend(dels, vs);
    ParentOnly(old0, pre, post, rf, true, chain, children, c, produced, from, dels, dels + vs);
  }

  /** The end of the third pass when tracking: every fiber still in the map is deleted. */
  method DeleteLeftovers(heap: FiberHeap, rf: FiberId, ghost chain: seq<FiberId>, ghost children: seq<Value>,
                         ghost c: Cursor, existing: Entries, ghost old0: map<FiberId, Fiber>,
                         ghost produced: seq<FiberId>, ghost from: seq<Option<FiberId>>, ghost dels: seq<FiberId>,
                         ghost total: multiset<FiberId>)
    returns (ghost dels2: seq<FiberId>)
    requires heap.Valid()
    requires Diffed(old0, heap.fibers, rf, true, chain, children, c, produced, from, dels)
    requires MapState(old0, chain, true, from, dels, existing, total)
    modifies heap
    ensures heap.Valid()
    ensures Diffed(old0, heap.fibers, rf, true, chain, children, c, produced, from, dels2)
    ensures multiset(Reused(from)) + multiset(dels2) == total
  {
    ghost var pre := heap.fibers;
    ghost var n0 := heap.nextId;
    DeleteEach(heap, rf, existing);
    MapEnd(old0, pre, heap.fibers, rf, chain, children, c, produced, from, dels, existing, total);
    dels2 := dels + Values(existing);
  }

  /** The loop of the third pass, over the new children left over. */
  method MapLoop(heap: FiberHeap, track: bool, rf: FiberId, ghost chain: seq<FiberId>, children: seq<Value>,
                 c0: Cursor, existing0: Entries, ghost old0: map<FiberId, Fiber>, ghost produced0: seq<FiberId>,
                 ghost from0: seq<Option<FiberId>>, ghost dels0: seq<FiberId>, ghost total: multiset<FiberId>)
    returns (r: Result<Cursor>, existing: Entries, ghost produced: seq<FiberId>, ghost from: seq<Option<FiberId>>,
             ghost dels: seq<FiberId>)
    requires heap.Valid() && KeysOK(old0, chain) && JsxKeyed(children)
    requires Diffed(old0, heap.fibers, rf, track, chain, children, c0, produced0, from0, dels0)
    requires MapState(old0, chain, track, from0, dels0, existing0, total)
    modifies heap
    ensures heap.Valid()
    ensures r.Ok? ==>
      && Diffed(old0, heap.fibers, rf, track, chain, children, r.value, produced, from, dels)
      && MapState(old0, chain, track, from, dels, existing, total) && r.value.newIdx == |children|
    ensures r.Throw? ==>
      r.msg == INVALID_CHILD_MESSAGE && exists i :: 0 <= i < |children| && KindOf(children[i]) == InvalidChild
  {
    var c := c0;
    existing, produced, from, dels := existing0, produced0, from0, dels0;
    while c.newIdx < |children|
      invariant heap.Valid()
      invariant Diffed(old0, heap.fibers, rf, track, chain, children, c, produced, from, dels)
      invariant MapState(old0, chain, track, from, dels, existing, total)
      decreases |children| - c.newIdx
    {
      var bad, c2, existing2, produced2, from2, dels2 :=
        MapTurn(heap, track, rf, chain, children, c, existing, old0, produced, from, dels, total);
      if bad {
        return Throw(INVALID_CHILD_MESSAGE), existing, produced, from, dels;
      }
      c, existing := c2, existing2;
      produced, from, dels := produced2, from2, dels2;
    }
    r := Ok(c);
  }

  /**
   * The third pass: the old children left over go into a map, each new
   * child left over goes through `updateFromMap`, and when tracking every
   * fiber still in the map is deleted.
   */
  method MapRest(heap: FiberHeap, track: bool, rf: FiberId, first: Option<FiberId>, ghost chain: seq<FiberId>,
                 children: seq<Value>, c0: Cursor, oldFiber: Option<FiberId>, ghost j: nat,
                 ghost old0: map<FiberId, Fiber>, ghost produced0: seq<FiberId>, ghost from0: seq<Option<FiberId>>,
                 ghost dels0: seq<FiberId>)
    returns (r: Result<Cursor>, ghost produced: seq<FiberId>, ghost from: seq<Option<FiberId>>, ghost dels: seq<FiberId>)
    requires heap.Valid() && SiblingChain(old0, first, chain)
    requires Diffed(old0, heap.fibers, rf, track, chain, children, c0, produced0, from0, dels0)
    requires Consumed(chain, j, track, from0, dels0) && oldFiber == (if j < |chain| then Some(chain[j]) else None)
    requires KeysOK(old0, chain) && JsxKeyed(children) && (track || |chain| == 0)
    modifies heap
    ensures heap.Valid()
    ensures r.Ok? ==>
      && Diffed(old0, heap.fibers, rf, track, chain, children, r.value, produced, from, dels)
      && r.value.newIdx == |children|
    ensures r.Ok? && track ==>
      multiset(Reused(from)) + multiset(dels) == multiset(chain[..j]) + multiset(Values(RemainingEntries(old0, chain[j..])))
    ensures r.Throw? ==>
      r.msg == INVALID_CHILD_MESSAGE && exists i :: 0 <= i < |children| && KindOf(children[i]) == InvalidChild
  {
    RestChain(old0, heap.fibers, rf, track, chain, produced0, from0, dels0, first, j);
    MapStart(old0, heap.fibers, rf, track, chain, produced0, from0, dels0, j);
    var existing := MapRemainingChildren(heap, oldFiber, chain[j..]);
    ghost var total := multiset(chain[..j]) + multiset(Values(existing));
    r, existing, produced, from, dels := MapLoop(heap, track, rf, chain, children, c0, existing, old0,
                                                 produced0, from0, dels0, total);
    if r.Ok? && track {
      dels := DeleteLeftovers(heap, rf, chain, children, r.value, existing, old0, produced, from, dels, total);
    }
  }

  /** With no key shared, the old children filed from `j` on and those before `j` are all the old children. */
  lemma AllAccounted(old0: map<FiberId, Fiber>, chain: seq<FiberId>, j: nat)
    requires UniqueKeys(old0, chain) && Distinct(chain) && j <= |chain|
    ensures multiset(chain[..j]) + multiset(Values(RemainingEntries(old0, chain[j..]))) == multiset(chain)
  {
    var rest := chain[j..];
    forall a, b | 0 <= a < b < |rest| ensures MapKeyOf(old0[rest[a]]) != MapKeyOf(old0[rest[b]]) && rest[a] != rest[b] {
      assert rest[a] == chain[j + a] && rest[b] == chain[j + b];
    }
    RemainingAll(old0, rest);
    assert chain == chain[..j] + rest;
  }

  /**
   * The outcome of `reconcileChildrenArray`: every new child was valid;
   * the new list `produced` is linked by `sibling` from `head`, marked as
   * `placeChild` decided, at the positions of the renderable children, and
   * nothing else changed beyond what `Framed` allows.
   */
  ghost predicate Reconciled(old0: map<FiberId, Fiber>, fibers: map<FiberId, Fiber>, rf: FiberId, track: bool,
                             chain: seq<FiberId>, children: seq<Value>, head: Option<FiberId>, produced: seq<FiberId>,
                             from: seq<Option<FiberId>>, dels: seq<FiberId>)
  {
    && (forall i :: 0 <= i < |children| ==> KindOf(children[i]) != InvalidChild)
    && Distinct(produced) && SiblingChain(fibers, head, produced)
    && Marked(old0, fibers, rf, track, chain, produced, from, |children|)
    && Framed(old0, fibers, rf, track, chain, produced, from, dels)
    && Slotted(fibers, produced, RenderSlots(children, |children|))
  }

  lemma ReconciledOf(old0: map<FiberId, Fiber>, fibers: map<FiberId, Fiber>, rf: FiberId, track: bool,
                     chain: seq<FiberId>, children: seq<Value>, c: Cursor, produced: seq<FiberId>,
                     from: seq<Option<FiberId>>, dels: seq<FiberId>)
    requires Diffed(old0, fibers, rf, track, chain, children, c, produced, from, dels) && c.newIdx == |children|
    ensures Reconciled(old0, fibers, rf, track, chain, children, c.head, produced, from, dels)
  {
  }

  /** Once every old child is dealt with, the reused and the deleted ones are all of them. */
  lemma ConsumedAll(chain: seq<FiberId>, track: bool, from: seq<Option<FiberId>>, dels: seq<FiberId>)
    requires Consumed(chain, |chain|, track, from, dels) && track
    ensures multiset(Reused(from)) + multiset(dels) == multiset(chain)
  {
    assert chain[..|chain|] == chain;
  }

  /**
   * What follows the first pass when it stopped early: the old children
   * left over are deleted, or fibers are made for the new children left
   * over, or both go through the map.
   */
  method RestPasses(heap: FiberHeap, track: bool, rf: FiberId, first: Option<FiberId>, ghost chain: seq<FiberId>,
                    children: seq<Value>, c: Cursor, oldFiber: Option<FiberId>, ghost j: nat,
                    ghost old0: map<FiberId, Fiber>, ghost produced0: seq<FiberId>, ghost from0: seq<Option<FiberId>>,
                    ghost dels0: seq<FiberId>)
    returns (r: Result<Cursor>, ghost produced: seq<FiberId>, ghost from: seq<Option<FiberId>>, ghost dels: seq<FiberId>)
    requires heap.Valid() && SiblingChain(old0, first, chain)
    requires Diffed(old0, heap.fibers, rf, track, chain, children, c, produced0, from0, dels0)
    requires Consumed(chain, j, track, from0, dels0) && oldFiber == (if j < |chain| then Some(chain[j]) else None)
    requires KeysOK(old0, chain) && JsxKeyed(children) && (track || |chain| == 0)
    modifies heap
    ensures heap.Valid()
    ensures r.Ok? ==>
      && Diffed(old0, heap.fibers, rf, track, chain, children, r.value, produced, from, dels)
      && r.value.newIdx == |children|
    ensures r.Ok? && track && UniqueKeys(old0, chain) ==> multiset(Reused(from)) + multiset(dels) == multiset(chain)
    ensures r.Throw? ==>
      r.msg == INVALID_CHILD_MESSAGE && exists i :: 0 <= i < |children| && KindOf(children[i]) == InvalidChild
  {
    produced, from := produced0, from0;
    if c.newIdx == |children| {
      dels := ChildDiff.DeleteRest(heap, track, rf, first, chain, children, c, oldFiber, j, old0, produced, from, dels0);
      return Ok(c), produced, from, dels;
    }
    if oldFiber.None? {
      r, produced, from, dels := CreateRest(heap, track, rf, chain, children, c, old0, produced, from, dels0);
      if r.Ok? && track {
        ConsumedAll(chain, track, from, dels);
      }
    } else {
      r, produced, from, dels := MapRest(heap, track, rf, first, chain, children, c, oldFiber, j, old0,
                                         produced, from, dels0);
      if r.Ok? && track && UniqueKeys(old0, chain) {
        AllAccounted(old0, chain, j);
      }
    }
  }

  /**
   * `reconcileChildrenArray(returnFiber, currentFirstChild, newChildren)`:
   * the first pass, then the rest. It fails exactly when some new child is
   * an object that is not an element; when tracking and no two old
   * children share a key, every old child is either reused or deleted, once.
   */
  method ReconcileChildrenArray(heap: FiberHeap, track: bool, rf: FiberId, first: Option<FiberId>,
                                ghost chain: seq<FiberId>, children: seq<Value>)
    returns (r: Result<Option<FiberId>>, ghost produced: seq<FiberId>, ghost from: seq<Option<FiberId>>,
             ghost dels: seq<FiberId>)
    requires heap.Valid() && ChildrenOK(heap.fibers, rf, chain) && SiblingChain(heap.fibers, first, chain)
    requires KeysOK(heap.fibers, chain) && JsxKeyed(children) && (track || |chain| == 0)
    modifies heap
    ensures heap.Valid()
    ensures r.Ok? <==> forall i :: 0 <= i < |children| ==> KindOf(children[i]) != InvalidChild
    ensures r.Throw? ==> r.msg == INVALID_CHILD_MESSAGE
    ensures r.Ok? ==> Reconciled(old(heap.fibers), heap.fibers, rf, track, chain, children, r.value, produced, from, dels)
    ensures r.Ok? && track && UniqueKeys(old(heap.fibers), chain) ==>
      multiset(Reused(from)) + multiset(dels) == multiset(chain)
  {
    ghost var old0 := heap.fibers;
    var r0, oldFiber;
    ghost var j;
    r0, oldFiber, j, produced, from, dels := UpdateSlots(heap, track, rf, first, chain, children);
    if r0.Throw? {
      return Throw(r0.msg), produced, from, dels;
    }
    var r1;
    r1, produced, from, dels := RestPasses(heap, track, rf, first, chain, children, r0.value, oldFiber, j, old0,
                                           produced, from, dels);
    if r1.Throw? {
      return Throw(r1.msg), produced, from, dels;
    }
    ReconciledOf(old0, heap.fibers, rf, track, chain, children, r1.value, produced, from, dels);
    r := Ok(r1.value.head);
  }
}
