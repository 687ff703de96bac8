/**
 * Hooks (fiberHooks.ts). While a function component renders, its hooks
 * form a list hanging from the fiber's `memoizedState`, one record per
 * hook call, in call order. On mount every call appends a fresh hook; on
 * update every call copies the hook at the same position of the current
 * fiber's list. Effects go on a circular list whose newest node is the
 * fiber's `updateQueue.lastEffect`.
 *
 * The component itself is user code: `renderWithHooks` is modelled as the
 * part before the call (`BeginRender`) and the part after it
 * (`EndRender`); in between, the component makes its hook calls, each one
 * a method of `HookRuntime`.
 */
module FiberHooks {
  import opened Wrappers
  import opened JsValues
  import opened FiberFlags
  import opened FiberLane
  import opened Fiber
  import UQ = UpdateQueue
  import opened Ring

  /** `hook.memoizedState`: a state value, or the effect a `useEffect` hook pushed. */
  datatype HookMemo = HookValue(v: Value) | HookEffect(effect: EffectId) | HookRef(ref: nat) | HookStart(setPending: UQ.Dispatch)

  datatype Hook = Hook(memoizedState: HookMemo, queue: Option<nat>, next: Option<HookId>, baseState: Value, baseQueue: Option<nat>)

  /** An effect record; `deps` is None for `deps ?? null` when no array was given. */
  datatype Effect = Effect(tag: HookFlags, create: Value, destroy: Value, deps: Option<seq<Value>>, next: Option<EffectId>)

  /** `currentDispatcher.current` */
  datatype Dispatcher = NoDispatcher | OnMount | OnUpdate

  /** What `mountWorkInProgressHook` creates: every field null. */
  const EmptyHook: Hook := Hook(HookValue(Null), None, None, Null, None)

  const OUTSIDE_COMPONENT_MESSAGE: string := "请在 FunctionComponent 内调用 Hook"

  /** The error for a render that calls more hooks than the current fiber recorded. */
  function MoreHooksMessage(ftype: Value): string
  {
    var t := ToJsString(ftype);
    "组件" + (if t.Ok? then t.value else "") + "本次执行的Hook比上一次数量要多"
  }

  function LastOf(list: seq<nat>): Option<nat>
  {
    if |list| == 0 then None else Some(list[|list| - 1])
  }

  /** `order` (oldest first, distinct) is the circular effect list whose newest effect is `last`. */
  ghost predicate EffectCycle(effects: map<EffectId, Effect>, last: EffectId, order: seq<EffectId>)
  {
    && |order| > 0
    && order[|order| - 1] == last
    && (forall i :: 0 <= i < |order| ==> order[i] in effects)
    && (forall i :: 0 <= i < |order| - 1 ==> order[i] != last)
    && (forall i :: 0 <= i < |order| - 1 ==> effects[order[i]].next == Some(order[i + 1]))
    && effects[last].next == Some(order[0])
  }

  /** `list` is a hook list in `hooks`: each links to the next and the last to nothing. */
  ghost predicate Chained(hooks: map<HookId, Hook>, list: seq<HookId>)
  {
    && (forall i :: 0 <= i < |list| ==> list[i] in hooks)
    && (forall i :: 0 <= i < |list| - 1 ==> hooks[list[i]].next == Some(list[i + 1]))
    && (|list| > 0 ==> hooks[list[|list| - 1]].next.None?)
  }

  /** `hooks` after linking the last hook of `list`, if any, to `h`. */
  function Linked(hooks: map<HookId, Hook>, list: seq<HookId>, h: HookId): map<HookId, Hook>
    requires |list| > 0 ==> list[|list| - 1] in hooks
  {
    if |list| == 0 then hooks else hooks[list[|list| - 1] := hooks[list[|list| - 1]].(next := Some(h))]
  }

  /** A fresh hook `h` holding `rec` (with no successor) extends the chain by one. */
  lemma ChainedAppend(hooks: map<HookId, Hook>, list: seq<HookId>, h: HookId, rec: Hook)
    requires Chained(hooks, list) && h !in hooks && rec.next.None?
    ensures Chained(Linked(hooks, list, h)[h := rec], list + [h])
  {
    var hs := Linked(hooks, list, h)[h := rec];
    var l := list + [h];
    forall i | 0 <= i < |l| - 1
      ensures hs[l[i]].next == Some(l[i + 1])
    {
      if i < |list| - 1 {
        assert l[i] == list[i] && l[i + 1] == list[i + 1];
        assert hooks[list[i]].next.Some?;
      }
    }
  }

  /** Changes that keep every link of a chain keep the chain. */
  lemma ChainedFrame(hooks: map<HookId, Hook>, hooks': map<HookId, Hook>, list: seq<HookId>)
    requires Chained(hooks, list)
    requires forall i :: 0 <= i < |list| ==> list[i] in hooks' && hooks'[list[i]].next == hooks[list[i]].next
    ensures Chained(hooks', list)
  {
  }

  // ------------------------------------------------------------ deps

  /** `areHookInputsEqual`: false for null previous deps, else the deps agree at every index both have. */
  predicate DepsEqual(nextDeps: seq<Value>, prevDeps: Option<seq<Value>>)
  {
    prevDeps.Some? && forall i :: 0 <= i < |nextDeps| && i < |prevDeps.value| ==> nextDeps[i] == prevDeps.value[i]
  }

  /** `areHookInputsEqual(nextDeps, prevDeps)`, with `objectIs` as value equality. */
  method AreHookInputsEqual(nextDeps: seq<Value>, prevDeps: Option<seq<Value>>) returns (eq: bool)
    ensures eq == DepsEqual(nextDeps, prevDeps)
  {
    if prevDeps.None? {
      return false;
    }
    var prev := prevDeps.value;
    var i := 0;
    while i < |nextDeps| && i < |prev|
      invariant 0 <= i <= |nextDeps| && i <= |prev|
      invariant forall j :: 0 <= j < i ==> nextDeps[j] == prev[j]
    {
      if nextDeps[i] != prev[i] {
        return false;
      }
      i := i + 1;
    }
    return true;
  }

  /** With deps of the same length, equality is element-wise equality. */
  lemma {:induction false} DepsEqualSameLength(nextDeps: seq<Value>, prevDeps: seq<Value>)
    requires |nextDeps| == |prevDeps|
    ensures DepsEqual(nextDeps, Some(prevDeps)) <==> nextDeps == prevDeps
  {
    if DepsEqual(nextDeps, Some(prevDeps)) {
      assert forall i :: 0 <= i < |nextDeps| ==> nextDeps[i] == prevDeps[i];
    }
  }

  /** Only the shorter length is compared: an equal prefix counts as equal, and no deps at all equal anything. */
  lemma DepsPrefixQuirk(a: Value, b: Value)
    ensures DepsEqual([a], Some([a, b])) && DepsEqual([a, b], Some([a]))
    ensures DepsEqual([], Some([b])) && !DepsEqual([a], None)
  {
  }

  // ---------------------------------------------------------- runtime

  type RefId = nat

  /**
   * The hook, effect and ref arenas, and the module state of
   * fiberHooks.ts: `currentlyRenderingFiber` (`rendering`),
   * `workInProgressHook` (`wipHook`), `currentHook` and `renderLane`.
   *
   * While a fiber renders, the fields of it that hooks read or write are
   * held here: its `type`, `updateQueue` and `flags` (`wipType`,
   * `wipUpdateQueue`, `wipFlags`), the first hook of its list, which is its
   * `memoizedState` (`wipFirstHook`, None for null), and the first hook of
   * its alternate's list (`currentFirstHook`, None without an alternate or
   * hooks). `EndRender` writes them back to the fiber.
   *
   * The ghost `wipList` is the hook list built so far, `currentList` the
   * alternate's, and `effectOrder` the effect list, oldest first.
   */
  class HookRuntime {
    var hooks: map<HookId, Hook>
    var nextHook: HookId
    var effects: map<EffectId, Effect>
    var nextEffect: EffectId
    var refs: map<RefId, Value>
    var nextRef: RefId
    var rendering: Option<FiberId>
    var wipType: Value
    var wipFirstHook: Option<HookId>
    var wipUpdateQueue: Option<QueueId>
    var wipFlags: Flags
    var currentFirstHook: Option<HookId>
    var wipHook: Option<HookId>
    var currentHook: Option<HookId>
    var renderLane: Lane
    var dispatcher: Dispatcher
    ghost var wipList: seq<HookId>
    ghost var currentList: seq<HookId>
    ghost var effectOrder: seq<EffectId>

    ghost predicate Valid()
      reads this`hooks, this`nextHook, this`effects, this`nextEffect, this`refs, this`nextRef
    {
      && (forall h :: h in hooks ==> h < nextHook)
      && (forall e :: e in effects ==> e < nextEffect)
      && (forall x :: x in refs ==> x < nextRef)
    }

    constructor()
      ensures Valid() && hooks == map[] && effects == map[] && refs == map[]
      ensures rendering.None? && wipHook.None? && currentHook.None? && renderLane == NoLane && dispatcher == NoDispatcher
      ensures wipList == [] && currentList == [] && effectOrder == []
    {
      hooks, nextHook, effects, nextEffect, refs, nextRef := map[], 0, map[], 0, map[], 0;
      rendering, wipType, wipFirstHook, wipUpdateQueue, wipFlags := None, Undefined, None, None, NoFlags;
      currentFirstHook, wipHook, currentHook, renderLane, dispatcher := None, None, None, NoLane, NoDispatcher;
      wipList, currentList, effectOrder := [], [], [];
    }

    /**
     * The list under construction: `wipList` is chained, `wipHook` is its
     * last hook, and its first hook is the rendering fiber's memoizedState.
     */
    ghost predicate WipChain()
      reads this`hooks, this`wipList, this`wipHook, this`rendering, this`wipFirstHook
    {
      && Chained(hooks, wipList)
      && wipHook == LastOf(wipList)
      && (rendering.None? ==> wipList == [])
      && (|wipList| > 0 ==> wipFirstHook == Some(wipList[0]))
    }

    /**
     * The current fiber's list and the cursor into it: `currentList` hangs
     * from the alternate's memoizedState (empty without an alternate), it
     * shares no hook with `wipList`, and `currentHook` is the hook matched
     * by the last hook made, none yet at the start.
     */
    ghost predicate UpdateCursor()
      reads this`hooks, this`wipList, this`wipHook, this`rendering, this`wipFirstHook
      reads this`currentHook, this`currentList, this`currentFirstHook
    {
      && WipChain()
      && Chained(hooks, currentList)
      && (forall i :: 0 <= i < |wipList| ==> wipList[i] !in currentList)
      && |wipList| <= |currentList|
      && currentHook == (if |wipList| == 0 then None else Some(currentList[|wipList| - 1]))
      && (rendering.None? ==> currentList == [])
      && (currentFirstHook.None? <==> currentList == [])
      && (|currentList| > 0 ==> currentFirstHook == Some(currentList[0]))
    }

    /**
     * The rendering fiber's effect list: empty while it has no update queue
     * or no `lastEffect`, otherwise the ring of `effectOrder` (oldest first)
     * whose newest effect is `lastEffect`.
     */
    ghost predicate EffectRing(queues: map<QueueId, UQ.UpdateQueueRec>)
      reads this`wipUpdateQueue, this`effects, this`effectOrder
    {
      && (wipUpdateQueue.None? ==> effectOrder == [])
      && (wipUpdateQueue.Some? ==>
            && wipUpdateQueue.value in queues
            && var last := queues[wipUpdateQueue.value].lastEffect;
            && (last.None? ==> effectOrder == [])
            && (last.Some? ==> EffectCycle(effects, last.value, effectOrder)))
    }

    /**
     * `renderWithHooks(wip, lane)` up to the component call: the fiber is
     * rendering with its hook list and effect queue cleared, and the
     * dispatcher is the mount one iff it has no alternate. `current` is the
     * alternate's hook list.
     */
    method BeginRender(heap: FiberHeap, wip: FiberId, lane: Lane, ghost current: seq<HookId>)
      requires wip in heap.fibers
      requires heap.fibers[wip].alternate.Some? ==> heap.fibers[wip].alternate.value in heap.fibers
      modifies this`rendering, this`wipType, this`wipFirstHook, this`wipUpdateQueue, this`wipFlags
      modifies this`currentFirstHook, this`renderLane, this`dispatcher, this`currentList, this`wipList, this`effectOrder
      ensures rendering == Some(wip) && renderLane == lane
      ensures var f := heap.fibers[wip];
        && wipType == f.ftype && wipFlags == f.flags && wipFirstHook.None? && wipUpdateQueue.None?
        && currentFirstHook == (if f.alternate.None? then None else FirstHook(heap.fibers[f.alternate.value].memoizedState))
        && dispatcher == (if f.alternate.None? then OnMount else OnUpdate)
        && currentList == (if f.alternate.None? then [] else current)
      ensures wipList == [] && effectOrder == []
    {
      var f := heap.fibers[wip];
      rendering := Some(wip);
      wipType, wipFlags := f.ftype, f.flags;
      wipFirstHook := None;
      wipUpdateQueue := None;
      renderLane := lane;
      if f.alternate.None? {
        currentFirstHook := None;
        dispatcher := OnMount;
        currentList := [];
      } else {
        currentFirstHook := FirstHook(heap.fibers[f.alternate.value].memoizedState);
        dispatcher := OnUpdate;
        currentList := current;
      }
      wipList := [];
      effectOrder := [];
    }

    /** After `BeginRender`, with the cursors null, every invariant holds for the empty lists. */
    lemma BegunClean(queues: map<QueueId, UQ.UpdateQueueRec>)
      requires wipHook.None? && currentHook.None? && wipList == [] && effectOrder == [] && wipUpdateQueue.None?
      requires rendering.Some? && Chained(hooks, currentList)
      requires currentFirstHook == (if currentList == [] then None else Some(currentList[0]))
      ensures WipChain() && UpdateCursor() && EffectRing(queues)
    {
    }

    /**
     * `renderWithHooks` after the component call: the hook list, effect
     * queue and flags built during the render go to the fiber, no fiber is
     * rendering and every cursor is reset.
     */
    method EndRender(heap: FiberHeap)
      modifies this`rendering, this`wipHook, this`currentHook, this`renderLane, this`wipList, this`currentList, this`effectOrder
      modifies heap`fibers
      ensures old(rendering).Some? && old(rendering).value in old(heap.fibers) ==>
        var w := old(rendering).value;
        heap.fibers == old(heap.fibers)[w := old(heap.fibers)[w].(memoizedState := HooksMemo(wipFirstHook), updateQueue := wipUpdateQueue, flags := wipFlags)]
      ensures !(old(rendering).Some? && old(rendering).value in old(heap.fibers)) ==> heap.fibers == old(heap.fibers)
      ensures old(WipChain()) && |old(wipList)| > 0 && old(rendering).value in old(heap.fibers) ==>
        heap.fibers[old(rendering).value].memoizedState == MemoHook(old(wipList)[0])
      ensures rendering.None? && wipHook.None? && currentHook.None? && renderLane == NoLane
      ensures wipList == [] && currentList == [] && effectOrder == []
    {
      if rendering.Some? && rendering.value in heap.fibers {
        var w := rendering.value;
        heap.fibers := heap.fibers[w := heap.fibers[w].(memoizedState := HooksMemo(wipFirstHook), updateQueue := wipUpdateQueue, flags := wipFlags)];
      }
      rendering, wipHook, currentHook, renderLane := None, None, None, NoLane;
      wipList, currentList, effectOrder := [], [], [];
    }

    /** Allocates a hook object. */
    method NewHook(rec: Hook) returns (h: HookId)
      requires Valid()
      modifies this`hooks, this`nextHook
      ensures Valid() && h !in old(hooks) && hooks == old(hooks)[h := rec]
    {
      h := nextHook;
      nextHook := nextHook + 1;
      hooks := hooks[h := rec];
    }

    /** Puts hook `h` at the end of the list under construction; the first one also becomes the fiber's memoizedState. */
    method AppendHook(h: HookId)
      requires h in hooks && wipHook == LastOf(wipList) && (|wipList| > 0 ==> wipList[|wipList| - 1] in hooks)
      modifies this`hooks, this`wipHook, this`wipList, this`wipFirstHook
      ensures hooks == Linked(old(hooks), old(wipList), h) && wipList == old(wipList) + [h] && wipHook == Some(h)
      ensures wipFirstHook == (if |old(wipList)| == 0 then Some(h) else old(wipFirstHook))
    {
      if wipHook.None? {
        wipHook := Some(h);
        wipFirstHook := Some(h);
      } else {
        hooks := hooks[wipHook.value := hooks[wipHook.value].(next := Some(h))];
        wipHook := Some(h);
      }
      wipList := wipList + [h];
    }

    /** A fresh hook holding `rec` becomes the last of the list under construction. */
    method PushHook(rec: Hook) returns (h: HookId)
      requires Valid() && WipChain() && rendering.Some? && rec.next.None?
      modifies this`hooks, this`nextHook, this`wipHook, this`wipList, this`wipFirstHook
      ensures Valid() && WipChain()
      ensures h !in old(hooks) && wipList == old(wipList) + [h] && hooks == Linked(old(hooks), old(wipList), h)[h := rec]
    {
      h := NewHook(rec);
      ghost var hooks0 := hooks;
      AppendHook(h);
      ChainedAppend(old(hooks), old(wipList), h, rec);
      assert Linked(hooks0, old(wipList), h) == Linked(old(hooks), old(wipList), h)[h := rec];
    }

    /**
     * `mountWorkInProgressHook()`: outside a render it throws; otherwise a
     * fresh empty hook becomes the fiber's first hook or is linked after
     * the last one.
     */
    method MountWorkInProgressHook() returns (r: Result<HookId>)
      requires Valid() && WipChain()
      modifies this`hooks, this`nextHook, this`wipHook, this`wipList, this`wipFirstHook
      ensures Valid() && WipChain()
      ensures old(rendering).None? ==>
        r == Throw(OUTSIDE_COMPONENT_MESSAGE) && hooks == old(hooks) && wipList == old(wipList) && wipFirstHook == old(wipFirstHook)
      ensures old(rendering).Some? ==>
        && r.Ok? && r.value !in old(hooks) && wipList == old(wipList) + [r.value]
        && hooks == Linked(old(hooks), old(wipList), r.value)[r.value := EmptyHook]
    {
      if wipHook.None? && rendering.None? {
        return Throw(OUTSIDE_COMPONENT_MESSAGE);
      }
      var h := PushHook(EmptyHook);
      r := Ok(h);
    }

    /** `nextCurrentHook`: the hook after `currentHook`, or the alternate's first hook when there is none yet. */
    method NextCurrentHook() returns (next: Option<HookId>)
      requires UpdateCursor()
      ensures next == (if |wipList| < |currentList| then Some(currentList[|wipList|]) else None)
    {
      if currentHook.None? {
        next := currentFirstHook;
      } else {
        next := hooks[currentHook.value].next;
      }
    }

    /**
     * `updateWorkInProgressHook()`: the next hook of the current fiber's
     * list (its first at the start) becomes `currentHook`, and a copy of it
     * is appended to the list under construction. With no such hook, the
     * render calls more hooks than the last one did, and it throws. (Its
     * second throw, for no rendering fiber, is never reached: without one
     * there is no current hook and the first throw is taken.)
     */
    method UpdateWorkInProgressHook() returns (r: Result<HookId>)
      requires Valid() && UpdateCursor()
      modifies this`hooks, this`nextHook, this`wipHook, this`wipList, this`wipFirstHook, this`currentHook
      ensures Valid() && UpdateCursor()
      ensures |old(wipList)| == |currentList| ==>
        && r == Throw(MoreHooksMessage(if rendering.Some? then wipType else Undefined))
        && hooks == old(hooks) && wipList == old(wipList) && currentHook == old(currentHook) && wipFirstHook == old(wipFirstHook)
      ensures |old(wipList)| < |currentList| ==>
        var k := |old(wipList)|;
        && r.Ok? && r.value !in old(hooks) && wipList == old(wipList) + [r.value]
        && currentHook == Some(currentList[k]) && hooks[currentList[k]] == old(hooks)[currentList[k]]
        && r.value != currentList[k] && wipList[k] == r.value && hooks[r.value] == old(hooks)[currentList[k]].(next := None)
        && hooks == Linked(old(hooks), old(wipList), r.value)[r.value := old(hooks)[currentList[k]].(next := None)]
    {
      var next := NextCurrentHook();
      if next.None? {
        return Throw(MoreHooksMessage(if rendering.Some? then wipType else Undefined));
      }
      currentHook := next;
      var copy := hooks[next.value].(next := None);
      var h := PushHook(copy);
      ChainedFrame(old(hooks), hooks, currentList);
      r := Ok(h);
    }

    /** Replaces hook `h` by `rec`, which keeps its link: both hook lists stay well formed. */
    method ReplaceHook(h: HookId, rec: Hook)
      requires h in hooks && rec.next == hooks[h].next
      modifies this`hooks
      ensures hooks == old(hooks)[h := rec]
      ensures old(WipChain()) ==> WipChain()
      ensures old(UpdateCursor()) ==> UpdateCursor()
    {
      hooks := hooks[h := rec];
      if old(WipChain()) {
        ChainedFrame(old(hooks), hooks, wipList);
      }
      if old(UpdateCursor()) {
        ChainedFrame(old(hooks), hooks, currentList);
      }
    }

    /** The rendering fiber's update queue, made by `createFunctionComponentUpdateQueue` (no last effect) when it has none. */
    method EffectQueue(store: UQ.UpdateStore) returns (q: QueueId)
      requires store.Valid() && EffectRing(store.queues)
      modifies this`wipUpdateQueue, store`queues, store`nextQueue
      ensures store.Valid() && EffectRing(store.queues) && wipUpdateQueue == Some(q) && q in store.queues
      ensures old(wipUpdateQueue).Some? ==> q == old(wipUpdateQueue).value && store.queues == old(store.queues)
      ensures old(wipUpdateQueue).None? ==>
        q !in old(store.queues) && store.queues == old(store.queues)[q := UQ.UpdateQueueRec(None, None, None)]
    {
      if wipUpdateQueue.None? {
        q := store.CreateUpdateQueue();
        wipUpdateQueue := Some(q);
      } else {
        q := wipUpdateQueue.value;
      }
    }

    /** Makes a fresh effect holding `rec` the newest of the ring whose newest is the `lastEffect` of queue `q`. */
    method LinkEffect(store: UQ.UpdateStore, q: QueueId, rec: Effect) returns (e: EffectId)
      requires Valid() && q in store.queues
      requires store.queues[q].lastEffect.None? ==> effectOrder == []
      requires store.queues[q].lastEffect.Some? ==> EffectCycle(effects, store.queues[q].lastEffect.value, effectOrder)
      modifies this`effects, this`nextEffect, this`effectOrder, store`queues
      ensures Valid() && EffectCycle(effects, e, effectOrder)
      ensures Pushed(old(effects), effects, old(effectOrder), effectOrder, e, rec.(next := None))
      ensures store.queues == old(store.queues)[q := old(store.queues)[q].(lastEffect := Some(e))]
    {
      var last := store.queues[q].lastEffect;
      e := nextEffect;
      nextEffect := nextEffect + 1;
      AppendedRing(effects, last, e, rec, effectOrder);
      effects := Appended(effects, last, e, rec);
      store.queues := store.queues[q := store.queues[q].(lastEffect := Some(e))];
      effectOrder := effectOrder + [e];
    }

    /**
     * `pushEffect(tag, create, destroy, deps)`: a new effect becomes the
     * newest of the rendering fiber's effect ring (which is created, with
     * its update queue, for the first effect); earlier effects keep their
     * contents.
     */
    method PushEffect(store: UQ.UpdateStore, tag: HookFlags, create: Value, destroy: Value, deps: Option<seq<Value>>)
      returns (e: EffectId)
      requires Valid() && store.Valid() && EffectRing(store.queues)
      modifies this`effects, this`nextEffect, this`effectOrder, this`wipUpdateQueue, store`queues, store`nextQueue
      ensures Valid() && store.Valid() && EffectRing(store.queues)
      ensures Pushed(old(effects), effects, old(effectOrder), effectOrder, e, Effect(tag, create, destroy, deps, None))
      ensures wipUpdateQueue.Some? && var q := wipUpdateQueue.value;
        && (old(wipUpdateQueue).Some? ==>
              q == old(wipUpdateQueue).value && store.queues == old(store.queues)[q := old(store.queues)[q].(lastEffect := Some(e))])
        && (old(wipUpdateQueue).None? ==>
              q !in old(store.queues) && store.queues == old(store.queues)[q := UQ.UpdateQueueRec(None, None, Some(e))])
    {
      var q := EffectQueue(store);
      e := LinkEffect(store, q, Effect(tag, create, destroy, deps, None));
    }

    /**
     * The common tail of `mountEffect` and `updateEffect`: when the effect
     * has to run (`hasEffect`) the fiber is flagged Passive; then hook `h`
     * gets a new effect tagged Passive, plus HasEffect when it has to run.
     */
    method PushPassiveEffect(store: UQ.UpdateStore, h: HookId, hasEffect: bool, create: Value, destroy: Value, deps: Option<seq<Value>>)
      returns (e: EffectId)
      requires Valid() && store.Valid() && EffectRing(store.queues) && h in hooks
      modifies this`effects, this`nextEffect, this`effectOrder, this`wipUpdateQueue, store`queues, store`nextQueue, this`hooks, this`wipFlags
      ensures Valid() && store.Valid() && EffectRing(store.queues)
      ensures Pushed(old(effects), effects, old(effectOrder), effectOrder, e,
                     Effect(PassiveTag(hasEffect), create, destroy, deps, None))
      ensures hooks == old(hooks)[h := old(hooks)[h].(memoizedState := HookEffect(e))]
      ensures wipFlags == MarkPassiveIf(old(wipFlags), hasEffect)
      ensures old(WipChain()) ==> WipChain()
      ensures old(UpdateCursor()) ==> UpdateCursor()
    {
      wipFlags := MarkPassiveIf(wipFlags, hasEffect);
      e := PushEffectInto(store, h, PassiveTag(hasEffect), create, destroy, deps);
    }

    /** `hook.memoizedState = pushEffect(tag, create, destroy, deps)` for hook `h`. */
    method PushEffectInto(store: UQ.UpdateStore, h: HookId, tag: HookFlags, create: Value, destroy: Value, deps: Option<seq<Value>>)
      returns (e: EffectId)
      requires Valid() && store.Valid() && EffectRing(store.queues) && h in hooks
      modifies this`effects, this`nextEffect, this`effectOrder, this`wipUpdateQueue, store`queues, store`nextQueue, this`hooks
      ensures Valid() && store.Valid() && EffectRing(store.queues)
      ensures Pushed(old(effects), effects, old(effectOrder), effectOrder, e, Effect(tag, create, destroy, deps, None))
      ensures hooks == old(hooks)[h := old(hooks)[h].(memoizedState := HookEffect(e))]
      ensures old(WipChain()) ==> WipChain()
      ensures old(UpdateCursor()) ==> UpdateCursor()
    {
      e := PushEffect(store, tag, create, destroy, deps);
      ReplaceHook(h, hooks[h].(memoizedState := HookEffect(e)));
    }

    /**
     * `mountEffect(create, deps)`: a fresh hook holding a new effect with
     * tag Passive|HasEffect (so it runs after this commit) and no destroy
     * function; the fiber is flagged Passive. Outside a render it throws.
     */
    method MountEffect(store: UQ.UpdateStore, create: Value, deps: Option<seq<Value>>) returns (r: Result<EffectId>)
      requires Valid() && store.Valid() && WipChain() && EffectRing(store.queues)
      modifies this`hooks, this`nextHook, this`wipHook, this`wipList, this`wipFirstHook, this`wipFlags
      modifies this`effects, this`nextEffect, this`effectOrder, this`wipUpdateQueue, store`queues, store`nextQueue
      ensures Valid() && store.Valid() && WipChain() && EffectRing(store.queues)
      ensures old(rendering).None? ==>
        r == Throw(OUTSIDE_COMPONENT_MESSAGE) && hooks == old(hooks) && effects == old(effects) && wipFlags == old(wipFlags)
      ensures old(rendering).Some? ==>
        && r.Ok? && Pushed(old(effects), effects, old(effectOrder), effectOrder, r.value, Effect(HookPassive | HookHasEffect, create, Null, deps, None))
        && |wipList| == |old(wipList)| + 1 && wipList[..|old(wipList)|] == old(wipList)
        && hooks[wipList[|old(wipList)|]] == EmptyHook.(memoizedState := HookEffect(r.value))
        && wipFlags == MarkPassive(old(wipFlags))
    {
      var hook := MountWorkInProgressHook();
      if hook.Throw? {
        return Throw(hook.msg);
      }
      var e := PushPassiveEffect(store, hook.value, true, create, Null, deps);
      r := Ok(e);
    }

    /**
     * The rest of `updateEffect` once hook `h` is the copy of `currentHook`
     * and `prev` is the effect that hook holds: the new effect keeps
     * `prev`'s destroy function and has HasEffect unless deps were given
     * and `areHookInputsEqual` finds them equal to `prev`'s.
     */
    method UpdateEffectHook(store: UQ.UpdateStore, h: HookId, prev: Effect, create: Value, deps: Option<seq<Value>>) returns (e: EffectId)
      requires Valid() && store.Valid() && EffectRing(store.queues) && h in hooks
      modifies this`effects, this`nextEffect, this`effectOrder, this`wipUpdateQueue, store`queues, store`nextQueue, this`hooks, this`wipFlags
      ensures Valid() && store.Valid() && EffectRing(store.queues)
      ensures old(WipChain()) ==> WipChain()
      ensures old(UpdateCursor()) ==> UpdateCursor()
      ensures var changed := DepsChanged(deps, prev.deps);
        && Pushed(old(effects), effects, old(effectOrder), effectOrder, e,
                  Effect(PassiveTag(changed), create, prev.destroy, deps, None))
        && hooks == old(hooks)[h := old(hooks)[h].(memoizedState := HookEffect(e))]
        && wipFlags == MarkPassiveIf(old(wipFlags), changed)
    {
      var changed := true;
      if deps.Some? {
        var equal := AreHookInputsEqual(deps.value, prev.deps);
        changed := !equal;
      }
      e := PushPassiveEffect(store, h, changed, create, prev.destroy, deps);
    }

    /** The rule of hooks for `useEffect` on update: the hook at this position last time held an effect. */
    ghost predicate EffectHookNext()
      reads this`hooks, this`effects, this`wipList, this`currentList
    {
      |wipList| < |currentList| ==>
        && currentList[|wipList|] in hooks
        && hooks[currentList[|wipList|]].memoizedState.HookEffect?
        && hooks[currentList[|wipList|]].memoizedState.effect in effects
    }

    /**
     * `updateEffect(create, deps)`: the copied hook gets a new effect that
     * keeps the previous effect's destroy function. Its tag has HasEffect,
     * and the fiber is flagged Passive, unless deps were given and
     * `areHookInputsEqual` finds them equal to the previous ones. (The
     * source's `currentHook !== null` test always holds here:
     * `updateWorkInProgressHook` has just set it, or thrown.)
     */
    method UpdateEffect(store: UQ.UpdateStore, create: Value, deps: Option<seq<Value>>) returns (r: Result<EffectId>)
      requires Valid() && store.Valid() && UpdateCursor() && EffectRing(store.queues) && EffectHookNext()
      modifies this`hooks, this`nextHook, this`wipHook, this`wipList, this`wipFirstHook, this`wipFlags, this`currentHook
      modifies this`effects, this`nextEffect, this`effectOrder, this`wipUpdateQueue, store`queues, store`nextQueue
      ensures Valid() && store.Valid() && UpdateCursor() && EffectRing(store.queues)
      ensures |old(wipList)| == |currentList| ==>
        && r == Throw(MoreHooksMessage(if rendering.Some? then wipType else Undefined))
        && hooks == old(hooks) && effects == old(effects) && wipFlags == old(wipFlags)
      ensures |old(wipList)| < |currentList| ==>
        var k := |old(wipList)|;
        && r.Ok? && |wipList| == k + 1 && wipList[..k] == old(wipList)
        && EffectUpdated(create, deps, old(hooks)[currentList[k]], old(effects), old(effectOrder), old(wipFlags),
                         wipList[k], hooks, effects, effectOrder, wipFlags, r.value)
    {
      var hook := UpdateWorkInProgressHook();
      if hook.Throw? {
        r := Throw(hook.msg);
      } else {
        var prevEffect := effects[hooks[currentHook.value].memoizedState.effect];
        var e := UpdateEffectHook(store, hook.value, prevEffect, create, deps);
        r := Ok(e);
      }
    }

    // ------------------------------------------------------------ useState

    /**
     * The rest of `mountState` once hook `h` is made: a new update queue,
     * whose dispatch is bound to the rendering fiber and the queue, and
     * the hook's state, base state and queue.
     */
    method InitStateHook(store: UQ.UpdateStore, h: HookId, state: Value) returns (d: UQ.Dispatch)
      requires store.Valid() && EffectRing(store.queues) && h in hooks && rendering.Some?
      modifies this`hooks, store`queues, store`nextQueue
      ensures store.Valid() && EffectRing(store.queues)
      ensures old(Valid()) ==> Valid()
      ensures old(WipChain()) ==> WipChain()
      ensures d.fiber == rendering.value && d.queue !in old(store.queues)
      ensures store.queues == old(store.queues)[d.queue := UQ.UpdateQueueRec(None, Some(d), None)]
      ensures hooks == old(hooks)[h := old(hooks)[h].(memoizedState := HookValue(state), queue := Some(d.queue), baseState := state)]
    {
      var q := store.CreateUpdateQueue();
      ReplaceHook(h, hooks[h].(memoizedState := HookValue(state), queue := Some(q), baseState := state));
      d := UQ.Dispatch(rendering.value, q);
      store.SetDispatch(q, d);
    }

    /**
     * `mountState(initialState)`: a fresh hook whose state and base state
     * are the initial state (a function initial state is called), and a
     * new queue whose dispatch is bound to the rendering fiber and the
     * queue. Outside a render it throws.
     */
    method MountState(store: UQ.UpdateStore, call: UQ.Call, initial: Value) returns (r: Result<StateResult>)
      requires Valid() && store.Valid() && WipChain() && EffectRing(store.queues)
      modifies this`hooks, this`nextHook, this`wipHook, this`wipList, this`wipFirstHook, store`queues, store`nextQueue
      ensures Valid() && store.Valid() && WipChain() && EffectRing(store.queues)
      ensures old(rendering).None? ==>
        r == Throw(OUTSIDE_COMPONENT_MESSAGE) && hooks == old(hooks) && store.queues == old(store.queues)
      ensures old(rendering).Some? ==>
        var s := UQ.ApplyAction(call, initial, Undefined);
        && r.Ok? && r.value.state == s && r.value.dispatch.Some?
        && var d := r.value.dispatch.value;
        && d.fiber == rendering.value && d.queue !in old(store.queues)
        && store.queues == old(store.queues)[d.queue := UQ.UpdateQueueRec(None, Some(d), None)]
        && |wipList| == |old(wipList)| + 1 && wipList[..|old(wipList)|] == old(wipList)
        && hooks[wipList[|old(wipList)|]] == Hook(HookValue(s), Some(d.queue), None, s, None)
    {
      var hook := MountWorkInProgressHook();
      if hook.Throw? {
        return Throw(hook.msg);
      }
      var state := UQ.ApplyAction(call, initial, Undefined);
      var d := InitStateHook(store, hook.value, state);
      r := Ok(StateResult(state, Some(d)));
    }

    /**
     * The rule of hooks for `useState` on update: the hook at this position
     * last time was a state hook, its base queue is the ring `base`, its
     * queue's pending updates are the ring `pending`, and the two share no
     * update.
     */
    ghost predicate StateHookNext(store: UQ.UpdateStore, base: seq<UQ.UpdateId>, pending: seq<UQ.UpdateId>)
      reads this`hooks, this`wipList, this`currentList, store`queues, store`updates
    {
      |wipList| < |currentList| ==>
        && currentList[|wipList|] in hooks
        && var c := hooks[currentList[|wipList|]];
        && c.memoizedState.HookValue?
        && c.queue.Some? && c.queue.value in store.queues
        && UQ.RingOrEmpty(store.updates, c.baseQueue, base)
        && UQ.RingOrEmpty(store.updates, store.queues[c.queue.value].pending, pending)
        && (forall i, j :: 0 <= i < |base| && 0 <= j < |pending| ==> base[i] != pending[j])
    }

    /**
     * The merge of `updateState`: the queue's pending updates are appended
     * to the current hook `c`'s base queue (`TakePending`), and the result
     * is saved as `c`'s base queue. Without pending updates the base queue
     * is kept as it is.
     */
    method MergePending(store: UQ.UpdateStore, c: HookId, q: QueueId, ghost base: seq<UQ.UpdateId>, ghost pending: seq<UQ.UpdateId>)
      returns (baseQueue: Option<UQ.UpdateId>)
      requires c in hooks && q in store.queues
      requires UQ.RingOrEmpty(store.updates, hooks[c].baseQueue, base)
      requires UQ.RingOrEmpty(store.updates, store.queues[q].pending, pending)
      requires forall i, j :: 0 <= i < |base| && 0 <= j < |pending| ==> base[i] != pending[j]
      modifies this`hooks, store`updates, store`queues
      ensures UQ.RingOrEmpty(store.updates, baseQueue, base + pending)
      ensures baseQueue == (if old(store.queues)[q].pending.Some? then old(store.queues)[q].pending else old(hooks)[c].baseQueue)
      ensures hooks == old(hooks)[c := old(hooks)[c].(baseQueue := baseQueue)]
      ensures store.queues == old(store.queues)[q := old(store.queues)[q].(pending := None)]
      ensures store.updates.Keys == old(store.updates).Keys
      ensures forall i :: 0 <= i < |base + pending| ==> (base + pending)[i] in old(store.updates)
      ensures UQ.Payloads(store.updates, base + pending) == UQ.Payloads(old(store.updates), base + pending)
      ensures old(Valid()) ==> Valid()
      ensures old(WipChain()) ==> WipChain()
      ensures old(UpdateCursor()) ==> UpdateCursor()
      ensures old(EffectRing(store.queues)) ==> EffectRing(store.queues)
    {
      baseQueue := store.TakePending(hooks[c].baseQueue, q, base, pending);
      ReplaceHook(c, hooks[c].(baseQueue := baseQueue));
    }

    /**
     * The processing of `updateState`: with a base queue, hook `h` takes
     * the state, base state and base queue that `processUpdateQueue`
     * computes from its base state; without one it is left as it is.
     */
    method ProcessStateQueue(store: UQ.UpdateStore, call: UQ.Call, h: HookId, baseQueue: Option<UQ.UpdateId>, ghost order: seq<UQ.UpdateId>)
      returns (ghost cloneOrder: seq<UQ.UpdateId>)
      requires store.Valid() && h in hooks && UQ.RingOrEmpty(store.updates, baseQueue, order)
      modifies this`hooks, store`updates, store`nextUpdate
      ensures store.Valid()
      ensures old(Valid()) ==> Valid()
      ensures old(WipChain()) ==> WipChain()
      ensures old(UpdateCursor()) ==> UpdateCursor()
      ensures forall i :: 0 <= i < |order| ==> order[i] in old(store.updates)
      ensures baseQueue.None? ==> hooks == old(hooks)
      ensures baseQueue.Some? ==>
        && h in hooks && hooks == old(hooks)[h := hooks[h]]
        && StateProcessed(old(hooks)[h], hooks[h],
                          UQ.ProcessUpdates(call, old(hooks)[h].baseState, UQ.Payloads(old(store.updates), order), renderLane),
                          store.updates, cloneOrder)
    {
      cloneOrder := [];
      if baseQueue.Some? {
        var result;
        result, cloneOrder := store.ProcessUpdateQueue(call, hooks[h].baseState, baseQueue, renderLane, order);
        ReplaceHook(h, hooks[h].(memoizedState := HookValue(result.memoizedState), baseState := result.baseState, baseQueue := result.baseQueue));
      }
    }

    /**
     * The rest of `updateState` once hook `h` is the copy of `currentHook`:
     * pending updates are merged into the current hook's base queue, the
     * merged queue is processed into `h`, and `h`'s state is returned with
     * the queue's dispatch.
     */
    method UpdateStateHook(store: UQ.UpdateStore, call: UQ.Call, h: HookId, ghost base: seq<UQ.UpdateId>, ghost pending: seq<UQ.UpdateId>)
      returns (r: StateResult, ghost cloneOrder: seq<UQ.UpdateId>)
      requires Valid() && store.Valid() && EffectRing(store.queues) && h in hooks
      requires currentHook.Some? && currentHook.value in hooks && currentHook.value != h
      requires hooks[h] == hooks[currentHook.value].(next := None)
      requires var c := hooks[currentHook.value];
        && c.memoizedState.HookValue? && c.queue.Some? && c.queue.value in store.queues
        && UQ.RingOrEmpty(store.updates, c.baseQueue, base)
        && UQ.RingOrEmpty(store.updates, store.queues[c.queue.value].pending, pending)
        && (forall i, j :: 0 <= i < |base| && 0 <= j < |pending| ==> base[i] != pending[j])
      modifies this`hooks, store`updates, store`queues, store`nextUpdate
      ensures Valid() && store.Valid() && EffectRing(store.queues)
      ensures old(WipChain()) ==> WipChain()
      ensures old(UpdateCursor()) ==> UpdateCursor()
      ensures StateUpdated(call, renderLane, old(hooks)[currentHook.value], old(store.queues), old(store.updates), base, pending,
                           currentHook.value, h, hooks, store.queues, store.updates, r, cloneOrder)
    {
      var c := currentHook.value;
      var q := hooks[h].queue.value;
      var baseQueue := MergePending(store, c, q, base, pending);
      cloneOrder := ProcessStateQueue(store, call, h, baseQueue, base + pending);
      r := StateResult(hooks[h].memoizedState.v, store.queues[q].dispatch);
    }

    /**
     * `updateState()`: the copied hook's state is its base state with the
     * current hook's base queue and then the queue's pending updates
     * processed for the render lane, as `processUpdateQueue` specifies; the
     * merged queue is saved on the current hook and the pending list is
     * emptied. With neither queue the copied state is returned unchanged.
     */
    method UpdateState(store: UQ.UpdateStore, call: UQ.Call, ghost base: seq<UQ.UpdateId>, ghost pending: seq<UQ.UpdateId>)
      returns (r: Result<StateResult>, ghost cloneOrder: seq<UQ.UpdateId>)
      requires Valid() && store.Valid() && UpdateCursor() && EffectRing(store.queues) && StateHookNext(store, base, pending)
      modifies this`hooks, this`nextHook, this`wipHook, this`wipList, this`wipFirstHook, this`currentHook
      modifies store`updates, store`queues, store`nextUpdate
      ensures Valid() && store.Valid() && UpdateCursor() && EffectRing(store.queues)
      ensures |old(wipList)| == |currentList| ==>
        && r == Throw(MoreHooksMessage(if rendering.Some? then wipType else Undefined))
        && hooks == old(hooks) && store.queues == old(store.queues) && store.updates == old(store.updates)
      ensures |old(wipList)| < |currentList| ==>
        var k := |old(wipList)|;
        && r.Ok? && |wipList| == k + 1 && wipList[..k] == old(wipList)
        && StateUpdated(call, renderLane, old(hooks)[currentList[k]], old(store.queues), old(store.updates), base, pending,
                        currentList[k], wipList[k], hooks, store.queues, store.updates, r.value, cloneOrder)
    {
      cloneOrder := [];
      var hook := UpdateWorkInProgressHook();
      if hook.Throw? {
        r := Throw(hook.msg);
      } else {
        var s;
        s, cloneOrder := UpdateStateHook(store, call, hook.value, base, pending);
        r := Ok(s);
      }
    }

    // -------------------------------------------------------------- useRef

    /** `hook.memoizedState = { current: initial }` for hook `h`: a fresh ref object, held by `h`. */
    method RefInto(h: HookId, initial: Value) returns (x: RefId)
      requires Valid() && h in hooks
      modifies this`refs, this`nextRef, this`hooks
      ensures Valid() && x !in old(refs) && refs == old(refs)[x := initial]
      ensures hooks == old(hooks)[h := old(hooks)[h].(memoizedState := HookRef(x))]
      ensures old(WipChain()) ==> WipChain()
    {
      x := nextRef;
      nextRef := nextRef + 1;
      refs := refs[x := initial];
      ReplaceHook(h, hooks[h].(memoizedState := HookRef(x)));
    }

    /** `mountRef(initial)`: a fresh hook holding a fresh ref object whose `current` is `initial`. Outside a render it throws. */
    method MountRef(initial: Value) returns (r: Result<RefId>)
      requires Valid() && WipChain()
      modifies this`hooks, this`nextHook, this`wipHook, this`wipList, this`wipFirstHook, this`refs, this`nextRef
      ensures Valid() && WipChain()
      ensures old(rendering).None? ==> r == Throw(OUTSIDE_COMPONENT_MESSAGE) && hooks == old(hooks) && refs == old(refs)
      ensures old(rendering).Some? ==>
        && r.Ok? && r.value !in old(refs) && refs == old(refs)[r.value := initial]
        && |wipList| == |old(wipList)| + 1 && wipList[..|old(wipList)|] == old(wipList)
        && hooks[wipList[|old(wipList)|]] == EmptyHook.(memoizedState := HookRef(r.value))
    {
      var hook := MountWorkInProgressHook();
      if hook.Throw? {
        return Throw(hook.msg);
      }
      var x := RefInto(hook.value, initial);
      r := Ok(x);
    }

    /** The rule of hooks for `useRef` on update: the hook at this position last time held a ref. */
    ghost predicate RefHookNext()
      reads this`hooks, this`wipList, this`currentList
    {
      |wipList| < |currentList| ==>
        currentList[|wipList|] in hooks && hooks[currentList[|wipList|]].memoizedState.HookRef?
    }

    /**
     * `updateRef()`: the copied hook's ref, which is the ref object the
     * hook held at the last render; no ref object is made or changed.
     */
    method UpdateRef() returns (r: Result<RefId>)
      requires Valid() && UpdateCursor() && RefHookNext()
      modifies this`hooks, this`nextHook, this`wipHook, this`wipList, this`wipFirstHook, this`currentHook
      ensures Valid() && UpdateCursor()
      ensures |old(wipList)| == |currentList| ==>
        r == Throw(MoreHooksMessage(if rendering.Some? then wipType else Undefined)) && hooks == old(hooks)
      ensures |old(wipList)| < |currentList| ==>
        var k := |old(wipList)|;
        && r == Ok(old(hooks)[currentList[k]].memoizedState.ref)
        && |wipList| == k + 1 && wipList[..k] == old(wipList) && hooks[wipList[k]] == old(hooks)[currentList[k]].(next := None)
    {
      var hook := UpdateWorkInProgressHook();
      if hook.Throw? {
        return Throw(hook.msg);
      }
      r := Ok(hooks[hook.value].memoizedState.ref);
    }
  }

  /** Whether an effect on update runs again: no deps were given, or they differ from the previous ones. */
  predicate DepsChanged(deps: Option<seq<Value>>, prevDeps: Option<seq<Value>>)
  {
    deps.None? || !DepsEqual(deps.value, prevDeps)
  }

  /** A passive effect's tag: Passive, plus HasEffect when it is to run after the commit. */
  function PassiveTag(hasEffect: bool): (tag: HookFlags)
    ensures tag & HookPassive != 0 && (tag & HookHasEffect != 0 <==> hasEffect)
  {
    if hasEffect then HookPassive | HookHasEffect else HookPassive
  }

  /** The fiber's flags after an effect hook: Passive is added when the effect has to run. */
  function MarkPassiveIf(flags: Flags, hasEffect: bool): Flags
  {
    if hasEffect then MarkPassive(flags) else flags
  }

  /**
   * `updateEffect` on the effect hook `cur` copied to `h`: the new effect
   * `e` keeps the destroy function of `cur`'s effect and has HasEffect,
   * and the fiber gets Passive, exactly when no deps were given or they
   * differ from that effect's; `h` holds `e`.
   */
  ghost predicate EffectUpdated(create: Value, deps: Option<seq<Value>>, cur: Hook, effects0: map<EffectId, Effect>,
                                order0: seq<EffectId>, flags0: Flags, h: HookId, hooks: map<HookId, Hook>,
                                effects: map<EffectId, Effect>, order: seq<EffectId>, flags: Flags, e: EffectId)
  {
    && cur.memoizedState.HookEffect? && cur.memoizedState.effect in effects0
    && var prev := effects0[cur.memoizedState.effect];
    && var changed := DepsChanged(deps, prev.deps);
    && Pushed(effects0, effects, order0, order, e, Effect(PassiveTag(changed), create, prev.destroy, deps, None))
    && h in hooks && hooks[h] == cur.(next := None, memoizedState := HookEffect(e))
    && flags == MarkPassiveIf(flags0, changed)
  }

  /** What `useState` returns: the state and the queue's dispatch (null when the queue has none). */
  datatype StateResult = StateResult(state: Value, dispatch: Option<UQ.Dispatch>)

  /**
   * A state hook after processing: `after` is `before` with the processed
   * state and base state, and a base queue that is empty exactly when no
   * update was skipped, or otherwise the ring `cloneOrder` of the clones.
   */
  ghost predicate StateProcessed(before: Hook, after: Hook, spec: UQ.Processed, updates: map<UQ.UpdateId, UQ.Update>, cloneOrder: seq<UQ.UpdateId>)
  {
    && after == before.(memoizedState := HookValue(spec.memoizedState), baseState := spec.baseState, baseQueue := after.baseQueue)
    && (after.baseQueue.None? <==> spec.baseQueue == [])
    && (after.baseQueue.Some? ==>
          IsRing(updates, UQ.NextOf, after.baseQueue.value, cloneOrder)
          && (forall i :: 0 <= i < |cloneOrder| ==> cloneOrder[i] in updates)
          && UQ.Payloads(updates, cloneOrder) == spec.baseQueue)
  }

  /**
   * `updateState` on the state hook `cur` (id `c`) copied to `h`: its
   * queue's pending updates are taken (the queue keeps no pending ring)
   * and appended to its base queue, which `c` keeps; `h` gets what
   * `processUpdateQueue` makes of `cur`'s base state and the merged ring
   * `base + pending`, or stays a copy of `cur` when both rings are empty;
   * the result is `h`'s state and the queue's dispatch.
   */
  ghost predicate StateUpdated(call: UQ.Call, lane: Lane, cur: Hook, queues0: map<QueueId, UQ.UpdateQueueRec>,
                               updates0: map<UQ.UpdateId, UQ.Update>, base: seq<UQ.UpdateId>, pending: seq<UQ.UpdateId>,
                               c: HookId, h: HookId, hooks: map<HookId, Hook>, queues: map<QueueId, UQ.UpdateQueueRec>,
                               updates: map<UQ.UpdateId, UQ.Update>, r: StateResult, cloneOrder: seq<UQ.UpdateId>)
  {
    && cur.memoizedState.HookValue? && cur.queue.Some? && cur.queue.value in queues0
    && (forall i :: 0 <= i < |base + pending| ==> (base + pending)[i] in updates0)
    && var q := cur.queue.value;
    && var pend := queues0[q].pending;
    && r.dispatch == queues0[q].dispatch
    && queues == queues0[q := queues0[q].(pending := None)]
    && c in hooks && h in hooks
    && hooks[c] == cur.(baseQueue := if pend.Some? then pend else cur.baseQueue)
    && (pend.None? && cur.baseQueue.None? ==> r.state == cur.memoizedState.v && hooks[h] == cur.(next := None))
    && (pend.Some? || cur.baseQueue.Some? ==>
          var spec := UQ.ProcessUpdates(call, cur.baseState, UQ.Payloads(updates0, base + pending), lane);
          r.state == spec.memoizedState && StateProcessed(cur.(next := None), hooks[h], spec, updates, cloneOrder))
  }

  /** A function component's memoizedState: its first hook, or null with no hooks. */
  function HooksMemo(first: Option<HookId>): (m: Memo)
    ensures FirstHook(m) == first
  {
    if first.None? then MemoValue(Null) else MemoHook(first.value)
  }

  /** The first hook hanging from a memoizedState; a function component's is a hook or null. */
  function FirstHook(m: Memo): Option<HookId>
  {
    if m.MemoHook? then Some(m.hook) else None
  }

  /** A fresh effect `e` holding `rec` is added as the newest of the list `order`, and the others keep their contents. */
  ghost predicate Pushed(before: map<EffectId, Effect>, after: map<EffectId, Effect>, order: seq<EffectId>, order': seq<EffectId>,
                         e: EffectId, rec: Effect)
  {
    && e !in before && order' == order + [e] && EffectsKept(before, after, e, order)
    && after[e].(next := None) == rec
  }

  /** Effects other than the new `e` keep their contents, and only those of the ring `order` may be relinked. */
  ghost predicate EffectsKept(before: map<EffectId, Effect>, after: map<EffectId, Effect>, e: EffectId, order: seq<EffectId>)
  {
    && after.Keys == before.Keys + {e}
    && (forall id :: id in before ==> after[id].(next := None) == before[id].(next := None))
    && (forall id :: id in before && id !in order ==> after[id] == before[id])
  }

  /** The effect arena after a fresh `e` holding `rec` joins, as the newest, the ring whose newest effect is `last`. */
  function Appended(effects: map<EffectId, Effect>, last: Option<EffectId>, e: EffectId, rec: Effect): map<EffectId, Effect>
    requires last.Some? ==> last.value in effects
  {
    if last.None? then effects[e := rec.(next := Some(e))]
    else effects[e := rec.(next := effects[last.value].next)][last.value := effects[last.value].(next := Some(e))]
  }

  /** Appending keeps a ring: the new effect follows the newest and leads back to the oldest; no payload changes. */
  lemma AppendedRing(effects: map<EffectId, Effect>, last: Option<EffectId>, e: EffectId, rec: Effect, order: seq<EffectId>)
    requires e !in effects
    requires last.None? ==> order == []
    requires last.Some? ==> EffectCycle(effects, last.value, order)
    ensures var effects' := Appended(effects, last, e, rec);
      && EffectCycle(effects', e, order + [e])
      && EffectsKept(effects, effects', e, order)
      && effects'[e].(next := None) == rec.(next := None)
  {
    if last.Some? {
      assert forall i :: 0 <= i < |order| - 1 ==> order[i] != last.value && order[i] != e;
    }
  }
}
