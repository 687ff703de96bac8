/**
 * Flushing the passive effects collected by a commit (`flushPassiveEffects`
 * and the three ring walks `commitHookEffectListDestroy`,
 * `commitHookEffectListUnmount` and `commitHookEffectListMount`,
 * workLoop.ts). Each pending entry is the `lastEffect` of a function
 * component's effect ring; a walk starts at `lastEffect.next` and goes
 * round once, acting on the effects whose tag holds all the given flags.
 *
 * User code is represented by what it is asked to do: the calls of
 * `destroy` and `create` are logged as `HookCall`s, and what `create()`
 * returns is a parameter (`CreateOracle`).
 */
module PassiveEffects {
  import opened Wrappers
  import opened JsValues
  import opened FiberFlags
  import opened Fiber
  import opened FiberHooks
  import opened FiberRoot
  import opened SyncTaskQueue
  import opened NoopHost
  import Ring

  /** A call into user code made by a flush. */
  datatype HookCall = DestroyCall(effect: EffectId) | CreateCall(effect: EffectId)

  /** What calling an effect's `create` returns. */
  type CreateOracle = EffectId -> Value

  /** The three walks: unmounted components, the destroys before an update, the creates of an update. */
  datatype Pass = DestroyPass | UnmountPass | MountPass

  /** The flags a walk acts on: `Passive` for unmounted components, `Passive | HasEffect` otherwise. */
  function PassFlags(pass: Pass): HookFlags
  {
    if pass == DestroyPass then HookPassive else HookPassive | HookHasEffect
  }

  /** `tag & ~HasEffect`: the effect will not be created again. */
  function ClearHasEffect(tag: HookFlags): HookFlags
  {
    tag & !HookHasEffect
  }

  /** `(tag & flags) === flags` */
  predicate Matches(tag: HookFlags, flags: HookFlags)
  {
    tag & flags == flags
  }

  /** `create() ?? null` */
  function DestroyFrom(created: Value): (r: Value)
    ensures Nullish(created) ==> r == Null
    ensures !Nullish(created) ==> r == created
  {
    if Nullish(created) then Null else created
  }

  /**
   * One effect of a walk: its updated record, the user call made, and
   * whether the walk throws. A destroy is called only when it is a
   * function; the destroy walk of an unmounted component also drops
   * `HasEffect`; calling a `create` that is not a function throws.
   */
  function Step(pass: Pass, ef: Effect, e: EffectId, create: CreateOracle): (Effect, seq<HookCall>, bool)
  {
    if !Matches(ef.tag, PassFlags(pass)) then (ef, [], false)
    else match pass
      case DestroyPass =>
        (ef.(tag := ClearHasEffect(ef.tag)), if ef.destroy.Func? then [DestroyCall(e)] else [], false)
      case UnmountPass =>
        (ef, if ef.destroy.Func? then [DestroyCall(e)] else [], false)
      case MountPass =>
        if ef.create.Func? then (ef.(destroy := DestroyFrom(create(e))), [CreateCall(e)], false)
        else (ef, [], true)
  }

  /** A step changes neither the `next` link nor, except in the destroy walk, the tag. */
  lemma StepKeeps(pass: Pass, ef: Effect, e: EffectId, create: CreateOracle)
    ensures Step(pass, ef, e, create).0.next == ef.next
    ensures Step(pass, ef, e, create).0.create == ef.create
    ensures pass != DestroyPass ==> Step(pass, ef, e, create).0.tag == ef.tag
    ensures pass != MountPass ==> Step(pass, ef, e, create).0.destroy == ef.destroy && !Step(pass, ef, e, create).2
  {
  }

  /** One more effect of a ring walk, spelt out. */
  lemma RingRunOpen(pass: Pass, effects: map<EffectId, Effect>, order: seq<EffectId>, create: CreateOracle)
    requires |order| > 0 && forall x :: x in order ==> x in effects
    ensures var prefix := order[..|order| - 1];
      && (forall x :: x in prefix ==> x in effects)
      && var r1 := RingRun(pass, effects, prefix, create);
      && var e := order[|order| - 1];
      && e in r1.0
      && RingRun(pass, effects, order, create) ==
           if r1.2 then (r1.0, r1.1, true)
           else var s := Step(pass, r1.0[e], e, create); (r1.0[e := s.0], r1.1 + s.1, s.2)
  {
    assert forall x :: x in order[..|order| - 1] ==> x in order;
  }

  /** The calls of one step: a create only in the mount walk, and only for an effect that is not quiet. */
  lemma StepCalls(pass: Pass, ef: Effect, e: EffectId, create: CreateOracle)
    ensures forall c :: c in Step(pass, ef, e, create).1 ==> (c.CreateCall? <==> pass == MountPass)
    ensures forall x :: CreateCall(x) in Step(pass, ef, e, create).1 ==> x == e && !Quiet(ef.tag)
  {
  }

  /** The arenas agree on the set of effects and on every `next` link. */
  ghost predicate SameRing(e0: map<EffectId, Effect>, e1: map<EffectId, Effect>)
  {
    && e1.Keys == e0.Keys
    && forall id :: id in e0 ==> e1[id].next == e0[id].next
  }

  /**
   * A walk along `order` (from the oldest effect to `lastEffect`): the
   * arena after it, the user calls in order, and whether it threw, in which
   * case the effects after the throwing one are untouched.
   */
  function RingRun(pass: Pass, effects: map<EffectId, Effect>, order: seq<EffectId>, create: CreateOracle)
    : (r: (map<EffectId, Effect>, seq<HookCall>, bool))
    requires forall x :: x in order ==> x in effects
    ensures r.0.Keys == effects.Keys
    decreases |order|
  {
    if |order| == 0 then (effects, [], false)
    else
      var prefix := order[..|order| - 1];
      assert forall x :: x in prefix ==> x in order;
      var (e1, c1, thrown) := RingRun(pass, effects, prefix, create);
      if thrown then (e1, c1, true)
      else
        var e := order[|order| - 1];
        var (ef, c, t) := Step(pass, e1[e], e, create);
        (e1[e := ef], c1 + c, t)
  }

  /** The rings of the pending entries: each non-null entry is the `lastEffect` of the ring it is paired with. */
  ghost predicate Rings(effects: map<EffectId, Effect>, lasts: seq<Option<EffectId>>, orders: seq<seq<EffectId>>)
  {
    && |orders| == |lasts|
    && (forall i :: 0 <= i < |lasts| && lasts[i].Some? ==> EffectCycle(effects, lasts[i].value, orders[i]))
    && (forall i :: 0 <= i < |lasts| && lasts[i].None? ==> orders[i] == [])
  }

  /** The effects of the rings, for the arena-independent part of `Rings`. */
  ghost predicate RingsIn(effects: map<EffectId, Effect>, orders: seq<seq<EffectId>>)
  {
    forall i, x :: 0 <= i < |orders| && x in orders[i] ==> x in effects
  }

  /**
   * A walk over every entry of a pending list, in order: a null entry
   * throws (reading `lastEffect.next`), as does a throwing walk, and the
   * rest of the list is then not walked.
   */
  function ListRun(pass: Pass, effects: map<EffectId, Effect>, lasts: seq<Option<EffectId>>, orders: seq<seq<EffectId>>,
                   create: CreateOracle): (r: (map<EffectId, Effect>, seq<HookCall>, bool))
    requires |orders| == |lasts| && RingsIn(effects, orders)
    ensures r.0.Keys == effects.Keys
    decreases |lasts|
  {
    if |lasts| == 0 then (effects, [], false)
    else
      var n := |lasts| - 1;
      var (e1, c1, thrown) := ListRun(pass, effects, lasts[..n], orders[..n], create);
      if thrown then (e1, c1, true)
      else if lasts[n].None? then (e1, c1, true)
      else
        var (e2, c2, t2) := RingRun(pass, e1, orders[n], create);
        (e2, c1 + c2, t2)
  }

  /**
   * The whole flush: the destroy walks over the unmount list, then the
   * unmount walks and the mount walks over the update list, stopping at
   * the first throw. Returns the arena, the calls, and the walk that
   * threw (0 for none, 1 to 3 for the walk).
   */
  ghost function FlushRun(effects: map<EffectId, Effect>, unmount: seq<Option<EffectId>>, unmountOrders: seq<seq<EffectId>>,
                          update: seq<Option<EffectId>>, updateOrders: seq<seq<EffectId>>, create: CreateOracle)
    : (r: (map<EffectId, Effect>, seq<HookCall>, nat))
    requires |unmountOrders| == |unmount| && |updateOrders| == |update|
    requires RingsIn(effects, unmountOrders) && RingsIn(effects, updateOrders)
    ensures r.2 <= 3
  {
    var (e1, c1, t1) := ListRun(DestroyPass, effects, unmount, unmountOrders, create);
    if t1 then (e1, c1, 1)
    else
      var (e2, c2, t2) := ListRun(UnmountPass, e1, update, updateOrders, create);
      if t2 then (e2, c1 + c2, 2)
      else
        var (e3, c3, t3) := ListRun(MountPass, e2, update, updateOrders, create);
        (e3, c1 + c2 + c3, if t3 then 3 else 0)
  }

  // ------------------------------------------------------------ the ring walks

  /** No effect occurs twice in a ring. */
  lemma EffectCycleDistinct(effects: map<EffectId, Effect>, last: EffectId, order: seq<EffectId>)
    requires EffectCycle(effects, last, order)
    ensures forall i, j :: 0 <= i < j < |order| ==> order[i] != order[j]
  {
    var next := (ef: Effect) => ef.next;
    assert Ring.IsRing(effects, next, last, order);
    Ring.RingDistinct(effects, next, last, order);
  }

  /** A ring stays a ring when only tags and destroys change. */
  lemma CycleKept(e0: map<EffectId, Effect>, e1: map<EffectId, Effect>, last: EffectId, order: seq<EffectId>)
    requires EffectCycle(e0, last, order) && SameRing(e0, e1)
    ensures EffectCycle(e1, last, order)
  {
  }

  /** Each effect of a ring links to the next one, and the newest back to the oldest. */
  lemma NextInRing(e0: map<EffectId, Effect>, e1: map<EffectId, Effect>, last: EffectId, order: seq<EffectId>, i: nat)
    requires EffectCycle(e0, last, order) && SameRing(e0, e1) && i < |order|
    ensures order[i] in e1 && e1[order[i]].next == Some(if i + 1 < |order| then order[i + 1] else order[0])
    ensures last in e1 && e1[last].next == Some(order[0])
  {
  }

  /** A ring walk takes its steps one effect at a time. */
  lemma RunNext(pass: Pass, effects: map<EffectId, Effect>, order: seq<EffectId>, i: nat, create: CreateOracle,
                e1: map<EffectId, Effect>, c1: seq<HookCall>)
    requires i < |order| && (forall x :: x in order ==> x in effects)
    requires RingRun(pass, effects, order[..i], create) == (e1, c1, false)
    ensures order[i] in e1
    ensures RingRun(pass, effects, order[..i + 1], create) ==
      (e1[order[i] := Step(pass, e1[order[i]], order[i], create).0], c1 + Step(pass, e1[order[i]], order[i], create).1,
       Step(pass, e1[order[i]], order[i], create).2)
  {
    assert order[..i + 1][..i] == order[..i];
    assert forall x :: x in order[..i + 1] ==> x in order;
  }

  /** A step keeps the ring. */
  lemma SameRingStep(pass: Pass, e0: map<EffectId, Effect>, e1: map<EffectId, Effect>, e: EffectId, create: CreateOracle)
    requires SameRing(e0, e1) && e in e1
    ensures SameRing(e0, e1[e := Step(pass, e1[e], e, create).0])
  {
    StepKeeps(pass, e1[e], e, create);
  }

  lemma {:induction false} RingRunSame(pass: Pass, effects: map<EffectId, Effect>, order: seq<EffectId>, create: CreateOracle)
    requires forall x :: x in order ==> x in effects
    ensures SameRing(effects, RingRun(pass, effects, order, create).0)
    decreases |order|
  {
    if |order| > 0 {
      var prefix := order[..|order| - 1];
      assert forall x :: x in prefix ==> x in order;
      RingRunSame(pass, effects, prefix, create);
      var r := RingRun(pass, effects, prefix, create);
      if !r.2 {
        assert order == prefix + [order[|order| - 1]];
        assert prefix == order[..|order| - 1];
        RunNext(pass, effects, order, |order| - 1, create, r.0, r.1);
        assert order[..|order|] == order;
        SameRingStep(pass, effects, r.0, order[|order| - 1], create);
      }
    }
  }

  /** One step of a walk, on the arena. */
  method StepEffect(hooks: HookRuntime, pass: Pass, effect: EffectId, create: CreateOracle) returns (c: seq<HookCall>, thrown: bool)
    requires effect in hooks.effects
    modifies hooks`effects
    ensures var r := Step(pass, old(hooks.effects)[effect], effect, create);
      hooks.effects == old(hooks.effects)[effect := r.0] && c == r.1 && thrown == r.2
  {
    var ef := hooks.effects[effect];
    c, thrown := [], false;
    if Matches(ef.tag, PassFlags(pass)) {
      if pass == MountPass {
        if ef.create.Func? {
          c := [CreateCall(effect)];
          ef := ef.(destroy := DestroyFrom(create(effect)));
        } else {
          thrown := true;
        }
      } else {
        if ef.destroy.Func? {
          c := [DestroyCall(effect)];
        }
        if pass == DestroyPass {
          ef := ef.(tag := ClearHasEffect(ef.tag));
        }
      }
    }
    hooks.effects := hooks.effects[effect := ef];
  }

  /** Once a walk has thrown, the effects after the throwing one change nothing. */
  lemma {:induction false} CutRun(pass: Pass, effects: map<EffectId, Effect>, order: seq<EffectId>, k: nat, create: CreateOracle)
    requires 0 < k <= |order| && forall x :: x in order ==> x in effects
    requires RingRun(pass, effects, order[..k], create).2
    ensures RingRun(pass, effects, order, create) == RingRun(pass, effects, order[..k], create)
    decreases |order| - k
  {
    if k < |order| {
      var prefix := order[..|order| - 1];
      assert prefix[..k] == order[..k];
      assert forall x :: x in prefix ==> x in order;
      CutRun(pass, effects, prefix, k, create);
    } else {
      assert order[..k] == order;
    }
  }

  /**
   * `commitHookEffectListDestroy`, `commitHookEffectListUnmount` or
   * `commitHookEffectListMount` (by `pass`) on the ring whose newest
   * effect is `last`: starting at `last.next`, each effect in turn until
   * the walk is back at the first, is what `RingRun` says.
   */
  method CommitHookEffectList(hooks: HookRuntime, pass: Pass, last: EffectId, ghost order: seq<EffectId>, create: CreateOracle)
    returns (calls: seq<HookCall>, thrown: bool)
    requires EffectCycle(hooks.effects, last, order)
    modifies hooks`effects
    ensures (hooks.effects, calls, thrown) == RingRun(pass, old(hooks.effects), order, create)
  {
    ghost var e0 := hooks.effects;
    EffectCycleDistinct(e0, last, order);
    NextInRing(e0, e0, last, order, 0);
    var first := hooks.effects[last].next.value;
    var effect := first;
    calls, thrown := [], false;
    var i := 0;
    assert order[..0] == [];
    while true
      invariant 0 <= i < |order| && effect == order[i]
      invariant (hooks.effects, calls, false) == RingRun(pass, e0, order[..i], create)
      invariant SameRing(e0, hooks.effects)
      decreases |order| - i
    {
      ghost var e1, c1 := hooks.effects, calls;
      RunNext(pass, e0, order, i, create, e1, c1);
      SameRingStep(pass, e0, e1, effect, create);
      var c;
      c, thrown := StepEffect(hooks, pass, effect, create);
      calls := calls + c;
      NextInRing(e0, hooks.effects, last, order, i);
      if thrown {
        CutRun(pass, e0, order, i + 1, create);
        return;
      }
      effect := hooks.effects[effect].next.value;
      i := i + 1;
      if effect == first {
        break;
      }
    }
    assert order[..i] == order;
  }

  // ------------------------------------------------------------ the pending lists

  /** The rings stay rings while only tags and destroys change. */
  lemma RingsKept(e0: map<EffectId, Effect>, e1: map<EffectId, Effect>, lasts: seq<Option<EffectId>>, orders: seq<seq<EffectId>>)
    requires Rings(e0, lasts, orders) && SameRing(e0, e1)
    ensures Rings(e1, lasts, orders) && RingsIn(e1, orders) && RingsIn(e0, orders)
  {
    forall i | 0 <= i < |lasts| && lasts[i].Some?
      ensures EffectCycle(e1, lasts[i].value, orders[i])
    {
      CycleKept(e0, e1, lasts[i].value, orders[i]);
    }
  }

  lemma RingAt(effects: map<EffectId, Effect>, lasts: seq<Option<EffectId>>, orders: seq<seq<EffectId>>, i: nat)
    requires Rings(effects, lasts, orders) && i < |lasts| && lasts[i].Some?
    ensures EffectCycle(effects, lasts[i].value, orders[i])
  {
  }

  /** Every prefix of the lists is walkable, and the empty one changes nothing. */
  lemma ListPrefixes(effects: map<EffectId, Effect>, lasts: seq<Option<EffectId>>, orders: seq<seq<EffectId>>, pass: Pass, create: CreateOracle)
    requires |lasts| == |orders| && RingsIn(effects, orders)
    ensures forall i :: 0 <= i <= |lasts| ==> |lasts[..i]| == |orders[..i]| && RingsIn(effects, orders[..i])
    ensures lasts[..0] == [] && orders[..0] == [] && ListRun(pass, effects, [], [], create) == (effects, [], false)
    ensures lasts[..|lasts|] == lasts && orders[..|orders|] == orders
  {
    forall i | 0 <= i <= |lasts|
      ensures RingsIn(effects, orders[..i])
    {
      forall j, x | 0 <= j < i && x in orders[..i][j]
        ensures x in effects
      {
        assert orders[..i][j] == orders[j];
      }
    }
  }

  /** One more entry of a list walk, spelt out. */
  lemma ListRunOpen(pass: Pass, effects: map<EffectId, Effect>, lasts: seq<Option<EffectId>>, orders: seq<seq<EffectId>>,
                    create: CreateOracle)
    requires |orders| == |lasts| > 0 && RingsIn(effects, orders)
    ensures var n := |lasts| - 1;
      && |lasts[..n]| == |orders[..n]| == n && RingsIn(effects, orders[..n])
      && (forall i :: 0 <= i < n ==> orders[..n][i] == orders[i])
      && var r1 := ListRun(pass, effects, lasts[..n], orders[..n], create);
      && (forall x :: x in orders[n] ==> x in r1.0)
      && ListRun(pass, effects, lasts, orders, create) ==
           if r1.2 || lasts[n].None? then (r1.0, r1.1, true)
           else var r2 := RingRun(pass, r1.0, orders[n], create); (r2.0, r1.1 + r2.1, r2.2)
  {
    ListPrefixes(effects, lasts, orders, pass, create);
  }

  lemma SameRingRefl(e: map<EffectId, Effect>)
    ensures SameRing(e, e)
  {
  }

  lemma SameRingTrans(e0: map<EffectId, Effect>, e1: map<EffectId, Effect>, e2: map<EffectId, Effect>)
    requires SameRing(e0, e1) && SameRing(e1, e2)
    ensures SameRing(e0, e2)
  {
  }

  /** A list walk takes its entries one at a time. */
  lemma ListNext(pass: Pass, effects: map<EffectId, Effect>, lasts: seq<Option<EffectId>>, orders: seq<seq<EffectId>>, i: nat,
                 create: CreateOracle, e1: map<EffectId, Effect>, c1: seq<HookCall>)
    requires i < |lasts| == |orders| && RingsIn(effects, orders)
    requires ListRun(pass, effects, lasts[..i], orders[..i], create) == (e1, c1, false)
    ensures e1.Keys == effects.Keys
    ensures lasts[i].None? ==> ListRun(pass, effects, lasts[..i + 1], orders[..i + 1], create) == (e1, c1, true)
    ensures lasts[i].Some? ==>
      && (forall x :: x in orders[i] ==> x in e1)
      && var r := RingRun(pass, e1, orders[i], create);
         ListRun(pass, effects, lasts[..i + 1], orders[..i + 1], create) == (r.0, c1 + r.1, r.2)
  {
    assert lasts[..i + 1][..i] == lasts[..i] && orders[..i + 1][..i] == orders[..i];
    assert orders[..i + 1][i] == orders[i];
  }

  /** Once a list walk has thrown, the entries after the throwing one change nothing. */
  lemma {:induction false} CutList(pass: Pass, effects: map<EffectId, Effect>, lasts: seq<Option<EffectId>>, orders: seq<seq<EffectId>>,
                                   k: nat, create: CreateOracle)
    requires 0 < k <= |lasts| == |orders| && RingsIn(effects, orders)
    requires ListRun(pass, effects, lasts[..k], orders[..k], create).2
    ensures ListRun(pass, effects, lasts, orders, create) == ListRun(pass, effects, lasts[..k], orders[..k], create)
    decreases |lasts| - k
  {
    var n := |lasts| - 1;
    if k <= n {
      assert lasts[..n][..k] == lasts[..k] && orders[..n][..k] == orders[..k];
      CutList(pass, effects, lasts[..n], orders[..n], k, create);
    } else {
      assert lasts[..k] == lasts && orders[..k] == orders;
    }
  }

  /**
   * `pendingPassiveEffects.unmount.forEach(...)` (and the two `forEach`
   * over `update`): the walk `pass` on the ring of each entry in turn.
   */
  method CommitList(hooks: HookRuntime, pass: Pass, lasts: seq<Option<EffectId>>, ghost orders: seq<seq<EffectId>>, create: CreateOracle)
    returns (calls: seq<HookCall>, thrown: bool)
    requires Rings(hooks.effects, lasts, orders)
    modifies hooks`effects
    ensures RingsIn(old(hooks.effects), orders)
    ensures (hooks.effects, calls, thrown) == ListRun(pass, old(hooks.effects), lasts, orders, create)
    ensures SameRing(old(hooks.effects), hooks.effects)
  {
    hide *;
    ghost var e0 := hooks.effects;
    RingsKept(e0, e0, lasts, orders);
    SameRingRefl(e0);
    ListPrefixes(e0, lasts, orders, pass, create);
    calls, thrown := [], false;
    for i := 0 to |lasts|
      invariant (hooks.effects, calls, false) == ListRun(pass, e0, lasts[..i], orders[..i], create)
      invariant SameRing(e0, hooks.effects)
    {
      RingsKept(e0, hooks.effects, lasts, orders);
      ListNext(pass, e0, lasts, orders, i, create, hooks.effects, calls);
      if lasts[i].None? {
        // `lastEffect.next` on null
        thrown := true;
        CutList(pass, e0, lasts, orders, i + 1, create);
        return;
      }
      ghost var e1 := hooks.effects;
      RingsKept(e0, e1, lasts, orders);
      RingAt(e1, lasts, orders, i);
      var c, t := CommitHookEffectList(hooks, pass, lasts[i].value, orders[i], create);
      RingRunSame(pass, e1, orders[i], create);
      SameRingTrans(e0, e1, hooks.effects);
      calls := calls + c;
      if t {
        thrown := true;
        CutList(pass, e0, lasts, orders, i + 1, create);
        return;
      }
    }
  }

  // ------------------------------------------------------------ the flush

  /**
   * `flushPassiveEffects(root.pendingPassiveEffects)`: the destroy walks
   * over the unmount list, which is then emptied; the unmount walks and
   * then the mount walks over the update list, which is then emptied; and
   * `flushSyncCallbacks()`. Reports whether either list had an entry. A
   * throw (a null entry, a `create` that is not a function) leaves the
   * rest undone and the lists as they were at that point.
   */
  method FlushPassiveEffects(hooks: HookRuntime, root: FiberRootNode, sync: SyncQueueState, create: CreateOracle, behaviour: Behaviour,
                             ghost unmountOrders: seq<seq<EffectId>>, ghost updateOrders: seq<seq<EffectId>>)
    returns (did: bool, outcome: Outcome, calls: seq<HookCall>)
    requires Rings(hooks.effects, root.pendingPassiveEffects.unmount, unmountOrders)
    requires Rings(hooks.effects, root.pendingPassiveEffects.update, updateOrders)
    modifies hooks`effects, root`pendingPassiveEffects, sync
    ensures RingsIn(old(hooks.effects), unmountOrders) && RingsIn(old(hooks.effects), updateOrders)
    ensures var stage := FlushRun(old(hooks.effects), old(root.pendingPassiveEffects.unmount), unmountOrders,
                                  old(root.pendingPassiveEffects.update), updateOrders, create).2;
      && FlushDone(old(hooks.effects), old(root.pendingPassiveEffects), unmountOrders, updateOrders, create,
                   hooks.effects, root.pendingPassiveEffects, calls, stage)
      && (outcome.Done? <==> stage == 0)
    ensures outcome.Done? ==> did == (|old(root.pendingPassiveEffects.unmount)| > 0 || |old(root.pendingPassiveEffects.update)| > 0)
    ensures outcome.Thrown? ==> sync.syncQueue == old(sync.syncQueue) && sync.isFlushingSyncQueue == old(sync.isFlushingSyncQueue) && sync.ran == old(sync.ran)
    ensures outcome.Done? ==>
      && (old(sync.isFlushingSyncQueue) || old(sync.syncQueue).None? ==>
            sync.syncQueue == old(sync.syncQueue) && sync.isFlushingSyncQueue == old(sync.isFlushingSyncQueue) && sync.ran == old(sync.ran))
      && (!old(sync.isFlushingSyncQueue) && old(sync.syncQueue).Some? ==>
            && sync.syncQueue.None? && !sync.isFlushingSyncQueue
            && sync.ran == old(sync.ran) + old(sync.syncQueue).value[..RunCount(old(sync.syncQueue).value, behaviour)])
  {
    var stage;
    did, stage, calls := FlushPending(hooks, root, create, unmountOrders, updateOrders);
    if stage != 0 {
      return did, Thrown("TypeError"), calls;
    }
    sync.FlushSyncCallbacks(behaviour);
    outcome := Done;
  }

  /**
   * The state after the three walks: the arena and the calls are
   * `FlushRun`'s, and the walk that threw, if any, is `stage`; the lists
   * are emptied as far as the walks got.
   */
  ghost predicate FlushDone(e0: map<EffectId, Effect>, p0: PendingPassiveEffects, unmountOrders: seq<seq<EffectId>>,
                            updateOrders: seq<seq<EffectId>>, create: CreateOracle,
                            e1: map<EffectId, Effect>, p1: PendingPassiveEffects, calls: seq<HookCall>, stage: nat)
  {
    && |unmountOrders| == |p0.unmount| && |updateOrders| == |p0.update|
    && RingsIn(e0, unmountOrders) && RingsIn(e0, updateOrders)
    && var r := FlushRun(e0, p0.unmount, unmountOrders, p0.update, updateOrders, create);
       && e1 == r.0 && calls == r.1 && stage == r.2
       && p1 == (if stage == 1 then p0 else if stage != 0 then p0.(unmount := []) else PendingPassiveEffects([], []))
  }

  /** The three walks of `flushPassiveEffects`, reporting which one threw (0 for none). */
  method FlushPending(hooks: HookRuntime, root: FiberRootNode, create: CreateOracle,
                      ghost unmountOrders: seq<seq<EffectId>>, ghost updateOrders: seq<seq<EffectId>>)
    returns (did: bool, stage: nat, calls: seq<HookCall>)
    requires Rings(hooks.effects, root.pendingPassiveEffects.unmount, unmountOrders)
    requires Rings(hooks.effects, root.pendingPassiveEffects.update, updateOrders)
    modifies hooks`effects, root`pendingPassiveEffects
    ensures FlushDone(old(hooks.effects), old(root.pendingPassiveEffects), unmountOrders, updateOrders, create,
                      hooks.effects, root.pendingPassiveEffects, calls, stage)
    ensures stage == 0 ==> did == (|old(root.pendingPassiveEffects.unmount)| > 0 || |old(root.pendingPassiveEffects.update)| > 0)
  {
    ghost var e0 := hooks.effects;
    var pending := root.pendingPassiveEffects;
    RingsKept(e0, e0, pending.unmount, unmountOrders);
    RingsKept(e0, e0, pending.update, updateOrders);
    did := |pending.unmount| > 0;
    var c1, t1 := CommitList(hooks, DestroyPass, pending.unmount, unmountOrders, create);
    calls := c1;
    if t1 {
      return did, 1, calls;
    }
    root.pendingPassiveEffects := root.pendingPassiveEffects.(unmount := []);
    RingsKept(e0, hooks.effects, pending.update, updateOrders);
    did := did || |pending.update| > 0;
    var c2, t2 := CommitList(hooks, UnmountPass, pending.update, updateOrders, create);
    calls := calls + c2;
    if t2 {
      return did, 2, calls;
    }
    var c3, t3 := CommitList(hooks, MountPass, pending.update, updateOrders, create);
    calls := calls + c3;
    if t3 {
      return did, 3, calls;
    }
    root.pendingPassiveEffects := root.pendingPassiveEffects.(update := []);
    stage := 0;
  }

  // ------------------------------------------------------------ what a flush guarantees

  /** The mount walk skips an effect with this tag: it lacks `Passive` or `HasEffect`. */
  predicate Quiet(tag: HookFlags)
  {
    !Matches(tag, PassFlags(MountPass))
  }

  /** Dropping `HasEffect` quiets any tag. */
  lemma ClearQuiet(tag: HookFlags)
    ensures Quiet(ClearHasEffect(tag))
  {
  }

  /** A tag without `Passive` is quiet. */
  lemma NotPassiveQuiet(tag: HookFlags)
    requires !Matches(tag, PassFlags(DestroyPass))
    ensures Quiet(tag)
  {
  }

  /** Whatever its tag, an effect the destroy walk has stepped over is quiet afterwards. */
  lemma DestroyStepQuiet(ef: Effect, e: EffectId, create: CreateOracle)
    ensures Quiet(Step(DestroyPass, ef, e, create).0.tag) && !Step(DestroyPass, ef, e, create).2
  {
    if Matches(ef.tag, PassFlags(DestroyPass)) {
      ClearQuiet(ef.tag);
    } else {
      NotPassiveQuiet(ef.tag);
    }
  }

  /** A destroy walk never throws, quiets every effect of its ring and wakes none. */
  lemma {:induction false} DestroyRunQuiet(effects: map<EffectId, Effect>, order: seq<EffectId>, create: CreateOracle)
    requires forall x :: x in order ==> x in effects
    ensures var r := RingRun(DestroyPass, effects, order, create);
      && !r.2
      && (forall x :: x in order ==> Quiet(r.0[x].tag))
      && (forall x :: x in effects && Quiet(effects[x].tag) ==> Quiet(r.0[x].tag))
    decreases |order|
  {
    if |order| > 0 {
      var prefix := order[..|order| - 1];
      assert forall x :: x in prefix ==> x in order;
      DestroyRunQuiet(effects, prefix, create);
      var e1 := RingRun(DestroyPass, effects, prefix, create).0;
      var e := order[|order| - 1];
      DestroyStepQuiet(e1[e], e, create);
      forall x | x in order
        ensures x == e || x in prefix
      {
        var k :| 0 <= k < |order| && order[k] == x;
        if k < |order| - 1 {
          assert prefix[k] == x;
        }
      }
    }
  }

  /** The destroy walks over a list that does not throw quiet every effect of its rings, and wake none. */
  lemma {:induction false} DestroyListQuiet(effects: map<EffectId, Effect>, lasts: seq<Option<EffectId>>, orders: seq<seq<EffectId>>,
                                            create: CreateOracle)
    requires |orders| == |lasts| && RingsIn(effects, orders)
    ensures var r := ListRun(DestroyPass, effects, lasts, orders, create);
      && (!r.2 ==> forall i, x :: 0 <= i < |orders| && x in orders[i] ==> Quiet(r.0[x].tag))
      && (forall x :: x in effects && Quiet(effects[x].tag) ==> Quiet(r.0[x].tag))
    decreases |lasts|
  {
    hide *;
    if |lasts| > 0 {
      var n := |lasts| - 1;
      ListRunOpen(DestroyPass, effects, lasts, orders, create);
      DestroyListQuiet(effects, lasts[..n], orders[..n], create);
      var r1 := ListRun(DestroyPass, effects, lasts[..n], orders[..n], create);
      if !r1.2 && lasts[n].Some? {
        DestroyRunQuiet(r1.0, orders[n], create);
      }
    } else {
      ListPrefixes(effects, lasts, orders, DestroyPass, create);
    }
  }

  /** The unmount and mount walks leave every tag as it was. */
  lemma {:induction false} RunKeepsTags(pass: Pass, effects: map<EffectId, Effect>, order: seq<EffectId>, create: CreateOracle)
    requires pass != DestroyPass && forall x :: x in order ==> x in effects
    ensures forall x :: x in effects ==> RingRun(pass, effects, order, create).0[x].tag == effects[x].tag
    decreases |order|
  {
    if |order| > 0 {
      var prefix := order[..|order| - 1];
      assert forall x :: x in prefix ==> x in order;
      RunKeepsTags(pass, effects, prefix, create);
      var e1 := RingRun(pass, effects, prefix, create).0;
      StepKeeps(pass, e1[order[|order| - 1]], order[|order| - 1], create);
    }
  }

  lemma {:induction false} ListKeepsTags(pass: Pass, effects: map<EffectId, Effect>, lasts: seq<Option<EffectId>>, orders: seq<seq<EffectId>>,
                                         create: CreateOracle)
    requires pass != DestroyPass && |orders| == |lasts| && RingsIn(effects, orders)
    ensures forall x :: x in effects ==> ListRun(pass, effects, lasts, orders, create).0[x].tag == effects[x].tag
    decreases |lasts|
  {
    if |lasts| > 0 {
      var n := |lasts| - 1;
      ListPrefixes(effects, lasts, orders, pass, create);
      ListKeepsTags(pass, effects, lasts[..n], orders[..n], create);
      var r1 := ListRun(pass, effects, lasts[..n], orders[..n], create);
      if !r1.2 && lasts[n].Some? {
        RunKeepsTags(pass, r1.0, orders[n], create);
      }
    }
  }

  /** The calls a walk makes: only creates in the mount walk, only destroys otherwise; a create only for a woken effect. */
  lemma {:induction false} RunCalls(pass: Pass, effects: map<EffectId, Effect>, order: seq<EffectId>, create: CreateOracle)
    requires forall x :: x in order ==> x in effects
    ensures var calls := RingRun(pass, effects, order, create).1;
      && (forall c :: c in calls ==> (c.CreateCall? <==> pass == MountPass))
      && (forall x :: CreateCall(x) in calls ==> x in effects && !Quiet(effects[x].tag))
    decreases |order|
  {
    if |order| > 0 {
      hide *;
      RingRunOpen(pass, effects, order, create);
      var prefix := order[..|order| - 1];
      RunCalls(pass, effects, prefix, create);
      var r1 := RingRun(pass, effects, prefix, create);
      var e := order[|order| - 1];
      StepCalls(pass, r1.0[e], e, create);
      if pass != DestroyPass {
        RunKeepsTags(pass, effects, prefix, create);
      }
    }
  }

  lemma {:induction false} ListCalls(pass: Pass, effects: map<EffectId, Effect>, lasts: seq<Option<EffectId>>, orders: seq<seq<EffectId>>,
                                     create: CreateOracle)
    requires |orders| == |lasts| && RingsIn(effects, orders)
    ensures var calls := ListRun(pass, effects, lasts, orders, create).1;
      && (forall c :: c in calls ==> (c.CreateCall? <==> pass == MountPass))
      && (forall x :: CreateCall(x) in calls ==> x in effects && !Quiet(effects[x].tag))
    decreases |lasts|
  {
    if |lasts| > 0 {
      var n := |lasts| - 1;
      ListPrefixes(effects, lasts, orders, pass, create);
      ListCalls(pass, effects, lasts[..n], orders[..n], create);
      var r1 := ListRun(pass, effects, lasts[..n], orders[..n], create);
      if !r1.2 && lasts[n].Some? {
        RunCalls(pass, r1.0, orders[n], create);
        if pass == MountPass {
          ListKeepsTags(pass, effects, lasts[..n], orders[..n], create);
        }
      }
    }
  }

  /** The three walks of a flush, spelt out. */
  lemma FlushRunOpen(effects: map<EffectId, Effect>, unmount: seq<Option<EffectId>>, unmountOrders: seq<seq<EffectId>>,
                     update: seq<Option<EffectId>>, updateOrders: seq<seq<EffectId>>, create: CreateOracle)
    requires |unmountOrders| == |unmount| && |updateOrders| == |update|
    requires RingsIn(effects, unmountOrders) && RingsIn(effects, updateOrders)
    ensures var r1 := ListRun(DestroyPass, effects, unmount, unmountOrders, create);
      && RingsIn(r1.0, updateOrders)
      && var r2 := ListRun(UnmountPass, r1.0, update, updateOrders, create);
      && RingsIn(r2.0, updateOrders)
      && var r3 := ListRun(MountPass, r2.0, update, updateOrders, create);
      FlushRun(effects, unmount, unmountOrders, update, updateOrders, create).1 ==
        if r1.2 then r1.1 else if r2.2 then r1.1 + r2.1 else r1.1 + r2.1 + r3.1
  {
  }

  /**
   * An effect of an unmounted component is never created by the same
   * flush: its destroy walk drops `HasEffect`, which the mount walk over
   * the update list requires.
   */
  lemma DestroyedNeverCreated(effects: map<EffectId, Effect>, unmount: seq<Option<EffectId>>, unmountOrders: seq<seq<EffectId>>,
                              update: seq<Option<EffectId>>, updateOrders: seq<seq<EffectId>>, create: CreateOracle, i: nat, x: EffectId)
    requires Rings(effects, unmount, unmountOrders) && Rings(effects, update, updateOrders)
    requires i < |unmount| && x in unmountOrders[i]
    ensures RingsIn(effects, unmountOrders) && RingsIn(effects, updateOrders)
    ensures CreateCall(x) !in FlushRun(effects, unmount, unmountOrders, update, updateOrders, create).1
  {
    RingsKept(effects, effects, unmount, unmountOrders);
    RingsKept(effects, effects, update, updateOrders);
    var r1 := ListRun(DestroyPass, effects, unmount, unmountOrders, create);
    ListCalls(DestroyPass, effects, unmount, unmountOrders, create);
    if !r1.2 {
      DestroyListQuiet(effects, unmount, unmountOrders, create);
      var r2 := ListRun(UnmountPass, r1.0, update, updateOrders, create);
      ListCalls(UnmountPass, r1.0, update, updateOrders, create);
      if !r2.2 {
        ListKeepsTags(UnmountPass, r1.0, update, updateOrders, create);
        ListCalls(MountPass, r2.0, update, updateOrders, create);
      }
    }
  }

  /** No destroy call follows a create call. */
  predicate DestroysFirst(calls: seq<HookCall>)
  {
    forall i, j :: 0 <= i < j < |calls| && calls[j].DestroyCall? ==> calls[i].DestroyCall?
  }

  lemma DestroysThenCreates(a: seq<HookCall>, b: seq<HookCall>)
    requires (forall c :: c in a ==> c.DestroyCall?) && (forall c :: c in b ==> c.CreateCall?)
    ensures DestroysFirst(a) && DestroysFirst(a + b)
  {
    var calls := a + b;
    forall k | |a| <= k < |calls|
      ensures calls[k].CreateCall?
    {
      assert calls[k] == b[k - |a|];
    }
    forall i, j | 0 <= i < j < |calls| && calls[j].DestroyCall?
      ensures calls[i].DestroyCall?
    {
      assert calls[i] in a;
    }
  }

  /** Every destroy a flush calls comes before every create it calls. */
  lemma DestroysBeforeCreates(effects: map<EffectId, Effect>, unmount: seq<Option<EffectId>>, unmountOrders: seq<seq<EffectId>>,
                              update: seq<Option<EffectId>>, updateOrders: seq<seq<EffectId>>, create: CreateOracle)
    requires Rings(effects, unmount, unmountOrders) && Rings(effects, update, updateOrders)
    ensures RingsIn(effects, unmountOrders) && RingsIn(effects, updateOrders)
    ensures DestroysFirst(FlushRun(effects, unmount, unmountOrders, update, updateOrders, create).1)
  {
    hide *;
    RingsKept(effects, effects, unmount, unmountOrders);
    RingsKept(effects, effects, update, updateOrders);
    FlushRunOpen(effects, unmount, unmountOrders, update, updateOrders, create);
    var r1 := ListRun(DestroyPass, effects, unmount, unmountOrders, create);
    ListCalls(DestroyPass, effects, unmount, unmountOrders, create);
    var r2 := ListRun(UnmountPass, r1.0, update, updateOrders, create);
    ListCalls(UnmountPass, r1.0, update, updateOrders, create);
    var r3 := ListRun(MountPass, r2.0, update, updateOrders, create);
    ListCalls(MountPass, r2.0, update, updateOrders, create);
    DestroysThenCreates(r1.1, []);
    DestroysThenCreates(r1.1 + r2.1, []);
    DestroysThenCreates(r1.1 + r2.1, r3.1);
  }
}
