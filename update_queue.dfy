/**
 * Update queues. An update carries an action (a new state, or a function
 * of the previous state) and a lane. Pending updates form a circular list
 * whose newest node is `shared.pending`. Processing replays them on a base
 * state, skipping updates whose lane the render lane does not include and
 * keeping a base state and a base queue for the next render.
 *
 * User-supplied state functions are opaque: `call(fid, s)` is the value
 * the function with id `fid` returns for `s`.
 */
module UpdateQueue {
  import opened Wrappers
  import opened JsValues
  import opened FiberLane
  import opened Ring

  type UpdateId = nat
  type QueueId = nat

  /** The behaviour of user functions: `call(fid, arg)`. */
  type Call = (nat, Value) -> Value

  datatype Update = Update(action: Value, lane: Lane, next: Option<UpdateId>)

  /** A dispatch function bound to a fiber and a queue (`dispatchSetState.bind`). */
  datatype Dispatch = Dispatch(fiber: nat, queue: QueueId)

  /**
   * An update queue object. `lastEffect` is only used by function
   * components, whose queue also holds their circular effect list.
   */
  datatype UpdateQueueRec = UpdateQueueRec(pending: Option<UpdateId>, dispatch: Option<Dispatch>, lastEffect: Option<nat>)

  /** What processing needs of an update: its action and lane. */
  datatype Pending = Pending(action: Value, lane: Lane)

  function NextOf(u: Update): Option<UpdateId> { u.next }

  function PayloadOf(u: Update): Pending { Pending(u.action, u.lane) }

  /** The payloads of the listed updates, in list order. */
  ghost function Payloads(updates: map<UpdateId, Update>, order: seq<UpdateId>): (r: seq<Pending>)
    requires forall i :: 0 <= i < |order| ==> order[i] in updates
    ensures |r| == |order|
    ensures forall i :: 0 <= i < |order| ==> r[i] == PayloadOf(updates[order[i]])
  {
    seq(|order|, i requires 0 <= i < |order| => PayloadOf(updates[order[i]]))
  }

  /** A queue's ring as seen from its newest node: none and an empty list, or a ring listed oldest first. */
  ghost predicate RingOrEmpty(updates: map<UpdateId, Update>, last: Option<UpdateId>, order: seq<UpdateId>)
  {
    && (last.None? ==> order == [])
    && (last.Some? ==> IsRing(updates, NextOf, last.value, order))
  }

  // ---------------------------------------------------------------- replay

  /** An eligible update's effect: call a function action, otherwise replace. */
  function ApplyAction(call: Call, action: Value, state: Value): (r: Value)
    ensures !action.Func? ==> r == action
  {
    if action.Func? then call(action.fid, state) else action
  }

  /** The loop state of processing: running state, base state and the base-queue clones. */
  datatype Replay = Replay(state: Value, baseState: Value, clones: seq<Pending>)

  datatype Processed = Processed(memoizedState: Value, baseState: Value, baseQueue: seq<Pending>)

  predicate Eligible(renderLane: Lane, u: Pending)
  {
    IsSubsetOfLanes(renderLane, u.lane)
  }

  /**
   * One iteration of the do-while. A skipped update is cloned with
   * `cloneLane`; an eligible one is cloned with NoLane once something was
   * skipped, and applied. As written, `cloneLane` is the lane of the
   * list's first update; `keepOwnLane` selects the update's own lane.
   */
  function Step(call: Call, renderLane: Lane, firstLane: Lane, keepOwnLane: bool, acc: Replay, u: Pending): Replay
  {
    if !Eligible(renderLane, u) then
      var clone := Pending(u.action, if keepOwnLane then u.lane else firstLane);
      if |acc.clones| == 0 then Replay(acc.state, acc.state, [clone])
      else Replay(acc.state, acc.baseState, acc.clones + [clone])
    else
      var clones := if |acc.clones| == 0 then [] else acc.clones + [Pending(u.action, NoLane)];
      Replay(ApplyAction(call, u.action, acc.state), acc.baseState, clones)
  }

  function ReplayAll(call: Call, renderLane: Lane, firstLane: Lane, keepOwnLane: bool, acc: Replay, us: seq<Pending>): Replay
    decreases |us|
  {
    if |us| == 0 then acc
    else Step(call, renderLane, firstLane, keepOwnLane, ReplayAll(call, renderLane, firstLane, keepOwnLane, acc, us[..|us| - 1]), us[|us| - 1])
  }

  function ProcessWith(call: Call, baseState: Value, us: seq<Pending>, renderLane: Lane, keepOwnLane: bool): Processed
  {
    if |us| == 0 then Processed(baseState, baseState, [])
    else
      var r := ReplayAll(call, renderLane, us[0].lane, keepOwnLane, Replay(baseState, baseState, []), us);
      if |r.clones| == 0 then Processed(r.state, r.state, []) else Processed(r.state, r.baseState, r.clones)
  }

  /** `processUpdateQueue` as written, over the pending updates in arrival order. */
  function ProcessUpdates(call: Call, baseState: Value, us: seq<Pending>, renderLane: Lane): Processed
  {
    ProcessWith(call, baseState, us, renderLane, false)
  }

  // ------------------------------------------------ reference definitions

  /** Apply the actions of `us` in order, all of them. */
  function ApplyAll(call: Call, state: Value, us: seq<Pending>): Value
    decreases |us|
  {
    if |us| == 0 then state else ApplyAction(call, us[|us| - 1].action, ApplyAll(call, state, us[..|us| - 1]))
  }

  /** The updates the render lane includes, in order. */
  function EligibleOnly(renderLane: Lane, us: seq<Pending>): (r: seq<Pending>)
    ensures |r| <= |us|
    decreases |us|
  {
    if |us| == 0 then []
    else
      var rest := EligibleOnly(renderLane, us[..|us| - 1]);
      if Eligible(renderLane, us[|us| - 1]) then rest + [us[|us| - 1]] else rest
  }

  predicate NoneSkipped(renderLane: Lane, us: seq<Pending>)
  {
    forall i :: 0 <= i < |us| ==> Eligible(renderLane, us[i])
  }

  /** The base-queue entry for an update at or after the first skip. */
  function CloneOf(renderLane: Lane, cloneLane: Lane, u: Pending): Pending
  {
    if Eligible(renderLane, u) then Pending(u.action, NoLane) else Pending(u.action, cloneLane)
  }

  function ClonesFrom(renderLane: Lane, firstLane: Lane, keepOwnLane: bool, us: seq<Pending>): (r: seq<Pending>)
    ensures |r| == |us|
    decreases |us|
  {
    if |us| == 0 then []
    else
      var u := us[|us| - 1];
      ClonesFrom(renderLane, firstLane, keepOwnLane, us[..|us| - 1]) + [CloneOf(renderLane, if keepOwnLane then u.lane else firstLane, u)]
  }

  // --------------------------------------------------------------- lemmas

  /** The running state is always the eligible updates applied to the base state. */
  lemma {:induction false} ReplayStateIsEligibleFold(call: Call, renderLane: Lane, firstLane: Lane, keepOwnLane: bool, base: Value, us: seq<Pending>)
    ensures ReplayAll(call, renderLane, firstLane, keepOwnLane, Replay(base, base, []), us).state
      == ApplyAll(call, base, EligibleOnly(renderLane, us))
    decreases |us|
  {
    if |us| > 0 {
      ReplayStateIsEligibleFold(call, renderLane, firstLane, keepOwnLane, base, us[..|us| - 1]);
      var rest := EligibleOnly(renderLane, us[..|us| - 1]);
      if Eligible(renderLane, us[|us| - 1]) {
        assert (rest + [us[|us| - 1]])[..|rest|] == rest;
      }
    }
  }

  /** Before the first skip no clone exists, and the base state is not yet fixed. */
  lemma {:induction false} ReplayWithoutSkip(call: Call, renderLane: Lane, firstLane: Lane, keepOwnLane: bool, base: Value, us: seq<Pending>)
    requires NoneSkipped(renderLane, us)
    ensures ReplayAll(call, renderLane, firstLane, keepOwnLane, Replay(base, base, []), us).clones == []
    ensures EligibleOnly(renderLane, us) == us
    decreases |us|
  {
    if |us| > 0 {
      var prefix := us[..|us| - 1];
      assert forall i :: 0 <= i < |prefix| ==> prefix[i] == us[i];
      ReplayWithoutSkip(call, renderLane, firstLane, keepOwnLane, base, prefix);
      assert Eligible(renderLane, us[|us| - 1]);
      assert prefix + [us[|us| - 1]] == us;
    }
  }

  /** A skip leaves a non-empty clone list that never shrinks again. */
  lemma {:induction false} ReplayAfterSkip(call: Call, renderLane: Lane, firstLane: Lane, keepOwnLane: bool, base: Value, us: seq<Pending>, k: nat)
    requires k < |us| && !Eligible(renderLane, us[k])
    ensures ReplayAll(call, renderLane, firstLane, keepOwnLane, Replay(base, base, []), us).clones != []
    decreases |us|
  {
    if k < |us| - 1 {
      assert us[..|us| - 1][k] == us[k];
      ReplayAfterSkip(call, renderLane, firstLane, keepOwnLane, base, us[..|us| - 1], k);
    }
  }

  /**
   * From the first skip at index `k` on: the base state is the state after
   * the first `k` updates, and every later update is cloned, the skipped
   * ones with the clone lane and the eligible ones with NoLane.
   */
  lemma {:induction false} ReplayFromFirstSkip(call: Call, renderLane: Lane, firstLane: Lane, keepOwnLane: bool, base: Value, us: seq<Pending>, k: nat)
    requires k < |us| && !Eligible(renderLane, us[k]) && NoneSkipped(renderLane, us[..k])
    ensures ReplayAll(call, renderLane, firstLane, keepOwnLane, Replay(base, base, []), us).baseState
      == ApplyAll(call, base, us[..k])
    ensures ReplayAll(call, renderLane, firstLane, keepOwnLane, Replay(base, base, []), us).clones
      == ClonesFrom(renderLane, firstLane, keepOwnLane, us[k..])
    decreases |us|
  {
    var prefix := us[..|us| - 1];
    var u := us[|us| - 1];
    if k == |us| - 1 {
      assert prefix == us[..k];
      ReplayWithoutSkip(call, renderLane, firstLane, keepOwnLane, base, prefix);
      ReplayStateIsEligibleFold(call, renderLane, firstLane, keepOwnLane, base, prefix);
      assert us[k..] == [u];
      assert ClonesFrom(renderLane, firstLane, keepOwnLane, [u])
        == ClonesFrom(renderLane, firstLane, keepOwnLane, []) + [CloneOf(renderLane, if keepOwnLane then u.lane else firstLane, u)];
    } else {
      assert prefix[..k] == us[..k];
      assert prefix[k] == us[k];
      ReplayFromFirstSkip(call, renderLane, firstLane, keepOwnLane, base, prefix, k);
      ReplayAfterSkip(call, renderLane, firstLane, keepOwnLane, base, prefix, k);
      assert us[k..][..|us[k..]| - 1] == prefix[k..];
      assert us[k..][|us[k..]| - 1] == u;
    }
  }

  /** The memoized state applies exactly the eligible updates, in arrival order. */
  lemma MemoizedStateAppliesEligible(call: Call, baseState: Value, us: seq<Pending>, renderLane: Lane)
    ensures ProcessUpdates(call, baseState, us, renderLane).memoizedState
      == ApplyAll(call, baseState, EligibleOnly(renderLane, us))
  {
    if |us| > 0 {
      ReplayStateIsEligibleFold(call, renderLane, us[0].lane, false, baseState, us);
    }
  }

  /** Nothing skipped iff the base queue is empty; then the base state is the memoized state. */
  lemma NoSkipKeepsNoBaseQueue(call: Call, baseState: Value, us: seq<Pending>, renderLane: Lane)
    ensures NoneSkipped(renderLane, us) <==> ProcessUpdates(call, baseState, us, renderLane).baseQueue == []
    ensures NoneSkipped(renderLane, us) ==>
      ProcessUpdates(call, baseState, us, renderLane).baseState == ProcessUpdates(call, baseState, us, renderLane).memoizedState
      == ApplyAll(call, baseState, us)
  {
    if |us| > 0 {
      var firstLane := us[0].lane;
      if NoneSkipped(renderLane, us) {
        ReplayWithoutSkip(call, renderLane, firstLane, false, baseState, us);
        ReplayStateIsEligibleFold(call, renderLane, firstLane, false, baseState, us);
      } else {
        var k :| 0 <= k < |us| && !Eligible(renderLane, us[k]);
        ReplayAfterSkip(call, renderLane, firstLane, false, baseState, us, k);
      }
    }
  }

  /**
   * With a first skip at `k`: the base state is the state after the first
   * `k` updates and the base queue clones every update from `k` on, skipped
   * ones carrying the first update's lane.
   */
  lemma FirstSkipFixesBase(call: Call, baseState: Value, us: seq<Pending>, renderLane: Lane, k: nat)
    requires k < |us| && !Eligible(renderLane, us[k]) && NoneSkipped(renderLane, us[..k])
    ensures ProcessUpdates(call, baseState, us, renderLane).baseState == ApplyAll(call, baseState, us[..k])
    ensures ProcessUpdates(call, baseState, us, renderLane).baseQueue == ClonesFrom(renderLane, us[0].lane, false, us[k..])
  {
    ReplayFromFirstSkip(call, renderLane, us[0].lane, false, baseState, us, k);
    ReplayAfterSkip(call, renderLane, us[0].lane, false, baseState, us, k);
  }

  // ------------------------------------------------- the documented example

  /** The two state functions of the example: +1 (id 1) and +10 (id 10); others are the identity. */
  function ExampleCall(fid: nat, s: Value): Value
  {
    if s.Num? && fid in {1, 10} then Num(s.n + fid) else s
  }

  const ExampleUpdates: seq<Pending> :=
    [Pending(Func(1), DefaultLane), Pending(Num(3), SyncLane), Pending(Func(10), DefaultLane)]

  /**
   * Base 0; +1 at Default, :=3 at Sync, +10 at Default; render at Default:
   * memoized 11, base 1, and two clones, the skipped one on DefaultLane.
   */
  lemma DocExampleFirstRender()
    ensures ProcessUpdates(ExampleCall, Num(0), ExampleUpdates, DefaultLane)
      == Processed(Num(11), Num(1), [Pending(Num(3), DefaultLane), Pending(Func(10), NoLane)])
  {
    var us := ExampleUpdates;
    assert us[..2] == us[..|us| - 1] == [us[0], us[1]];
    assert us[..2][..1] == [us[0]];
    assert us[..1][..0] == [];
    var r0 := Replay(Num(0), Num(0), []);
    assert ApplyAction(ExampleCall, Func(1), Num(0)) == Num(1);
    assert ReplayAll(ExampleCall, DefaultLane, DefaultLane, false, r0, us[..1]) == Replay(Num(1), Num(0), []);
    assert ReplayAll(ExampleCall, DefaultLane, DefaultLane, false, r0, us[..2])
      == Replay(Num(1), Num(1), [Pending(Num(3), DefaultLane)]);
    assert ApplyAction(ExampleCall, Func(10), Num(1)) == Num(11);
  }

  /**
   * Rendering the resulting base queue at SyncLane skips `:= 3` again,
   * because its clone carries DefaultLane: the result is 11, not the 13 the
   * documentation expects.
   */
  lemma DocExampleSecondRenderAsWritten()
    ensures ProcessUpdates(ExampleCall, Num(1), [Pending(Num(3), DefaultLane), Pending(Func(10), NoLane)], SyncLane)
      == Processed(Num(11), Num(1), [Pending(Num(3), DefaultLane), Pending(Func(10), NoLane)])
  {
    var us := [Pending(Num(3), DefaultLane), Pending(Func(10), NoLane)];
    assert us[..1] == us[..|us| - 1] == [us[0]];
    assert us[..1][..0] == [];
    var r0 := Replay(Num(1), Num(1), []);
    assert ReplayAll(ExampleCall, SyncLane, DefaultLane, false, r0, us[..1])
      == Replay(Num(1), Num(1), [Pending(Num(3), DefaultLane)]);
    assert ApplyAction(ExampleCall, Func(10), Num(1)) == Num(11);
  }

  /** With clones keeping their own lane, the second render at SyncLane gives the documented 13. */
  lemma DocExampleSecondRenderIntended()
    ensures ProcessWith(ExampleCall, Num(0), ExampleUpdates, DefaultLane, true)
      == Processed(Num(11), Num(1), [Pending(Num(3), SyncLane), Pending(Func(10), NoLane)])
    ensures ProcessWith(ExampleCall, Num(1), [Pending(Num(3), SyncLane), Pending(Func(10), NoLane)], SyncLane, true)
      == Processed(Num(13), Num(13), [])
  {
    var us := ExampleUpdates;
    assert us[..2] == us[..|us| - 1] == [us[0], us[1]];
    assert us[..2][..1] == [us[0]];
    assert us[..1][..0] == [];
    var r0 := Replay(Num(0), Num(0), []);
    assert ApplyAction(ExampleCall, Func(1), Num(0)) == Num(1);
    assert ReplayAll(ExampleCall, DefaultLane, DefaultLane, true, r0, us[..1]) == Replay(Num(1), Num(0), []);
    assert ReplayAll(ExampleCall, DefaultLane, DefaultLane, true, r0, us[..2])
      == Replay(Num(1), Num(1), [Pending(Num(3), SyncLane)]);
    assert ApplyAction(ExampleCall, Func(10), Num(1)) == Num(11);
    var vs := [Pending(Num(3), SyncLane), Pending(Func(10), NoLane)];
    assert vs[..1] == vs[..|vs| - 1] == [vs[0]];
    assert vs[..1][..0] == [];
    var q0 := Replay(Num(1), Num(1), []);
    assert ReplayAll(ExampleCall, SyncLane, SyncLane, true, q0, vs[..1]) == Replay(Num(3), Num(1), []);
    assert ApplyAction(ExampleCall, Func(10), Num(3)) == Num(13);
  }

  /**
   * With own lanes, a skipped update is eligible again when the next render
   * is at its lane: it is not lost from the next render's result.
   */
  lemma IntendedClonesKeepSkippedLane(renderLane: Lane, us: seq<Pending>, i: nat)
    requires i < |us| && !Eligible(renderLane, us[i])
    ensures ClonesFrom(renderLane, NoLane, true, us)[i] == us[i]
  {
    ClonesFromIndex(renderLane, NoLane, true, us, i);
  }

  lemma {:induction false} ClonesFromIndex(renderLane: Lane, firstLane: Lane, keepOwnLane: bool, us: seq<Pending>, i: nat)
    requires i < |us|
    ensures ClonesFrom(renderLane, firstLane, keepOwnLane, us)[i]
      == CloneOf(renderLane, if keepOwnLane then us[i].lane else firstLane, us[i])
    decreases |us|
  {
    if i < |us| - 1 {
      assert us[..|us| - 1][i] == us[i];
      ClonesFromIndex(renderLane, firstLane, keepOwnLane, us[..|us| - 1], i);
    }
  }

  // ----------------------------------------------------------- the arena

  /** Relinking the newest node of each of two disjoint rings to the other's oldest gives one ring. */
  lemma SplicedRing(updates: map<UpdateId, Update>, updates': map<UpdateId, Update>, b: UpdateId, p: UpdateId,
                    base: seq<UpdateId>, pending: seq<UpdateId>)
    requires IsRing(updates, NextOf, b, base) && IsRing(updates, NextOf, p, pending)
    requires forall i, j :: 0 <= i < |base| && 0 <= j < |pending| ==> base[i] != pending[j]
    requires updates' == updates[b := updates[b].(next := Some(pending[0]))][p := updates[p].(next := Some(base[0]))]
    ensures IsRing(updates', NextOf, p, base + pending)
  {
    var all := base + pending;
    forall i | 0 <= i < |all| - 1
      ensures NextOf(updates'[all[i]]) == Some(all[i + 1])
    {
      if i < |base| - 1 {
        assert all[i] == base[i] && all[i + 1] == base[i + 1];
        assert base[i] != b && base[i] != p;
      } else if i == |base| - 1 {
        assert all[i] == b && all[i + 1] == pending[0];
      } else {
        assert all[i] == pending[i - |base|] && all[i + 1] == pending[i - |base| + 1];
        assert pending[i - |base|] != p && pending[i - |base|] != b;
      }
    }
    forall i | 0 <= i < |all| - 1
      ensures all[i] != p
    {
      if i < |base| {
        assert all[i] == base[i] && p == pending[|pending| - 1];
      } else {
        assert all[i] == pending[i - |base|];
      }
    }
  }

  /** The result object of `processUpdateQueue`; `baseQueue` is the newest clone. */
  datatype ProcessResult = ProcessResult(memoizedState: Value, baseState: Value, baseQueue: Option<UpdateId>)

  /** All update and update-queue objects, by id. */
  class UpdateStore {
    var updates: map<UpdateId, Update>
    var queues: map<QueueId, UpdateQueueRec>
    var nextUpdate: UpdateId
    var nextQueue: QueueId

    ghost predicate Valid()
      reads this
    {
      && (forall u :: u in updates ==> u < nextUpdate)
      && (forall q :: q in queues ==> q < nextQueue)
    }

    constructor()
      ensures Valid() && updates == map[] && queues == map[]
    {
      updates := map[];
      queues := map[];
      nextUpdate := 0;
      nextQueue := 0;
    }

    /** `createUpdate`: a fresh update with the given action and lane and no successor. */
    method CreateUpdate(action: Value, lane: Lane) returns (u: UpdateId)
      requires Valid()
      modifies this`updates, this`nextUpdate
      ensures Valid()
      ensures u == old(nextUpdate) && u !in old(updates)
      ensures updates == old(updates)[u := Update(action, lane, None)]
    {
      u := nextUpdate;
      nextUpdate := nextUpdate + 1;
      updates := updates[u := Update(action, lane, None)];
    }

    /** `createUpdateQueue`: a fresh queue with no pending update and no dispatch. */
    method CreateUpdateQueue() returns (q: QueueId)
      requires Valid()
      modifies this`queues, this`nextQueue
      ensures Valid()
      ensures q == old(nextQueue) && q !in old(queues)
      ensures queues == old(queues)[q := UpdateQueueRec(None, None, None)]
    {
      q := nextQueue;
      nextQueue := nextQueue + 1;
      queues := queues[q := UpdateQueueRec(None, None, None)];
    }

    method SetNext(u: UpdateId, next: UpdateId)
      requires u in updates
      modifies this`updates
      ensures updates == old(updates)[u := old(updates)[u].(next := Some(next))]
    {
      updates := updates[u := updates[u].(next := Some(next))];
    }

    /**
     * `enqueueUpdate`: the new update becomes `shared.pending` (the newest)
     * and links to the oldest, so the ring grows by one at its end.
     */
    method EnqueueUpdate(q: QueueId, u: UpdateId, ghost order: seq<UpdateId>)
      requires q in queues && u in updates && u !in order
      requires queues[q].pending.None? ==> order == []
      requires queues[q].pending.Some? ==> IsRing(updates, NextOf, queues[q].pending.value, order)
      modifies this`updates, this`queues
      ensures queues == old(queues)[q := old(queues)[q].(pending := Some(u))]
      ensures IsRing(updates, NextOf, u, order + [u])
      ensures updates.Keys == old(updates).Keys
      ensures forall id :: id in updates ==> PayloadOf(updates[id]) == PayloadOf(old(updates)[id])
      ensures forall id :: id in updates && id != u && id !in order ==> updates[id] == old(updates)[id]
    {
      var pending := queues[q].pending;
      if pending.None? {
        SetNext(u, u);
      } else {
        var oldest := updates[pending.value].next.value;
        SetNext(u, oldest);
        SetNext(pending.value, u);
        assert forall i :: 0 <= i < |order| - 1 ==> order[i] != pending.value && order[i] != u;
      }
      queues := queues[q := queues[q].(pending := Some(u))];
    }

    /** `queue.dispatch = dispatch` */
    method SetDispatch(q: QueueId, d: Dispatch)
      requires q in queues
      modifies this`queues
      ensures queues == old(queues)[q := old(queues)[q].(dispatch := Some(d))]
    {
      queues := queues[q := queues[q].(dispatch := Some(d))];
    }

    /** `queue.shared.pending = null` */
    method ClearPending(q: QueueId)
      requires q in queues
      modifies this`queues
      ensures queues == old(queues)[q := old(queues)[q].(pending := None)]
    {
      queues := queues[q := queues[q].(pending := None)];
    }

    /**
     * The splice of `updateState`: the base ring (newest `b`) and the
     * pending ring (newest `p`) become one ring whose newest is `p`, with
     * the base updates first. Only the two newest nodes are relinked.
     */
    method SpliceRings(b: UpdateId, p: UpdateId, ghost base: seq<UpdateId>, ghost pending: seq<UpdateId>)
      requires IsRing(updates, NextOf, b, base) && IsRing(updates, NextOf, p, pending)
      requires forall i, j :: 0 <= i < |base| && 0 <= j < |pending| ==> base[i] != pending[j]
      modifies this`updates
      ensures IsRing(updates, NextOf, p, base + pending)
      ensures updates.Keys == old(updates).Keys
      ensures forall id :: id in updates ==> PayloadOf(updates[id]) == PayloadOf(old(updates)[id])
      ensures forall id :: id in updates && id != b && id != p ==> updates[id] == old(updates)[id]
    {
      var baseFirst := updates[b].next.value;
      var pendingFirst := updates[p].next.value;
      SetNext(b, pendingFirst);
      SetNext(p, baseFirst);
      SplicedRing(old(updates), updates, b, p, base, pending);
    }

    /**
     * The queue part of `updateState`'s merge: the pending ring of queue
     * `q`, if any, is appended to the base ring `baseQueue` (spliced when
     * both exist) and taken off the queue. `merged` is the newest node of
     * the result, whose updates are those of `base` then those of `pending`.
     */
    method TakePending(baseQueue: Option<UpdateId>, q: QueueId, ghost base: seq<UpdateId>, ghost pending: seq<UpdateId>)
      returns (merged: Option<UpdateId>)
      requires q in queues
      requires RingOrEmpty(updates, baseQueue, base) && RingOrEmpty(updates, queues[q].pending, pending)
      requires forall i, j :: 0 <= i < |base| && 0 <= j < |pending| ==> base[i] != pending[j]
      modifies this`updates, this`queues
      ensures merged == (if old(queues)[q].pending.Some? then old(queues)[q].pending else baseQueue)
      ensures RingOrEmpty(updates, merged, base + pending)
      ensures queues == old(queues)[q := old(queues)[q].(pending := None)]
      ensures updates.Keys == old(updates).Keys
      ensures forall i :: 0 <= i < |base + pending| ==> (base + pending)[i] in old(updates)
      ensures Payloads(updates, base + pending) == Payloads(old(updates), base + pending)
    {
      merged := queues[q].pending;
      if merged.Some? {
        if baseQueue.Some? {
          SpliceRings(baseQueue.value, merged.value, base, pending);
        }
        ClearPending(q);
      } else {
        merged := baseQueue;
      }
      assert forall i :: 0 <= i < |base + pending| ==> (base + pending)[i] in old(updates);
    }

    /** The base queue under construction: an open chain of clones whose payloads are `clones`. */
    ghost predicate BaseQueueIs(first: Option<UpdateId>, last: Option<UpdateId>, cloneOrder: seq<UpdateId>, clones: seq<Pending>, old0: map<UpdateId, Update>)
      reads this
    {
      && IsChain(updates, NextOf, cloneOrder)
      && (first.None? <==> cloneOrder == []) && (first.None? <==> last.None?)
      && (first.Some? ==> first.value == cloneOrder[0] && last == Some(cloneOrder[|cloneOrder| - 1]))
      && (forall id :: id in cloneOrder ==> id !in old0)
      && (forall id :: id in old0 ==> id in updates && updates[id] == old0[id])
      && Payloads(updates, cloneOrder) == clones
    }

    /** Append a fresh clone with the given payload to the base queue under construction. */
    method AppendClone(action: Value, lane: Lane, first: Option<UpdateId>, last: Option<UpdateId>,
                       ghost cloneOrder: seq<UpdateId>, ghost clones: seq<Pending>, ghost old0: map<UpdateId, Update>)
      returns (first': Option<UpdateId>, last': Option<UpdateId>, ghost cloneOrder': seq<UpdateId>)
      requires Valid()
      requires BaseQueueIs(first, last, cloneOrder, clones, old0)
      modifies this`updates, this`nextUpdate
      ensures Valid()
      ensures BaseQueueIs(first', last', cloneOrder', clones + [Pending(action, lane)], old0)
      ensures first.Some? ==> first' == first
    {
      ghost var updatesBefore := updates;
      var clone := CreateUpdate(action, lane);
      if first.None? {
        first' := Some(clone);
      } else {
        first' := first;
        SetNext(last.value, clone);
      }
      last' := Some(clone);
      cloneOrder' := cloneOrder + [clone];
      assert forall i :: 0 <= i < |cloneOrder| ==> PayloadOf(updates[cloneOrder[i]]) == PayloadOf(updatesBefore[cloneOrder[i]]);
      assert Payloads(updates, cloneOrder') == Payloads(updatesBefore, cloneOrder) + [Pending(action, lane)];
    }

    /** One iteration of the do-while of `processUpdateQueue`, as `Step` specifies it. */
    method ReplayOne(call: Call, renderLane: Lane, firstLane: Lane, u: Pending,
                     newState: Value, newBaseState: Value, first: Option<UpdateId>, last: Option<UpdateId>,
                     ghost cloneOrder: seq<UpdateId>, ghost acc: Replay, ghost old0: map<UpdateId, Update>)
      returns (newState': Value, newBaseState': Value, first': Option<UpdateId>, last': Option<UpdateId>, ghost cloneOrder': seq<UpdateId>)
      requires Valid()
      requires BaseQueueIs(first, last, cloneOrder, acc.clones, old0)
      requires newState == acc.state && newBaseState == acc.baseState
      modifies this`updates, this`nextUpdate
      ensures Valid()
      ensures var acc' := Step(call, renderLane, firstLane, false, acc, u);
        && BaseQueueIs(first', last', cloneOrder', acc'.clones, old0)
        && newState' == acc'.state && newBaseState' == acc'.baseState
    {
      newState', newBaseState', first', last', cloneOrder' := newState, newBaseState, first, last, cloneOrder;
      if !IsSubsetOfLanes(renderLane, u.lane) {
        if first.None? {
          newBaseState' := newState;
        }
        first', last', cloneOrder' := AppendClone(u.action, firstLane, first, last, cloneOrder, acc.clones, old0);
      } else {
        if first.Some? {
          first', last', cloneOrder' := AppendClone(u.action, NoLane, first, last, cloneOrder, acc.clones, old0);
        }
        newState' := ApplyAction(call, u.action, newState);
      }
    }

    /** The replay of a ring's payloads, oldest first, as `processUpdateQueue` starts it. */
    ghost function RingReplay(call: Call, baseState: Value, renderLane: Lane, us: seq<Pending>): Replay
      requires |us| > 0
    {
      ReplayAll(call, renderLane, us[0].lane, false, Replay(baseState, baseState, []), us)
    }

    /**
     * The do-while of `processUpdateQueue`: visits every update of the
     * ring exactly once, starting at `pendingUpdate.next`, and stops when it
     * is back at that update.
     */
    method ReplayRing(call: Call, baseState: Value, pendingUpdate: UpdateId, renderLane: Lane, ghost order: seq<UpdateId>)
      returns (newState: Value, newBaseState: Value, first: Option<UpdateId>, last: Option<UpdateId>, ghost cloneOrder: seq<UpdateId>)
      requires Valid()
      requires IsRing(updates, NextOf, pendingUpdate, order)
      modifies this`updates, this`nextUpdate
      ensures Valid()
      ensures var r := RingReplay(call, baseState, renderLane, Payloads(old(updates), order));
        && BaseQueueIs(first, last, cloneOrder, r.clones, old(updates))
        && newState == r.state && newBaseState == r.baseState
    {
      RingDistinct(updates, NextOf, pendingUpdate, order);
      ghost var us := Payloads(updates, order);
      ghost var n := |order|;
      ghost var old0 := updates;
      var pending := updates[pendingUpdate].next.value;
      var firstLane := updates[pending].lane;
      assert firstLane == us[0].lane;
      var update := pending;
      newBaseState := baseState;
      newState := baseState;
      first := None;
      last := None;
      cloneOrder := [];
      ghost var k := 0;
      assert us[..0] == [];
      while true
        invariant 0 <= k < n && update == order[k] && pending == order[0]
        invariant Valid()
        invariant var r := ReplayAll(call, renderLane, firstLane, false, Replay(baseState, baseState, []), us[..k]);
          && BaseQueueIs(first, last, cloneOrder, r.clones, old0)
          && newState == r.state && newBaseState == r.baseState
        decreases n - k
      {
        ghost var acc := ReplayAll(call, renderLane, firstLane, false, Replay(baseState, baseState, []), us[..k]);
        var u := updates[update];
        assert u == old0[order[k]] && PayloadOf(u) == us[k];
        assert u.next == Some(if k < n - 1 then order[k + 1] else order[0]) by {
          if k < n - 1 {
            assert NextOf(old0[order[k]]) == Some(order[k + 1]);
          } else {
            assert NextOf(old0[pendingUpdate]) == Some(order[0]);
          }
        }
        newState, newBaseState, first, last, cloneOrder :=
          ReplayOne(call, renderLane, firstLane, PayloadOf(u), newState, newBaseState, first, last, cloneOrder, acc, old0);
        assert us[..k + 1][..k] == us[..k];
        update := u.next.value;
        k := k + 1;
        assert k < n ==> update == order[k] && order[0] != order[k];
        if update == pending {
          break;
        }
      }
      assert k == n;
      assert us[..n] == us;
    }

    /**
     * `processUpdateQueue`: replays the ring as `ProcessUpdates` specifies,
     * and links the clones into a new ring that becomes the base queue.
     * Existing updates are unchanged.
     */
    method ProcessUpdateQueue(call: Call, baseState: Value, pendingUpdate: Option<UpdateId>, renderLane: Lane, ghost order: seq<UpdateId>)
      returns (result: ProcessResult, ghost cloneOrder: seq<UpdateId>)
      requires Valid()
      requires pendingUpdate.None? ==> order == []
      requires pendingUpdate.Some? ==> IsRing(updates, NextOf, pendingUpdate.value, order)
      modifies this`updates, this`nextUpdate
      ensures Valid()
      ensures forall id :: id in old(updates) ==> id in updates && updates[id] == old(updates)[id]
      ensures forall i :: 0 <= i < |order| ==> order[i] in old(updates)
      ensures var spec := ProcessUpdates(call, baseState, Payloads(old(updates), order), renderLane);
        && result.memoizedState == spec.memoizedState
        && result.baseState == spec.baseState
        && (result.baseQueue.None? <==> spec.baseQueue == [])
        && (result.baseQueue.Some? ==>
              IsRing(updates, NextOf, result.baseQueue.value, cloneOrder)
              && Payloads(updates, cloneOrder) == spec.baseQueue)
      ensures forall id :: id in cloneOrder ==> id !in old(updates)
    {
      result := ProcessResult(baseState, baseState, None);
      cloneOrder := [];
      if pendingUpdate.None? {
        return;
      }
      ghost var us := Payloads(updates, order);
      var newState, newBaseState, first, last;
      newState, newBaseState, first, last, cloneOrder := ReplayRing(call, baseState, pendingUpdate.value, renderLane, order);
      ghost var r := RingReplay(call, baseState, renderLane, us);
      assert |Payloads(updates, cloneOrder)| == |cloneOrder|;
      assert ProcessUpdates(call, baseState, us, renderLane)
        == if |r.clones| == 0 then Processed(r.state, r.state, []) else Processed(r.state, r.baseState, r.clones);
      if first.None? {
        newBaseState := newState;
      } else {
        ghost var updatesBefore := updates;
        SetNext(last.value, first.value);
        ChainCloses(updates, NextOf, cloneOrder);
        assert forall i :: 0 <= i < |cloneOrder| ==> PayloadOf(updates[cloneOrder[i]]) == PayloadOf(updatesBefore[cloneOrder[i]]);
        assert Payloads(updates, cloneOrder) == Payloads(updatesBefore, cloneOrder);
      }
      result := ProcessResult(newState, newBaseState, last);
    }
  }
}
