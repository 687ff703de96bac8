/**
 * The synchronous callback queue (packages/react-reconciler/src/syncTaskQueue.ts).
 * Callbacks are opaque: `behaviour(cb)` says which callbacks running `cb`
 * schedules on this same queue and whether it then throws.
 */
module SyncTaskQueue {
  import opened Wrappers
  import opened FiberLane

  /** A queued callback: the bound `performSyncWorkOnRoot(root, lane)`, or any other function. */
  datatype SyncCallback = PerformSyncWorkOnRoot(lane: Lane) | OtherCallback(id: nat)

  /** What running a callback does to this queue: the callbacks it schedules, and whether it throws. */
  datatype CallbackRun = CallbackRun(scheduled: seq<SyncCallback>, throws: bool)

  type Behaviour = SyncCallback -> CallbackRun

  /** How many callbacks of `q` run: up to and including the first that throws, or all of them. */
  function RunCount(q: seq<SyncCallback>, behaviour: Behaviour): (n: nat)
    ensures n <= |q|
  {
    if |q| == 0 then 0
    else if behaviour(q[0]).throws then 1
    else 1 + RunCount(q[1..], behaviour)
  }

  /** Callbacks run in order until one throws; a throw stops the rest. */
  lemma {:induction false} RunCountStopsAtFirstThrow(q: seq<SyncCallback>, behaviour: Behaviour)
    ensures forall k :: 0 <= k < RunCount(q, behaviour) - 1 ==> !behaviour(q[k]).throws
    ensures RunCount(q, behaviour) < |q| ==> RunCount(q, behaviour) > 0 && behaviour(q[RunCount(q, behaviour) - 1]).throws
    ensures RunCount(q, behaviour) == |q| <==> forall k :: 0 <= k < |q| - 1 ==> !behaviour(q[k]).throws
  {
    if |q| > 0 && !behaviour(q[0]).throws {
      RunCountStopsAtFirstThrow(q[1..], behaviour);
      assert forall k :: 0 < k < |q| ==> q[1..][k - 1] == q[k];
    }
  }

  /** The contents of a queue that may be null. */
  function Contents(q: Option<seq<SyncCallback>>): seq<SyncCallback>
  {
    if q.None? then [] else q.value
  }

  class SyncQueueState {
    /** `syncQueue`, null when nothing is queued. */
    var syncQueue: Option<seq<SyncCallback>>
    var isFlushingSyncQueue: bool
    /** The callbacks invoked so far, in order. */
    var ran: seq<SyncCallback>

    constructor()
      ensures syncQueue.None? && !isFlushingSyncQueue && ran == []
    {
      syncQueue := None;
      isFlushingSyncQueue := false;
      ran := [];
    }

    /** `schedulerSyncCallback(callback)`: creates the queue or appends to it. */
    method SchedulerSyncCallback(cb: SyncCallback)
      modifies this`syncQueue
      ensures syncQueue == Some(Contents(old(syncQueue)) + [cb])
    {
      if syncQueue.None? {
        assert Contents(syncQueue) + [cb] == [cb];
        syncQueue := Some([cb]);
      } else {
        syncQueue := Some(syncQueue.value + [cb]);
      }
    }

    /**
     * `flushSyncCallbacks()`: unless already flushing or nothing is queued,
     * runs the queued callbacks in order (the `forEach` range is fixed when
     * it starts, so callbacks scheduled meanwhile are not run) until one
     * throws, and then drops the queue, scheduled callbacks included.
     */
    method FlushSyncCallbacks(behaviour: Behaviour)
      modifies this
      ensures old(isFlushingSyncQueue) || old(syncQueue).None? ==>
        syncQueue == old(syncQueue) && isFlushingSyncQueue == old(isFlushingSyncQueue) && ran == old(ran)
      ensures !old(isFlushingSyncQueue) && old(syncQueue).Some? ==>
        && syncQueue.None? && !isFlushingSyncQueue
        && ran == old(ran) + old(syncQueue).value[..RunCount(old(syncQueue).value, behaviour)]
    {
      if !isFlushingSyncQueue && syncQueue.Some? {
        isFlushingSyncQueue := true;
        ghost var q0 := syncQueue.value;
        var n := |syncQueue.value|;
        var i := 0;
        while i < n
          invariant 0 <= i <= n == |q0|
          invariant syncQueue.Some? && |syncQueue.value| >= n && syncQueue.value[..n] == q0
          invariant RunCount(q0, behaviour) == i + RunCount(q0[i..], behaviour)
          invariant ran == old(ran) + q0[..i]
          decreases n - i
        {
          var cb := syncQueue.value[i];
          assert cb == q0[i];
          ran := ran + [cb];
          var run := behaviour(cb);
          // Callbacks scheduled by `cb` land on the same array, after the fixed range.
          syncQueue := Some(syncQueue.value + run.scheduled);
          assert syncQueue.value[..n] == q0;
          assert q0[..i + 1] == q0[..i] + [cb];
          assert q0[i..] == [cb] + q0[i + 1..];
          if run.throws {
            assert RunCount(q0, behaviour) == i + 1;
            break;
          }
          i := i + 1;
        }
        assert q0[..|q0|] == q0;
        isFlushingSyncQueue := false;
        syncQueue := None;
      }
    }
  }
}
