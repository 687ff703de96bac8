/**
 * `ensureRootIsScheduled(root)` (workLoop.ts) on a snapshot of what it
 * reads and writes: the root's pending lanes, its scheduled callback and
 * that callback's priority, the external scheduler's task list (a task is
 * named by its position in the list), the set of cancelled tasks, the
 * synchronous callback queue and the number of microtasks queued to flush
 * it.
 */
module RootScheduler {
  import opened Wrappers
  import opened FiberLane
  import opened SyncTaskQueue

  /** What a scheduler task runs: `performConcurrentWorkOnRoot(root)`, or the passive-effect flush `commitRoot` schedules. */
  datatype Job = PerformConcurrentWork | FlushPassiveWork

  datatype Task = Task(priority: SchedulerPriority, job: Job)

  datatype SchedState = SchedState(
    pendingLanes: Lanes,
    callbackNode: Option<nat>,
    callbackPriority: Lane,
    tasks: seq<Task>,
    cancelled: set<nat>,
    syncQueue: Option<seq<SyncCallback>>,
    microtasks: nat)

  /** `unstable_cancelCallback(existingCallback)` when there is one. */
  function Cancel(cancelled: set<nat>, node: Option<nat>): (r: set<nat>)
    ensures node.Some? ==> node.value in r
    ensures forall x :: x in cancelled ==> x in r
    ensures forall x :: x in r ==> x in cancelled || node == Some(x)
  {
    if node.Some? then cancelled + {node.value} else cancelled
  }

  /**
   * `ensureRootIsScheduled`: with no pending lane, cancels the scheduled
   * callback and forgets it; with the highest pending lane already the
   * scheduled priority, does nothing; otherwise cancels the scheduled
   * callback and schedules the new one, on the synchronous queue (with a
   * microtask to flush it) for the sync lane, as a scheduler task at the
   * lane's priority for any other.
   */
  function Schedule(s: SchedState): SchedState
  {
    var updateLane := GetHighestPriorityLane(s.pendingLanes);
    if updateLane == NoLane then
      s.(cancelled := Cancel(s.cancelled, s.callbackNode), callbackNode := None, callbackPriority := NoLane)
    else if updateLane == s.callbackPriority then s
    else if updateLane == SyncLane then
      s.(cancelled := Cancel(s.cancelled, s.callbackNode),
         syncQueue := Some(Contents(s.syncQueue) + [PerformSyncWorkOnRoot(updateLane)]),
         microtasks := s.microtasks + 1,
         callbackNode := None, callbackPriority := updateLane)
    else
      s.(cancelled := Cancel(s.cancelled, s.callbackNode),
         tasks := s.tasks + [Task(LanesToSchedulerPriority(updateLane), PerformConcurrentWork)],
         callbackNode := Some(|s.tasks|), callbackPriority := updateLane)
  }

  /** Task `i` is a render task that has not been cancelled. */
  predicate Live(s: SchedState, i: nat)
  {
    i < |s.tasks| && s.tasks[i].job == PerformConcurrentWork && i !in s.cancelled
  }

  /**
   * At most one render task is live, and it is the root's callback, at
   * the scheduler priority of the callback priority; only tasks that were
   * scheduled are cancelled; there is a callback
   * exactly when the callback priority is neither no lane nor the sync
   * lane (which uses the synchronous queue instead).
   */
  ghost predicate OneLive(s: SchedState)
  {
    && (forall i: nat :: Live(s, i) ==> s.callbackNode == Some(i))
    && (forall i :: i in s.cancelled ==> i < |s.tasks|)
    && (s.callbackNode.Some? ==>
          Live(s, s.callbackNode.value) && s.tasks[s.callbackNode.value].priority == LanesToSchedulerPriority(s.callbackPriority))
    && (s.callbackNode.Some? <==> s.callbackPriority != NoLane && s.callbackPriority != SyncLane)
  }

  /** Scheduling leaves the lanes alone and makes the callback priority the highest pending lane. */
  lemma ScheduleTracksHighest(s: SchedState)
    ensures Schedule(s).pendingLanes == s.pendingLanes
    ensures Schedule(s).callbackPriority == GetHighestPriorityLane(s.pendingLanes)
  {
  }

  /** A second call in a row changes nothing. */
  lemma ScheduleIdempotent(s: SchedState)
    ensures Schedule(Schedule(s)) == Schedule(s)
  {
    ScheduleTracksHighest(s);
  }

  /** Scheduling keeps at most one live render task, the root's callback. */
  lemma ScheduleKeepsOneLive(s: SchedState)
    requires OneLive(s)
    ensures OneLive(Schedule(s))
  {
    var r := Schedule(s);
    var updateLane := GetHighestPriorityLane(s.pendingLanes);
    if updateLane != NoLane && updateLane != s.callbackPriority {
      forall i: nat | i < |s.tasks|
        ensures !Live(r, i)
      {
        assert s.tasks[i] == r.tasks[i];
        if Live(s, i) {
          assert s.callbackNode == Some(i);
        }
      }
    } else if updateLane == NoLane {
      forall i: nat | Live(r, i)
        ensures false
      {
        assert Live(s, i);
      }
    }
  }

  /** A render task that is neither the sync lane's nor already scheduled cancels the callback it replaces. */
  lemma ReschedulingCancels(s: SchedState)
    requires OneLive(s) && s.callbackNode.Some?
    requires GetHighestPriorityLane(s.pendingLanes) != s.callbackPriority
    ensures s.callbackNode.value in Schedule(s).cancelled && !Live(Schedule(s), s.callbackNode.value)
  {
  }

  /** Adding the highest pending lane again adds no lane. */
  lemma MergeHighest(lanes: Lanes)
    requires GetHighestPriorityLane(lanes) != NoLane
    ensures MergeLanes(lanes, GetHighestPriorityLane(lanes)) == lanes
  {
    OrAbsorbs(lanes, GetHighestPriorityLane(lanes));
  }

  lemma OrAbsorbs(a: bv32, b: bv32)
    requires b & a == b
    ensures a | b == a
  {
  }

  /**
   * Updates in the sync lane are batched: once one has been scheduled, a
   * second update in the sync lane schedules nothing more.
   */
  lemma SyncUpdatesBatch(s: SchedState)
    requires GetHighestPriorityLane(s.pendingLanes) == SyncLane
    ensures var r := Schedule(s);
      Schedule(r.(pendingLanes := MergeLanes(r.pendingLanes, SyncLane))) == r
  {
    var r := Schedule(s);
    ScheduleTracksHighest(s);
    MergeHighest(s.pendingLanes);
    assert r.(pendingLanes := MergeLanes(r.pendingLanes, SyncLane)) == r;
    ScheduleIdempotent(s);
  }

  /** A task that is not a render task leaves the invariant alone, and so does a change of lanes. */
  lemma OneLiveOther(s: SchedState, t: Task, lanes: Lanes)
    requires OneLive(s) && t.job == FlushPassiveWork
    ensures OneLive(s.(tasks := s.tasks + [t]))
    ensures OneLive(s.(pendingLanes := lanes))
  {
    var s1 := s.(tasks := s.tasks + [t]);
    forall i: nat | Live(s1, i)
      ensures s1.callbackNode == Some(i)
    {
      assert s1.tasks[i] == s.tasks[i] && Live(s, i);
    }
    if s.callbackNode.Some? {
      assert s1.tasks[s.callbackNode.value] == s.tasks[s.callbackNode.value];
    }
  }

  /** A root nothing was ever scheduled for keeps the invariant. */
  lemma OneLiveInitially(lanes: Lanes, tasks: seq<Task>, syncQueue: Option<seq<SyncCallback>>, microtasks: nat)
    requires forall i :: 0 <= i < |tasks| ==> tasks[i].job == FlushPassiveWork
    ensures OneLive(SchedState(lanes, None, NoLane, tasks, {}, syncQueue, microtasks))
  {
  }
}
