# big-react and its companion projects, modelled in Dafny

This project models the core of a small React re-implementation
(`big-react`) and of the companion projects kept in the same repository.

**big-react reconciler.**
- Lanes and effect flags are 32-bit bit sets (`bv32`).
- Update queues are circular lists. They are kept in an arena of update nodes, with each ring's order as a ghost sequence.
- Fibers live in an arena `map<FiberId, Fiber>` held by the class `Fiber.FiberHeap`. Ids stand for object references.
- Modelled operations:
  - the single-child and array child diff;
  - `beginWork` and `completeWork`;
  - the hooks runtime (`useState`, `useEffect`, `useRef`, dispatch);
  - the commit phase (placement, update, deletion, refs, passive effects);
  - the work loop with its root scheduling and the sync task queue;
  - the entry points `createContainer` and `updateContainer`.
- The noop host (`react-noop-renderer`) is modelled with its instance counter and its children arrays. `childToJSX` reads a container back as JSX, and `createRoot` hands out root ids.
- `jsx` builds elements from a config.

**Companion projects.**
- The low-code editor's command history (undo/redo, placeTop/placeBottom, delete, import) and its block focus.
- The vuex store with its module collection.
- The mini-vue runtime:
  - reactivity: effects, `track`/`trigger`, computed, refs;
  - the job scheduler, `createVNode`/`h`, the component instance proxy and the event invoker cache.
- The webpack clone's path helpers, `tryExtensions` and command-line option parsing.
- The file-slice-upload chunker.

Pure code is written as datatypes, functions and lemmas. Code that mutates fields, arrays or module state is written as classes with `modifies` clauses and `while` loops. Each such method is proved against a specification function.

**Behaviour kept as the code has it.** These are modelled faithfully rather than repaired:
- `processUpdateQueue` gives a skipped update's clone the lane of the first pending update (`pending.lane`, updateQueue.ts:95 and :108) instead of its own. See `UpdateQueue.DocExampleSecondRenderAsWritten`.
- `updateSlot` gives up the slot for a text child exactly when the old key is null (childFiber.ts:420).
- `insertChildToContainer` computes the insert index before removing the child (hostConfig.ts:97-102). A child that preceded `before` therefore lands after it (`NoopHost.InsertLandsAfterWhenPreceding`).
- `flushSyncCallbacks` fixes its range when the flush starts, so callbacks queued during a flush are dropped when the queue is reset.
- `renderRoot` handles a throw by clearing the work-in-progress node and returning `RootCompleted`, so a partial tree is committed (workLoop.ts:244-263).
- `commitRoot` resets `rootDoesHasPassiveEffect` at the end of each call.
- In mini-vue, `trigger` for an added array index takes the key's own dependency set as the set to run. It then adds the `length` effects into that set, so the index's dependency set keeps them (effect.ts:106-116). See `VueReactivity.AddedIndexKeepsLengthEffects`.
- The webpack option parser lets the defaults override the config object (webpack-plain/src/index.ts:25). See `WebpackCli.DefaultsOverrideConfig`.

Three commit-phase defects would make the model useless if modelled as written: `getHostSibling` never ends on some trees, and placement and deletion misplace or miss host nodes. They are modelled both ways. The corrected version is the one the rest of the model uses (see "## Findings").

## Model

| member | source | states |
|---|---|---|
| FiberLane.MergeLanes | big-react/packages/react-reconciler/src/fiberLane.ts:32-34 | the merge contains both inputs |
| FiberLane.RemoveLanes | big-react/packages/react-reconciler/src/fiberLane.ts:36-38 | the result shares no lane with `subset`, and adding back the removed lanes gives the input |
| FiberLane.GetHighestPriorityLane | big-react/packages/react-reconciler/src/fiberLane.ts:57-60 | NoLane iff the set is empty; otherwise a single lane of the set with no lower bit set in it |
| FiberLane.IsSubsetOfLanes | big-react/packages/react-reconciler/src/fiberLane.ts:62-65 | true iff every bit of `subset` is in `set` |
| FiberLane.RequestUpdateLane | big-react/packages/react-reconciler/src/fiberLane.ts:43-55 | a truthy transition flag gives TransitionLane; otherwise one of the lanes the scheduler priority maps to |
| FiberLane.LanesAreOrderedBits | big-react/packages/react-reconciler/src/fiberLane.ts:16-30 | the lane constants are single bits, ordered Sync < InputContinuous < Default < Transition < Idle |
| FiberLane.SyncLaneWinsAnyMix | big-react/packages/react-reconciler/src/fiberLane.ts:57-60 | any lane set holding SyncLane has SyncLane as its highest priority |
| FiberLane.MergeLanesLaws | big-react/packages/react-reconciler/src/fiberLane.ts:32-34 | merging is commutative, associative and idempotent, with NoLanes as unit |
| FiberLane.MergeAddsNothing | big-react/packages/react-reconciler/src/fiberLane.ts:32-34 | a lane of a merge is a lane of one of its inputs |
| FiberLane.NoLaneIsSubsetOfAll | big-react/packages/react-reconciler/src/fiberLane.ts:62-65 | NoLane is in every lane set |
| FiberLane.RemoveUndoesMerge | big-react/packages/react-reconciler/src/fiberLane.ts:32-38 | removing a lane just merged into a set without it gives the set back |
| FiberLane.PriorityLaneCorrespondence | big-react/packages/react-reconciler/src/fiberLane.ts:71-105 | the lane/priority maps invert each other on Sync/InputContinuous/Default and Immediate/UserBlocking/Normal; every other lane maps to Idle priority, Low and Idle priority to NoLane |
| SyncTaskQueue.RunCount | big-react/packages/react-reconciler/src/syncTaskQueue.ts:18-20 | no more callbacks run than are queued |
| SyncTaskQueue.RunCountStopsAtFirstThrow | big-react/packages/react-reconciler/src/syncTaskQueue.ts:16-27 | callbacks run in order; all run iff none before the last throws; fewer run only when the last one run threw |
| SyncTaskQueue.SyncQueueState.SchedulerSyncCallback | big-react/packages/react-reconciler/src/syncTaskQueue.ts:7-13 | the queue is created with the callback or the callback is appended |
| SyncTaskQueue.SyncQueueState.FlushSyncCallbacks | big-react/packages/react-reconciler/src/syncTaskQueue.ts:15-29 | while flushing or with nothing queued nothing changes; otherwise the callbacks up to the first throw run in order and the queue is emptied and the flag reset |
| RootScheduler.Cancel | big-react/packages/react-reconciler/src/workLoop.ts:72-74 | the cancelled set gains exactly the existing callback, if any |
| RootScheduler.ScheduleTracksHighest | big-react/packages/react-reconciler/src/workLoop.ts:65-116 | `ensureRootIsScheduled` keeps the lanes and sets the callback priority to the highest pending lane |
| RootScheduler.ScheduleIdempotent | big-react/packages/react-reconciler/src/workLoop.ts:80-86 | scheduling twice in a row is scheduling once |
| RootScheduler.ScheduleKeepsOneLive | big-react/packages/react-reconciler/src/workLoop.ts:65-116 | at most one render task stays live, and it is the root's callback |
| RootScheduler.ReschedulingCancels | big-react/packages/react-reconciler/src/workLoop.ts:88-92 | a new priority cancels the callback it replaces |
| RootScheduler.MergeHighest | big-react/packages/react-reconciler/src/fiberLane.ts:57-60 | the highest pending lane is already pending |
| RootScheduler.SyncUpdatesBatch | big-react/packages/react-reconciler/src/workLoop.ts:80-104 | a second sync-lane update after one is scheduled schedules nothing more |
| RootScheduler.OneLiveOther | big-react/packages/react-reconciler/src/workLoop.ts:65-116 | tasks that are not render tasks, and changes of lanes, keep the one-live-task invariant |
| RootScheduler.OneLiveInitially | big-react/packages/react-reconciler/src/fiberRoot.ts:34-35 | a root with no callback and only passive tasks meets the invariant |
| FiberRoot.FiberRootNode.constructor | big-react/packages/react-reconciler/src/fiberRoot.ts:23-42 | the root points at the host root fiber and the fiber's stateNode back at it; lanes, callback and passive lists start empty; no other fiber changes |
| FiberRoot.FiberRootNode.MarkRootFinished | big-react/packages/react-reconciler/src/fiberLane.ts:67-69 | the lane is cleared from the pending lanes, nothing else changes |
| FiberRoot.FiberRootNode.MarkRootUpdated | big-react/packages/react-reconciler/src/workLoop.ts:118-121 | the lane is added to the pending lanes, which keep the old ones |
| Fiber.NewFiber | big-react/packages/react-reconciler/src/fiber.ts:24-58 | tag and props as given, a nullish key becomes null, every link, flag and state starts empty |
| Fiber.FiberFromFragment | big-react/packages/react-reconciler/src/fiber.ts:122-125 | a Fragment fiber whose props are the elements |
| Fiber.FiberFromText | big-react/packages/react-reconciler/src/fiber.ts:117-120 | a HostText fiber with props `{textContent}` and a null key |
| Fiber.FiberFromElement | big-react/packages/react-reconciler/src/fiber.ts:90-115 | a string type gives a host component, the fragment type a fragment over `props.children`, anything else a function component; type, ref, props and key are copied |
| Fiber.FiberHeap.Alloc | big-react/packages/react-reconciler/src/fiber.ts:24-58 | a fresh fiber id holding the record; existing fibers unchanged |
| Fiber.FiberHeap.Put | big-react/packages/react-reconciler/src/fiber.ts:5-22 | one fiber's fields are replaced, nothing else changes |
| Fiber.FiberHeap.CreateWorkInProgress | big-react/packages/react-reconciler/src/fiber.ts:61-88 | on mount a new fiber paired with `current`, on update the existing alternate with the flags and deletions reset; both copy type, ref, queue, child and memoized fields and take the new props; return and sibling links are not touched |
| Fiber.ElementTags | big-react/packages/react-reconciler/src/fiber.ts:94-109 | function and unknown types make function components, strings host components, the fragment symbol a fragment |
| FiberFlags.FlagsAreDistinctBits | big-react/packages/react-reconciler/src/fiberFlags.ts:3-24 | the five flags are distinct single bits |
| FiberFlags.MutationMaskExactly | big-react/packages/react-reconciler/src/fiberFlags.ts:19 | a flag word meets the mutation mask iff it holds Placement, Update, ChildDeletion or Ref; Passive is not in it |
| FiberFlags.LayoutMaskWithinMutationMask | big-react/packages/react-reconciler/src/fiberFlags.ts:19-21 | the layout mask is Ref, so a fiber in the layout phase is in the mutation phase |
| FiberFlags.DeletionEntersMutationAndPassive | big-react/packages/react-reconciler/src/fiberFlags.ts:19-27 | the passive mask is met iff Passive or ChildDeletion is set; a deletion alone enters both phases |
| FiberFlags.MarkPassiveBits | big-react/packages/react-reconciler/src/fiberHooks.ts:95-118 | marking Passive keeps every flag and sets Passive |
| FiberFlags.MarkUpdateBits | big-react/packages/react-reconciler/src/completeWork.ts:78-80 | `markUpdate` keeps every flag, sets Update, leaves Ref alone |
| FiberFlags.MarkRefBits | big-react/packages/react-reconciler/src/completeWork.ts:128-130 | `markRef` keeps every flag, sets Ref, leaves Update alone |
| FiberFlags.WithoutBits | big-react/packages/react-reconciler/src/commitWork.ts:62-102 | clearing bits removes them, keeps every other bit, and is a no-op when none was set |
| FiberFlags.WithoutTwice | big-react/packages/react-reconciler/src/commitWork.ts:62-102 | clearing two sets of bits in turn is clearing their union |
| JsValues.Coalesce | big-react/packages/react-reconciler/src/fiber.ts:34 | `a ?? b` is `b` exactly when `a` is null or undefined |
| JsValues.ToJsString | big-react/packages/react-reconciler/src/childFiber.ts:423 | `"" + v` is the string itself or the decimal text of a number; a symbol throws |
| Ring.WalkFromOldest | big-react/packages/react-reconciler/src/updateQueue.ts:93-96 | the `pending` field is the newest update and its `next` the oldest; walking the ring from there meets every update once, oldest first |
| Ring.RingDistinct | big-react/packages/react-reconciler/src/updateQueue.ts:13-18 | no update occurs twice in a pending ring |
| Ring.ChainCloses | big-react/packages/react-reconciler/src/updateQueue.ts:38-51 | linking a chain's last node back to its first makes a ring |
| UpdateQueue.Payloads | big-react/packages/react-reconciler/src/updateQueue.ts:7-11 | one (action, lane) pair per listed update, in list order |
| UpdateQueue.ApplyAction | big-react/packages/react-reconciler/src/updateQueue.ts:130-136 | a non-function action replaces the state |
| UpdateQueue.EligibleOnly | big-react/packages/react-reconciler/src/updateQueue.ts:105-106 | the updates whose lane the render lane includes, in order |
| UpdateQueue.ClonesFrom | big-react/packages/react-reconciler/src/updateQueue.ts:106-126 | one clone per update from the first skip on |
| UpdateQueue.ReplayStateIsEligibleFold | big-react/packages/react-reconciler/src/updateQueue.ts:104-140 | the running state is always the eligible updates applied in order to the base state |
| UpdateQueue.ReplayWithoutSkip | big-react/packages/react-reconciler/src/updateQueue.ts:119-137 | before the first skip no clone exists and every update is eligible |
| UpdateQueue.ReplayAfterSkip | big-react/packages/react-reconciler/src/updateQueue.ts:106-118 | once an update is skipped the clone list is never empty again |
| UpdateQueue.ReplayFromFirstSkip | big-react/packages/react-reconciler/src/updateQueue.ts:106-126 | from the first skip at `k`: the base state is the state after the first `k` updates and every later update is cloned |
| UpdateQueue.MemoizedStateAppliesEligible | big-react/packages/react-reconciler/src/updateQueue.ts:79-156 | `processUpdateQueue`'s memoized state applies exactly the eligible updates, in arrival order |
| UpdateQueue.NoSkipKeepsNoBaseQueue | big-react/packages/react-reconciler/src/updateQueue.ts:142-152 | nothing skipped iff the base queue is empty, and then the base state is the memoized state |
| UpdateQueue.FirstSkipFixesBase | big-react/packages/react-reconciler/src/updateQueue.ts:106-126 | the base state is the state after the updates before the first skip; the base queue clones every update from there on, skipped ones in the first update's lane, eligible ones in NoLane |
| UpdateQueue.DocExampleFirstRender | big-react/packages/react-reconciler/src/updateQueue.ts:158-185 | the documented first render at DefaultLane gives memoized 11, base 1 and two clones |
| UpdateQueue.DocExampleSecondRenderAsWritten | big-react/packages/react-reconciler/src/updateQueue.ts:108 | as written, the second render at SyncLane skips the `:= 3` clone again (it carries DefaultLane) and gives 11 |
| UpdateQueue.DocExampleSecondRenderIntended | big-react/packages/react-reconciler/src/updateQueue.ts:187-193 | with each clone keeping its own update's lane the second render gives the documented 13 |
| UpdateQueue.IntendedClonesKeepSkippedLane | big-react/packages/react-reconciler/src/updateQueue.ts:106-118 | with own lanes, a skipped update's clone is the update itself, so it is eligible at its own lane next time |
| UpdateQueue.SplicedRing | big-react/packages/react-reconciler/src/fiberHooks.ts:199-213 | relinking the newest node of each of two disjoint rings to the other's oldest gives one ring, base first |
| UpdateQueue.UpdateStore.CreateUpdate | big-react/packages/react-reconciler/src/updateQueue.ts:20-26 | a fresh update with the action and lane and no successor; nothing else changes |
| UpdateQueue.UpdateStore.CreateUpdateQueue | big-react/packages/react-reconciler/src/updateQueue.ts:28-35 | a fresh queue with no pending update and no dispatch; nothing else changes |
| UpdateQueue.UpdateStore.EnqueueUpdate | big-react/packages/react-reconciler/src/updateQueue.ts:38-51 | the new update becomes `shared.pending` and the ring grows by it at its newest end; no action or lane changes |
| UpdateQueue.UpdateStore.SetDispatch | big-react/packages/react-reconciler/src/fiberHooks.ts:178-180 | the queue's dispatch is set, nothing else changes |
| UpdateQueue.UpdateStore.ClearPending | big-react/packages/react-reconciler/src/fiberHooks.ts:217-218 | the queue's `pending` field is cleared, nothing else changes |
| UpdateQueue.UpdateStore.SpliceRings | big-react/packages/react-reconciler/src/fiberHooks.ts:199-213 | the base ring and the pending ring become one ring, base updates first; only the two newest nodes are relinked |
| UpdateQueue.UpdateStore.TakePending | big-react/packages/react-reconciler/src/fiberHooks.ts:193-219 | the pending ring is appended to the base ring (spliced when both exist), the `pending` field cleared, and no payload changes |
| UpdateQueue.UpdateStore.AppendClone | big-react/packages/react-reconciler/src/updateQueue.ts:108-125 | the base queue under construction gains one fresh clone at its end |
| UpdateQueue.UpdateStore.ReplayOne | big-react/packages/react-reconciler/src/updateQueue.ts:105-139 | one pass of the do-while does what the specification step `Step` says |
| UpdateQueue.UpdateStore.ReplayRing | big-react/packages/react-reconciler/src/updateQueue.ts:93-140 | the do-while visits every update of the ring once, oldest first, and computes the specified replay |
| UpdateQueue.UpdateStore.ProcessUpdateQueue | big-react/packages/react-reconciler/src/updateQueue.ts:79-156 | the result's memoized state, base state and base queue are those of `ProcessUpdates` over the ring's payloads; existing updates are untouched and the clones are fresh |
| HookDispatch.DispatchSetState | big-react/packages/react-reconciler/src/fiberHooks.ts:275-284 | one new update with the action and the requested lane joins the end of the queue's ring; the fiber's root gains the lane and is scheduled when the climb ends at a HostRoot, and is left alone otherwise; no existing update changes |
| FiberHooks.ChainedAppend | big-react/packages/react-reconciler/src/fiberHooks.ts:303-307 | linking a fresh hook after the last one extends the hook list by it |
| FiberHooks.ChainedFrame | big-react/packages/react-reconciler/src/fiberHooks.ts:286-310 | changes that keep every `next` link of a hook list keep the list |
| FiberHooks.AreHookInputsEqual | big-react/packages/react-reconciler/src/fiberHooks.ts:360-370 | the loop's answer is the specification `DepsEqual`: null previous deps are unequal, otherwise the common prefix is compared with `Object.is` |
| FiberHooks.DepsEqualSameLength | big-react/packages/react-reconciler/src/fiberHooks.ts:360-370 | for deps of equal length, equal iff element-wise equal |
| FiberHooks.DepsPrefixQuirk | big-react/packages/react-reconciler/src/fiberHooks.ts:363 | only the shorter length is compared: an equal prefix counts as equal and empty deps equal any list, but never null previous deps |
| FiberHooks.HookRuntime.BeginRender | big-react/packages/react-reconciler/src/fiberHooks.ts:41-58 | the fiber becomes the rendering one with no hooks and no effect queue, the lane is recorded, and the dispatcher is the mount one iff the fiber has no alternate; the current hook list is the alternate's |
| FiberHooks.HookRuntime.BegunClean | big-react/packages/react-reconciler/src/fiberHooks.ts:41-58 | after `renderWithHooks` starts, the hook-list, cursor and effect-ring invariants hold |
| FiberHooks.HookRuntime.EndRender | big-react/packages/react-reconciler/src/fiberHooks.ts:59-69 | the hook list, effect queue and flags built in the render go to the fiber, whose memoizedState is its first hook; the cursors and the lane are reset |
| FiberHooks.HookRuntime.MountWorkInProgressHook | big-react/packages/react-reconciler/src/fiberHooks.ts:286-310 | outside a render it throws "请在 FunctionComponent 内调用 Hook" and changes nothing; otherwise a fresh empty hook becomes the last of the list |
| FiberHooks.HookRuntime.NextCurrentHook | big-react/packages/react-reconciler/src/fiberHooks.ts:314-327 | the next current hook is the alternate's hook at the position being built, or null past its end |
| FiberHooks.HookRuntime.UpdateWorkInProgressHook | big-react/packages/react-reconciler/src/fiberHooks.ts:312-358 | past the end of the current list it throws the "more hooks than last time" error naming the component; otherwise the current hook advances and a fresh copy of it, unlinked, becomes the last of the list |
| FiberHooks.HookRuntime.ReplaceHook | big-react/packages/react-reconciler/src/fiberHooks.ts:92 | replacing a hook by a record with the same link keeps both hook lists well formed |
| FiberHooks.HookRuntime.EffectQueue | big-react/packages/react-reconciler/src/fiberHooks.ts:133-140 | the fiber's queue, or a fresh one made by `createFunctionComponentUpdateQueue` with no effect when it has none |
| FiberHooks.HookRuntime.LinkEffect | big-react/packages/react-reconciler/src/fiberHooks.ts:141-152 | a fresh effect becomes the newest of the effect ring and the queue's `lastEffect` |
| FiberHooks.HookRuntime.PushEffect | big-react/packages/react-reconciler/src/fiberHooks.ts:120-154 | a new effect with the given fields becomes the newest of the fiber's effect ring, whose queue is created when missing |
| FiberHooks.HookRuntime.PushPassiveEffect | big-react/packages/react-reconciler/src/fiberHooks.ts:105-116 | when the effect has to run the fiber is flagged Passive and the tag gets HasEffect; the hook holds the new effect |
| FiberHooks.HookRuntime.PushEffectInto | big-react/packages/react-reconciler/src/fiberHooks.ts:92 | the hook's memoizedState is the pushed effect |
| FiberHooks.HookRuntime.MountEffect | big-react/packages/react-reconciler/src/fiberHooks.ts:86-93 | outside a render it throws; otherwise a fresh hook holds a new Passive\|HasEffect effect with no destroy and the given deps, and the fiber is flagged Passive |
| FiberHooks.HookRuntime.UpdateEffectHook | big-react/packages/react-reconciler/src/fiberHooks.ts:100-117 | the new effect keeps the previous destroy; it gets HasEffect, and the fiber Passive, iff the deps changed |
| FiberHooks.HookRuntime.UpdateEffect | big-react/packages/react-reconciler/src/fiberHooks.ts:95-118 | past the end of the current list it throws; otherwise the copied hook holds a new effect that keeps the previous destroy and runs iff the deps changed |
| FiberHooks.HookRuntime.InitStateHook | big-react/packages/react-reconciler/src/fiberHooks.ts:174-181 | a fresh queue whose dispatch is bound to the rendering fiber and that queue; the hook holds the state as state and base state |
| FiberHooks.HookRuntime.MountState | big-react/packages/react-reconciler/src/fiberHooks.ts:162-183 | outside a render it throws; otherwise the state is the initial state (a function one is called), held by a fresh hook with a new queue and a bound dispatch |
| FiberHooks.HookRuntime.MergePending | big-react/packages/react-reconciler/src/fiberHooks.ts:193-219 | the pending updates are appended to the current hook's base queue, which is stored on the current hook; pending is cleared and no payload changes |
| FiberHooks.HookRuntime.ProcessStateQueue | big-react/packages/react-reconciler/src/fiberHooks.ts:221-231 | with a base queue the hook takes the memoized state, base state and base queue `processUpdateQueue` computes; without one nothing changes |
| FiberHooks.HookRuntime.UpdateStateHook | big-react/packages/react-reconciler/src/fiberHooks.ts:190-233 | the merged queue is processed from the hook's base state, as `StateUpdated` states |
| FiberHooks.HookRuntime.UpdateState | big-react/packages/react-reconciler/src/fiberHooks.ts:185-234 | past the end of the current list it throws; otherwise the copied hook's state is its base state with the base queue and then the pending updates processed at the render lane |
| FiberHooks.HookRuntime.RefInto | big-react/packages/react-reconciler/src/fiberHooks.ts:265-266 | a fresh ref object `{current: initial}` held by the hook |
| FiberHooks.HookRuntime.MountRef | big-react/packages/react-reconciler/src/fiberHooks.ts:263-268 | outside a render it throws; otherwise a fresh hook holds a fresh ref whose `current` is the initial value |
| FiberHooks.HookRuntime.UpdateRef | big-react/packages/react-reconciler/src/fiberHooks.ts:270-273 | past the end of the current list it throws; otherwise the result is the ref object the hook held last render, and no ref is made or changed |
| FiberHooks.PassiveTag | big-react/packages/react-reconciler/src/fiberHooks.ts:109-116 | a passive effect's tag always has Passive, and HasEffect iff it is to run |
| FiberHooks.HooksMemo | big-react/packages/react-reconciler/src/fiberHooks.ts:301 | a function component's memoizedState reads back as its first hook |
| FiberHooks.AppendedRing | big-react/packages/react-reconciler/src/fiberHooks.ts:142-151 | linking a new effect after the newest keeps a ring with it as newest and changes no other effect's payload |
| Jsx.ReactElement | big-react/packages/react/src/jsx.ts:19-29 | a valid element carrying exactly the given type, key, ref and props |
| Jsx.PropsOf | big-react/packages/react/src/jsx.ts:48-53 | the props are the config's own properties other than key, ref, __self and __source, with their values |
| Jsx.JsxElement | big-react/packages/react/src/jsx.ts:31-56 | a null config throws when its key is read; otherwise a valid element with the non-reserved props; the key is the config's key as a string, else `maybeKey` as a string, else null; the ref is the config's unless undefined |
| Jsx.JsxDevElement | big-react/packages/react/src/jsx.ts:66-91 | `jsxDEV` gives the same result as `jsx` on every input, its body being the same |
| Jsx.CreateElement | big-react/packages/react/src/jsx.ts:93-127 | a nullish config gives null key and ref; otherwise key and ref are taken as in `jsx`; one extra argument becomes `props.children`, several an array of them, none keeps the config's children |
| Jsx.IsValidElementExactly | big-react/packages/react/src/jsx.ts:129-131 | a value is an element iff it is an object whose `$$typeof` is the element symbol |
| Jsx.CreateElementWithoutConfig | big-react/packages/react/src/__tests__/ReactElement-test.js:21-28 | an element made with no config has null key and ref and empty props |
| Jsx.CreateElementExtractsKeyAndRef | big-react/packages/react/src/__tests__/ReactElement-test.js:119-129 | key and ref are taken out of the config and the rest become props |
| Jsx.CreateElementNullKey | big-react/packages/react/src/__tests__/ReactElement-test.js:131-141 | a null key becomes the string "null" and a null ref stays null |
| Jsx.CreateElementNumberKey | big-react/packages/react/src/__tests__/ReactElement-test.js:163-173 | a number key becomes its decimal text |
| Jsx.CreateElementIgnoresUndefinedKeyAndRef | big-react/packages/react/src/__tests__/ReactElement-test.js:143-154 | undefined key and ref are ignored |
| Jsx.CreateElementChildren | big-react/packages/react/src/__tests__/ReactElement-test.js:187-225 | one extra argument replaces `config.children` (even null), none keeps it, several form an array |
| NoopHost.IndexOf | big-react/packages/react-noop-renderer/src/hostConfig.ts:85 | the first index holding the child, or -1 iff it is absent |
| NoopHost.RemoveAt | big-react/packages/react-noop-renderer/src/hostConfig.ts:89 | `splice(i, 1)` removes exactly the element at `i` |
| NoopHost.InsertAt | big-react/packages/react-noop-renderer/src/hostConfig.ts:102 | `splice(i, 0, x)` puts `x` at `i` and keeps every other element |
| NoopHost.NoopHostState.CreateInstance | big-react/packages/react-noop-renderer/src/hostConfig.ts:25-34 | a new instance with the next id from the counter, no children and parent -1; no other node changes |
| NoopHost.NoopHostState.CreateTextInstance | big-react/packages/react-noop-renderer/src/hostConfig.ts:47-54 | a new text instance with the next id from the same counter and parent -1 |
| NoopHost.NoopHostState.AppendInitialChild | big-react/packages/react-noop-renderer/src/hostConfig.ts:36-45 | throws "不能重复挂载 child" and changes nothing iff the child already has another parent; otherwise the child records the parent's id and is pushed at the end of its children; nothing else changes |
| NoopHost.NoopHostState.AppendChildToContainer | big-react/packages/react-noop-renderer/src/hostConfig.ts:56-64 | as `appendInitialChild`, but the parent id read is `rootId`, which an instance parent lacks (undefined) |
| NoopHost.NoopHostState.CommitTextUpdate | big-react/packages/react-noop-renderer/src/hostConfig.ts:80-82 | the text instance's text is replaced, nothing else changes |
| NoopHost.NoopHostState.CommitUpdate | big-react/packages/react-noop-renderer/src/hostConfig.ts:66-78 | a HostText fiber's instance gets `memoizedProps?.textContent ?? ""`; any other tag changes nothing |
| NoopHost.NoopHostState.RemoveChild | big-react/packages/react-noop-renderer/src/hostConfig.ts:84-90 | throws "child 不存在" iff the child is absent; otherwise its first occurrence is removed and nothing else changes |
| NoopHost.NoopHostState.InsertChildToContainer | big-react/packages/react-noop-renderer/src/hostConfig.ts:92-103 | throws "before 不存在" iff `before` is absent; otherwise the child's first occurrence is removed and the child inserted at `before`'s index taken before the removal |
| NoopHost.OnlyKidsView | big-react/packages/react-noop-renderer/src/hostConfig.ts:36-103 | a host change confined to one parent's children shows in the view as that parent's new children only |
| NoopHost.KidsOfView | big-react/packages/react-noop-renderer/src/hostConfig.ts:4-21 | in the view a parent has the children the host records for it |
| NoopHost.TextViewOf | big-react/packages/react-noop-renderer/src/hostConfig.ts:80-82 | setting a text shows in the view as that node's text and nothing else |
| NoopHost.InsertResultCount | big-react/packages/react-noop-renderer/src/hostConfig.ts:92-103 | an insert moves a present child and adds an absent one; no child is lost or duplicated |
| NoopHost.RemoveFirstOccurrence | big-react/packages/react-noop-renderer/src/hostConfig.ts:84-90 | removal keeps every other child in order |
| NoopHost.InsertLandsAfterWhenPreceding | big-react/packages/react-noop-renderer/src/hostConfig.ts:93-102 | a child that stood before `before` lands just after it, because the index is taken before the removal |
| NoopHost.InsertLandsBeforeOtherwise | big-react/packages/react-noop-renderer/src/hostConfig.ts:93-102 | a child that did not precede `before`, or was absent, lands just before it |
| NoopHost.InsertExample | big-react/packages/react-noop-renderer/src/hostConfig.ts:93-102 | moving 1 before 3 in [1, 2, 3] gives [2, 3, 1] |
| NoopRoot.JoinText | big-react/packages/react-noop-renderer/src/root.ts:63-65 | joining no items gives the empty string |
| NoopRoot.HostElement | big-react/packages/react-noop-renderer/src/root.ts:80-87 | an instance reads back as a valid element with its type and props, null key and ref |
| NoopRoot.ChildrenToJsx | big-react/packages/react-noop-renderer/src/root.ts:53-68 | no children read back as null, one as that child, several as an array only when one of them is not text (all-text ones are joined) |
| NoopRoot.ChildrenAsJsx | big-react/packages/react-noop-renderer/src/root.ts:33-46 | an array result is wrapped in a fragment element, anything else is returned as is |
| NoopRoot.ChildrenAsJsxIsNeverArray | big-react/packages/react-noop-renderer/src/root.ts:33-46 | a container never reads back as a bare array; several non-text children come back as a fragment |
| NoopRoot.AdjacentTextsJoin | big-react/packages/react-noop-renderer/src/root.ts:62-65 | two adjacent text instances read back as one string |
| NoopRoot.InstanceWithTextChild | big-react/packages/react-noop-renderer/src/root.ts:71-87 | an instance with one text child reads back as an element whose `children` prop is that text |
| FiberReconciler.CreateContainer | big-react/packages/react-reconciler/src/fiberReconciler.ts:12-19 | a new HostRoot fiber with empty props and null key, a root object over it with empty lanes and callback, and a fresh empty update queue; no other fiber or queue changes |
| FiberReconciler.UpdateContainerLane | big-react/packages/react-reconciler/src/fiberReconciler.ts:25-28 | the lane is SyncLane, or TransitionLane while a transition is active |
| FiberReconciler.UpdateContainer | big-react/packages/react-reconciler/src/fiberReconciler.ts:23-38 | exactly one new update carrying the element joins the end of the HostRoot fiber's ring; the lane is added to the root's pending lanes and the root scheduled; the element is returned unchanged |
| NoopRenderer.RootIds.CreateRoot | big-react/packages/react-noop-renderer/src/root.ts:17-24 | a container with the next root id (the counter is bumped) and no children, and a reconciler root over it as `createContainer` makes it |
| ChildArray.KindOf | big-react/packages/react-reconciler/src/childFiber.ts:324-347 | a child is text exactly when it is a non-empty string or a number (and then its string form is the text), an element exactly when it is a valid React element, an array exactly when it is an array, and invalid exactly when it is any other non-null object |
| ChildArray.TextNodeMake | big-react/packages/react-reconciler/src/childFiber.ts:493-504 | the old fiber is reused exactly when it exists and is a HostText, with the text string as its new props; otherwise a fresh text fiber is made |
| ChildArray.FragmentMake | big-react/packages/react-reconciler/src/childFiber.ts:475-491 | the old fiber is reused exactly when it exists and is a Fragment, with the children as its props; otherwise a fresh fragment fiber with the given key is made |
| ChildArray.ElementMake | big-react/packages/react-reconciler/src/childFiber.ts:450-473 | a fragment element goes to the fragment rule with its children and key; otherwise the old fiber is reused exactly when it has the element's type, with the element's props, and a fresh fiber is made from the element otherwise |
| ChildArray.Realize | big-react/packages/react-reconciler/src/childFiber.ts:106-111 | the planned fiber is either allocated fresh or the reused fiber's work-in-progress clone with the new props, index 0 and no sibling, its return set to the parent; old fibers stay in the arena |
| ChildArray.UpdateSlotPlan | big-react/packages/react-reconciler/src/childFiber.ts:415-448 | a text child gives up the slot exactly when the old key is null (as written); an element keeps the slot exactly when its key equals the old key; an array exactly when the old key is null; nothing renderable gives it up; an invalid object is the throw; a kept slot reuses only the old fiber and a made fiber carries no flags |
| ChildArray.CreateChildPlan | big-react/packages/react-reconciler/src/childFiber.ts:351-378 | every renderable child gets a new fiber and none is reused: a text fiber from its string, an element fiber, or a fragment with a null key; an invalid object throws; anything else gives null |
| ChildArray.MapGet | big-react/packages/react-reconciler/src/childFiber.ts:325-340 | the lookup finds a fiber exactly when some entry carries the key, and then it is that entry's fiber |
| ChildArray.MapRemainingChildren | big-react/packages/react-reconciler/src/childFiber.ts:506-525 | the map holds each remaining old child under its key, or under its index when the key is null, a later child replacing an earlier one of the same key in place |
| ChildArray.FromMapPlan | big-react/packages/react-reconciler/src/childFiber.ts:317-348 | a reused fiber is exactly the one the map holds under the child's key (its index for text, arrays and key-less elements); an invalid object throws; nothing renderable gives null; a made fiber carries no flags |
| ChildArray.PlaceAllSnoc | big-react/packages/react-reconciler/src/childFiber.ts:380-408 | placing one more fiber appends the flag placeChild gives it and moves lastPlacedIndex on as placeChild returns it |
| ChildArray.Step | big-react/packages/react-reconciler/src/childFiber.ts:270-303 | one new fiber of the diff: the planned fiber is realised, the old one deleted when tracking and it was not reused, and the new one placed at newIdx and linked after the previous one, keeping every invariant of the diff (reused children, deletions, placement flags, order and links) |
| ChildDiff.RenderSlots | big-react/packages/react-reconciler/src/childFiber.ts:192-235 | the new fibers sit at increasing positions of renderable children only |
| ChildDiff.SlotTurn | big-react/packages/react-reconciler/src/childFiber.ts:192-235 | one turn of the first pass: a null answer from updateSlot changes nothing and stops; an invalid child throws; otherwise one fiber is added at newIdx and the next old child is the sibling, or the same one when its index was above newIdx |
| ChildDiff.UpdateSlots | big-react/packages/react-reconciler/src/childFiber.ts:192-235 | the first pass leaves the diff's invariants in place with the old children up to the current one consumed and the current one next to compare; a throw happens only when some child is an invalid object |
| ChildDiff.ConsumeRest | big-react/packages/react-reconciler/src/childFiber.ts:239-240 | the leftover old children, together with the deletions so far, are distinct and not reused, and with the reused ones make up all the old children exactly once |
| ChildDiff.DeleteRest | big-react/packages/react-reconciler/src/childFiber.ts:239-242 | when the new children run out every leftover old child is deleted, so the reused and the deleted old children together are all the old children, each once |
| ChildDiff.CreateRest | big-react/packages/react-reconciler/src/childFiber.ts:246-262 | when the old children run out every remaining new child goes through createChild and is placed and linked; all old children stay consumed and the cursor ends at the end of the list; a throw happens only when some child is an invalid object |
| ChildFiber.WithDeletions | big-react/packages/react-reconciler/src/childFiber.ts:125-136 | recording deletions appends them to the parent's deletion list and sets ChildDeletion only when the list did not exist yet; nothing else changes |
| ChildFiber.WithDeletionsAppend | big-react/packages/react-reconciler/src/childFiber.ts:113-123 | deleting one list of children and then another is deleting their concatenation |
| ChildFiber.DeleteChild | big-react/packages/react-reconciler/src/childFiber.ts:125-136 | with tracking the parent records the child as deleted; without tracking nothing changes |
| ChildFiber.DeleteRemainingChildren | big-react/packages/react-reconciler/src/childFiber.ts:113-123 | with tracking the parent records every child of the sibling chain as deleted, in order; without tracking nothing changes |
| ChildFiber.UseFiber | big-react/packages/react-reconciler/src/childFiber.ts:106-111 | the clone is the fiber's existing alternate or a fresh fiber of the same tag, paired with it both ways, holding the work-in-progress copy with the new props, index 0 and no sibling; only the fiber and the clone change |
| ChildFiber.PlaceDecision | big-react/packages/react-reconciler/src/childFiber.ts:380-408 | without tracking nothing is flagged; a new fiber is flagged and keeps lastPlacedIndex; a reused fiber is flagged exactly when its old index is below lastPlacedIndex, and otherwise its old index becomes lastPlacedIndex, which never decreases |
| ChildFiber.UnmovedKeepOldOrder | big-react/packages/react-reconciler/src/childFiber.ts:380-408 | the reused fibers left in place keep their old relative order |
| ChildFiber.MovedStoodLeft | big-react/packages/react-reconciler/src/childFiber.ts:380-408 | a reused fiber is flagged to move exactly when it stood left of an earlier fiber left in place (or of the starting index) |
| ChildFiber.ReorderExample | big-react/packages/react-reconciler/src/childFiber.ts:283-294 | old A B C D E F reordered to A C E B D F flags exactly B and D to move and ends with lastPlacedIndex 5 |
| ChildFiber.PlaceChild | big-react/packages/react-reconciler/src/childFiber.ts:380-408 | the fiber's index becomes newIndex, Placement is added as PlaceDecision says and the returned lastPlacedIndex is PlaceDecision's; nothing else changes |
| ChildFiber.PlaceSingleChild | big-react/packages/react-reconciler/src/childFiber.ts:158-165 | Placement is added exactly when tracking and the fiber has no alternate; nothing else changes |
| ChildFiber.SingleElementPlan | big-react/packages/react-reconciler/src/childFiber.ts:44-92 | what the scan deletes and reuses: only old children, each at most once |
| ChildFiber.SingleElementPlanAccountsForAll | big-react/packages/react-reconciler/src/childFiber.ts:44-92 | when the element is not a fragment, every old child is deleted or reused exactly once |
| ChildFiber.FragmentOverSameKeyKeepsOldChild | big-react/packages/react-reconciler/src/childFiber.ts:58-64 | as written, a keyed fragment over a non-Fragment child with the same key neither reuses nor deletes that child, where the evident intent deletes it |
| ChildFiber.ScanSingle | big-react/packages/react-reconciler/src/childFiber.ts:51-92 | the loop deletes each key mismatch, stops at the child to reuse or after deleting the rest on a type mismatch, exactly as the plan's decisions say |
| ChildFiber.ReconcileSingleElement | big-react/packages/react-reconciler/src/childFiber.ts:44-104 | the old children are deleted and one reused exactly as SingleElementPlan says; the reused child becomes the only child with the element's props (children for a fragment); otherwise a new fiber is made from the element, a fragment from its children |
| ChildFiber.TextProps | big-react/packages/react-reconciler/src/childFiber.ts:146 | the props of a text fiber hold the text under textContent |
| ChildFiber.ReconcileSingleTextNode | big-react/packages/react-reconciler/src/childFiber.ts:138-156 | the first old child is reused, with the others deleted, exactly when it is a HostText; otherwise all old children are deleted and a new HostText fiber holds the text |
| ChildMap.RemainingFiled | big-react/packages/react-reconciler/src/childFiber.ts:506-525 | every old child is filed under its key (its index when the key is null), a later child with the same key replacing the earlier |
| ChildMap.RemainingAll | big-react/packages/react-reconciler/src/childFiber.ts:506-525 | with no key shared, every old child is filed exactly once |
| ChildMap.MapDeleteFiled | big-react/packages/react-reconciler/src/childFiber.ts:278 | deleting a key that is present removes exactly its one entry; every other entry stays and the fiber removed is filed no more |
| ChildReconcile.RouteOf | big-react/packages/react-reconciler/src/childFiber.ts:527-570 | an unkeyed top-level fragment is unwrapped to its children; then an element goes to the single-element path, an array to the array path, any other object throws, a string or number goes to the text path, and anything else deletes the old children |
| ChildReconcile.UnkeyedFragmentIsList | big-react/packages/react-reconciler/src/childFiber.ts:533-539 | an unkeyed fragment's children are reconciled as a list |
| ChildReconcile.KeyedFragmentIsSingle | big-react/packages/react-reconciler/src/childFiber.ts:533-547 | a keyed fragment is not unwrapped and is reconciled as one element |
| ChildReconcile.EmptyStringIsText | big-react/packages/react-reconciler/src/childFiber.ts:559-563 | an empty string at the top makes a text fiber, unlike an empty string in a list |
| ChildReconcile.SingleElementChild | big-react/packages/react-reconciler/src/childFiber.ts:545-547 | the single-element path as ReconcileSingleElement says, then placeSingleChild on its result |
| ChildReconcile.SingleTextChild | big-react/packages/react-reconciler/src/childFiber.ts:560-562 | the text path as ReconcileSingleTextNode says, then placeSingleChild on its result |
| ChildReconcile.ReconcileChildFibers | big-react/packages/react-reconciler/src/childFiber.ts:527-576 | the result and the heap are those of the branch RouteOf picks; with tracking off (mountChildFibers) no deletion or placement is recorded |
| ChildRest.DeleteKeyMatches | big-react/packages/react-reconciler/src/childFiber.ts:276-278 | the key a reused fiber is deleted from the map under is the key it was found under |
| ChildRest.MapTurn | big-react/packages/react-reconciler/src/childFiber.ts:268-304 | one turn of the third pass: the child is looked up in the map; a fiber made joins the new list at newIdx and a reused one leaves the map; an invalid child throws |
| ChildRest.DeleteEach | big-react/packages/react-reconciler/src/childFiber.ts:309-311 | every fiber left in the map is recorded as deleted, in the map's order |
| ChildRest.MapRest | big-react/packages/react-reconciler/src/childFiber.ts:266-313 | the third pass keeps the diff's invariants and ends at the end of the new list; with tracking the reused and the deleted old children are exactly the ones consumed before plus those filed in the map |
| ChildRest.RestPasses | big-react/packages/react-reconciler/src/childFiber.ts:237-313 | after the first pass the leftover old children are deleted, or new fibers created, or the map pass run; with tracking and no shared key every old child ends reused or deleted exactly once |
| ChildRest.ReconcileChildrenArray | big-react/packages/react-reconciler/src/childFiber.ts:173-314 | the diff fails exactly when some new child is an invalid object, with React's message; otherwise the new list is linked in order of the renderable children with placement flags as placeChild decides, and with tracking and no shared key every old child is reused or deleted exactly once |
| BeginWork.ReconcileChildren | big-react/packages/react-reconciler/src/beginWork.ts:79-89 | the work fiber's new child list is what reconcileChildFibers gives for its children, with tracking exactly when the fiber has a current twin (mountChildFibers otherwise), and the fiber's child points at its head; a throw leaves the child link alone |
| BeginWork.RefMarkedIff | big-react/packages/react-reconciler/src/beginWork.ts:97-109 | Ref is set afterwards exactly when it was set before, or the fiber mounts with a non-null ref, or its ref differs from the current one; no flag is cleared and nothing else changes |
| BeginWork.UpdateHostComponent | big-react/packages/react-reconciler/src/beginWork.ts:71-77 | reading props.children off null props throws and changes nothing; otherwise Ref is marked as markRef says and the children reconciled |
| BeginWork.UpdateFragment | big-react/packages/react-reconciler/src/beginWork.ts:91-95 | a fragment's children are its pending props themselves, reconciled as reconcileChildren says |
| BeginWork.UpdateFunctionComponent | big-react/packages/react-reconciler/src/beginWork.ts:42-47 | the children are what the component rendered under the hooks, reconciled as reconcileChildren says |
| BeginWork.ProcessRootQueue | big-react/packages/react-reconciler/src/beginWork.ts:55-60 | the pending ring is detached from the queue, which then holds nothing pending, and the state is processUpdateQueue's over the ring's updates in order from the memoized state |
| BeginWork.UpdateHostRoot | big-react/packages/react-reconciler/src/beginWork.ts:54-66 | the pending ring is detached, the processed state becomes the memoized state, and that state is reconciled as the root's children |
| BeginWork.BeginWork | big-react/packages/react-reconciler/src/beginWork.ts:12-40 | a host root, host component, function component or fragment reconciles its children as its update rule says and returns the new child; only a host root touches the update queues; a host text and any other tag return null |
| CompleteWalks.ChildFlagsExact | big-react/packages/react-reconciler/src/completeWork.ts:113-126 | a bit is in the flags bubbled from the children exactly when some child carries it in its own flags or its subtree flags |
| CompleteWalks.BubbledFromMeans | big-react/packages/react-reconciler/src/completeWork.ts:113-126 | after bubbling, every child points back at the work fiber, the work fiber's subtree flags gain the children's flags, and nothing else changes |
| CompleteWalks.BubbleProperties | big-react/packages/react-reconciler/src/completeWork.ts:113-126 | the loop leaves the arena as BubbledFrom says: each child's return is the work fiber and the work fiber's subtree flags are ORed with every child's flags and subtree flags |
| CompleteWalks.TopsAreHost | big-react/packages/react-reconciler/src/completeWork.ts:82-109 | every fiber appended is a host fiber of the subtree, and a host fiber hides its own subtree |
| CompleteWalks.AppendAllChildren | big-react/packages/react-reconciler/src/completeWork.ts:82-109 | the host instance of every topmost host fiber below the work fiber is appended to the new instance in document order; the walk stops early only on a throw of appendInitialChild, and it cannot throw when those instances are free to attach; the fiber arena is left unchanged |
| CompleteFiber.UpdatedHostComponentFlags | big-react/packages/react-reconciler/src/completeWork.ts:22-33 | an updated host component always gets Update and gets Ref exactly when its ref object changed; no flag is cleared |
| CompleteFiber.MountedHostComponentFlags | big-react/packages/react-reconciler/src/completeWork.ts:34-44 | a mounted host component gets its new instance and Ref exactly when its ref is not null; Update is left as it was |
| CompleteFiber.UpdatedHostTextFlags | big-react/packages/react-reconciler/src/completeWork.ts:49-55 | an updated host text gets Update exactly when the old props' textContent differs from the new one |
| CompleteFiber.OwnWorkOnlyOnHosts | big-react/packages/react-reconciler/src/completeWork.ts:16-76 | only a host fiber does work of its own, and only its flags and state node change |
| CompleteFiber.CompleteHostText | big-react/packages/react-reconciler/src/completeWork.ts:48-62 | reading textContent off null props throws and changes nothing; an update marks Update on a changed text; a mount makes one text instance holding the text |
| CompleteFiber.CompleteHostComponent | big-react/packages/react-reconciler/src/completeWork.ts:21-46 | an update marks Update and Ref and leaves the host alone; a mount creates one instance holding the topmost host children below, in order, and stores it on the fiber |
| CompleteFiber.CompleteWork | big-react/packages/react-reconciler/src/completeWork.ts:16-76 | a host component or host text does its own work, then every completing tag bubbles its children's flags and return links; a throw leaves the fibers unchanged; any other tag does nothing |
| FiberTree.FirstNonEmpty | big-react/packages/react-reconciler/src/completeWork.ts:100-105 | the climb stops at the first ancestor level with siblings left, or goes past the top when there is none |
| FiberTree.ClimbToSibling | big-react/packages/react-reconciler/src/completeWork.ts:100-107 | the climb returns the next sibling up the frames, the one the document order visits next, or nothing when the walk is over; the arena is unchanged |
| FiberTree.ShapedChain | big-react/packages/react-reconciler/src/fiber.ts:5-59 | a fiber's children, as the tree shape lists them, form its sibling chain from child |
| FiberTree.PreOrderFits | big-react/packages/react-reconciler/src/workLoop.ts:418-458 | the pre-order of a shaped subtree has one entry per fiber of the tree, each a fiber of the arena |
| FiberChains.RetChainNoRepeats | big-react/packages/react-reconciler/src/workLoop.ts:124-137 | no fiber occurs twice in a finite return chain |
| FiberChains.RetChainEndsOnce | big-react/packages/react-reconciler/src/workLoop.ts:124-137 | only the last fiber of a return chain links to null |
| FiberChains.RetChainFits | big-react/packages/react-reconciler/src/workLoop.ts:124-137 | a finite return chain holds at most as many fibers as the arena, so a climb bounded by the arena's size never stops short |
| FiberChains.RetChainUnique | big-react/packages/react-reconciler/src/workLoop.ts:124-137 | the return chain from a fiber is determined by the arena |
| RenderWalk.DescendStep | big-react/packages/react-reconciler/src/workLoop.ts:430-440 | beginning a fiber whose begin returns a child moves the cursor to its first child, the fiber joining the begun log |
| RenderWalk.LeafStep | big-react/packages/react-reconciler/src/workLoop.ts:430-440 | beginning a fiber whose begin returns null leaves it to be completed; it has no children |
| RenderWalk.SiblingStep | big-react/packages/react-reconciler/src/workLoop.ts:444-458 | completing a fiber with a sibling moves the cursor to that sibling, the fiber joining the completed log |
| RenderWalk.ParentStep | big-react/packages/react-reconciler/src/workLoop.ts:444-458 | completing a last child climbs to its parent, which is completed next; completing the top ends the pass with every fiber begun in pre-order and completed in post-order |
| RenderWalk.WalkingBounds | big-react/packages/react-reconciler/src/workLoop.ts:418-458 | while the pass is under way both logs are strict prefixes of the whole pre-order and post-order, and the cursor's own entries are still to come |
| RenderWalk.WalkingLinks | big-react/packages/react-reconciler/src/workLoop.ts:418-458 | the walk reads only return and sibling links, so an arena that keeps them carries the same walk |
| RenderWalk.PostOrderCovers | big-react/packages/react-reconciler/src/workLoop.ts:418-458 | the pass completes exactly the fibers it begins, each once |
| WorkLoop.MarkUpdateFromFiberToRoot | big-react/packages/react-reconciler/src/workLoop.ts:124-137 | the climb follows return links to the topmost fiber and answers with its root object exactly when that fiber is a HostRoot, null otherwise |
| WorkLoop.UpdateReachesRoot | big-react/packages/react-reconciler/src/workLoop.ts:124-137 | from any fiber of the tree mounted at a root the climb answers with that root |
| WorkLoop.CreateRootWip | big-react/packages/react-reconciler/src/workLoop.ts:48 | the work-in-progress copy of the current HostRoot fiber, with empty props and paired with it both ways, is where the pass starts, made exactly as createWorkInProgress makes it (a new fiber, or the old alternate with flags and deletions reset); links are kept |
| WorkLoop.Memoize | big-react/packages/react-reconciler/src/workLoop.ts:432 | memoizedProps takes the pending props; links and alternate pairs are kept |
| WorkLoop.CursorBounds | big-react/packages/react-reconciler/src/workLoop.ts:418-458 | however far the pass has got, no more fibers have been begun than the tree holds |
| WorkLoop.MutationKeepsLayout | big-react/packages/react-reconciler/src/workLoop.ts:319-328 | the mutation phase keeps the tree's shape, so the layout phase visits the same fibers in the same order |
| WorkLoop.CommitPhases | big-react/packages/react-reconciler/src/workLoop.ts:314-331 | without mutation flags on the finished fiber or its subtree nothing but the `current` field changes; otherwise the mutation and layout phases run over the tree's effect order, the host ends as the mutation phase says, and current becomes the finished fiber |
| WorkLoop.WorkLoopState.constructor | big-react/packages/react-reconciler/src/workLoop.ts:30-38 | no work in progress, no lane being rendered, no passive effect scheduled and no task queued |
| WorkLoop.WorkLoopState.EnsureRootIsScheduled | big-react/packages/react-reconciler/src/workLoop.ts:65-116 | the root's callback and priority, the task queue, the sync queue and the microtasks change exactly as Schedule says of the old ones |
| WorkLoop.WorkLoopState.ScheduleUpdateOnFiber | big-react/packages/react-reconciler/src/workLoop.ts:53-61 | when the climb from the fiber ends at a HostRoot the lane joins the root's pending lanes and the root is scheduled as Schedule says; otherwise nothing changes |
| WorkLoop.WorkLoopState.PrepareFreshStack | big-react/packages/react-reconciler/src/workLoop.ts:43-50 | the finished work and lane are cleared, the lane becomes the one rendered, and the cursor is the fresh work-in-progress copy of the current HostRoot fiber (made as createWorkInProgress makes it) with empty props, at the start of the walk |
| WorkLoop.WorkLoopState.CompleteUnitOfWork | big-react/packages/react-reconciler/src/workLoop.ts:444-458 | unless completeWork throws, the walk goes on with at least one more fiber completed; a throw stops it part way |
| WorkLoop.WorkLoopState.PerformUnitOfWork | big-react/packages/react-reconciler/src/workLoop.ts:430-440 | the cursor is begun and its props memoized, then the walk moves to the child begin returned or completes the fiber; a throw stops it part way |
| WorkLoop.WorkLoopState.WorkLoopSync | big-react/packages/react-reconciler/src/workLoop.ts:418-422 | unless a unit throws, the loop runs until the cursor is null, having begun every fiber in pre-order, completed every fiber in post-order and memoized every one; with no cursor it does nothing |
| WorkLoop.WorkLoopState.WorkLoopConcurrent | big-react/packages/react-reconciler/src/workLoop.ts:424-428 | as the sync loop, but it also stops, cursor kept, as soon as shouldYield says so |
| WorkLoop.WorkLoopState.RenderRoot | big-react/packages/react-reconciler/src/workLoop.ts:224-264 | a fresh pass starts unless the same lane is in progress; the result is RootInComplete exactly when time slicing left a cursor; a throw nulls the cursor and still gives RootCompleted (as written); a completed pass has walked the whole tree |
| WorkLoop.WorkLoopState.HandOff | big-react/packages/react-reconciler/src/workLoop.ts:178-186 | the finished work is the current fiber's alternate and the finished lane the one rendered, no lane is being rendered, and commitRoot runs: the lane leaves the pending lanes, and when the commit does not throw current becomes the finished tree, the host ends as the mutation phase says of the rendered fibers, the passive flush is queued as needed and the root rescheduled |
| WorkLoop.WorkLoopState.PerformSyncWorkOnRoot | big-react/packages/react-reconciler/src/workLoop.ts:195-222 | when the highest pending lane is not SyncLane the root is only rescheduled; otherwise the tree is rendered without time slicing from a fresh stack (unless SyncLane is in progress), always completes, and is committed: SyncLane leaves the pending lanes, and unless the commit throws current becomes the finished tree, the host ends as the mutation phase says and the root is rescheduled |
| WorkLoop.WorkLoopState.PerformConcurrentWorkOnRoot | big-react/packages/react-reconciler/src/workLoop.ts:141-192 | passive effects are flushed first, and a flush that did work and replaced the root's callback ends the scheduler task; a throwing flush, a replaced callback or no pending lane leave the tree and the pending lanes alone; otherwise the highest lane is rendered: an interrupted pass continues exactly when the callback is still the scheduler task's own, a finished one is committed and its lane leaves the pending lanes |
| WorkLoop.WorkLoopState.RenderPending | big-react/packages/react-reconciler/src/workLoop.ts:154-192 | the pending lane is rendered, time-sliced unless it is SyncLane or the scheduler task timed out; an incomplete pass keeps the pending lanes, the cursor and the lane in progress, and continues exactly when the callback is the one read before rendering; a finished pass is committed as HandOff says |
| WorkLoop.WorkLoopState.ContinueOrCommit | big-react/packages/react-reconciler/src/workLoop.ts:164-186 | after rescheduling, an incomplete pass keeps the tree and the pending lanes and is Continue exactly when the callback is unchanged; a completed one is handed off and committed, its lane leaving the pending lanes |
| WorkLoop.WorkLoopState.SchedulePassiveFlush | big-react/packages/react-reconciler/src/workLoop.ts:298-312 | a passive flush task is queued exactly when the finished fiber or its subtree has passive flags and none is scheduled yet, and the flag records it |
| WorkLoop.WorkLoopState.ClearFinished | big-react/packages/react-reconciler/src/workLoop.ts:272-297 | the finished work and lane are cleared, the finished lane leaves the pending lanes, and the passive flush is queued as SchedulePassiveFlush says |
| WorkLoop.WorkLoopState.CommitRoot | big-react/packages/react-reconciler/src/workLoop.ts:272-335 | with no finished work nothing changes; otherwise the finished work and lane are cleared, the lane leaves the pending lanes whatever the phases do, a passive flush is scheduled as needed, the three phases run, current becomes the finished fiber, the passive flag is reset and the root rescheduled |
| CommitWalk.DescendStep | big-react/packages/react-reconciler/src/commitWork.ts:36-45 | the walk goes down to the first child exactly when the fiber's subtree flags meet the mask and it has a child |
| CommitWalk.ParentStep | big-react/packages/react-reconciler/src/commitWork.ts:47-58 | after a last child the walk calls the step on its parent and climbs; the top, with no return, ends the walk |
| CommitWalk.ClimbOrder | big-react/packages/react-reconciler/src/commitWork.ts:47-58 | the inner loop calls the step on the fiber and on each parent climbed to, until one has a sibling, which the walk enters, or the top is passed and the whole order is done |
| CommitWalk.CommitOrder | big-react/packages/react-reconciler/src/commitWork.ts:28-60 | the fibers the callback is called on, in order, are Visit of the finished tree: a post-order that skips every subtree whose subtree flags miss the mask |
| CommitWalk.VisitCovers | big-react/packages/react-reconciler/src/commitWork.ts:28-60 | with subtree flags bubbled, the walk reaches every fiber whose own flags meet the mask, so no pending effect is skipped |
| CommitWalk.VisitShape | big-react/packages/react-reconciler/src/commitWork.ts:28-60 | the walk never leaves the finished tree and the root is always the last fiber visited |
| CommitFrame.TopsDrift | big-react/packages/react-reconciler/src/commitWork.ts:205-220 | the topmost host fibers of a subtree depend on tags only, so a commit step that changes only flags and cleared links keeps them |
| CommitFrame.UnmountRunDrift | big-react/packages/react-reconciler/src/commitWork.ts:222-248 | the unmount callbacks of a deletion depend on tags, refs and update queues only |
| CommitFrame.HostParentDrift | big-react/packages/react-reconciler/src/commitWork.ts:306-327 | a climb that avoids the cleared fibers finds the same host parent after a commit step |
| CommitFrame.PlacementHost | big-react/packages/react-reconciler/src/commitWork.ts:250-264 | with a host node for every host fiber, the host parent a placement finds exists and can take the fiber's topmost host nodes |
| CommitHost.HostParentNearest | big-react/packages/react-reconciler/src/commitWork.ts:306-327 | along a finite return chain the climb finds the nearest HostComponent or HostRoot above the fiber and answers with its instance or container, and null when there is none |
| CommitHost.HostParentFound | big-react/packages/react-reconciler/src/commitWork.ts:306-327 | with a finite return chain above the fiber the arena-sized climb never runs out |
| CommitHost.GetHostParent | big-react/packages/react-reconciler/src/commitWork.ts:306-327 | the answer is HostParentOf: the instance of the nearest HostComponent or the container of the nearest HostRoot above the fiber |
| CommitHost.SiblingFoundIsHost | big-react/packages/react-reconciler/src/commitWork.ts:266-304 | whatever instance the sibling search finds belongs to a host fiber that is not being placed |
| CommitHost.SiblingFixAgrees | big-react/packages/react-reconciler/src/commitWork.ts:285-293 | wherever the search as written ends, the repaired search ends the same way |
| CommitHost.SiblingSpinExample | big-react/packages/react-reconciler/src/commitWork.ts:285-293 | on a host node placed in front of a function component that renders nothing, the search as written never ends while the repaired one finds no sibling |
| CommitHost.GetHostSibling | big-react/packages/react-reconciler/src/commitWork.ts:266-304 | the answer is the repaired search: the instance of the first host fiber after the fiber in document order among its siblings and its ancestors' siblings that is not itself being placed, or none |
| CommitHost.HostSiblingInOrder | big-react/packages/react-reconciler/src/commitWork.ts:266-304 | for a fiber whose path below its host parent is known, with no id repeated and no HostRoot below, the arena-sized search never runs out and finds the instance of the first host fiber after it in document order, skipping placed subtrees and not going below host fibers, that is not being placed, or none |
| CommitHost.SiblingInOrder | big-react/packages/react-reconciler/src/commitWork.ts:269-282 | from any point of the path below the host parent, with budget at least twice the fibers still to visit, the search's answer is the first unplaced host fiber among the host fibers after that point in document order, up to the host parent |
| CommitHost.DescendInOrder | big-react/packages/react-reconciler/src/commitWork.ts:285-303 | descending into a subtree, with budget enough, answers the first unplaced host fiber among the subtree's topmost host fibers (placed subtrees left out) followed by those after it up to the host parent |
| CommitPlacement.InsertAllFresh | big-react/packages/react-noop-renderer/src/hostConfig.ts:92-103 | inserting fresh distinct instances in front of before puts them in order right where before stood |
| CommitPlacement.AppendAllFresh | big-react/packages/react-noop-renderer/src/hostConfig.ts:56-64 | appending fresh instances keeps the old children first and adds the new ones after them in order |
| CommitPlacement.InsertOrAppend | big-react/packages/react-reconciler/src/commitWork.ts:329-354 | the repaired rule: every topmost host instance of the fiber goes into the parent in front of before, or last when there is none, in document order; it completes exactly when all went in; only the parent's children change |
| CommitPlacement.PlaceInstance | big-react/packages/react-reconciler/src/commitWork.ts:333-339 | one instance goes in front of before or is appended; the insert succeeds exactly when before is a child of the parent, the append exactly when the instance is free or already the parent's |
| CommitPlacement.PlaceChildren | big-react/packages/react-reconciler/src/commitWork.ts:343-352 | the children of a non-host fiber and their siblings are placed in order, each as InsertOrAppend says |
| CommitPlacement.DroppedBefore | big-react/packages/react-reconciler/src/commitWork.ts:347-352 | as written, the children of a non-host fiber are appended, so placing one instance before 5 gives [5, 7] where the evident intent gives [7, 5] |
| CommitPlacement.PlacedView | big-react/packages/react-reconciler/src/commitWork.ts:250-264 | a placement that went through shows as the fiber's topmost host instances placed in the parent in front of the sibling found |
| CommitPlacement.CommitPlacement | big-react/packages/react-reconciler/src/commitWork.ts:250-264 | with no host parent found nothing changes; otherwise the topmost host instances of the fiber are placed into the host parent in front of the host sibling the repaired search finds, and the host view changes exactly as PlacementView says |
| CommitDeletion.PreOrderCovers | big-react/packages/react-reconciler/src/commitWork.ts:222-248 | the pre-order of a subtree lists exactly its fibers |
| CommitDeletion.NestedOrder | big-react/packages/react-reconciler/src/commitWork.ts:222-248 | the fibers commitNestedComponent hands to the callback are the subtree of the deleted fiber in pre-order; the arena is unchanged |
| CommitDeletion.RecordHostChildrenToDelete | big-react/packages/react-reconciler/src/commitWork.ts:205-220 | as written: the first host fiber is recorded, and later ones only when they lie in the sibling chain after the last recorded one; the list is left alone exactly when the fiber is not in that chain |
| CommitDeletion.DeletionMissesHost | big-react/packages/react-reconciler/src/commitWork.ts:205-220 | on a deleted Fragment 0 whose children are function component 1 (rendering host node 2) and host node 3, the topmost host nodes are 2 and 3 but the rule as written records only 2, because 3 is a sibling of 2's parent and not of 2 |
| CommitDeletion.HostTops | big-react/packages/react-reconciler/src/commitWork.ts:205-220 | the repaired rule: the nodes to remove are the topmost host fibers of the deleted subtree, in document order; the arena is unchanged |
| CommitDeletion.UnmountRunEffects | big-react/packages/react-reconciler/src/commitWork.ts:176-198 | the callbacks throw exactly when some HostComponent's ref detach throws; when none does, the pending unmount effects gain the effect lists of the function components in pre-order |
| CommitDeletion.ParentUnmountsFirst | big-react/packages/react-reconciler/src/commitWork.ts:176-198 | the deleted function component itself queues its effects before any of its descendants |
| CommitDeletion.UnmountFiber | big-react/packages/react-reconciler/src/commitWork.ts:176-198 | on one fiber: a HostComponent detaches its ref, a function component queues its effect list to the pending unmount effects, and a throw is reported |
| CommitDeletion.UnmountAll | big-react/packages/react-reconciler/src/commitWork.ts:176-198 | the callbacks run along the fibers in turn and change the refs and the pending unmount effects as UnmountRun says; a throw stops the rest |
| CommitDeletion.RemoveRunAll | big-react/packages/react-noop-renderer/src/hostConfig.ts:84-90 | removing distinct host nodes that are all children never throws and takes exactly one copy of each out of the children |
| CommitDeletion.RemoveHostChildren | big-react/packages/react-reconciler/src/commitWork.ts:191-201 | the removeChild calls for the recorded nodes, in order, leave the parent's children as RemoveRun says and throw exactly when it says so; only that parent changes |
| CommitDeletion.RemoveTops | big-react/packages/react-reconciler/src/commitWork.ts:191-202 | the host parent is found and the recorded nodes removed from it; the host view changes exactly as RemovalView says |
| CommitDeletion.RemovedView | big-react/packages/react-reconciler/src/commitWork.ts:191-202 | the removal seen in the host view takes the topmost host instances of the subtree out of the host parent |
| CommitDeletion.CommitDeletion | big-react/packages/react-reconciler/src/commitWork.ts:165-203 | the callbacks run over the subtree in pre-order; a throw leaves the fibers unchanged; otherwise the topmost host nodes of the subtree are removed from the host parent and the deleted fiber loses its return and child links; the host view changes as DeletionView says |
| CommitRefs.RefCells.constructor | big-react/packages/react-reconciler/src/commitWork.ts:357-379 | no ref object has been written and no function ref called |
| CommitRefs.RefCells.SetRef | big-react/packages/react-reconciler/src/commitWork.ts:357-379 | a write through a ref throws exactly when the ref is undefined or a primitive other than null (strict-mode property write), and then changes nothing; a null ref is skipped; otherwise a function ref is called with the value or an object ref's current takes it |
| CommitRefs.RefCells.SafelyAttachRef | big-react/packages/react-reconciler/src/commitWork.ts:357-367 | the ref receives the fiber's instance, as SetRef says |
| CommitRefs.RefCells.SafelyDetachRef | big-react/packages/react-reconciler/src/commitWork.ts:370-379 | the ref receives null, as SetRef says |
| CommitRefs.AttachThenDetach | big-react/packages/react-reconciler/src/commitWork.ts:357-379 | attaching then detaching leaves an object ref's current null, and calls a function ref twice, last with null |
| CommitRefs.WriteRefLocal | big-react/packages/react-reconciler/src/commitWork.ts:357-379 | a write through one ref object leaves every other ref object's current alone |
| CommitEffects.VisitDrift | big-react/packages/react-reconciler/src/commitWork.ts:28-60 | the walk only ever skips fibers without the flags it is entered for, so clearing flags it has already passed and links of deleted fibers does not change its order |
| CommitEffects.LayoutStep | big-react/packages/react-reconciler/src/commitWork.ts:110-124 | a HostComponent with Ref attaches its ref and loses Ref; a throw leaves the fibers unchanged; any other fiber is untouched |
| CommitEffects.CommitLayoutEffects | big-react/packages/react-reconciler/src/commitWork.ts:126 | the layout step runs on every fiber the walk by LayoutMask reaches, in its order, until a ref write throws; the refs end as LayoutRun says and, when it completes, exactly the visited fibers have their layout flags cleared |
| CommitEffects.LayoutClearsRefs | big-react/packages/react-reconciler/src/commitWork.ts:110-126 | once the layout phase completes over a tree with bubbled flags, no HostComponent of the tree keeps Ref |
| CommitEffects.PassiveMountsExactly | big-react/packages/react-reconciler/src/commitWork.ts:143-156 | the passive mount queue holds exactly the last effects of the Passive-flagged function components visited |
| CommitEffects.CommitPassiveMount | big-react/packages/react-reconciler/src/commitWork.ts:143-156 | a Passive-flagged function component with an update queue pushes its last effect onto the pending update effects; any other fiber pushes nothing |
| CommitEffects.CommitDeletions | big-react/packages/react-reconciler/src/commitWork.ts:82-87 | commitDeletion runs on each of the deletions in turn, stopping at the first throw; when all complete each deleted fiber has lost its return and child links, the host view changes as DeletionsView says and the unmount callbacks as DeletionRun says |
| CommitEffects.DeleteSubtree | big-react/packages/react-reconciler/src/commitWork.ts:165-203 | commitDeletion seen from the mutation phase: a throw leaves the fibers unchanged; otherwise the deleted fiber loses its links, the host view changes as DeletionView says and the unmount callbacks run as UnmountRun says |
| CommitEffects.PlaceSubtree | big-react/packages/react-reconciler/src/commitWork.ts:67-71 | commitPlacement seen from the mutation phase keeps the host's nodes, containers and node kinds, and when it completes the host view changes as PlacementView says |
| CommitEffects.PlacePart | big-react/packages/react-reconciler/src/commitWork.ts:67-71 | with Placement the fiber is placed and the flag cleared; without it nothing changes; the host view changes as PlaceView says |
| CommitEffects.UpdatePart | big-react/packages/react-reconciler/src/commitWork.ts:74-78 | with Update the host text is updated from the memoized props and the flag cleared; without it nothing changes; the host view changes as UpdateView says |
| CommitEffects.DeletePart | big-react/packages/react-reconciler/src/commitWork.ts:81-90 | with ChildDeletion every fiber of the deletions list is deleted and the flag cleared; the fibers, the host view and the unmount callbacks end as DeleteArena, DeleteView and DeleteDone say |
| CommitEffects.PassiveRefPart | big-react/packages/react-reconciler/src/commitWork.ts:92-101 | with Passive the fiber's passive mount is queued and Passive cleared; a HostComponent with Ref then detaches its ref, which may throw |
| CommitEffects.MutationStep | big-react/packages/react-reconciler/src/commitWork.ts:62-102 | Placement, Update, ChildDeletion and Passive each run their part and are cleared, and a HostComponent with Ref detaches its ref; when it completes the fibers are StepArena and the host view StepView; without anything to place, update or delete the host is untouched |
| CommitEffects.StepOpen | big-react/packages/react-reconciler/src/commitWork.ts:62-102 | one step is placement, then update, then deletion, then clearing Passive, on the fibers and on the host view, in that order |
| CommitEffects.StepQuiet | big-react/packages/react-reconciler/src/commitWork.ts:62-102 | a fiber with nothing to place, update or delete leaves the host alone and only loses its mutation flags |
| CommitMutation.CommitMutationEffects | big-react/packages/react-reconciler/src/commitWork.ts:104-108 | the mutation step runs on every fiber the walk by MutationMask or Passive reaches, in order, until one throws; when it completes the fibers and the host view are those PhaseRun gives over that order, and the walk's order is unchanged |
| CommitMutation.MutationClears | big-react/packages/react-reconciler/src/commitWork.ts:62-108 | once the phase completes over a tree with bubbled flags, no fiber of the tree keeps Placement, Update, ChildDeletion or Passive, and Ref is where it was |
| CommitMutation.PhaseQuiet | big-react/packages/react-reconciler/src/commitWork.ts:62-108 | a phase over fibers none of which has anything to place, update or delete leaves the host as it was and changes no fiber it does not visit |
| PassiveEffects.DestroyFrom | big-react/packages/react-reconciler/src/workLoop.ts:404 | the stored destroy is the create's result, or null when that is null or undefined |
| PassiveEffects.StepCalls | big-react/packages/react-reconciler/src/workLoop.ts:363-408 | one step calls create only in the mount walk and only on an effect whose tag carries Passive and HasEffect; the other walks call only destroys |
| PassiveEffects.EffectCycleDistinct | big-react/packages/react-reconciler/src/fiberHooks.ts:279-292 | no effect occurs twice in an effect ring |
| PassiveEffects.NextInRing | big-react/packages/react-reconciler/src/fiberHooks.ts:279-292 | each effect of a ring links to the next, and the newest back to the oldest |
| PassiveEffects.CommitHookEffectList | big-react/packages/react-reconciler/src/workLoop.ts:363-408 | the do-while from lastEffect.next visits the ring from the oldest to the newest effect, and the effects, the calls and the throw are those RingRun gives |
| PassiveEffects.CommitList | big-react/packages/react-reconciler/src/workLoop.ts:339-353 | each entry of a pending list is walked in turn as RingRun says; a null entry or a throwing walk stops the rest; the rings stay rings |
| PassiveEffects.FlushPassiveEffects | big-react/packages/react-reconciler/src/workLoop.ts:337-360 | the destroy walks over the unmount list, which is then emptied, then the unmount and mount walks over the update list, which is then emptied, then flushSyncCallbacks; a throw stops there; the answer is whether either list was non-empty |
| PassiveEffects.DestroyRunQuiet | big-react/packages/react-reconciler/src/workLoop.ts:379-394 | a destroy walk never throws, drops HasEffect from every passive effect of its ring, and wakes none |
| PassiveEffects.RunKeepsTags | big-react/packages/react-reconciler/src/workLoop.ts:363-376 | the unmount and mount walks leave every tag as it was |
| PassiveEffects.RunCalls | big-react/packages/react-reconciler/src/workLoop.ts:363-408 | a walk calls only creates in the mount walk and only destroys otherwise, and creates only effects with Passive and HasEffect |
| PassiveEffects.DestroyedNeverCreated | big-react/packages/react-reconciler/src/workLoop.ts:337-360 | an effect of an unmounted component is never created by the same flush |
| PassiveEffects.DestroysBeforeCreates | big-react/packages/react-reconciler/src/workLoop.ts:337-360 | every destroy a flush calls comes before every create it calls |
| PassiveEffects.FlushPending | big-react/packages/react-reconciler/src/workLoop.ts:337-358 | the three walks of the flush as FlushRun gives them, with the unmount list emptied after its walks and the update list after its walks, reporting which walk threw |
| PassiveEffects.DestroyListQuiet | big-react/packages/react-reconciler/src/workLoop.ts:339-343 | the destroy walks over an unmount list that does not throw leave every effect of its rings without HasEffect, and wake none |
| EditorCommand.Perform | low-code-editor/src/packages/useCommand.ts:133 | a blocks action keeps the container and replaces the blocks; a data action replaces the whole data |
| EditorCommand.MaxZ | low-code-editor/src/packages/useCommand.ts:198-200 | the reduce with Math.max is at least the start value and every block's z-index, and is one of them |
| EditorCommand.MinZ | low-code-editor/src/packages/useCommand.ts:229-232 | the reduce with Math.min is at most the start value and every block's z-index, and is one of them |
| EditorCommand.PlaceTopRaisesFocused | low-code-editor/src/packages/useCommand.ts:188-217 | after placeTop every focused block lies strictly above every unfocused one, and the unfocused blocks are unchanged |
| EditorCommand.PlaceBottomLowersFocused | low-code-editor/src/packages/useCommand.ts:219-255 | after placeBottom every focused block lies strictly below every unfocused one at a z-index of at least 0, and the unfocused blocks only move up together |
| EditorCommand.PlaceBottomExample | low-code-editor/src/packages/useCommand.ts:229-241 | with the lowest unfocused z-index 3 a focused block gets 2 and nothing else moves |
| EditorCommand.ReplaceBlock | low-code-editor/src/packages/useCommand.ts:168-175 | the first occurrence of the old block is replaced by the new one; without one the list is unchanged |
| EditorCommand.Push | low-code-editor/src/packages/useCommand.ts:49-60 | recording drops the entries after current, appends the new one and makes it current |
| EditorCommand.RedoStep | low-code-editor/src/packages/useCommand.ts:68-79 | redo re-applies the entry after current and moves current on, or changes nothing when there is none |
| EditorCommand.UndoStep | low-code-editor/src/packages/useCommand.ts:85-98 | undo reverts the current entry and moves current back, or changes nothing at -1 |
| EditorCommand.UndoAfterCommand | low-code-editor/src/packages/useCommand.ts:42-60 | undo right after a recorded command restores the data it found, except that drag restores the blocks saved at drag start |
| EditorCommand.RedoAfterUndoAfterCommand | low-code-editor/src/packages/useCommand.ts:68-98 | redo right after that undo brings back exactly the state the command left |
| EditorCommand.PushDropsRedoTail | low-code-editor/src/packages/useCommand.ts:52-60 | a command recorded after undos discards the undone entries, so redo then does nothing, and keeps the entries up to current |
| EditorCommand.BuiltInBindings | low-code-editor/src/packages/useCommand.ts:277-294 | ctrl+z runs only undo, ctrl+y only redo, and a plain z runs nothing |
| EditorCommand.BindingsOfBuiltIns | low-code-editor/src/packages/useCommand.ts:65-99 | among the built-in commands only undo and redo have key bindings: ctrl+y and ctrl+z |
| EditorCommand.CommandState.constructor | low-code-editor/src/packages/useCommand.ts:25-37 | the history starts empty with current -1 and the built-in commands are registered in order |
| EditorCommand.CommandState.Register | low-code-editor/src/packages/useCommand.ts:39-40 | register appends the command to the command array |
| EditorCommand.CommandState.PushEntry | low-code-editor/src/packages/useCommand.ts:49-60 | the recorded tail of a command moves the history as Push says |
| EditorCommand.CommandState.RedoCommand | low-code-editor/src/packages/useCommand.ts:70-77 | the redo command moves the history as RedoStep says |
| EditorCommand.CommandState.UndoCommand | low-code-editor/src/packages/useCommand.ts:87-96 | the undo command moves the history as UndoStep says |
| EditorCommand.CommandState.RunCommand | low-code-editor/src/packages/useCommand.ts:42-61 | running a built-in command moves the history as Run says |
| EditorCommand.CommandState.Keydown | low-code-editor/src/packages/useCommand.ts:277-295 | the commands run are exactly those whose binding equals the key string, in registration order; ctrl+z undoes, ctrl+y redoes, any other key changes nothing |
| EditorFocus.GetFocusData | low-code-editor/src/packages/useFocus.ts:45-51 | each block goes to focus or unfocused by its flag, in order |
| EditorFocus.FocusDataPartitions | low-code-editor/src/packages/useFocus.ts:45-51 | the focus and unfocused lists together hold each block exactly as often as the block list |
| EditorFocus.PlainClickSelectsOnlyIt | low-code-editor/src/packages/useFocus.ts:32-38 | a plain click on an unfocused block leaves it, and only it, focused |
| EditorFocus.PlainClickOnFocusedKeepsSelection | low-code-editor/src/packages/useFocus.ts:32-38 | a plain click on a focused block changes no block |
| EditorFocus.ShiftClick | low-code-editor/src/packages/useFocus.ts:25-31 | with shift, the clicked block is focused when at most one block was focused and toggled otherwise; no other block changes |
| EditorFocus.FocusState.constructor | low-code-editor/src/packages/useFocus.ts:10 | nothing is selected: the selected index is -1 |
| EditorFocus.FocusState.ClearBlockFocus | low-code-editor/src/packages/useFocus.ts:14-16 | every block loses its focus and nothing else changes |
| EditorFocus.FocusState.BlockMousedown | low-code-editor/src/packages/useFocus.ts:18-43 | in preview mode nothing changes; otherwise the blocks become Clicked's and the selected index is the clicked one |
| EditorFocus.FocusState.ContainerMousedown | low-code-editor/src/packages/useFocus.ts:53-59 | outside preview mode every focus is cleared and the selected index is -1; in preview mode nothing changes |
| EditorFocus.ContainerClickFocusesNothing | low-code-editor/src/packages/useFocus.ts:53-59 | after a click on the container no block is focused |
| FileChunk.CreateFileChunk | file-slice-upload/src/utils/index.ts:5-13 | the loop pushes exactly the chunks Chunks gives: one per offset 0, chunkSize, 2·chunkSize, … below the size, each ending CHUNK_SIZE later, clamped to the size |
| FileChunk.ChunkCountAndOffsets | file-slice-upload/src/utils/index.ts:8-10 | there are ceil(size / chunkSize) chunks, the i-th starting at i·chunkSize and ending at i·chunkSize + CHUNK_SIZE clamped to the size; an empty file has none |
| FileChunk.ChunksInOffsetOrder | file-slice-upload/src/utils/index.ts:8-10 | chunk offsets strictly increase |
| FileChunk.DefaultChunksTileTheFile | file-slice-upload/src/utils/index.ts:5-10 | with the default chunkSize = CHUNK_SIZE and a non-empty file the chunks tile it: the first starts at 0, each ends where the next starts, each but the last holds CHUNK_SIZE bytes, and the last ends at the size |
| FileChunk.LastOffsetCovers | file-slice-upload/src/utils/index.ts:8 | the last offset is below the size and one more step reaches or passes it |
| WebpackUtils.ToUnixPath | webpack-plain/src/utils/index.ts:5-8 | every backslash becomes a slash and every other character stays, so the result has the same length and no backslash |
| WebpackUtils.ToUnixPathIdempotent | webpack-plain/src/utils/index.ts:5-8 | converting twice is converting once |
| WebpackUtils.ToUnixPathKeepsUnixPaths | webpack-plain/src/utils/index.ts:5-8 | a path without backslashes is returned unchanged |
| WebpackUtils.FirstWithExtension | webpack-plain/src/utils/index.ts:21-25 | the first modulePath + ext, in list order, that exists; none exactly when no such path exists |
| WebpackUtils.TryExtensions | webpack-plain/src/utils/index.ts:12-34 | an existing modulePath is returned as it is; otherwise the first existing modulePath + ext in list order; otherwise the "Module not found" error naming the original path and context |
| WebpackUtils.DefaultListOrder | webpack-plain/src/utils/index.ts:14 | the default list tries .js before .jsx before .json |
| WebpackCli.Split | webpack-plain/src/index.ts:10 | item.split("=") gives at least one piece, and the item itself when it has no "=" |
| WebpackCli.SplitAtFirst | webpack-plain/src/index.ts:10 | splitting at the first "=" gives the text before it, then the pieces of the rest |
| WebpackCli.ParseArgExample | webpack-plain/src/index.ts:10-11 | --k=v sets option k to v, and --k=v=w sets it to v only |
| WebpackCli.ParseShellConfig | webpack-plain/src/index.ts:8-22 | the reduce over process.argv.slice(2) starting from the defaults gives FoldArgs over those arguments |
| WebpackCli.LastArgWins | webpack-plain/src/index.ts:8-13 | an option named by some argument holds the value of the last argument naming it |
| WebpackCli.UnnamedKeepsDefault | webpack-plain/src/index.ts:8-22 | an option no argument names keeps its starting value, and no other option appears |
| WebpackCli.MergeOptions | webpack-plain/src/index.ts:25 | Object.assign({}, options, shellConfig) has the keys of both, the shell value where the shell has the key and the config value elsewhere |
| WebpackCli.DefaultsOverrideConfig | webpack-plain/src/index.ts:14-25 | unless an argument names it, entry is "./src/index.js" and output is the default, whatever the config object says |
| WebpackCli.ApplyPlugins | webpack-plain/src/index.ts:31-38 | the plugins are applied once each in order when plugins is a non-empty array, and none otherwise |
| VuexModule.Lookup | vuex-plain/src/vuex/module/module.ts:22-24 | reading a key of a record finds the value of its first entry with that key, and nothing exactly when no entry has it |
| VuexModule.PutKeepsKeys | vuex-plain/src/vuex/module/module.ts:18-20 | assigning a key keeps every existing key in its place, so iteration order is insertion order, and keys stay distinct |
| VuexModule.PutReadsBack | vuex-plain/src/vuex/module/module.ts:18-24 | after addChild the key reads back the module just added |
| VuexModule.PutKeepsOthers | vuex-plain/src/vuex/module/module.ts:18-24 | after addChild every other key reads as before |
| VuexModule.PutNewKey | vuex-plain/src/vuex/module/module.ts:18-20 | a key not yet present is appended after the existing ones |
| VuexModule.NewModule | vuex-plain/src/vuex/module/module.ts:10-15 | a new module keeps its options and their state, has no children, and is namespaced exactly when the namespace option is truthy |
| VuexModule.AddChildThenGetChild | vuex-plain/src/vuex/module/module.ts:18-24 | getChild returns the module last added under the key, or null when none was, and addChild leaves other keys alone |
| VuexModule.WalkSnoc | vuex-plain/src/vuex/module/module-collection.ts:18-20 | walking one more key is one more getChild on the module reached, and throws on a null module |
| VuexModule.ModuleCollection.constructor | vuex-plain/src/vuex/module/module-collection.ts:7-10 | the collection registers the root options at the empty path, and its module tree mirrors those options |
| VuexModule.ModuleCollection.Register | vuex-plain/src/vuex/module/module-collection.ts:12-31 | register creates the module, makes it the root for the empty path or adds it under the last key to the module the other keys lead to, throwing when one of them leads nowhere, then registers the nested options in order; the result is as Registered says |
| VuexModule.ModuleCollection.AddChildAt | vuex-plain/src/vuex/module/module-collection.ts:22 | the new module is added under the last key of the path to its parent, and the path then leads to it |
| VuexModule.ModuleCollection.ChildrenOfNew | vuex-plain/src/vuex/module/module-collection.ts:25-29 | the nested options of the new module are registered, one key after the other, and the new module then mirrors them |
| VuexModule.ModuleCollection.RegisterChild | vuex-plain/src/vuex/module/module-collection.ts:26-28 | registering the i-th nested option appends one child to the new module and keeps the children before it |
| VuexModule.RegisteredRoot | vuex-plain/src/vuex/module/module-collection.ts:14-16 | register at the empty path allocates the module, makes it the root and registers its nested options |
| VuexModule.RegisteredUnder | vuex-plain/src/vuex/module/module-collection.ts:17-23 | register at a non-empty path allocates the module, links it under its parent and registers its nested options |
| VuexModule.ChildAppendedShape | vuex-plain/src/vuex/module/module-collection.ts:25-29 | registering one nested option appends one child and changes no other module already in the tree |
| VuexModule.NamespaceDefinedIff | vuex-plain/src/vuex/module/module-collection.ts:33-40 | getNamespaced succeeds exactly when every key of the path leads to a module |
| VuexModule.NamespaceSnoc | vuex-plain/src/vuex/module/module-collection.ts:35-38 | one more key appends "key/" to the namespace when the reached child is namespaced, and nothing otherwise |
| VuexModule.NamespaceExample | vuex-plain/src/vuex/module/module-collection.ts:33-40 | a namespaced a holding a plain c gives "a/" for the path a, c |
| VuexStore.AssignDefinedIff | vuex-plain/src/vuex/store.ts:32-35 | storing a module's state succeeds exactly when its parent state, read along the other keys, is a plain object |
| VuexStore.AssignThenGetNested | vuex-plain/src/vuex/store.ts:20-22 | the stored state reads back at the module's path through getNestedState |
| VuexStore.AssignKeepsSiblings | vuex-plain/src/vuex/store.ts:32-35 | storing a module's state changes only its own key of the parent state |
| VuexStore.AppendAllAt | vuex-plain/src/vuex/store.ts:46-66 | the handler list under a full name is the old one followed by this module's handlers of that name, in order |
| VuexStore.GetterLastWins | vuex-plain/src/vuex/store.ts:39-43 | of getters with the same full name, the last one installed is kept |
| VuexStore.GettersOtherNames | vuex-plain/src/vuex/store.ts:39-43 | a name no getter of the module has keeps its old getter, or stays absent |
| VuexStore.InstallKeepsCommitting | vuex-plain/src/vuex/store.ts:25-71 | installing a module and its children leaves _commiting as it was unless it throws |
| VuexStore.InstallLeaf | vuex-plain/src/vuex/store.ts:25-66 | installing a module without nested modules stores its state under its key and registers its getters, mutations and actions under its namespace |
| VuexStore.MutationRun | vuex-plain/src/vuex/store.ts:48-50 | running an entry calls one handler per entry, in order, until one throws, each with its module's nested state |
| VuexStore.MutationRunCalls | vuex-plain/src/vuex/store.ts:153-165 | every handler call a commit makes is the i-th handler's, made while _commiting is set |
| VuexStore.SubscriberCalls | vuex-plain/src/vuex/store.ts:167 | each subscriber is called once, in order, with the type, the payload and the state |
| VuexStore.CommitRunsHandlersThenSubscribers | vuex-plain/src/vuex/store.ts:161-168 | a commit that completes calls every handler of the type, in order and with _commiting set, then every subscriber in order, and restores _commiting |
| VuexStore.UnknownTypeNotifiesSubscribers | vuex-plain/src/vuex/store.ts:162-167 | a type with no mutations still notifies every subscriber |
| VuexStore.FailedCommitLeavesFlagSet | vuex-plain/src/vuex/store.ts:153-168 | a commit whose handler throws leaves _commiting set and notifies no subscriber |
| VuexStore.NormalizePath | vuex-plain/src/vuex/store.ts:188-190 | a string path becomes the one-key path; an array path stays as it is |
| VuexStore.Store.Init | vuex-plain/src/vuex/store.ts:111-131 | the collection over the options, empty registries, the strict flag from the options, _commiting false and the root state |
| VuexStore.Store.WithCommit | vuex-plain/src/vuex/store.ts:153-159 | _commiting is set while the body runs and restored afterwards; a throwing body leaves it set; the body's effect on the state and the calls is as given |
| VuexStore.Store.RunHandlers | vuex-plain/src/vuex/store.ts:164 | the handlers of the entry run as MutationRun says |
| VuexStore.Store.Commit | vuex-plain/src/vuex/store.ts:161-168 | the state is kept and the calls, _commiting and the error are those CommitOutcome gives |
| VuexStore.Store.Notify | vuex-plain/src/vuex/store.ts:167 | every subscriber is called, in order |
| VuexStore.Store.Dispatch | vuex-plain/src/vuex/store.ts:170-173 | every action handler of the type is called with the payload, in order |
| VuexStore.Store.Subscribe | vuex-plain/src/vuex/store.ts:143-145 | the subscriber is appended |
| VuexStore.Store.ReplaceStateWith | vuex-plain/src/vuex/store.ts:147-151 | the state becomes the new state and _commiting is as it was |
| VuexStore.Store.ResetStoreState | vuex-plain/src/vuex/store.ts:73-83 | store.getters gets exactly one property per wrapped getter |
| VuexStore.Store.InstallGetters | vuex-plain/src/vuex/store.ts:39-43 | the wrapped getters become AddGetters of the old ones |
| VuexStore.Store.InstallMutations | vuex-plain/src/vuex/store.ts:46-51 | the mutation registry becomes AppendAll of the old one |
| VuexStore.Store.InstallActions | vuex-plain/src/vuex/store.ts:55-66 | the action registry becomes AppendAll of the old one |
| VuexStore.Store.InstallModule | vuex-plain/src/vuex/store.ts:25-71 | the registries, the state and _commiting end, and the error is, as the Install definition gives |
| VuexStore.Store.WithCommitState | vuex-plain/src/vuex/store.ts:32-35 | the module's state is stored in its parent state inside withCommit, or the throw leaves the state and sets _commiting |
| VuexStore.Store.InstallChildModules | vuex-plain/src/vuex/store.ts:68-70 | each child is installed in turn at its path, as InstallChildren gives |
| VuexStore.RegisterModule | vuex-plain/src/vuex/store.ts:187-198 | the module is registered in the collection, installed at its path with the store's state as root, and the getters are reset; a registration that throws changes nothing else |
| VuexStore.NewStore | vuex-plain/src/vuex/store.ts:111-141 | the collection, the install of the root module, resetStoreState and an empty subscriber list, then the plugins called in order |
| VueReactivity.Top | mini-vue/packages/reactivity/src/effect.ts:54 | effectStack.at(-1) is the last effect of the stack, and undefined exactly when the stack is empty |
| VueReactivity.FindKey | mini-vue/packages/reactivity/src/effect.ts:68 | depsMap.get(key) finds a dependency set stored under the key, and nothing only when no entry has the key |
| VueReactivity.FindKeyAppend | mini-vue/packages/reactivity/src/effect.ts:65-70 | a key set in the map reads back its set, and other keys read as before |
| VueReactivity.AddEach | mini-vue/packages/reactivity/src/effect.ts:101 | adding each effect to a set in turn gives the old members first, then every new one, and nothing else |
| VueReactivity.AddEachNoRepeats | mini-vue/packages/reactivity/src/effect.ts:101 | adding to a set keeps it free of repetitions |
| VueReactivity.EnterSpec | mini-vue/packages/reactivity/src/effect.ts:48-49 | the effect is pushed and made active |
| VueReactivity.ExitSpec | mini-vue/packages/reactivity/src/effect.ts:52-55 | the top is popped and the new top becomes active |
| VueReactivity.RunSpec | mini-vue/packages/reactivity/src/effect.ts:44-57 | a run keeps the stack, the refs, the computed refs and every effect's function and scheduler, and logs one call of the function exactly when the effect is not already on the stack |
| VueReactivity.RunRestoresStack | mini-vue/packages/reactivity/src/effect.ts:44-57 | a run leaves the stack as it found it, makes its top active again, and calls the function once |
| VueReactivity.RunSkipsRunningEffect | mini-vue/packages/reactivity/src/effect.ts:46 | an effect already on the stack is not run again and nothing changes |
| VueReactivity.TrackEffectsSpec | mini-vue/packages/reactivity/src/effect.ts:77-82 | trackEffects keeps the stack, the active effect, the refs, the computed refs, every effect's function and scheduler, and the log |
| VueReactivity.TrackSpec | mini-vue/packages/reactivity/src/effect.ts:61-75 | track keeps the stack, the active effect, the refs, the computed refs, every effect's function and scheduler, and the log |
| VueReactivity.TrackAll | mini-vue/packages/reactivity/src/effect.ts:51 | the reads of an effect's function keep the stack, the active effect, the refs, the computed refs and the log |
| VueReactivity.TrackWithoutActiveEffect | mini-vue/packages/reactivity/src/effect.ts:62 | without an active effect tracking changes nothing |
| VueReactivity.TrackEffectsOnce | mini-vue/packages/reactivity/src/effect.ts:78-81 | tracking twice is tracking once: an effect joins a set at most once |
| VueReactivity.TrackRecords | mini-vue/packages/reactivity/src/effect.ts:61-82 | after track the key has a dependency set holding the active effect, and the effect's dep list holds that set |
| VueReactivity.TrackKeepsFreshIds | mini-vue/packages/reactivity/src/effect.ts:63-71 | tracking only creates maps and sets with fresh ids and keeps every id in use |
| VueReactivity.TrackKeepsOtherKeys | mini-vue/packages/reactivity/src/effect.ts:61-75 | tracking one key leaves the dependency set of every other key where it was |
| VueReactivity.KeyAtLeast | mini-vue/packages/reactivity/src/effect.ts:99 | key >= newValue holds for an index key at or above a numeric new length, and comparing a symbol throws |
| VueReactivity.LengthEffectsExact | mini-vue/packages/reactivity/src/effect.ts:95-104 | a length change throws exactly when some tracked key is a symbol; otherwise it collects exactly the effects of "length" and of every index at or above the new length |
| VueReactivity.TriggerEffectsSpec | mini-vue/packages/reactivity/src/effect.ts:125-133 | triggerEffects keeps the stack, the refs and every effect's function and scheduler; computed refs only become dirty; the log only grows |
| VueReactivity.StepSpec | mini-vue/packages/reactivity/src/effect.ts:127-131 | one effect of triggerEffects, its scheduler when it has one and otherwise run, keeps what Triggered keeps |
| VueReactivity.ComputedSchedulerSpec | mini-vue/packages/reactivity/src/computed.ts:38-43 | the scheduler of a computed ref keeps what Triggered keeps: computed refs only become dirty and the log only grows |
| VueReactivity.MarkDirty | mini-vue/packages/reactivity/src/computed.ts:39-40 | marking a clean computed ref dirty takes it out of the clean set |
| VueReactivity.TriggerRefValueSpec | mini-vue/packages/reactivity/src/ref.ts:62-66 | triggerRefValue keeps what Triggered keeps: computed refs only become dirty and the log only grows |
| VueReactivity.TriggerUntrackedTarget | mini-vue/packages/reactivity/src/effect.ts:86-89 | a target nothing has read has no dependency map, and triggering it does nothing |
| VueReactivity.LengthChangeEffects | mini-vue/packages/reactivity/src/effect.ts:95-104 | setting an array's length triggers exactly the effects of "length" and of every index at or above the new length, and throws exactly when a symbol key is compared |
| VueReactivity.KeyChangeEffects | mini-vue/packages/reactivity/src/effect.ts:106-119 | for any other change the effects are the key's own dependency set, in its order |
| VueReactivity.AddedIndexKeepsLengthEffects | mini-vue/packages/reactivity/src/effect.ts:107-117 | an index added to an array also triggers the effects of "length", and because the set used is the key's own set, those effects stay in that key's set |
| VueReactivity.TriggerEffectsCalls | mini-vue/packages/reactivity/src/effect.ts:125-133 | without computed refs among them, triggering calls each effect's scheduler, or runs it when it has none, in the set's order |
| VueReactivity.StepCalls | mini-vue/packages/reactivity/src/effect.ts:127-131 | one effect without a computed scheduler makes exactly its own call |
| VueReactivity.TrackAddsActive | mini-vue/packages/reactivity/src/effect.ts:61-75 | after track the key's dependency set holds the active effect |
| VueReactivity.TrackKeepsMembership | mini-vue/packages/reactivity/src/effect.ts:61-82 | tracking never takes an effect out of a set, nor moves a key to another set |
| VueReactivity.TrackStepSubscribes | mini-vue/packages/reactivity/src/effect.ts:61-75 | one read adds the property to the ones the running effect is subscribed to and loses none |
| VueReactivity.TrackAllSubscribes | mini-vue/packages/reactivity/src/effect.ts:44-75 | every property the function reads ends up with the running effect in its dependency set |
| VueReactivity.RunSubscribes | mini-vue/packages/reactivity/src/effect.ts:44-82 | running an effect that is not running leaves it in the dependency set of every property its function read |
| VueReactivity.TriggerEffectsRuns | mini-vue/packages/reactivity/src/effect.ts:125-133 | every effect of the set without a scheduler and not already running is run by triggerEffects |
| VueReactivity.ChangeRerunsSubscribers | mini-vue/packages/reactivity/src/effect.ts:84-123 | changing a property of a plain object re-runs every effect without a scheduler subscribed to it, unless that effect is running |
| VueReactivity.EffectRunsUnlessLazy | mini-vue/packages/reactivity/src/effect.ts:13-31 | a new effect runs once at creation exactly when it is not lazy, and keeps the options' scheduler |
| VueReactivity.ToReactive | mini-vue/packages/reactivity/src/ref.ts:32 | objects become reactive proxies and anything else stays as it is |
| VueReactivity.TrackRefValueSpec | mini-vue/packages/reactivity/src/ref.ts:52-60 | trackRefValue keeps the stack, the active effect, the refs, the computed refs and the log |
| VueReactivity.TrackRefValueCreatesDep | mini-vue/packages/reactivity/src/ref.ts:52-60 | without an active effect a ref gets no dependency set; with one the set exists, is the old one if there was one, and holds the effect |
| VueReactivity.NewRefStores | mini-vue/packages/reactivity/src/ref.ts:12-33 | a shallow ref stores the value as it is and a deep one toReactive of it; both keep the raw value and start without a dependency set |
| VueReactivity.RefGetReturnsValue | mini-vue/packages/reactivity/src/ref.ts:35-38 | reading a ref returns its stored value and changes nothing but the tracking |
| VueReactivity.RefSetUnchanged | mini-vue/packages/reactivity/src/ref.ts:40-42 | writing the same value again does nothing at all |
| VueReactivity.RefSetChanged | mini-vue/packages/reactivity/src/ref.ts:40-48 | writing a new value stores it, as is or through toReactive, and re-runs every subscribed effect without a scheduler that is not running |
| VueReactivity.ComputedStartsDirty | mini-vue/packages/reactivity/src/computed.ts:9-47 | a new computed ref starts dirty, is read-only exactly when given a getter alone, has the no-op setter then, and its effect has the computed scheduler |
| VueReactivity.ComputedGetClean | mini-vue/packages/reactivity/src/computed.ts:49-60 | a clean computed ref returns its cached value without running its getter |
| VueReactivity.ComputedGetDirty | mini-vue/packages/reactivity/src/computed.ts:49-60 | a dirty computed ref runs its getter once, caches the result and becomes clean |
| VueReactivity.ComputedGetTwice | mini-vue/packages/reactivity/src/computed.ts:49-60 | reading a computed ref twice runs its getter at most once |
| VueReactivity.ComputedSchedulerWhenDirty | mini-vue/packages/reactivity/src/computed.ts:39 | the scheduler does nothing to a computed ref that is already dirty |
| VueReactivity.ComputedSchedulerWhenClean | mini-vue/packages/reactivity/src/computed.ts:38-43 | on a clean computed ref the scheduler marks it dirty and re-runs the plain effects that read it |
| VueReactivity.ComputedSetSpec | mini-vue/packages/reactivity/src/computed.ts:62-64 | writing a computed ref always calls its setter: the no-op setter does nothing and a missing one throws |
| VueReactivity.Reactivity.constructor | mini-vue/packages/reactivity/src/effect.ts:7-11 | no target is tracked, no effect exists and the stack is empty |
| VueReactivity.Reactivity.Run | mini-vue/packages/reactivity/src/effect.ts:44-57 | the state moves as RunSpec says, and the result is the function's, or undefined for an effect already running |
| VueReactivity.Reactivity.Track | mini-vue/packages/reactivity/src/effect.ts:61-75 | the state moves as TrackSpec says |
| VueReactivity.Reactivity.TrackEffects | mini-vue/packages/reactivity/src/effect.ts:77-82 | the state moves as TrackEffectsSpec says |
| VueReactivity.Reactivity.Trigger | mini-vue/packages/reactivity/src/effect.ts:84-123 | the state moves as TriggerSpec says, or the state is kept and the error is TriggerSpec's |
| VueReactivity.Reactivity.Collect | mini-vue/packages/reactivity/src/effect.ts:86-119 | the effect set is the one CollectSpec builds, or its error with the state kept |
| VueReactivity.Reactivity.KeyEffects | mini-vue/packages/reactivity/src/effect.ts:106-118 | the effect set of a change to one key is the one KeyEffectsSpec builds |
| VueReactivity.Reactivity.LengthEffectsOf | mini-vue/packages/reactivity/src/effect.ts:97-104 | the depsMap.forEach of a length change collects what LengthEffects gives |
| VueReactivity.Reactivity.TriggerEffects | mini-vue/packages/reactivity/src/effect.ts:125-133 | the state moves as TriggerEffectsSpec says |
| VueReactivity.Reactivity.Step | mini-vue/packages/reactivity/src/effect.ts:126-132 | the state moves as StepSpec says |
| VueReactivity.Reactivity.MarkComputedDirty | mini-vue/packages/reactivity/src/computed.ts:38-43 | the state moves as ComputedSchedulerSpec says |
| VueReactivity.Reactivity.TriggerRefValue | mini-vue/packages/reactivity/src/ref.ts:62-66 | the state moves as TriggerRefValueSpec says |
| VueReactivity.Reactivity.CreateEffect | mini-vue/packages/reactivity/src/effect.ts:13-31 | the state moves as EffectSpec says and the runner is the new effect |
| VueReactivity.Reactivity.AddEffect | mini-vue/packages/reactivity/src/effect.ts:37-42 | a new effect with its function, its scheduler and no deps |
| VueReactivity.Reactivity.TrackRefValue | mini-vue/packages/reactivity/src/ref.ts:52-60 | the state and the ref's dep move as TrackRefValueSpec says |
| VueReactivity.Reactivity.NewRef | mini-vue/packages/reactivity/src/ref.ts:12-33 | the state moves as NewRefSpec says and the id is the new ref |
| VueReactivity.Reactivity.RefGet | mini-vue/packages/reactivity/src/ref.ts:35-38 | the state and the value are RefGetSpec's |
| VueReactivity.Reactivity.RefSet | mini-vue/packages/reactivity/src/ref.ts:40-48 | the state moves as RefSetSpec says |
| VueReactivity.Reactivity.NewComputed | mini-vue/packages/reactivity/src/computed.ts:9-24 | the state moves as ComputedSpec says and the id is the new computed ref |
| VueReactivity.Reactivity.ComputedGet | mini-vue/packages/reactivity/src/computed.ts:49-60 | the state and the value are ComputedGetSpec's |
| VueReactivity.Reactivity.ComputedSet | mini-vue/packages/reactivity/src/computed.ts:62-64 | the state moves as ComputedSetSpec says, and a throw keeps it |
| VueObjectRef.ObjectRef.constructor | mini-vue/packages/reactivity/src/ref.ts:69-71 | toRef points at the key of the target |
| VueObjectRef.ObjectRef.Get | mini-vue/packages/reactivity/src/ref.ts:88-90 | reading gives the target's property as it is now, undefined when absent |
| VueObjectRef.ObjectRef.Set | mini-vue/packages/reactivity/src/ref.ts:92-94 | writing sets the target's property and nothing else, and reads back the value |
| VueObjectRef.ToRefs | mini-vue/packages/reactivity/src/ref.ts:74-81 | an array gives an array of its length and an object a record; one new ref per key of the object, each pointing at that key of it |
| VueScheduler.Insert | mini-vue/packages/runtime-core/src/scheduler.ts:21 | inserting a job keeps every job and adds exactly the new one |
| VueScheduler.InsertSorted | mini-vue/packages/runtime-core/src/scheduler.ts:21 | inserting into a queue sorted by id keeps it sorted |
| VueScheduler.SortJobs | mini-vue/packages/runtime-core/src/scheduler.ts:21 | the sort is a permutation of the queue, ordered by id with jobs without an id last |
| VueScheduler.AddAll | mini-vue/packages/runtime-core/src/scheduler.ts:3-8 | queueing jobs keeps the queue as a prefix |
| VueScheduler.AddAllFacts | mini-vue/packages/runtime-core/src/scheduler.ts:3-8 | after queueing, the queue holds exactly the old jobs and the added ones, each still once |
| VueScheduler.AddAllNewAreNew | mini-vue/packages/runtime-core/src/scheduler.ts:4 | a job queueing appends was not in the queue before |
| VueScheduler.DrainShape | mini-vue/packages/runtime-core/src/scheduler.ts:23-26 | what a flush runs starts with the queue it found, holds every job once and stays among the known jobs |
| VueScheduler.DrainRunsSpawned | mini-vue/packages/runtime-core/src/scheduler.ts:23-26 | every job queued by a job the flush ran is run in the same flush, because the loop reads the length again |
| VueScheduler.Scheduler.constructor | mini-vue/packages/runtime-core/src/scheduler.ts:2-9 | the queue is empty and no flush is pending |
| VueScheduler.Scheduler.QueueJob | mini-vue/packages/runtime-core/src/scheduler.ts:3-8 | a job not yet queued is appended and a flush is pending; a queued job changes nothing |
| VueScheduler.Scheduler.QueueFlush | mini-vue/packages/runtime-core/src/scheduler.ts:10-16 | a flush is scheduled only when none is pending, so at most one is scheduled |
| VueScheduler.Scheduler.FlushJobs | mini-vue/packages/runtime-core/src/scheduler.ts:18-29 | the pending flag is cleared, the queue sorted by id and every job run with the jobs they queue, then the queue is emptied; a flush is pending again exactly when a job queued a new one |
| VueScheduler.Scheduler.RunQueue | mini-vue/packages/runtime-core/src/scheduler.ts:23-26 | the loop runs the queue as Drain gives it, reading the length after every job |
| VueScheduler.Scheduler.RunAt | mini-vue/packages/runtime-core/src/scheduler.ts:24-25 | the job is run and queues the jobs it spawns |
| VueScheduler.Scheduler.RunJob | mini-vue/packages/runtime-core/src/scheduler.ts:3-8 | a running job queues the jobs it spawns, in order |
| VueScheduler.ProgressDone | mini-vue/packages/runtime-core/src/scheduler.ts:23-26 | a flush that has run its whole queue ran Drain of the queue it started from |
| VueVNode.AsValue | mini-vue/packages/runtime-core/src/vnode.ts:34-35 | the vnode user code sees carries __v_isVNode |
| VueVNode.TypeFlag | mini-vue/packages/runtime-core/src/vnode.ts:20-27 | a string type is an element, an object a stateful component, anything else 0 |
| VueVNode.ChildrenFlag | mini-vue/packages/runtime-core/src/vnode.ts:54-63 | null or undefined children add nothing, an array adds ARRAY_CHILDREN and anything else TEXT_CHILDREN |
| VueVNode.DefaultNull | mini-vue/packages/runtime-core/src/vnode.ts:18 | an absent children argument becomes null |
| VueVNode.NormalizeChildren | mini-vue/packages/runtime-core/src/vnode.ts:54-68 | the children's flag is ORed into the vnode's shape flag |
| VueVNode.CreateBaseVNode | mini-vue/packages/runtime-core/src/vnode.ts:32-51 | a vnode marked as such with the type, props and children given, no component or element, the key from props or null, and the shape flag with the children's flag added |
| VueVNode.CreateVNode | mini-vue/packages/runtime-core/src/vnode.ts:18-30 | createVNode is createBaseVNode with the type's flag |
| VueVNode.ShapeFlagParts | mini-vue/packages/runtime-core/src/vnode.ts:18-68 | a new vnode's flags say exactly whether its type is an element or a component and whether its children are an array or text, with no other bit |
| VueVNode.HTypeOnly | mini-vue/packages/runtime-core/src/h.ts:11-12 | with one argument, no props and no children |
| VueVNode.HTwoArguments | mini-vue/packages/runtime-core/src/h.ts:13-23 | with two arguments a vnode becomes the only child, another non-array object the props, and anything else the children |
| VueVNode.HManyChildren | mini-vue/packages/runtime-core/src/h.ts:25-26 | with more than three arguments every argument from the third on is a child, in order |
| VueVNode.HThreeArguments | mini-vue/packages/runtime-core/src/h.ts:27-28 | with exactly three arguments a vnode child is wrapped in an array and anything else passed through |
| VueVNode.HIsVNode | mini-vue/packages/runtime-core/src/h.ts:9-34 | a vnode built by h is recognised as a vnode |
| VueInstance.Instance.Get | mini-vue/packages/runtime-core/src/componentPublicInstance.ts:4-21 | a key starting with $ reads undefined; otherwise setup state first, then props, then data, then undefined |
| VueInstance.Instance.Set | mini-vue/packages/runtime-core/src/componentPublicInstance.ts:22-34 | only the first of setup state, props and data owning the key is written, nothing when none does, and the trap returns true |
| VueEvents.EventName | mini-vue/packages/runtime-dom/src/modules/events.ts:15 | the name drops the first two characters and is ASCII lower-cased |
| VueEvents.EventElement.PatchEvent | mini-vue/packages/runtime-dom/src/modules/events.ts:1-27 | a new handler with an invoker in place only changes the invoker's value; a new handler without one creates an invoker and listens with it; no handler removes the listener and the cached invoker; otherwise nothing changes; other names are untouched |
| VueEvents.EventElement.CreateInvoker | mini-vue/packages/runtime-dom/src/modules/events.ts:30-38 | a fresh invoker whose value is the handler |
| VueEvents.EventElement.AddEventListener | mini-vue/packages/runtime-dom/src/modules/events.ts:19 | a listener already registered for the name is not added twice |
| VueEvents.EventElement.RemoveEventListener | mini-vue/packages/runtime-dom/src/modules/events.ts:22 | the listener is removed |
| VueEvents.Without | mini-vue/packages/runtime-dom/src/modules/events.ts:22 | the list without the entry and with every other one |
| VueEvents.HandlersAfterValueChange | mini-vue/packages/runtime-dom/src/modules/events.ts:11-13 | changing an invoker's value redirects every event it receives to the new handler |
| VueEvents.PatchThenDispatch | mini-vue/packages/runtime-dom/src/modules/events.ts:17-19 | patching a handler onto an element without one makes the next event of that name reach it |

## Left out

- JavaScript numbers are modelled as integers. NaN, `-0` and fractions are not modelled, so `Object.is` (in `areHookInputsEqual` and mini-vue's change checks) is plain equality of values.
- The scheduler package is a parameter or an event log. This covers `scheduleCallback`, `cancelCallback`, `shouldYield`, `runWithPriority` and the current priority. Microtasks are recorded callbacks, and `ReactCurrentBatchConfig.transition` is a parameter.
- User render functions, effect `create`/`destroy` and ref callbacks are not modelled as code. They are opaque values whose results (children, a throw, a destroy function) are inputs.
- The React DOM adapter, its synthetic events and test utilities are not modelled. The noop host stands in for the host.
- Transition hooks (`mountTransition`, `updateTransition`, `startTransition`) are not modelled.
- NoopRoot.NodeToJsx: `childToJSX` also writes `props.children` into the instance's own props. That in-place write is not modelled; only the returned JSX is. The recursion over the host tree takes a fuel parameter, and exhausted fuel reads as undefined.
- CommitHost.GetHostParent: the climb runs on a fuel bound equal to the number of fibers, which a well-formed `return` chain never exhausts.
- EditorCommand.CommandState: blocks are values. Aliasing of block objects between history entries, where `placeTop` mutates blocks an earlier entry may still hold, is not modelled. The drag command's start and end event wiring is not modelled; its `before` snapshot is an argument. The `commands` map of closures becomes a list of command descriptions.
- The editor's UI (the editor component, block resize, mouse and menu dragging, dialogs and dropdowns) is not modelled. Its geometry is floating point.
- VueReactivity: an effect body is a fixed list of the `(target, key)` reads it performs. What the body writes, and dependency changes between runs, are not modelled.
- VueReactivity: the Proxy handlers (reactive.ts, baseHandlers.ts) and `watch` are not modelled. Reads and writes are explicit operations on targets.
- VueVNode: the `ShapeFlags` values and `isVNode` are not defined in the repository. The model uses Vue 3's values: ELEMENT=1, STATEFUL_COMPONENT=4, TEXT_CHILDREN=8, ARRAY_CHILDREN=16. `isVNode` means `__v_isVNode === true`.
- mini-vue's component.ts, renderer.ts and the DOM node operations are not modelled. Nor are `isIntegerKey` and `hasChanged`, which rely on `parseInt` and float semantics; an integer key is a distinct key kind.
- VueEvents.EventName: lower-cases only the ASCII letters A-Z. JavaScript's `toLowerCase` (events.ts:15) also folds non-ASCII letters (for example `É`), which the model does not capture.
- VuexStore.Store: mutation and action handlers, subscribers and plugins are opaque. A call is recorded with its payload and the state it sees; what the handler does is not modelled. `_withCommit` has no `finally`, so after a throw `_commiting` stays true; this is modelled. The `Promise` wrapping of `dispatch`, strict-mode watching and `install` are not modelled.
- VuexStore.Assign: a parent that is not a plain object is an error. In JavaScript the property would be set on it anyway, for example on an array.
- WebpackCli: `Compiler` and `getSource` are not modelled (file system, babel, loaders). Plugins are recorded as the list whose `apply(compiler)` is called. `process.argv` and `process.cwd()` are parameters.
- file-slice-upload: `calculateFileHash` (a Web Worker), the concurrency pool, the upload driver and the servers are not modelled.
- FileChunk.CreateFileChunk: requires `chunkSize > 0`. For `chunkSize <= 0` and a non-empty file, the source's `while (cur < size)` never ends; `CHUNK_SIZE` comes from a constants module that is not part of this model, so it is a parameter.
- UpdateQueue.ProcessUpdates: kept as written at updateQueue.ts:108, where a skipped update's clone takes the lane of the first pending update (`pending.lane`, updateQueue.ts:95) instead of its own. The intended rule is `ProcessWith(..., true)`. On the two-render example of updateQueue.ts:158-194, the code as written gives 11 (`DocExampleSecondRenderAsWritten`) where the comment's 13 needs the intended rule (`DocExampleSecondRenderIntended`).
- ChildArray.UpdateSlotPlan: kept as written at childFiber.ts:420. A text child gives up the slot when the old fiber's key is null, the case where the old fiber could be reused.
- ChildFiber.ReconcileSingleElement: kept as written. A keyed fragment over a same-key non-`Fragment` child leaves that child neither reused nor deleted (`FragmentOverSameKeyKeepsOldChild`).
- ChildRest.ReconcileChildrenArray: requires that old keys are null or strings and match their alternates (`KeysOK`), and that element keys are strings or nullish (`JsxKeyed`). It also requires that an initial mount has no old children. That every old child is reused or deleted exactly once is proved under `UniqueKeys` only.
- ChildReconcile.ReconcileChildFibers: the same requirements as `ChildRest.ReconcileChildrenArray` on the array path.
- ChildRest.ReconcileChildrenArray: `Reconciled` ties each new fiber to the index of its child, its placement flag and the old fiber it came from. It does not tie the fiber's tag, type, key or pendingProps to the child at that index. Nor does it state that a reused old fiber matched that child's key and type. Each step's choice states both (`UpdateSlotPlan`, `FromMapPlan`, `CreateChildPlan`, with `Realize` carrying it out), but the loop invariants do not carry them to the whole list.
- ChildReconcile.ReconcileChildFibers: on the array path it promises what `ChildRest.ReconcileChildrenArray` promises, so the same per-child tie is missing.
- CommitHost.GetHostSibling: the `return` pointers the search writes on its way (commitWork.ts:281 and :295) are not modelled; the links are read-only. In a tree whose links agree (`FiberTree.Shaped`) those writes store what the pointers already hold.
- CommitPlacement.CommitPlacement: its contract speaks of the budgeted sibling search (`SiblingFrom`). That the budget suffices and that the search finds the next unplaced host fiber in document order is proved in `CommitHost.HostSiblingInOrder`. That lemma needs the placed fiber's position below its host parent as a tree path, which this method's requirements do not carry.
- WorkLoop.WorkLoopState.PerformConcurrentWorkOnRoot: passive effect bodies are oracles that cannot schedule updates. So the flush never replaces the root's callback, and the early return after a flush that did work (workLoop.ts:146-151) cannot arise in the model, although it is modelled. A sync callback the flush queues or flushes is recorded, not run: it neither renders nor commits the root.
- SyncTaskQueue.SyncQueueState.FlushSyncCallbacks: a flushed callback is appended to the record of callbacks run; it is not run. A queued `performSyncWorkOnRoot` therefore neither renders nor commits the root here; `WorkLoop.WorkLoopState.PerformSyncWorkOnRoot` models that call on its own.
- WorkLoop.WorkLoopState.PerformSyncWorkOnRoot: the render pass is driven by begin and complete oracles that write no effect flags, and only `memoizedProps` changes during the walk. The commit that follows is therefore stated for trees whose flags are already in place, as `WorkLoop.CommitsAfterRender` requires of the caller. When a fresh stack is prepared, the root's work-in-progress copy has its flags reset, as `createWorkInProgress` does.
- WorkLoop.WorkLoopState.PerformConcurrentWorkOnRoot: the same holds for its commit.

## Findings

| source | as written | input that shows it | evidently intended | confidence | as-written member | corrected member |
|---|---|---|---|---|---|---|
| big-react/packages/react-reconciler/src/commitWork.ts:347-352 | the recursive calls for a non-host fiber's children leave `before` out, so those children are appended at the end | a function component wrapping a `div` (instance 7) placed before host sibling 5 in children [5] gives [5, 7] | every topmost host instance goes in front of `before`, giving [7, 5] | not executed | CommitPlacement.DroppedBefore | CommitPlacement.InsertOrAppend |
| big-react/packages/react-reconciler/src/commitWork.ts:285-293 | the inner `continue` re-tests the same node, which is neither a host nor descends, so the loop never ends | a `div` (fiber 1, flagged Placement) whose later sibling is a function component with no child, under a `div` parent (`SpinArena`) | the search goes on upwards and ends with no host sibling (null) | not executed | CommitHost.SiblingSpinExample | CommitHost.GetHostSibling |
| big-react/packages/react-reconciler/src/commitWork.ts:205-220 | after the first host node, only siblings of the last recorded node are recorded, so a host node that is not a later sibling of it is skipped | deleting a Fragment whose children are a function component rendering a `div` (instance 10) and a `span` (instance 11): only the `div` is recorded, so the `span` stays mounted (`DeletionArena`) | every topmost host node of the deleted subtree is removed: instances 10 and 11 | not executed | CommitDeletion.DeletionMissesHost | CommitDeletion.HostTops |
