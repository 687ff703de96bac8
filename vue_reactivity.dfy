/**
 * Dependency tracking of mini-vue: reactive effects and their stack
 * (mini-vue/packages/reactivity/src/effect.ts), refs
 * (mini-vue/packages/reactivity/src/ref.ts) and computed refs
 * (mini-vue/packages/reactivity/src/computed.ts).
 *
 * Effects, dependency sets, refs and computed refs are objects with an
 * identity; the model keeps each kind in a table by id. A `Set` keeps its
 * insertion order, so a dependency set is a sequence without repetitions.
 * The function of an effect is user code: the model describes it by the
 * reactive properties it reads (each read calls `track`) and records each
 * call in a log.
 *
 * The first part states every operation as a function on the whole state
 * (`RState`); the class `Reactivity` at the end performs the operations
 * step by step and is proved against those functions.
 */
module VueReactivity {
  import opened Wrappers
  import opened JsValues

  /** A property key of a reactive target: `"length"`, a canonical array index, another name, or a symbol. */
  datatype Key = LengthKey | IndexKey(i: nat) | NameKey(name: string) | SymbolKey(reg: nat)

  /** `TriggerOpTypes` */
  datatype TriggerOp = SetOp | AddOp | DeleteOp | ClearOp

  /** The scheduler of an effect: none, a user function, or the one a computed ref installs. */
  datatype Sched = NoScheduler | UserScheduler(fid: nat) | ComputedScheduler(cid: nat)

  /**
   * A `ReactiveEffect`: its scheduler, the dependency sets it was added to
   * (`effect.dep`), and its function, given as the (target, key) pairs it reads.
   */
  datatype Effect = Effect(scheduler: Sched, deps: seq<nat>, body: seq<(nat, Key)>)

  /** A call into user code. */
  datatype Event =
    | RunFn(effect: nat)
    | SchedulerCall(effect: nat, fid: nat)
    | SetterCall(fid: nat, v: Value)

  /** A ref's stored value: the value itself, or the reactive proxy `toReactive` makes of an object. */
  datatype Stored = Plain(v: Value) | ReactiveOf(target: Value)

  /** A `RefImpl`: `_rawValue`, `_value`, `__v_isShallow` and the lazily created `dep`. */
  datatype Ref = Ref(raw: Value, value: Stored, shallow: bool, dep: Option<nat>)

  /** The setter of a computed ref: the no-op of a getter-only computed, a user function, or a missing `set`. */
  datatype Setter = Noop | SetterFn(fid: nat) | NoSetter

  /** A `ComputedRefImpl`. */
  datatype Computed = Computed(effect: nat, setter: Setter, readonly: bool, dirty: bool, value: Value, dep: Option<nat>)

  /** The whole reactive state. */
  datatype RState = RState(
    effects: map<nat, Effect>, nextEffect: nat,
    deps: map<nat, seq<nat>>, nextDep: nat,
    targetMap: map<nat, seq<(Key, nat)>>,
    stack: seq<nat>, active: Option<nat>,
    refs: map<nat, Ref>, nextRef: nat,
    computeds: map<nat, Computed>, nextComputed: nat,
    log: seq<Event>)

  // ------------------------------------------------------------ lookups

  /** `effectStack.at(-1)` */
  function Top(stack: seq<nat>): (r: Option<nat>)
    ensures |stack| == 0 <==> r.None?
    ensures |stack| > 0 ==> r == Some(stack[|stack| - 1])
  {
    if |stack| == 0 then None else Some(stack[|stack| - 1])
  }

  /** The members of dependency set `d`. */
  function Members(deps: map<nat, seq<nat>>, d: nat): seq<nat>
  {
    if d in deps then deps[d] else []
  }

  /** `targetMap.get(target)`, as its entries in insertion order. */
  function Entries(targetMap: map<nat, seq<(Key, nat)>>, target: nat): seq<(Key, nat)>
  {
    if target in targetMap then targetMap[target] else []
  }

  /** The effect with id `e`. */
  function EffectOf(effects: map<nat, Effect>, e: nat): Effect
  {
    if e in effects then effects[e] else Effect(NoScheduler, [], [])
  }

  /** `depsMap.get(key)` */
  function FindKey(entries: seq<(Key, nat)>, key: Key): (r: Option<nat>)
    ensures r.Some? ==> (key, r.value) in entries
    ensures r.None? ==> forall i :: 0 <= i < |entries| ==> entries[i].0 != key
    decreases |entries|
  {
    if |entries| == 0 then None
    else if entries[0].0 == key then Some(entries[0].1)
    else FindKey(entries[1..], key)
  }

  lemma {:induction false} FindKeyAppend(entries: seq<(Key, nat)>, key: Key, d: nat, other: Key)
    requires FindKey(entries, key).None?
    ensures FindKey(entries + [(key, d)], key) == Some(d)
    ensures other != key ==> FindKey(entries + [(key, d)], other) == FindKey(entries, other)
    decreases |entries|
  {
    if |entries| > 0 {
      assert (entries + [(key, d)])[1..] == entries[1..] + [(key, d)];
      FindKeyAppend(entries[1..], key, d, other);
    }
  }

  /** `set.add(x)` for each `x` of `xs`, in order. */
  function AddEach(acc: seq<nat>, xs: seq<nat>): (r: seq<nat>)
    ensures forall x :: x in r <==> x in acc || x in xs
    ensures |acc| <= |r| && r[..|acc|] == acc
    decreases |xs|
  {
    if |xs| == 0 then acc
    else
      var before := AddEach(acc, xs[..|xs| - 1]);
      var x := xs[|xs| - 1];
      assert forall y :: y in xs <==> y in xs[..|xs| - 1] || y == x by {
        assert xs == xs[..|xs| - 1] + [x];
      }
      if x in before then before else before + [x]
  }

  predicate NoRepeats(s: seq<nat>)
  {
    forall i, j :: 0 <= i < j < |s| ==> s[i] != s[j]
  }

  /** Adding to a set keeps it free of repetitions. */
  lemma {:induction false} AddEachNoRepeats(acc: seq<nat>, xs: seq<nat>)
    requires NoRepeats(acc)
    ensures NoRepeats(AddEach(acc, xs))
    decreases |xs|
  {
    if |xs| > 0 {
      AddEachNoRepeats(acc, xs[..|xs| - 1]);
    }
  }

  /** What neither tracking nor running an effect changes: the stack, the refs, the computed refs, and every effect's scheduler and function. */
  ghost predicate SameShape(a: RState, b: RState)
  {
    && a.stack == b.stack && a.refs == b.refs && a.computeds == b.computeds
    && a.nextEffect == b.nextEffect && a.nextRef == b.nextRef && a.nextComputed == b.nextComputed
    && SameEffects(a.effects, b.effects)
  }

  /** The same effects, with the same schedulers and functions; only their `dep` lists may differ. */
  ghost predicate SameEffects(a: map<nat, Effect>, b: map<nat, Effect>)
  {
    a.Keys == b.Keys
    && forall e :: e in a ==> e in b && b[e].scheduler == a[e].scheduler && b[e].body == a[e].body
  }

  // ---------------------------------------------------- the effect stack

  /** The first half of `run()`: the effect is pushed and made active. */
  function EnterSpec(st: RState, e: nat): (r: RState)
    ensures r.stack == st.stack + [e] && r.active == Some(e)
  {
    st.(stack := st.stack + [e], active := Some(e))
  }

  /** The `finally` of `run()`: the top is popped and the new top becomes active. */
  function ExitSpec(st: RState): (r: RState)
    ensures |st.stack| > 0 ==> r.stack == st.stack[..|st.stack| - 1]
    ensures r.active == Top(r.stack)
  {
    var s := if |st.stack| == 0 then [] else st.stack[..|st.stack| - 1];
    st.(stack := s, active := Top(s))
  }

  /** `effect.run()`: unless the effect is already on the stack, its function runs with the effect active. */
  function RunSpec(st: RState, e: nat): (r: RState)
    ensures SameShape(st, r)
    ensures r.log == if e in st.stack then st.log else st.log + [RunFn(e)]
  {
    if e in st.stack then st
    else
      var inside := TrackAll(EnterSpec(st, e).(log := st.log + [RunFn(e)]), EffectOf(st.effects, e).body);
      assert (st.stack + [e])[..|st.stack|] == st.stack;
      ExitSpec(inside)
  }

  /** A run leaves the stack as it found it and makes its top active again. */
  lemma RunRestoresStack(st: RState, e: nat)
    requires e !in st.stack
    ensures RunSpec(st, e).stack == st.stack
    ensures RunSpec(st, e).active == Top(st.stack)
    ensures RunSpec(st, e).log == st.log + [RunFn(e)]
  {
  }

  /** An effect already on the stack is not run again. */
  lemma RunSkipsRunningEffect(st: RState, e: nat)
    requires e in st.stack
    ensures RunSpec(st, e) == st
  {
  }

  // ------------------------------------------------------------ tracking

  /** `trackEffects(dep)`: the active effect joins the set once, and the set is recorded in the effect once. */
  function TrackEffectsSpec(st: RState, d: nat): (r: RState)
    requires st.active.Some?
    ensures SameShape(st, r) && r.active == st.active && r.log == st.log
  {
    var e := st.active.value;
    if e in Members(st.deps, d) then st
    else
      st.(deps := st.deps[d := Members(st.deps, d) + [e]],
          effects := if e in st.effects then st.effects[e := st.effects[e].(deps := st.effects[e].deps + [d])] else st.effects)
  }

  /** `track(target, type, key)` */
  function TrackSpec(st: RState, target: nat, key: Key): (r: RState)
    ensures SameShape(st, r) && r.active == st.active && r.log == st.log
  {
    if st.active.None? then st
    else
      var entries := Entries(st.targetMap, target);
      var found := FindKey(entries, key);
      if found.Some? then TrackEffectsSpec(st, found.value)
      else
        var d := st.nextDep;
        TrackEffectsSpec(st.(deps := st.deps[d := []], nextDep := d + 1, targetMap := st.targetMap[target := entries + [(key, d)]]), d)
  }

  /** The reads of an effect's function, in order. */
  function TrackAll(st: RState, body: seq<(nat, Key)>): (r: RState)
    ensures SameShape(st, r) && r.active == st.active && r.log == st.log
    decreases |body|
  {
    if |body| == 0 then st else TrackAll(TrackSpec(st, body[0].0, body[0].1), body[1..])
  }

  /** The dependency set of `key` on `target`, if there is one. */
  function DepFor(st: RState, target: nat, key: Key): Option<nat>
  {
    FindKey(Entries(st.targetMap, target), key)
  }

  /** Dependency ids in use lie below the next fresh id, and every id the target map holds is in use. */
  ghost predicate FreshIds(st: RState)
  {
    (forall d :: d in st.deps ==> d < st.nextDep)
    && (forall t, i :: t in st.targetMap && 0 <= i < |st.targetMap[t]| ==> st.targetMap[t][i].1 in st.deps)
  }

  /** Membership in both directions: an effect in a set has that set in its `dep` list. */
  ghost predicate Mutual(st: RState)
  {
    forall d, e :: d in st.deps && e in st.deps[d] ==> e in st.effects && d in st.effects[e].deps
  }

  /** Without an active effect, tracking changes nothing. */
  lemma TrackWithoutActiveEffect(st: RState, target: nat, key: Key)
    requires st.active.None?
    ensures TrackSpec(st, target, key) == st
  {
  }

  /** Tracking twice in a row is tracking once: the effect joins a set at most once. */
  lemma TrackEffectsOnce(st: RState, d: nat)
    requires st.active.Some?
    ensures TrackEffectsSpec(TrackEffectsSpec(st, d), d) == TrackEffectsSpec(st, d)
    ensures NoRepeats(Members(st.deps, d)) ==> NoRepeats(Members(TrackEffectsSpec(st, d).deps, d))
  {
  }

  /**
   * After `track`, the key has a dependency set that holds the active
   * effect, and (when the two directions agreed before) the effect lists
   * that set.
   */
  lemma TrackRecords(st: RState, target: nat, key: Key)
    requires st.active.Some? && st.active.value in st.effects && FreshIds(st) && Mutual(st)
    ensures var r := TrackSpec(st, target, key);
      && DepFor(r, target, key).Some?
      && st.active.value in Members(r.deps, DepFor(r, target, key).value)
      && DepFor(r, target, key).value in r.effects[st.active.value].deps
  {
    var entries := Entries(st.targetMap, target);
    var found := FindKey(entries, key);
    if found.None? {
      FindKeyAppend(entries, key, st.nextDep, key);
    } else {
      var i :| 0 <= i < |entries| && entries[i] == (key, found.value);
      assert found.value in st.deps;
    }
  }

  /** Tracking keeps every id below the next fresh id, and every id of the target map in use. */
  lemma TrackKeepsFreshIds(st: RState, target: nat, key: Key)
    requires FreshIds(st)
    ensures FreshIds(TrackSpec(st, target, key))
  {
    if st.active.Some? && FindKey(Entries(st.targetMap, target), key).None? {
      var entries := Entries(st.targetMap, target);
      var d := st.nextDep;
      var st1 := st.(deps := st.deps[d := []], nextDep := d + 1, targetMap := st.targetMap[target := entries + [(key, d)]]);
      assert FreshIds(st1) by {
        forall t, i | t in st1.targetMap && 0 <= i < |st1.targetMap[t]|
          ensures st1.targetMap[t][i].1 in st1.deps
        {
          if t == target && i == |entries| {
          } else {
            assert st1.targetMap[t][i] == st.targetMap[t][i];
          }
        }
      }
      TrackEffectsKeepsFreshIds(st1, d);
    } else if st.active.Some? {
      var d := FindKey(Entries(st.targetMap, target), key).value;
      TrackEffectsKeepsFreshIds(st, d);
    }
  }

  lemma TrackEffectsKeepsFreshIds(st: RState, d: nat)
    requires FreshIds(st) && st.active.Some? && d in st.deps
    ensures FreshIds(TrackEffectsSpec(st, d))
  {
  }

  /** Tracking one key leaves the dependency set of every other key where it was. */
  lemma TrackKeepsOtherKeys(st: RState, target: nat, key: Key, t: nat, k: Key)
    requires t != target || k != key
    ensures DepFor(TrackSpec(st, target, key), t, k) == DepFor(st, t, k)
  {
    if st.active.Some? && FindKey(Entries(st.targetMap, target), key).None? {
      FindKeyAppend(Entries(st.targetMap, target), key, st.nextDep, k);
    }
  }

  // ----------------------------------------------------------- triggering

  /** `key >= newValue` for a key of the dependency map; comparing a symbol throws. */
  function KeyAtLeast(k: Key, newValue: Value): (r: Result<bool>)
    ensures r.Throw? <==> k.SymbolKey?
    ensures r == Ok(true) <==> k.IndexKey? && newValue.Num? && k.i >= newValue.n
  {
    match k
    case SymbolKey(_) => Throw("TypeError: Cannot convert a Symbol value to a number")
    case IndexKey(i) => Ok(newValue.Num? && i >= newValue.n)
    case _ => Ok(false)
  }

  /** The effects of an array length change: those of `"length"` and of every index at or above the new length, in map order. */
  function LengthEffects(deps: map<nat, seq<nat>>, entries: seq<(Key, nat)>, newValue: Value, acc: seq<nat>): (r: Result<seq<nat>>)
    decreases |entries|
  {
    if |entries| == 0 then Ok(acc)
    else
      var (k, d) := entries[0];
      if k == LengthKey then LengthEffects(deps, entries[1..], newValue, AddEach(acc, Members(deps, d)))
      else match KeyAtLeast(k, newValue)
        case Throw(msg) => Throw(msg)
        case Ok(atLeast) =>
          LengthEffects(deps, entries[1..], newValue, if atLeast then AddEach(acc, Members(deps, d)) else acc)
  }

  /** A key whose dependency set a length change triggers. */
  predicate Affected(k: Key, newValue: Value)
  {
    k == LengthKey || (k.IndexKey? && newValue.Num? && k.i >= newValue.n)
  }

  /**
   * A length change fails exactly when some key is a symbol; otherwise it
   * collects exactly the effects of the affected keys.
   */
  lemma {:induction false} LengthEffectsExact(deps: map<nat, seq<nat>>, entries: seq<(Key, nat)>, newValue: Value, acc: seq<nat>)
    ensures LengthEffects(deps, entries, newValue, acc).Throw? <==> exists i :: 0 <= i < |entries| && entries[i].0.SymbolKey?
    ensures LengthEffects(deps, entries, newValue, acc).Ok? ==>
      forall x :: x in LengthEffects(deps, entries, newValue, acc).value <==>
        x in acc || exists i :: 0 <= i < |entries| && Affected(entries[i].0, newValue) && x in Members(deps, entries[i].1)
    decreases |entries|
  {
    if |entries| > 0 {
      var (k, d) := entries[0];
      var rest := entries[1..];
      assert forall i :: 1 <= i < |entries| ==> entries[i] == rest[i - 1];
      var acc' := if Affected(k, newValue) then AddEach(acc, Members(deps, d)) else acc;
      LengthEffectsExact(deps, rest, newValue, acc');
      if !k.SymbolKey? {
        assert LengthEffects(deps, entries, newValue, acc) == LengthEffects(deps, rest, newValue, acc');
        if LengthEffects(deps, rest, newValue, acc').Ok? {
          var r := LengthEffects(deps, rest, newValue, acc').value;
          forall x
            ensures x in r <==> x in acc || exists i :: 0 <= i < |entries| && Affected(entries[i].0, newValue) && x in Members(deps, entries[i].1)
          {
            if x in r && x !in acc && x in acc' {
              assert Affected(entries[0].0, newValue) && x in Members(deps, entries[0].1);
            }
            if exists i :: 1 <= i < |rest| + 1 && Affected(entries[i].0, newValue) && x in Members(deps, entries[i].1) {
              var i :| 1 <= i < |rest| + 1 && Affected(entries[i].0, newValue) && x in Members(deps, entries[i].1);
              assert Affected(rest[i - 1].0, newValue) && x in Members(deps, rest[i - 1].1);
            }
          }
        }
      }
    }
  }

  /**
   * The effect set `trigger` builds, and the state after building it. For
   * an array index added, the effects of `"length"` are added into the
   * key's own dependency set, which `effects` aliases.
   */
  function CollectSpec(st: RState, target: nat, isArray: bool, op: TriggerOp, key: Key, newValue: Value): Result<(RState, seq<nat>)>
    requires target in st.targetMap
  {
    var entries := st.targetMap[target];
    if key == LengthKey && isArray then
      match LengthEffects(st.deps, entries, newValue, [])
      case Throw(msg) => Throw(msg)
      case Ok(effs) => Ok((st, effs))
    else Ok(KeyEffectsSpec(st, entries, isArray, op, key))
  }

  /** The effect set of a change to one key: the key's own set, joined by the `"length"` set when an array grows. */
  function KeyEffectsSpec(st: RState, entries: seq<(Key, nat)>, isArray: bool, op: TriggerOp, key: Key): (RState, seq<nat>)
  {
    var found := FindKey(entries, key);
    var effs := if found.Some? then Members(st.deps, found.value) else [];
    if op == AddOp && isArray && key.IndexKey? then
      var lengthDep := FindKey(entries, LengthKey);
      var all := AddEach(effs, if lengthDep.Some? then Members(st.deps, lengthDep.value) else []);
      (if found.Some? then st.(deps := st.deps[found.value := all]) else st, all)
    else (st, effs)
  }

  /** The computed refs that are not dirty; the set shrinks as the scheduler marks them dirty. */
  ghost function CleanSet(computeds: map<nat, Computed>): set<nat>
  {
    set c | c in computeds && !computeds[c].dirty
  }

  /** Triggering only marks computed refs dirty: nothing else about them changes. */
  ghost predicate Dirtier(a: map<nat, Computed>, b: map<nat, Computed>)
  {
    a.Keys == b.Keys && forall c :: c in a ==> c in b && b[c] == a[c].(dirty := b[c].dirty) && (a[c].dirty ==> b[c].dirty)
  }

  /**
   * What triggering keeps: the stack, the refs and the effects' schedulers
   * and functions; computed refs only become dirty; the log only grows.
   */
  ghost predicate Triggered(a: RState, b: RState)
  {
    && b.stack == a.stack && b.refs == a.refs && SameEffects(a.effects, b.effects)
    && Dirtier(a.computeds, b.computeds) && CleanSet(b.computeds) <= CleanSet(a.computeds)
    && |a.log| <= |b.log| && b.log[..|a.log|] == a.log
  }

  lemma TriggeredTrans(a: RState, b: RState, c: RState)
    requires Triggered(a, b) && Triggered(b, c)
    ensures Triggered(a, c)
  {
    assert c.log[..|a.log|] == c.log[..|b.log|][..|a.log|];
  }

  /** `triggerEffects(effects)` from position `i`. */
  function TriggerEffectsSpec(st: RState, effs: seq<nat>, i: nat): (r: RState)
    requires i <= |effs|
    ensures Triggered(st, r)
    decreases CleanSet(st.computeds), |effs| - i + 2
  {
    if i == |effs| then st
    else
      var next := StepSpec(st, effs[i]);
      var r := TriggerEffectsSpec(next, effs, i + 1);
      TriggeredTrans(st, next, r);
      r
  }

  /** One effect of `triggerEffects`: its scheduler when it has one, otherwise `run()`. */
  function StepSpec(st: RState, e: nat): (r: RState)
    ensures Triggered(st, r)
    decreases CleanSet(st.computeds), 1
  {
    match EffectOf(st.effects, e).scheduler
    case NoScheduler => RunSpec(st, e)
    case UserScheduler(f) => st.(log := st.log + [SchedulerCall(e, f)])
    case ComputedScheduler(c) => ComputedSchedulerSpec(st, c)
  }

  /** The scheduler of a computed ref: when clean, it becomes dirty and triggers its own dependents. */
  function ComputedSchedulerSpec(st: RState, c: nat): (r: RState)
    ensures Triggered(st, r)
    decreases CleanSet(st.computeds), 0
  {
    if c !in st.computeds || st.computeds[c].dirty then st
    else
      var st1 := st.(computeds := st.computeds[c := st.computeds[c].(dirty := true)]);
      MarkDirty(st, c);
      var r := TriggerRefValueSpec(st1, st.computeds[c].dep);
      TriggeredTrans(st, st1, r);
      r
  }

  /** Marking a clean computed ref dirty takes it out of the clean set and is a trigger step. */
  lemma MarkDirty(st: RState, c: nat)
    requires c in st.computeds && !st.computeds[c].dirty
    ensures var st1 := st.(computeds := st.computeds[c := st.computeds[c].(dirty := true)]);
      CleanSet(st1.computeds) == CleanSet(st.computeds) - {c} && Triggered(st, st1)
  {
    var st1 := st.(computeds := st.computeds[c := st.computeds[c].(dirty := true)]);
    assert CleanSet(st1.computeds) == CleanSet(st.computeds) - {c};
    assert st1.log[..|st.log|] == st.log;
  }

  /** `triggerRefValue(ref)`: the ref's dependents, when it has a dependency set. */
  function TriggerRefValueSpec(st: RState, dep: Option<nat>): (r: RState)
    ensures Triggered(st, r)
    decreases CleanSet(st.computeds), if dep.None? then 0 else |Members(st.deps, dep.value)| + 3
  {
    if dep.None? then st else TriggerEffectsSpec(st, Members(st.deps, dep.value), 0)
  }

  /** `trigger(target, type, key, newValue)`: a thrown error leaves the state as it was. */
  function TriggerSpec(st: RState, target: nat, isArray: bool, op: TriggerOp, key: Key, newValue: Value): Result<RState>
  {
    if target !in st.targetMap then Ok(st)
    else match CollectSpec(st, target, isArray, op, key, newValue)
      case Throw(msg) => Throw(msg)
      case Ok(pair) => Ok(TriggerEffectsSpec(pair.0, pair.1, 0))
  }

  /** A target nothing has read is not tracked, and triggering it does nothing. */
  lemma TriggerUntrackedTarget(st: RState, target: nat, isArray: bool, op: TriggerOp, key: Key, newValue: Value)
    requires target !in st.targetMap
    ensures TriggerSpec(st, target, isArray, op, key, newValue) == Ok(st)
  {
  }

  /**
   * Setting an array's length triggers exactly the effects of `"length"`
   * and of every index at or above the new length, unless a symbol key
   * makes the comparison throw.
   */
  lemma LengthChangeEffects(st: RState, target: nat, op: TriggerOp, newValue: Value)
    requires target in st.targetMap
    ensures var entries := st.targetMap[target];
      var c := CollectSpec(st, target, true, op, LengthKey, newValue);
      && (c.Throw? <==> exists i :: 0 <= i < |entries| && entries[i].0.SymbolKey?)
      && (c.Ok? ==> c.value.0 == st)
      && (c.Ok? ==> forall x :: x in c.value.1 <==>
            exists i :: 0 <= i < |entries| && Affected(entries[i].0, newValue) && x in Members(st.deps, entries[i].1))
  {
    LengthEffectsExact(st.deps, st.targetMap[target], newValue, []);
  }

  /** For any other key, the effects are those of the key's own dependency set, in its order. */
  lemma KeyChangeEffects(st: RState, target: nat, isArray: bool, op: TriggerOp, key: Key, newValue: Value)
    requires target in st.targetMap
    requires !(key == LengthKey && isArray) && !(op == AddOp && isArray && key.IndexKey?)
    ensures var d := FindKey(st.targetMap[target], key);
      CollectSpec(st, target, isArray, op, key, newValue)
        == Ok((st, if d.Some? then Members(st.deps, d.value) else []))
  {
  }

  /**
   * An index added to an array also triggers the effects of `"length"`,
   * and, because the effect set is the key's own dependency set, those
   * effects stay in that set afterwards without the set being recorded in
   * their `dep` lists.
   */
  lemma AddedIndexKeepsLengthEffects(st: RState, target: nat, i: nat, newValue: Value, d: nat, ld: nat)
    requires target in st.targetMap
    requires FindKey(st.targetMap[target], IndexKey(i)) == Some(d)
    requires FindKey(st.targetMap[target], LengthKey) == Some(ld)
    ensures var c := CollectSpec(st, target, true, AddOp, IndexKey(i), newValue);
      && c.Ok?
      && c.value.0.deps[d] == c.value.1
      && (forall x :: x in c.value.1 <==> x in Members(st.deps, d) || x in Members(st.deps, ld))
      && c.value.0.effects == st.effects
  {
  }

  /** The calls triggering makes when no effect belongs to a computed ref. */
  function Calls(effects: map<nat, Effect>, stack: seq<nat>, effs: seq<nat>): seq<Event>
    decreases |effs|
  {
    if |effs| == 0 then []
    else
      var e := effs[0];
      var call := match EffectOf(effects, e).scheduler
        case UserScheduler(f) => [SchedulerCall(e, f)]
        case _ => if e in stack then [] else [RunFn(e)];
      call + Calls(effects, stack, effs[1..])
  }

  /**
   * Without computed refs among them, triggering calls each effect's
   * scheduler, or runs it when it has none and is not already running, in
   * the order of the set.
   */
  lemma {:induction false} TriggerEffectsCalls(st: RState, effs: seq<nat>, i: nat)
    requires i <= |effs|
    requires forall j :: i <= j < |effs| ==> !EffectOf(st.effects, effs[j]).scheduler.ComputedScheduler?
    ensures TriggerEffectsSpec(st, effs, i).log == st.log + Calls(st.effects, st.stack, effs[i..])
    decreases |effs| - i
  {
    if i < |effs| {
      var e := effs[i];
      var next := StepSpec(st, e);
      assert TriggerEffectsSpec(st, effs, i) == TriggerEffectsSpec(next, effs, i + 1);
      StepCalls(st, e);
      StepKeepsSchedulers(st, next, effs, i + 1);
      TriggerEffectsCalls(next, effs, i + 1);
      CallsJoin(st, next, effs, i);
    }
  }

  lemma StepKeepsSchedulers(st: RState, next: RState, effs: seq<nat>, i: nat)
    requires Triggered(st, next)
    requires forall j :: i <= j < |effs| ==> !EffectOf(st.effects, effs[j]).scheduler.ComputedScheduler?
    ensures forall j :: i <= j < |effs| ==> !EffectOf(next.effects, effs[j]).scheduler.ComputedScheduler?
  {
    assert SameEffects(st.effects, next.effects);
  }

  lemma CallsJoin(st: RState, next: RState, effs: seq<nat>, i: nat)
    requires i < |effs|
    requires Triggered(st, next)
    requires next.log == st.log + Calls(st.effects, st.stack, [effs[i]])
    ensures next.log + Calls(next.effects, next.stack, effs[i + 1..]) == st.log + Calls(st.effects, st.stack, effs[i..])
  {
    CallsSameEffects(st.effects, next.effects, st.stack, effs[i + 1..]);
    CallsCons(st.effects, st.stack, effs[i..]);
    assert effs[i..][1..] == effs[i + 1..];
  }

  lemma CallsCons(effects: map<nat, Effect>, stack: seq<nat>, effs: seq<nat>)
    requires |effs| > 0
    ensures Calls(effects, stack, effs) == Calls(effects, stack, [effs[0]]) + Calls(effects, stack, effs[1..])
  {
    assert Calls(effects, stack, [effs[0]]) == Calls(effects, stack, [effs[0]]) + Calls(effects, stack, []);
  }

  /** One effect without a computed scheduler makes its own call. */
  lemma StepCalls(st: RState, e: nat)
    requires !EffectOf(st.effects, e).scheduler.ComputedScheduler?
    ensures StepSpec(st, e).log == st.log + Calls(st.effects, st.stack, [e])
  {
    assert Calls(st.effects, st.stack, [e]) == Calls(st.effects, st.stack, [e]) + Calls(st.effects, st.stack, []);
  }

  lemma {:induction false} CallsSameEffects(a: map<nat, Effect>, b: map<nat, Effect>, stack: seq<nat>, effs: seq<nat>)
    requires SameEffects(a, b)
    ensures Calls(a, stack, effs) == Calls(b, stack, effs)
    decreases |effs|
  {
    if |effs| > 0 {
      assert EffectOf(a, effs[0]).scheduler == EffectOf(b, effs[0]).scheduler;
      CallsSameEffects(a, b, stack, effs[1..]);
    }
  }

  // ------------------------------------------------ subscribe and re-run

  /** After `track`, the key has a dependency set holding the active effect. */
  lemma TrackAddsActive(st: RState, target: nat, key: Key)
    requires st.active.Some?
    ensures var r := TrackSpec(st, target, key);
      DepFor(r, target, key).Some? && st.active.value in Members(r.deps, DepFor(r, target, key).value)
  {
    if FindKey(Entries(st.targetMap, target), key).None? {
      FindKeyAppend(Entries(st.targetMap, target), key, st.nextDep, key);
    }
  }

  /** Tracking never takes an effect out of a set, nor moves a key to another set. */
  lemma TrackKeepsMembership(st: RState, target: nat, key: Key, t: nat, k: Key, x: nat)
    requires FreshIds(st)
    requires DepFor(st, t, k).Some? && x in Members(st.deps, DepFor(st, t, k).value)
    ensures DepFor(TrackSpec(st, target, key), t, k) == DepFor(st, t, k)
    ensures x in Members(TrackSpec(st, target, key).deps, DepFor(st, t, k).value)
  {
    var d := DepFor(st, t, k).value;
    var i :| 0 <= i < |Entries(st.targetMap, t)| && Entries(st.targetMap, t)[i] == (k, d);
    assert d in st.deps;
    if t != target || k != key {
      TrackKeepsOtherKeys(st, target, key, t, k);
    }
  }

  /** Effect `e` is in the dependency set of property `p`. */
  ghost predicate Subscribed(st: RState, e: nat, p: (nat, Key))
  {
    DepFor(st, p.0, p.1).Some? && e in Members(st.deps, DepFor(st, p.0, p.1).value)
  }

  /** One read: the property read joins the ones the running effect is subscribed to, and none is lost. */
  lemma TrackStepSubscribes(st: RState, t: nat, k: Key, done: seq<(nat, Key)>)
    requires st.active.Some? && FreshIds(st)
    requires forall p :: p in done ==> Subscribed(st, st.active.value, p)
    ensures var next := TrackSpec(st, t, k);
      && next.active == st.active && FreshIds(next)
      && forall p :: p in done + [(t, k)] ==> Subscribed(next, st.active.value, p)
  {
    var next := TrackSpec(st, t, k);
    var e := st.active.value;
    TrackKeepsFreshIds(st, t, k);
    TrackAddsActive(st, t, k);
    forall p | p in done + [(t, k)]
      ensures Subscribed(next, e, p)
    {
      if p in done {
        TrackKeepsMembership(st, t, k, p.0, p.1, e);
      }
    }
  }

  /** Every property the function reads ends up with the running effect in its dependency set. */
  lemma {:induction false} TrackAllSubscribes(st: RState, body: seq<(nat, Key)>, done: seq<(nat, Key)>)
    requires st.active.Some? && FreshIds(st)
    requires forall p :: p in done ==> Subscribed(st, st.active.value, p)
    ensures forall p :: p in done + body ==> Subscribed(TrackAll(st, body), st.active.value, p)
    decreases |body|
  {
    if |body| > 0 {
      var next := TrackSpec(st, body[0].0, body[0].1);
      TrackStepSubscribes(st, body[0].0, body[0].1, done);
      TrackAllSubscribes(next, body[1..], done + [body[0]]);
      RegroupReads(done, body);
    }
  }

  lemma RegroupReads(done: seq<(nat, Key)>, body: seq<(nat, Key)>)
    requires |body| > 0
    ensures done + body == (done + [body[0]]) + body[1..]
  {
  }

  /**
   * Running an effect that is not already running leaves it in the
   * dependency set of every property its function read.
   */
  lemma RunSubscribes(st: RState, e: nat)
    requires e !in st.stack && FreshIds(st)
    ensures var r := RunSpec(st, e);
      forall p :: p in EffectOf(st.effects, e).body ==> DepFor(r, p.0, p.1).Some? && e in Members(r.deps, DepFor(r, p.0, p.1).value)
  {
    var inside := EnterSpec(st, e).(log := st.log + [RunFn(e)]);
    TrackAllSubscribes(inside, EffectOf(st.effects, e).body, []);
    assert [] + EffectOf(st.effects, e).body == EffectOf(st.effects, e).body;
  }

  /** Every effect of the set without a scheduler, and not already running, is run by `triggerEffects`. */
  lemma {:induction false} TriggerEffectsRuns(st: RState, effs: seq<nat>, i: nat, x: nat)
    requires i <= |effs| && x in effs[i..]
    requires EffectOf(st.effects, x).scheduler.NoScheduler? && x !in st.stack
    ensures RunFn(x) in TriggerEffectsSpec(st, effs, i).log
    decreases |effs| - i
  {
    var next := StepSpec(st, effs[i]);
    assert TriggerEffectsSpec(st, effs, i) == TriggerEffectsSpec(next, effs, i + 1);
    var r := TriggerEffectsSpec(next, effs, i + 1);
    assert Triggered(next, r);
    if effs[i] == x {
      assert next.log[|next.log| - 1] == RunFn(x);
      assert r.log[|next.log| - 1] == next.log[|next.log| - 1];
    } else {
      assert x in effs[i + 1..] by {
        assert effs[i..] == [effs[i]] + effs[i + 1..];
      }
      assert Triggered(st, next);
      TriggerEffectsRuns(next, effs, i + 1, x);
    }
  }

  /**
   * Changing a property of a plain object re-runs every effect without a
   * scheduler that is subscribed to it, unless that effect is the one
   * running.
   */
  lemma ChangeRerunsSubscribers(st: RState, target: nat, key: Key, newValue: Value, x: nat)
    requires DepFor(st, target, key).Some? && x in Members(st.deps, DepFor(st, target, key).value)
    requires EffectOf(st.effects, x).scheduler.NoScheduler? && x !in st.stack
    ensures TriggerSpec(st, target, false, SetOp, key, newValue).Ok?
    ensures RunFn(x) in TriggerSpec(st, target, false, SetOp, key, newValue).value.log
  {
    assert target in st.targetMap;
    KeyChangeEffects(st, target, false, SetOp, key, newValue);
    TriggerEffectsRuns(st, Members(st.deps, DepFor(st, target, key).value), 0, x);
  }

  // ----------------------------------------------------- effect(fn, options)

  /** The options of `effect()` that the model reads: `lazy` and `scheduler`. */
  datatype EffectOptions = EffectOptions(lazy: bool, scheduler: Option<nat>)

  /** `effect(fn, options)`: a new effect, which gets the options' scheduler and runs at once unless lazy; its id is the runner. */
  function EffectSpec(st: RState, body: seq<(nat, Key)>, options: Option<EffectOptions>): (r: RState)
  {
    var sched := if options.Some? && options.value.scheduler.Some? then UserScheduler(options.value.scheduler.value) else NoScheduler;
    var st1 := AddEffectSpec(st, Effect(sched, [], body));
    if options.None? || !options.value.lazy then RunSpec(st1, st.nextEffect) else st1
  }

  /** `new ReactiveEffect(fn, scheduler)`: the effect takes the next fresh id. */
  function AddEffectSpec(st: RState, effect: Effect): RState
  {
    st.(effects := st.effects[st.nextEffect := effect], nextEffect := st.nextEffect + 1)
  }

  /** Effect ids in use, including those on the stack, lie below the next fresh id. */
  ghost predicate EffectIds(st: RState)
  {
    (forall e :: e in st.effects ==> e < st.nextEffect) && (forall e :: e in st.stack ==> e < st.nextEffect)
  }

  /** A new effect runs once at creation exactly when it is not lazy, and keeps the options' scheduler. */
  lemma EffectRunsUnlessLazy(st: RState, body: seq<(nat, Key)>, options: Option<EffectOptions>)
    requires EffectIds(st)
    ensures var r := EffectSpec(st, body, options);
      && r.nextEffect == st.nextEffect + 1
      && (options.None? || !options.value.lazy ==> r.log == st.log + [RunFn(st.nextEffect)])
      && (options.Some? && options.value.lazy ==> r.log == st.log)
      && r.effects[st.nextEffect].scheduler
           == (if options.Some? && options.value.scheduler.Some? then UserScheduler(options.value.scheduler.value) else NoScheduler)
  {
    assert st.nextEffect !in st.stack;
  }

  // ----------------------------------------------------------------- refs

  /** `toReactive(value)`: objects become reactive proxies, anything else stays as it is. */
  function ToReactive(v: Value): (r: Stored)
    ensures IsObject(v) <==> r.ReactiveOf?
  {
    if IsObject(v) then ReactiveOf(v) else Plain(v)
  }

  /** `trackRefValue(ref)`: with an active effect, the ref's set is created if needed and the effect joins it. */
  function TrackRefValueSpec(st: RState, dep: Option<nat>): (r: (RState, Option<nat>))
    ensures SameShape(st, r.0) && r.0.log == st.log && r.0.active == st.active
  {
    if st.active.None? then (st, dep)
    else if dep.None? then
      var d := st.nextDep;
      (TrackEffectsSpec(st.(deps := st.deps[d := []], nextDep := d + 1), d), Some(d))
    else (TrackEffectsSpec(st, dep.value), dep)
  }

  /** Without an active effect a ref gets no dependency set; with one, the set exists and holds the effect. */
  lemma TrackRefValueCreatesDep(st: RState, dep: Option<nat>)
    ensures st.active.None? ==> TrackRefValueSpec(st, dep) == (st, dep)
    ensures st.active.Some? ==> var (r, d) := TrackRefValueSpec(st, dep);
      d.Some? && (dep.Some? ==> d == dep) && st.active.value in Members(r.deps, d.value)
  {
  }

  /** `ref(value)` and `shallowRef(value)` */
  function NewRefSpec(st: RState, value: Value, shallow: bool): (r: RState)
  {
    st.(refs := st.refs[st.nextRef := Ref(value, if shallow then Plain(value) else ToReactive(value), shallow, None)],
        nextRef := st.nextRef + 1)
  }

  /** A shallow ref stores the value as it is; a deep ref stores `toReactive(value)`; both start without a dependency set. */
  lemma NewRefStores(st: RState, value: Value, shallow: bool)
    ensures var ref := NewRefSpec(st, value, shallow).refs[st.nextRef];
      && ref.raw == value && ref.dep.None?
      && (shallow ==> ref.value == Plain(value))
      && (!shallow && IsObject(value) ==> ref.value == ReactiveOf(value))
      && (!shallow && !IsObject(value) ==> ref.value == Plain(value))
  {
  }

  /** `ref.value` (get): tracks the ref, then returns the stored value. */
  function RefGetSpec(st: RState, id: nat): (r: (RState, Stored))
    requires id in st.refs
  {
    var (st1, dep) := TrackRefValueSpec(st, st.refs[id].dep);
    (st1.(refs := st1.refs[id := st.refs[id].(dep := dep)]), st.refs[id].value)
  }

  /** `ref.value = newVal`: a changed value replaces the raw and stored values and triggers the ref's dependents. */
  function RefSetSpec(st: RState, id: nat, v: Value): (r: RState)
    requires id in st.refs
  {
    var ref := st.refs[id];
    if v == ref.raw then st
    else TriggerRefValueSpec(st.(refs := st.refs[id := ref.(raw := v, value := if ref.shallow then Plain(v) else ToReactive(v))]), ref.dep)
  }

  /** Reading a ref returns its stored value and changes nothing but the tracking. */
  lemma RefGetReturnsValue(st: RState, id: nat)
    requires id in st.refs
    ensures var (r, v) := RefGetSpec(st, id);
      && v == st.refs[id].value && r.log == st.log && r.stack == st.stack
      && r.refs[id].raw == st.refs[id].raw && r.refs[id].value == st.refs[id].value
  {
  }

  /** Writing the same value again does nothing at all. */
  lemma RefSetUnchanged(st: RState, id: nat)
    requires id in st.refs
    ensures RefSetSpec(st, id, st.refs[id].raw) == st
  {
  }

  /**
   * Writing a new value stores it, as is or through `toReactive`, and
   * re-runs every subscribed effect without a scheduler that is not
   * already running.
   */
  lemma RefSetChanged(st: RState, id: nat, v: Value, x: nat)
    requires id in st.refs && v != st.refs[id].raw
    ensures var r := RefSetSpec(st, id, v);
      && r.refs[id].raw == v
      && r.refs[id].value == (if st.refs[id].shallow then Plain(v) else ToReactive(v))
    ensures var dep := st.refs[id].dep;
      (dep.Some? && x in Members(st.deps, dep.value) && EffectOf(st.effects, x).scheduler.NoScheduler? && x !in st.stack) ==>
        RunFn(x) in RefSetSpec(st, id, v).log
  {
    var ref := st.refs[id];
    var st1 := st.(refs := st.refs[id := ref.(raw := v, value := if ref.shallow then Plain(v) else ToReactive(v))]);
    assert Triggered(st1, RefSetSpec(st, id, v));
    if ref.dep.Some? && x in Members(st.deps, ref.dep.value) && EffectOf(st.effects, x).scheduler.NoScheduler? && x !in st.stack {
      TriggerEffectsRuns(st1, Members(st1.deps, ref.dep.value), 0, x);
    }
  }

  // ------------------------------------------------------------- computed

  /** The argument of `computed()`: a getter alone, or options with an optional `set`. */
  datatype ComputedArg = GetterOnly | GetSet(setFn: Option<nat>)

  /** `computed(getterOrOptions)`: a dirty computed ref with its own effect, whose scheduler is the computed's. */
  function ComputedSpec(st: RState, body: seq<(nat, Key)>, arg: ComputedArg): (r: RState)
  {
    var e := st.nextEffect;
    var c := st.nextComputed;
    var setter := match arg
      case GetterOnly => Noop
      case GetSet(f) => if f.Some? then SetterFn(f.value) else NoSetter;
    st.(effects := st.effects[e := Effect(ComputedScheduler(c), [], body)], nextEffect := e + 1,
        computeds := st.computeds[c := Computed(e, setter, arg.GetterOnly?, true, Undefined, None)], nextComputed := c + 1)
  }

  /** A new computed ref starts dirty, is read-only exactly when given a getter alone, and then has the no-op setter. */
  lemma ComputedStartsDirty(st: RState, body: seq<(nat, Key)>, arg: ComputedArg)
    ensures var r := ComputedSpec(st, body, arg);
      var comp := r.computeds[st.nextComputed];
      && comp.dirty && comp.readonly == arg.GetterOnly? && (arg.GetterOnly? ==> comp.setter == Noop)
      && r.effects[comp.effect].scheduler == ComputedScheduler(st.nextComputed)
      && r.log == st.log
  {
  }

  /**
   * `computed.value` (get) with `result` the getter's value: tracks the
   * computed ref, then, when dirty, clears the flag and runs its effect to
   * recompute (a run refused because the effect is already running gives
   * undefined).
   */
  function ComputedGetSpec(st: RState, c: nat, result: Value): (r: (RState, Value))
    requires c in st.computeds
  {
    var comp := st.computeds[c];
    var (st1, dep) := TrackRefValueSpec(st, comp.dep);
    var st2 := st1.(computeds := st1.computeds[c := comp.(dep := dep)]);
    if !comp.dirty then (st2, comp.value)
    else
      var v := if comp.effect in st2.stack then Undefined else result;
      var st3 := RunSpec(st2.(computeds := st2.computeds[c := comp.(dep := dep, dirty := false)]), comp.effect);
      (st3.(computeds := st3.computeds[c := comp.(dep := dep, dirty := false, value := v)]), v)
  }

  /** A clean computed ref returns its cached value without running its getter. */
  lemma ComputedGetClean(st: RState, c: nat, result: Value)
    requires c in st.computeds && !st.computeds[c].dirty
    ensures var (r, v) := ComputedGetSpec(st, c, result);
      v == st.computeds[c].value && r.log == st.log && !r.computeds[c].dirty
  {
  }

  /** A dirty computed ref runs its getter once, caches the result and becomes clean. */
  lemma ComputedGetDirty(st: RState, c: nat, result: Value)
    requires c in st.computeds && st.computeds[c].dirty && st.computeds[c].effect !in st.stack
    ensures var (r, v) := ComputedGetSpec(st, c, result);
      && v == result && r.log == st.log + [RunFn(st.computeds[c].effect)]
      && !r.computeds[c].dirty && r.computeds[c].value == result
  {
  }

  /** Reading a computed ref twice runs its getter at most once. */
  lemma ComputedGetTwice(st: RState, c: nat, result: Value, result2: Value)
    requires c in st.computeds
    ensures var (r, v) := ComputedGetSpec(st, c, result);
      c in r.computeds && ComputedGetSpec(r, c, result2).1 == v && ComputedGetSpec(r, c, result2).0.log == r.log
  {
    var (r, v) := ComputedGetSpec(st, c, result);
    ComputedGetClean(r, c, result2);
  }

  /** The scheduler does nothing to a computed ref that is already dirty. */
  lemma ComputedSchedulerWhenDirty(st: RState, c: nat)
    requires c in st.computeds && st.computeds[c].dirty
    ensures ComputedSchedulerSpec(st, c) == st
  {
  }

  /** On a clean computed ref, the scheduler marks it dirty and re-runs the plain effects that read it. */
  lemma ComputedSchedulerWhenClean(st: RState, c: nat, x: nat)
    requires c in st.computeds && !st.computeds[c].dirty
    ensures ComputedSchedulerSpec(st, c).computeds[c].dirty
    ensures var dep := st.computeds[c].dep;
      (dep.Some? && x in Members(st.deps, dep.value) && EffectOf(st.effects, x).scheduler.NoScheduler? && x !in st.stack) ==>
        RunFn(x) in ComputedSchedulerSpec(st, c).log
  {
    var st1 := st.(computeds := st.computeds[c := st.computeds[c].(dirty := true)]);
    var dep := st.computeds[c].dep;
    assert Triggered(st1, ComputedSchedulerSpec(st, c));
    if dep.Some? && x in Members(st.deps, dep.value) && EffectOf(st.effects, x).scheduler.NoScheduler? && x !in st.stack {
      TriggerEffectsRuns(st1, Members(st1.deps, dep.value), 0, x);
    }
  }

  /** `computed.value = v`: always delegates to the setter; the no-op setter does nothing and a missing one throws. */
  function ComputedSetSpec(st: RState, c: nat, v: Value): (r: Result<RState>)
    requires c in st.computeds
    ensures st.computeds[c].setter == Noop ==> r == Ok(st)
    ensures st.computeds[c].setter.SetterFn? ==> r == Ok(st.(log := st.log + [SetterCall(st.computeds[c].setter.fid, v)]))
    ensures st.computeds[c].setter == NoSetter <==> r.Throw?
  {
    match st.computeds[c].setter
    case Noop => Ok(st)
    case SetterFn(f) => Ok(st.(log := st.log + [SetterCall(f, v)]))
    case NoSetter => Throw("TypeError: this._setter is not a function")
  }

  // -------------------------------------------------------- the runtime

  /** The module state of effect.ts (`targetMap`, `effectStack`, `activeEffect`) together with every effect, set, ref and computed ref. */
  class Reactivity {
    var effects: map<nat, Effect>
    var nextEffect: nat
    var deps: map<nat, seq<nat>>
    var nextDep: nat
    var targetMap: map<nat, seq<(Key, nat)>>
    var stack: seq<nat>
    var active: Option<nat>
    var refs: map<nat, Ref>
    var nextRef: nat
    var computeds: map<nat, Computed>
    var nextComputed: nat
    var log: seq<Event>

    function Snapshot(): RState
      reads this
    {
      RState(effects, nextEffect, deps, nextDep, targetMap, stack, active, refs, nextRef, computeds, nextComputed, log)
    }

    constructor()
      ensures Snapshot() == RState(map[], 0, map[], 0, map[], [], None, map[], 0, map[], 0, [])
    {
      effects, nextEffect, deps, nextDep := map[], 0, map[], 0;
      targetMap, stack, active := map[], [], None;
      refs, nextRef, computeds, nextComputed, log := map[], 0, map[], 0, [];
    }

    /** `effect.run()`, with `result` the value the function returns. */
    method Run(e: nat, result: Value) returns (r: Value)
      modifies this
      ensures Snapshot() == RunSpec(old(Snapshot()), e)
      ensures r == if e in old(stack) then Undefined else result
    {
      if e in stack {
        return Undefined;
      }
      ghost var entered := EnterSpec(Snapshot(), e).(log := log + [RunFn(e)]);
      var body := EffectOf(effects, e).body;
      stack := stack + [e];
      active := Some(e);
      log := log + [RunFn(e)];
      var i := 0;
      while i < |body|
        invariant 0 <= i <= |body|
        invariant TrackAll(Snapshot(), body[i..]) == TrackAll(entered, body)
      {
        assert body[i..][1..] == body[i + 1..];
        Track(body[i].0, body[i].1);
        i := i + 1;
      }
      r := result;
      stack := stack[..|stack| - 1];
      active := Top(stack);
    }

    /** `track(target, type, key)` */
    method Track(target: nat, key: Key)
      modifies this
      ensures Snapshot() == TrackSpec(old(Snapshot()), target, key)
    {
      if active.Some? {
        var entries := Entries(targetMap, target);
        var found := FindKey(entries, key);
        var d: nat;
        if found.None? {
          d := nextDep;
          nextDep := nextDep + 1;
          deps := deps[d := []];
          targetMap := targetMap[target := entries + [(key, d)]];
        } else {
          d := found.value;
        }
        TrackEffects(d);
      }
    }

    /** `trackEffects(dep)` */
    method TrackEffects(d: nat)
      requires active.Some?
      modifies this
      ensures Snapshot() == TrackEffectsSpec(old(Snapshot()), d)
    {
      var e := active.value;
      var members := Members(deps, d);
      if e !in members {
        deps := deps[d := members + [e]];
        if e in effects {
          effects := effects[e := effects[e].(deps := effects[e].deps + [d])];
        }
      }
    }

    /** `trigger(target, type, key, newValue)`; `error` is the exception it throws, if any. */
    method Trigger(target: nat, isArray: bool, op: TriggerOp, key: Key, newValue: Value) returns (error: Option<string>)
      modifies this
      ensures error.None? ==> TriggerSpec(old(Snapshot()), target, isArray, op, key, newValue) == Ok(Snapshot())
      ensures error.Some? ==> TriggerSpec(old(Snapshot()), target, isArray, op, key, newValue) == Throw(error.value)
      ensures error.Some? ==> Snapshot() == old(Snapshot())
    {
      if target !in targetMap {
        return None;
      }
      ghost var st0 := Snapshot();
      var collected := Collect(target, isArray, op, key, newValue);
      if collected.Throw? {
        return Some(collected.msg);
      }
      ghost var st1 := Snapshot();
      TriggerEffects(collected.value);
      assert TriggerSpec(st0, target, isArray, op, key, newValue) == Ok(TriggerEffectsSpec(st1, collected.value, 0));
      error := None;
    }

    /** The effect set `trigger` builds before running it. */
    method Collect(target: nat, isArray: bool, op: TriggerOp, key: Key, newValue: Value) returns (r: Result<seq<nat>>)
      requires target in targetMap
      modifies this
      ensures r.Throw? ==> CollectSpec(old(Snapshot()), target, isArray, op, key, newValue) == Throw(r.msg) && Snapshot() == old(Snapshot())
      ensures r.Ok? ==> CollectSpec(old(Snapshot()), target, isArray, op, key, newValue) == Ok((Snapshot(), r.value))
    {
      var entries := targetMap[target];
      if key == LengthKey && isArray {
        r := LengthEffectsOf(entries, newValue);
      } else {
        var effs := KeyEffects(entries, isArray, op, key);
        r := Ok(effs);
      }
    }

    /** The effect set of a change to one key, as `trigger` builds it. */
    method KeyEffects(entries: seq<(Key, nat)>, isArray: bool, op: TriggerOp, key: Key) returns (effs: seq<nat>)
      modifies this`deps
      ensures (Snapshot(), effs) == KeyEffectsSpec(old(Snapshot()), entries, isArray, op, key)
    {
      var found := FindKey(entries, key);
      effs := if found.Some? then Members(deps, found.value) else [];
      if op == AddOp && isArray && key.IndexKey? {
        var lengthDep := FindKey(entries, LengthKey);
        effs := AddEach(effs, if lengthDep.Some? then Members(deps, lengthDep.value) else []);
        if found.Some? {
          // `effects` is the key's own set, so the additions stay in it
          deps := deps[found.value := effs];
        }
      }
    }

    /** The `depsMap.forEach` of a length change. */
    method LengthEffectsOf(entries: seq<(Key, nat)>, newValue: Value) returns (r: Result<seq<nat>>)
      ensures r == LengthEffects(deps, entries, newValue, [])
    {
      var effs := [];
      var i := 0;
      while i < |entries|
        invariant 0 <= i <= |entries|
        invariant LengthEffects(deps, entries[i..], newValue, effs) == LengthEffects(deps, entries, newValue, [])
      {
        assert entries[i..][1..] == entries[i + 1..];
        var (k, d) := entries[i];
        if k == LengthKey {
          effs := AddEach(effs, Members(deps, d));
        } else {
          var atLeast := KeyAtLeast(k, newValue);
          if atLeast.Throw? {
            return Throw(atLeast.msg);
          }
          if atLeast.value {
            effs := AddEach(effs, Members(deps, d));
          }
        }
        i := i + 1;
      }
      return Ok(effs);
    }

    /** `triggerEffects(effects)` */
    method TriggerEffects(effs: seq<nat>)
      modifies this
      ensures Snapshot() == TriggerEffectsSpec(old(Snapshot()), effs, 0)
      decreases CleanSet(computeds), |effs| + 2
    {
      var i := 0;
      while i < |effs|
        invariant 0 <= i <= |effs|
        invariant TriggerEffectsSpec(Snapshot(), effs, i) == TriggerEffectsSpec(old(Snapshot()), effs, 0)
        invariant CleanSet(computeds) <= old(CleanSet(computeds))
      {
        Step(effs[i]);
        i := i + 1;
      }
    }

    /** One effect of `triggerEffects`: its scheduler when it has one, otherwise `run()`. */
    method Step(e: nat)
      modifies this
      ensures Snapshot() == StepSpec(old(Snapshot()), e)
      decreases CleanSet(computeds), 1
    {
      match EffectOf(effects, e).scheduler {
        case NoScheduler =>
          var ignored := Run(e, Undefined);
        case UserScheduler(f) =>
          log := log + [SchedulerCall(e, f)];
        case ComputedScheduler(c) =>
          MarkComputedDirty(c);
      }
    }

    /** The scheduler a computed ref gives its effect. */
    method MarkComputedDirty(c: nat)
      modifies this
      ensures Snapshot() == ComputedSchedulerSpec(old(Snapshot()), c)
      decreases CleanSet(computeds), 0
    {
      if c in computeds && !computeds[c].dirty {
        ghost var before := CleanSet(computeds);
        computeds := computeds[c := computeds[c].(dirty := true)];
        assert CleanSet(computeds) == before - {c};
        TriggerRefValue(computeds[c].dep);
      }
    }

    /** `triggerRefValue(ref)` */
    method TriggerRefValue(dep: Option<nat>)
      modifies this
      ensures Snapshot() == TriggerRefValueSpec(old(Snapshot()), dep)
      decreases CleanSet(computeds), if dep.None? then 0 else |Members(deps, dep.value)| + 3
    {
      if dep.Some? {
        TriggerEffects(Members(deps, dep.value));
      }
    }

    /** `effect(fn, options)`; the runner it returns is the new effect's id. */
    method CreateEffect(body: seq<(nat, Key)>, options: Option<EffectOptions>) returns (runner: nat)
      modifies this
      ensures Snapshot() == EffectSpec(old(Snapshot()), body, options)
      ensures runner == old(nextEffect)
    {
      var sched := if options.Some? && options.value.scheduler.Some? then UserScheduler(options.value.scheduler.value) else NoScheduler;
      runner := AddEffect(Effect(sched, [], body));
      if options.None? || !options.value.lazy {
        var ignored := Run(runner, Undefined);
      }
    }

    /** `new ReactiveEffect(fn, scheduler)` */
    method AddEffect(effect: Effect) returns (e: nat)
      modifies this
      ensures e == old(nextEffect)
      ensures Snapshot() == AddEffectSpec(old(Snapshot()), effect)
    {
      e := nextEffect;
      effects := effects[e := effect];
      nextEffect := nextEffect + 1;
    }

    /** `trackRefValue(ref)`, given and returning the ref's `dep`. */
    method TrackRefValue(dep: Option<nat>) returns (newDep: Option<nat>)
      modifies this
      ensures (Snapshot(), newDep) == TrackRefValueSpec(old(Snapshot()), dep)
    {
      newDep := dep;
      if active.Some? {
        if dep.None? {
          newDep := Some(nextDep);
          deps := deps[nextDep := []];
          nextDep := nextDep + 1;
        }
        TrackEffects(newDep.value);
      }
    }

    /** `ref(value)` or `shallowRef(value)` */
    method NewRef(value: Value, shallow: bool) returns (id: nat)
      modifies this
      ensures Snapshot() == NewRefSpec(old(Snapshot()), value, shallow)
      ensures id == old(nextRef)
    {
      id := nextRef;
      refs := refs[id := Ref(value, if shallow then Plain(value) else ToReactive(value), shallow, None)];
      nextRef := nextRef + 1;
    }

    /** `ref.value` (get) */
    method RefGet(id: nat) returns (v: Stored)
      requires id in refs
      modifies this
      ensures (Snapshot(), v) == RefGetSpec(old(Snapshot()), id)
    {
      var ref := refs[id];
      var dep := TrackRefValue(ref.dep);
      refs := refs[id := ref.(dep := dep)];
      v := ref.value;
    }

    /** `ref.value = v` */
    method RefSet(id: nat, v: Value)
      requires id in refs
      modifies this
      ensures Snapshot() == RefSetSpec(old(Snapshot()), id, v)
    {
      var ref := refs[id];
      if v != ref.raw {
        refs := refs[id := ref.(raw := v, value := if ref.shallow then Plain(v) else ToReactive(v))];
        TriggerRefValue(ref.dep);
      }
    }

    /** `computed(getterOrOptions)` */
    method NewComputed(body: seq<(nat, Key)>, arg: ComputedArg) returns (c: nat)
      modifies this
      ensures Snapshot() == ComputedSpec(old(Snapshot()), body, arg)
      ensures c == old(nextComputed)
    {
      c := nextComputed;
      var setter := match arg
        case GetterOnly => Noop
        case GetSet(f) => if f.Some? then SetterFn(f.value) else NoSetter;
      var e := AddEffect(Effect(ComputedScheduler(c), [], body));
      computeds := computeds[c := Computed(e, setter, arg.GetterOnly?, true, Undefined, None)];
      nextComputed := nextComputed + 1;
    }

    /** `computed.value` (get), with `result` the value the getter returns. */
    method ComputedGet(c: nat, result: Value) returns (v: Value)
      requires c in computeds
      modifies this
      ensures (Snapshot(), v) == ComputedGetSpec(old(Snapshot()), c, result)
    {
      var comp := computeds[c];
      var dep := TrackRefValue(comp.dep);
      computeds := computeds[c := comp.(dep := dep)];
      if comp.dirty {
        computeds := computeds[c := comp.(dep := dep, dirty := false)];
        v := Run(comp.effect, result);
        computeds := computeds[c := comp.(dep := dep, dirty := false, value := v)];
      } else {
        v := comp.value;
      }
    }

    /** `computed.value = v`; `error` is the exception a missing setter throws. */
    method ComputedSet(c: nat, v: Value) returns (error: Option<string>)
      requires c in computeds
      modifies this
      ensures ComputedSetSpec(old(Snapshot()), c, v) == if error.None? then Ok(Snapshot()) else Throw(error.value)
      ensures error.Some? ==> Snapshot() == old(Snapshot())
    {
      error := None;
      match computeds[c].setter {
        case Noop =>
        case SetterFn(f) =>
          log := log + [SetterCall(f, v)];
        case NoSetter =>
          error := Some("TypeError: this._setter is not a function");
      }
    }
  }
}
