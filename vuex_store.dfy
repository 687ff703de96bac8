/**
 * The vuex store (vuex-plain/src/vuex/store.ts): installing the module
 * tree into the getter, mutation and action registries and the nested
 * state, `withCommit`, `commit`, `dispatch`, `subscribe` and
 * `registerModule`.
 *
 * Handlers, subscribers and plugins are user code: the model records each
 * call into them, in order, with what it is given (`calls`); what they do
 * is not modelled.
 */
module VuexStore {
  import opened Wrappers
  import opened JsValues
  import opened VuexModule

  // ------------------------------------------------------------- state

  /** `path.reduce((state, key) => state[key], state)`: reading a property of null or undefined throws. */
  function GetNested(state: Value, path: seq<string>): Result<Value>
    decreases |path|
  {
    if |path| == 0 then Ok(state)
    else
      var next := Read(state, path[0]);
      if next.Throw? then next else GetNested(next.value, path[1..])
  }

  /**
   * `parentState[path.at(-1)] = v`, with `parentState` the nested state at
   * the other keys of `path`, as the new root state. The assignment throws
   * when the parent state is null or undefined; a parent state that is not
   * a plain object is treated as an error too.
   */
  function Assign(root: Value, path: seq<string>, v: Value): Result<Value>
    requires |path| > 0
    decreases |path|
  {
    if |path| == 1 then
      if root.Rec? then Ok(Rec(root.fields[path[0] := v]))
      else Throw("Cannot set properties of " + (if root.Null? then "null" else "undefined"))
    else
      var child := Read(root, path[0]);
      if child.Throw? then Throw(child.msg)
      else
        var r := Assign(child.value, path[1..], v);
        if r.Throw? || !root.Rec? then r
        else Ok(Rec(root.fields[path[0] := r.value]))
  }

  /** The assignment succeeds exactly when the parent state is a plain object. */
  lemma {:induction false} AssignDefinedIff(root: Value, path: seq<string>, v: Value)
    requires |path| > 0
    ensures Assign(root, path, v).Ok? <==>
      GetNested(root, path[..|path| - 1]).Ok? && GetNested(root, path[..|path| - 1]).value.Rec?
    decreases |path|
  {
    if |path| > 1 {
      var child := Read(root, path[0]);
      if child.Ok? {
        AssignDefinedIff(child.value, path[1..], v);
        assert path[1..][..|path[1..]| - 1] == path[..|path| - 1][1..];
        if Assign(child.value, path[1..], v).Ok? {
          AssignedParentIsObject(child.value, path[1..], v);
        }
      }
    }
  }

  /** Below the top, a successful assignment went through a plain object. */
  lemma AssignedParentIsObject(root: Value, path: seq<string>, v: Value)
    requires |path| > 0 && Assign(root, path, v).Ok?
    ensures root.Rec?
  {
  }

  /** The stored value reads back at `path`: the module's state is where `getNestedState` looks for it. */
  lemma {:induction false} AssignThenGetNested(root: Value, path: seq<string>, v: Value)
    requires |path| > 0 && Assign(root, path, v).Ok?
    ensures GetNested(Assign(root, path, v).value, path) == Ok(v)
    decreases |path|
  {
    if |path| > 1 {
      var child := Read(root, path[0]);
      AssignedParentIsObject(child.value, path[1..], v);
      AssignThenGetNested(child.value, path[1..], v);
    }
  }

  /** The assignment changes only the last key of the parent state: the sibling states are kept. */
  lemma {:induction false} AssignKeepsSiblings(root: Value, path: seq<string>, v: Value)
    requires |path| > 0 && Assign(root, path, v).Ok?
    ensures var prefix := path[..|path| - 1];
      GetNested(root, prefix).Ok? && GetNested(root, prefix).value.Rec?
      && GetNested(Assign(root, path, v).value, prefix).Ok?
      && GetNested(Assign(root, path, v).value, prefix).value == Rec(GetNested(root, prefix).value.fields[path[|path| - 1] := v])
    decreases |path|
  {
    AssignDefinedIff(root, path, v);
    if |path| > 1 {
      var child := Read(root, path[0]);
      AssignKeepsSiblings(child.value, path[1..], v);
      assert path[1..][..|path[1..]| - 1] == path[..|path| - 1][1..];
      assert path[1..][|path[1..]| - 1] == path[|path| - 1];
    }
  }

  // -------------------------------------------------------- registries

  /** A registered wrapper: the user function and the module path whose state it is given. */
  datatype Wrapped = Wrapped(fn: nat, path: seq<string>)

  /** `store._mutations[type] ?? []` */
  function EntryOf(m: map<string, seq<Wrapped>>, key: string): seq<Wrapped>
  {
    if key in m then m[key] else []
  }

  /** `forEachGetter`: each getter is stored under `namespace + key`, replacing an earlier one of that name. */
  function AddGetters(g: map<string, Wrapped>, ns: string, path: seq<string>, es: Entries<nat>): map<string, Wrapped>
    decreases |es|
  {
    if |es| == 0 then g
    else
      var last := es[|es| - 1];
      AddGetters(g, ns, path, es[..|es| - 1])[ns + last.0 := Wrapped(last.1, path)]
  }

  /** `forEachMutation`/`forEachAction`: each handler is appended to the list under `namespace + key`. */
  function AppendAll(m: map<string, seq<Wrapped>>, ns: string, path: seq<string>, es: Entries<nat>): map<string, seq<Wrapped>>
    decreases |es|
  {
    if |es| == 0 then m
    else
      var last := es[|es| - 1];
      var before := AppendAll(m, ns, path, es[..|es| - 1]);
      before[ns + last.0 := EntryOf(before, ns + last.0) + [Wrapped(last.1, path)]]
  }

  /** The handlers of `es` whose full name is `k`, in order. */
  function Matching(ns: string, path: seq<string>, es: Entries<nat>, k: string): (r: seq<Wrapped>)
    ensures |r| <= |es|
    decreases |es|
  {
    if |es| == 0 then []
    else
      var last := es[|es| - 1];
      Matching(ns, path, es[..|es| - 1], k) + (if ns + last.0 == k then [Wrapped(last.1, path)] else [])
  }

  /** Handlers accumulate: the list under `k` is the old one followed by this module's handlers named `k`, in order. */
  lemma {:induction false} AppendAllAt(m: map<string, seq<Wrapped>>, ns: string, path: seq<string>, es: Entries<nat>, k: string)
    ensures EntryOf(AppendAll(m, ns, path, es), k) == EntryOf(m, k) + Matching(ns, path, es, k)
    decreases |es|
  {
    if |es| > 0 {
      AppendAllAt(m, ns, path, es[..|es| - 1], k);
    }
  }

  /** A getter is replaced by a later one of the same full name: the last getter named `k` is the one kept. */
  lemma {:induction false} GetterLastWins(g: map<string, Wrapped>, ns: string, path: seq<string>, es: Entries<nat>, j: nat)
    requires j < |es| && forall i :: j < i < |es| ==> es[i].0 != es[j].0
    ensures ns + es[j].0 in AddGetters(g, ns, path, es)
    ensures AddGetters(g, ns, path, es)[ns + es[j].0] == Wrapped(es[j].1, path)
    decreases |es|
  {
    var n := |es| - 1;
    if j < n {
      assert es[..n][j] == es[j];
      assert ns + es[n].0 != ns + es[j].0 by {
        assert (ns + es[n].0)[|ns|..] == es[n].0 && (ns + es[j].0)[|ns|..] == es[j].0;
      }
      GetterLastWins(g, ns, path, es[..n], j);
    }
  }

  /** A name no getter of `es` has keeps its old getter, or stays absent. */
  lemma {:induction false} GettersOtherNames(g: map<string, Wrapped>, ns: string, path: seq<string>, es: Entries<nat>, k: string)
    requires forall i :: 0 <= i < |es| ==> ns + es[i].0 != k
    ensures (k in AddGetters(g, ns, path, es)) == (k in g)
    ensures k in g ==> AddGetters(g, ns, path, es)[k] == g[k]
    decreases |es|
  {
    if |es| > 0 {
      GettersOtherNames(g, ns, path, es[..|es| - 1], k);
    }
  }

  /** The registries of a store. */
  datatype Registries = Registries(getters: map<string, Wrapped>, mutations: map<string, seq<Wrapped>>, actions: map<string, seq<Wrapped>>)

  /** One module's getters, mutations and actions registered under namespace `ns`. */
  function RegisterHandlers(regs: Registries, ns: string, path: seq<string>, raw: RawModule): Registries
  {
    Registries(
      AddGetters(regs.getters, ns, path, raw.getters),
      AppendAll(regs.mutations, ns, path, raw.mutations),
      AppendAll(regs.actions, ns, path, raw.actions))
  }

  /** What `installModule` changes: the registries, the state and the `_commiting` flag. */
  datatype StoreData = StoreData(regs: Registries, state: Value, committing: bool)

  /**
   * `installModule(store, rootState, path, module)` on the module `id` built
   * from `raw`: the namespace, the parent state (read outside `withCommit`),
   * the assignment (inside `withCommit`, so a throw there leaves
   * `_commiting` set), the handlers, then each child at `path + [key]`. The
   * second component is the error thrown, if any.
   */
  ghost function Install(nodes: map<nat, Module>, root: Option<nat>, path: seq<string>, id: nat, raw: RawModule,
                         lo: nat, hi: nat, d: StoreData): (StoreData, Option<string>)
    requires Mirrors(nodes, id, raw, lo, hi)
    decreases raw, 1
  {
    var ns := NamespaceFrom(nodes, root, path);
    if ns.Throw? then (d, Some(ns.msg))
    else
      var parent := if |path| == 0 then Ok(d.state) else GetNested(d.state, path[..|path| - 1]);
      if parent.Throw? then (d, Some(parent.msg))
      else
      var a := if |path| == 0 then Ok(d.state) else Assign(d.state, path, raw.state);
      if a.Throw? then (d.(committing := true), Some(a.msg))
      else InstallChildren(nodes, root, path, id, raw, lo, hi, 0, d.(state := a.value, regs := RegisterHandlers(d.regs, ns.value, path, raw)))
  }

  /** `module.forEachChild(...)` from the `j`-th child on; the first error stops the walk. */
  ghost function InstallChildren(nodes: map<nat, Module>, root: Option<nat>, path: seq<string>, id: nat, raw: RawModule,
                                 lo: nat, hi: nat, j: nat, d: StoreData): (StoreData, Option<string>)
    requires Mirrors(nodes, id, raw, lo, hi) && j <= |raw.modules|
    decreases raw, 0, |raw.modules| - j
  {
    if j == |raw.modules| then (d, None)
    else
      var c := nodes[id].children[j];
      var r := Install(nodes, root, path + [c.0], c.1, raw.modules[j].1, lo, hi, d);
      if r.1.Some? then r else InstallChildren(nodes, root, path, id, raw, lo, hi, j + 1, r.0)
  }

  /** Installing never changes `_commiting` unless it throws. */
  lemma {:induction false} InstallKeepsCommitting(nodes: map<nat, Module>, root: Option<nat>, path: seq<string>, id: nat, raw: RawModule,
                                                  lo: nat, hi: nat, d: StoreData)
    requires Mirrors(nodes, id, raw, lo, hi)
    ensures var r := Install(nodes, root, path, id, raw, lo, hi, d);
      r.1.None? ==> r.0.committing == d.committing
    decreases raw, 1
  {
    var ns := NamespaceFrom(nodes, root, path);
    var parent := if |path| == 0 then Ok(d.state) else GetNested(d.state, path[..|path| - 1]);
    if ns.Ok? && parent.Ok? {
      var a := if |path| == 0 then Ok(d.state) else Assign(d.state, path, raw.state);
      if a.Ok? {
        ChildrenKeepCommitting(nodes, root, path, id, raw, lo, hi, 0, d.(state := a.value, regs := RegisterHandlers(d.regs, ns.value, path, raw)));
      }
    }
  }

  lemma {:induction false} ChildrenKeepCommitting(nodes: map<nat, Module>, root: Option<nat>, path: seq<string>, id: nat, raw: RawModule,
                                                  lo: nat, hi: nat, j: nat, d: StoreData)
    requires Mirrors(nodes, id, raw, lo, hi) && j <= |raw.modules|
    ensures var r := InstallChildren(nodes, root, path, id, raw, lo, hi, j, d);
      r.1.None? ==> r.0.committing == d.committing
    decreases raw, 0, |raw.modules| - j
  {
    if j < |raw.modules| {
      var c := nodes[id].children[j];
      InstallKeepsCommitting(nodes, root, path + [c.0], c.1, raw.modules[j].1, lo, hi, d);
      var r := Install(nodes, root, path + [c.0], c.1, raw.modules[j].1, lo, hi, d);
      if r.1.None? {
        ChildrenKeepCommitting(nodes, root, path, id, raw, lo, hi, j + 1, r.0);
      }
    }
  }

  /** Installing a module that has no nested modules stores its state under its key and registers its handlers. */
  lemma InstallLeaf(nodes: map<nat, Module>, root: Option<nat>, path: seq<string>, id: nat, raw: RawModule,
                    lo: nat, hi: nat, d: StoreData)
    requires Mirrors(nodes, id, raw, lo, hi) && |raw.modules| == 0 && |path| > 0
    requires NamespaceFrom(nodes, root, path).Ok? && Assign(d.state, path, raw.state).Ok?
    ensures var r := Install(nodes, root, path, id, raw, lo, hi, d);
      && r.1 == None
      && GetNested(r.0.state, path) == Ok(raw.state)
      && r.0.regs == RegisterHandlers(d.regs, NamespaceFrom(nodes, root, path).value, path, raw)
      && r.0.committing == d.committing
  {
    AssignDefinedIff(d.state, path, raw.state);
    AssignThenGetNested(d.state, path, raw.state);
  }

  // ------------------------------------------------------------- calls

  /** A call into user code, with what it is given. */
  datatype Call =
    | MutationCall(fn: nat, state: Value, payload: Value, committing: bool)
    | ActionCall(fn: nat, payload: Value)
    | SubscriberCall(fn: nat, typ: string, payload: Value, state: Value)
    | PluginCall(fn: nat)

  /**
   * `entry.forEach(handler => handler(payload))` inside `withCommit`: each
   * handler is given its module's nested state, found by `getNestedState`,
   * which throws for a missing module state and stops the loop.
   */
  function MutationRun(entry: seq<Wrapped>, state: Value, payload: Value): (r: (seq<Call>, Option<string>))
    ensures |r.0| <= |entry|
    ensures r.1.None? ==> |r.0| == |entry|
    decreases |entry|
  {
    if |entry| == 0 then ([], None)
    else
      var st := GetNested(state, entry[0].path);
      if st.Throw? then ([], Some(st.msg))
      else
        var rest := MutationRun(entry[1..], state, payload);
        ([MutationCall(entry[0].fn, st.value, payload, true)] + rest.0, rest.1)
  }

  /** Every call a commit makes to a handler is the `i`-th handler's, made while `_commiting` is set. */
  lemma {:induction false} MutationRunCalls(entry: seq<Wrapped>, state: Value, payload: Value)
    ensures var r := MutationRun(entry, state, payload);
      forall i :: 0 <= i < |r.0| ==> r.0[i].MutationCall? && r.0[i].fn == entry[i].fn && r.0[i].committing
    decreases |entry|
  {
    if |entry| > 0 && GetNested(state, entry[0].path).Ok? {
      MutationRunCalls(entry[1..], state, payload);
    }
  }

  /** `this._subscribes.forEach(f => f({ type, payload }, this.state))` */
  function SubscriberCalls(subs: seq<nat>, typ: string, payload: Value, state: Value): (r: seq<Call>)
    ensures |r| == |subs|
    ensures forall i :: 0 <= i < |r| ==> r[i] == SubscriberCall(subs[i], typ, payload, state)
  {
    seq(|subs|, i requires 0 <= i < |subs| => SubscriberCall(subs[i], typ, payload, state))
  }

  /** `commit(type, payload)`: the calls made, the `_commiting` flag after, and the error thrown. */
  function CommitOutcome(mutations: map<string, seq<Wrapped>>, subs: seq<nat>, state: Value, committing: bool,
                         typ: string, payload: Value): (seq<Call>, bool, Option<string>)
  {
    var run := MutationRun(EntryOf(mutations, typ), state, payload);
    if run.1.Some? then (run.0, true, run.1)
    else (run.0 + SubscriberCalls(subs, typ, payload, state), committing, None)
  }

  /**
   * A commit that completes runs every handler of the type, in order and
   * with `_commiting` set, then every subscriber, in order, and restores
   * `_commiting`.
   */
  lemma CommitRunsHandlersThenSubscribers(mutations: map<string, seq<Wrapped>>, subs: seq<nat>, state: Value, committing: bool,
                                          typ: string, payload: Value)
    ensures var (calls, after, err) := CommitOutcome(mutations, subs, state, committing, typ, payload);
      var entry := EntryOf(mutations, typ);
      err.None? ==>
        && after == committing
        && |calls| == |entry| + |subs|
        && (forall i :: 0 <= i < |entry| ==> calls[i].MutationCall? && calls[i].fn == entry[i].fn && calls[i].committing)
        && (forall i :: 0 <= i < |subs| ==> calls[|entry| + i] == SubscriberCall(subs[i], typ, payload, state))
  {
    var entry := EntryOf(mutations, typ);
    var run := MutationRun(entry, state, payload);
    MutationRunCalls(entry, state, payload);
    if run.1.None? {
      var notified := SubscriberCalls(subs, typ, payload, state);
      var calls := run.0 + notified;
      assert CommitOutcome(mutations, subs, state, committing, typ, payload) == (calls, committing, None);
      forall i | 0 <= i < |entry|
        ensures calls[i].MutationCall? && calls[i].fn == entry[i].fn && calls[i].committing
      {
        assert calls[i] == run.0[i];
      }
      forall i | 0 <= i < |subs|
        ensures calls[|entry| + i] == SubscriberCall(subs[i], typ, payload, state)
      {
        assert calls[|entry| + i] == notified[i];
      }
    }
  }

  /** A type with no mutations still notifies every subscriber. */
  lemma UnknownTypeNotifiesSubscribers(mutations: map<string, seq<Wrapped>>, subs: seq<nat>, state: Value, committing: bool,
                                       typ: string, payload: Value)
    requires typ !in mutations
    ensures CommitOutcome(mutations, subs, state, committing, typ, payload) == (SubscriberCalls(subs, typ, payload, state), committing, None)
  {
    assert [] + SubscriberCalls(subs, typ, payload, state) == SubscriberCalls(subs, typ, payload, state);
  }

  /** A commit that throws leaves `_commiting` set and notifies no subscriber. */
  lemma FailedCommitLeavesFlagSet(mutations: map<string, seq<Wrapped>>, subs: seq<nat>, state: Value, committing: bool,
                                  typ: string, payload: Value)
    ensures var (calls, after, err) := CommitOutcome(mutations, subs, state, committing, typ, payload);
      err.Some? ==> after && forall i :: 0 <= i < |calls| ==> calls[i].MutationCall?
  {
    MutationRunCalls(EntryOf(mutations, typ), state, payload);
  }

  /** The body run by `withCommit`. */
  datatype CommitBody =
    | AssignState(path: seq<string>, v: Value)
    | RunMutations(entry: seq<Wrapped>, payload: Value)
    | ReplaceState(newState: Value)

  /** `registerModule`'s path argument: a string or an array of keys. */
  datatype PathArg = KeyPath(key: string) | ArrayPath(keys: seq<string>)

  /** `if (typeof path === "string") path = [path]` */
  function NormalizePath(p: PathArg): (r: seq<string>)
    ensures p.KeyPath? ==> r == [p.key]
    ensures p.ArrayPath? ==> r == p.keys
  {
    match p
    case KeyPath(key) => [key]
    case ArrayPath(keys) => keys
  }

  /** The `Store` object. */
  class Store {
    var modules: ModuleCollection
    var wrappedGetters: map<string, Wrapped>
    var mutations: map<string, seq<Wrapped>>
    var actions: map<string, seq<Wrapped>>
    var strict: bool
    var committing: bool
    var subscribers: seq<nat>
    /** `_state.data`, the root state. */
    var state: Value
    /** The names `store.getters` defines. */
    var getterNames: set<string>
    /** The calls into user code so far. */
    var calls: seq<Call>

    ghost function Data(): StoreData
      reads this
    {
      StoreData(Registries(wrappedGetters, mutations, actions), state, committing)
    }

    /**
     * The first part of `new Store(options)`: the module collection, empty
     * registries, the strict flag, `_commiting = false` and the root state.
     */
    constructor Init(options: RawModule)
      requires WellKeyed(options)
      ensures fresh(modules) && modules.Valid() && modules.root == Some(0) && Mirrors(modules.nodes, 0, options, 0, modules.nextId)
      ensures wrappedGetters == map[] && mutations == map[] && actions == map[]
      ensures strict == Truthy(options.strict) && !committing && state == options.state
      ensures subscribers == [] && calls == [] && getterNames == {}
    {
      modules := new ModuleCollection(options);
      wrappedGetters := map[];
      actions := map[];
      mutations := map[];
      strict := Truthy(options.strict);
      committing := false;
      state := options.state;
      subscribers := [];
      calls := [];
      getterNames := {};
    }

    /**
     * `withCommit(fn)`: `_commiting` is true while the body runs and is then
     * restored; there is no `finally`, so a body that throws leaves it true.
     */
    method WithCommit(body: CommitBody) returns (err: Option<string>)
      requires body.AssignState? ==> |body.path| > 0
      modifies this`state, this`committing, this`calls
      ensures err.None? ==> committing == old(committing)
      ensures err.Some? ==> committing
      ensures body.AssignState? ==>
        var a := Assign(old(state), body.path, body.v);
        calls == old(calls) && (a.Ok? ==> err == None && state == a.value) && (a.Throw? ==> err == Some(a.msg) && state == old(state))
      ensures body.ReplaceState? ==> err == None && state == body.newState && calls == old(calls)
      ensures body.RunMutations? ==>
        var run := MutationRun(body.entry, old(state), body.payload);
        calls == old(calls) + run.0 && err == run.1 && state == old(state)
    {
      var saved := committing;
      committing := true;
      match body {
        case AssignState(path, v) =>
          var a := Assign(state, path, v);
          if a.Throw? {
            return Some(a.msg);
          }
          state := a.value;
        case ReplaceState(newState) =>
          state := newState;
        case RunMutations(entry, payload) =>
          err := RunHandlers(entry, payload);
          if err.Some? {
            return;
          }
      }
      err := None;
      committing := saved;
    }

    /** `entry.forEach(handler => handler(payload))`, each handler given its module's state. */
    method RunHandlers(entry: seq<Wrapped>, payload: Value) returns (err: Option<string>)
      requires committing
      modifies this`calls
      ensures var run := MutationRun(entry, state, payload);
        calls == old(calls) + run.0 && err == run.1
    {
      ghost var all := MutationRun(entry, state, payload);
      var i := 0;
      while i < |entry|
        invariant 0 <= i <= |entry|
        invariant old(calls) + all.0 == calls + MutationRun(entry[i..], state, payload).0
        invariant all.1 == MutationRun(entry[i..], state, payload).1
      {
        assert entry[i..][1..] == entry[i + 1..];
        assert entry[i..][0] == entry[i];
        var st := GetNested(state, entry[i].path);
        if st.Throw? {
          return Some(st.msg);
        }
        calls := calls + [MutationCall(entry[i].fn, st.value, payload, committing)];
        i := i + 1;
      }
      assert entry[i..] == [];
      err := None;
    }

    /** `commit(type, payload)` */
    method Commit(typ: string, payload: Value) returns (err: Option<string>)
      modifies this`state, this`committing, this`calls
      ensures state == old(state)
      ensures var (cs, after, e) := CommitOutcome(mutations, subscribers, state, old(committing), typ, payload);
        calls == old(calls) + cs && committing == after && err == e
    {
      var entry := if typ in mutations then mutations[typ] else [];
      err := WithCommit(RunMutations(entry, payload));
      if err.Some? {
        return;
      }
      Notify(typ, payload);
    }

    /** `this._subscribes.forEach(f => f({ type, payload }, this.state))` */
    method Notify(typ: string, payload: Value)
      modifies this`calls
      ensures calls == old(calls) + SubscriberCalls(subscribers, typ, payload, state)
    {
      var i := 0;
      while i < |subscribers|
        invariant 0 <= i <= |subscribers|
        invariant calls == old(calls) + SubscriberCalls(subscribers[..i], typ, payload, state)
      {
        calls := calls + [SubscriberCall(subscribers[i], typ, payload, state)];
        i := i + 1;
        assert SubscriberCalls(subscribers[..i], typ, payload, state)
          == SubscriberCalls(subscribers[..i - 1], typ, payload, state) + [SubscriberCall(subscribers[i - 1], typ, payload, state)];
      }
      assert subscribers[..i] == subscribers;
    }

    /** `dispatch(type, payload)`: every action handler of the type is called, in order. */
    method Dispatch(typ: string, payload: Value)
      modifies this`calls
      ensures var entry := EntryOf(actions, typ);
        calls == old(calls) + seq(|entry|, i requires 0 <= i < |entry| => ActionCall(entry[i].fn, payload))
    {
      var entry := if typ in actions then actions[typ] else [];
      var i := 0;
      while i < |entry|
        invariant 0 <= i <= |entry|
        invariant calls == old(calls) + seq(i, k requires 0 <= k < i => ActionCall(entry[k].fn, payload))
      {
        calls := calls + [ActionCall(entry[i].fn, payload)];
        i := i + 1;
      }
    }

    /** `subscribe(fn)` */
    method Subscribe(fn: nat)
      modifies this`subscribers
      ensures subscribers == old(subscribers) + [fn]
    {
      subscribers := subscribers + [fn];
    }

    /** `replaceState(newState)`, inside `withCommit`. */
    method ReplaceStateWith(newState: Value)
      modifies this`state, this`committing, this`calls
      ensures state == newState && committing == old(committing) && calls == old(calls)
    {
      var err := WithCommit(ReplaceState(newState));
    }

    /** `resetStoreState`: `store.getters` gets one property per wrapped getter. */
    method ResetStoreState()
      modifies this`getterNames
      ensures getterNames == wrappedGetters.Keys
    {
      getterNames := wrappedGetters.Keys;
    }

    /** `forEachGetter` in `installModule` */
    method InstallGetters(ns: string, path: seq<string>, es: Entries<nat>)
      modifies this`wrappedGetters
      ensures wrappedGetters == AddGetters(old(wrappedGetters), ns, path, es)
    {
      var i := 0;
      while i < |es|
        invariant 0 <= i <= |es| && wrappedGetters == AddGetters(old(wrappedGetters), ns, path, es[..i])
      {
        assert es[..i + 1][..i] == es[..i];
        wrappedGetters := wrappedGetters[ns + es[i].0 := Wrapped(es[i].1, path)];
        i := i + 1;
      }
      assert es[..i] == es;
    }

    /** `forEachMutation` in `installModule` */
    method InstallMutations(ns: string, path: seq<string>, es: Entries<nat>)
      modifies this`mutations
      ensures mutations == AppendAll(old(mutations), ns, path, es)
    {
      var i := 0;
      while i < |es|
        invariant 0 <= i <= |es| && mutations == AppendAll(old(mutations), ns, path, es[..i])
      {
        assert es[..i + 1][..i] == es[..i];
        var key := ns + es[i].0;
        var entry := if key in mutations then mutations[key] else [];
        mutations := mutations[key := entry + [Wrapped(es[i].1, path)]];
        i := i + 1;
      }
      assert es[..i] == es;
    }

    /** `forEachAction` in `installModule` */
    method InstallActions(ns: string, path: seq<string>, es: Entries<nat>)
      modifies this`actions
      ensures actions == AppendAll(old(actions), ns, path, es)
    {
      var i := 0;
      while i < |es|
        invariant 0 <= i <= |es| && actions == AppendAll(old(actions), ns, path, es[..i])
      {
        assert es[..i + 1][..i] == es[..i];
        var key := ns + es[i].0;
        var entry := if key in actions then actions[key] else [];
        actions := actions[key := entry + [Wrapped(es[i].1, path)]];
        i := i + 1;
      }
      assert es[..i] == es;
    }

    /** `installModule(this, this.state, path, module)` for the module `id`, built from `raw`. */
    method InstallModule(path: seq<string>, id: nat, ghost raw: RawModule, ghost lo: nat, ghost hi: nat) returns (err: Option<string>)
      requires Mirrors(modules.nodes, id, raw, lo, hi)
      modifies this`wrappedGetters, this`mutations, this`actions, this`state, this`committing
      decreases raw, 1
      ensures (Data(), err) == Install(modules.nodes, modules.root, path, id, raw, lo, hi, old(Data()))
    {
      var ns := NamespaceFrom(modules.nodes, modules.root, path);
      if ns.Throw? {
        return Some(ns.msg);
      }
      if |path| > 0 {
        var parent := GetNested(state, path[..|path| - 1]);
        if parent.Throw? {
          return Some(parent.msg);
        }
        var e := WithCommitState(path, modules.nodes[id].state);
        if e.Some? {
          return e;
        }
      }
      var m := modules.nodes[id];
      InstallGetters(ns.value, path, m.raw.getters);
      InstallMutations(ns.value, path, m.raw.mutations);
      InstallActions(ns.value, path, m.raw.actions);
      err := InstallChildModules(path, id, raw, lo, hi);
    }

    /** `store.withCommit(() => { parentState[path.at(-1)] = module.state })` */
    method WithCommitState(path: seq<string>, v: Value) returns (err: Option<string>)
      requires |path| > 0
      modifies this`state, this`committing
      ensures var a := Assign(old(state), path, v);
        (a.Ok? ==> err == None && state == a.value && committing == old(committing))
        && (a.Throw? ==> err == Some(a.msg) && state == old(state) && committing)
    {
      var saved := committing;
      committing := true;
      var a := Assign(state, path, v);
      if a.Throw? {
        return Some(a.msg);
      }
      state := a.value;
      committing := saved;
      err := None;
    }

    /** `module.forEachChild((child, key) => installModule(store, rootState, path.concat(key), child))` */
    method InstallChildModules(path: seq<string>, id: nat, ghost raw: RawModule, ghost lo: nat, ghost hi: nat) returns (err: Option<string>)
      requires Mirrors(modules.nodes, id, raw, lo, hi)
      modifies this`wrappedGetters, this`mutations, this`actions, this`state, this`committing
      decreases raw, 0
      ensures (Data(), err) == InstallChildren(modules.nodes, modules.root, path, id, raw, lo, hi, 0, old(Data()))
    {
      var children := modules.nodes[id].children;
      var j := 0;
      while j < |children|
        invariant j <= |children| == |raw.modules|
        invariant InstallChildren(modules.nodes, modules.root, path, id, raw, lo, hi, j, Data())
          == InstallChildren(modules.nodes, modules.root, path, id, raw, lo, hi, 0, old(Data()))
      {
        err := InstallModule(path + [children[j].0], children[j].1, raw.modules[j].1, lo, hi);
        if err.Some? {
          return;
        }
        j := j + 1;
      }
      err := None;
    }
  }

  /**
   * `registerModule(path, rawModule)`: the module is registered in the
   * collection as `reg` says, installed at `path` with the store's state as
   * root state, and `store.getters` is rebuilt.
   */
  method RegisterModule(s: Store, p: PathArg, raw: RawModule) returns (ghost reg: Result<nat>, err: Option<string>)
    requires s.modules.Valid() && WellKeyed(raw)
    modifies s.modules, s`wrappedGetters, s`mutations, s`actions, s`state, s`committing, s`getterNames
    ensures s.modules.Valid()
    ensures Registered(old(s.modules.nodes), old(s.modules.root), old(s.modules.nextId), NormalizePath(p), raw,
                       s.modules.nodes, s.modules.root, s.modules.nextId, reg)
    ensures reg.Throw? ==> err == Some(reg.msg) && s.Data() == old(s.Data())
    ensures reg.Ok? ==> Mirrors(s.modules.nodes, reg.value, raw, reg.value, s.modules.nextId)
    ensures reg.Ok? ==> (s.Data(), err) == Install(s.modules.nodes, s.modules.root, NormalizePath(p), reg.value, raw, reg.value, s.modules.nextId, old(s.Data()))
    ensures err.None? ==> s.getterNames == s.wrappedGetters.Keys
  {
    var path := NormalizePath(p);
    var r := s.modules.Register(raw, path);
    reg := r;
    if r.Throw? {
      return r, Some(r.msg);
    }
    err := s.InstallModule(path, r.value, raw, r.value, s.modules.nextId);
    if err.Some? {
      return;
    }
    s.ResetStoreState();
  }

  /**
   * `new Store(options)`: the collection and the registries, the install of
   * the root module, `resetStoreState`, an empty subscriber list, then each
   * plugin called with the store, in order. An error thrown while installing
   * ends construction.
   */
  method NewStore(options: RawModule) returns (r: Result<Store>)
    requires WellKeyed(options)
    ensures r.Ok? ==> fresh(r.value) && r.value.modules.Valid() && r.value.strict == Truthy(options.strict)
    ensures r.Ok? ==> Mirrors(r.value.modules.nodes, 0, options, 0, r.value.modules.nextId)
    ensures r.Ok? ==> var s := r.value;
      && (s.Data(), None) == Install(s.modules.nodes, s.modules.root, [], 0, options, 0, s.modules.nextId,
                                    StoreData(Registries(map[], map[], map[]), options.state, false))
      && s.getterNames == s.wrappedGetters.Keys && s.subscribers == []
      && s.calls == seq(|options.plugins|, i requires 0 <= i < |options.plugins| => PluginCall(options.plugins[i]))
  {
    var s := new Store.Init(options);
    var err := s.InstallModule([], 0, options, 0, s.modules.nextId);
    if err.Some? {
      return Throw(err.value);
    }
    s.ResetStoreState();
    var i := 0;
    while i < |options.plugins|
      invariant 0 <= i <= |options.plugins|
      invariant s.calls == seq(i, k requires 0 <= k < i => PluginCall(options.plugins[k]))
      invariant s.strict == Truthy(options.strict)
      invariant s.modules.Valid() && Mirrors(s.modules.nodes, 0, options, 0, s.modules.nextId) && s.getterNames == s.wrappedGetters.Keys && s.subscribers == []
      invariant (s.Data(), None) == Install(s.modules.nodes, s.modules.root, [], 0, options, 0, s.modules.nextId,
                                            StoreData(Registries(map[], map[], map[]), options.state, false))
    {
      s.calls := s.calls + [PluginCall(options.plugins[i])];
      i := i + 1;
    }
    r := Ok(s);
  }
}
