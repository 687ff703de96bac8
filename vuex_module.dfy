/**
 * The vuex module tree (vuex-plain/src/vuex/module): a `Module` wraps the
 * raw options of one store module, and a `ModuleCollection` builds the
 * tree of modules from the nested `modules` options.
 *
 * Module objects live in an arena `nodes` owned by the collection; an id
 * stands for an object reference. A `Record<string, T>` is its list of
 * entries in `Object.keys` order.
 */
module VuexModule {
  import opened Wrappers
  import opened JsValues

  /** The entries of a `Record<string, T>`, in `Object.keys` order. */
  type Entries<T> = seq<(string, T)>

  predicate HasKey<T>(es: Entries<T>, key: string)
  {
    exists j :: 0 <= j < |es| && es[j].0 == key
  }

  /** The keys of a JavaScript object are distinct. */
  predicate DistinctKeys<T>(es: Entries<T>)
  {
    forall i, j :: 0 <= i < j < |es| ==> es[i].0 != es[j].0
  }

  /**
   * The options of a store or of one of its modules (`StoreOptions`).
   * Getters, mutations, actions and plugins are functions of user code,
   * given by an id. An absent `getters`, `mutations`, `actions`, `modules`
   * or `plugins` is an empty list: every use of them (`?? {}`, `?? []`,
   * `if (rawModule.modules)`) treats the two alike.
   */
  datatype RawModule = RawModule(
    state: Value,
    getters: Entries<nat>,
    mutations: Entries<nat>,
    actions: Entries<nat>,
    modules: Entries<RawModule>,
    plugins: seq<nat>,
    namespace: Value,
    strict: Value)

  /** The nested `modules` options have distinct keys at every level, as every JavaScript object does. */
  predicate WellKeyed(raw: RawModule)
    decreases raw
  {
    DistinctKeys(raw.modules) && forall j :: 0 <= j < |raw.modules| ==> WellKeyed(raw.modules[j].1)
  }

  /** A `Module`: its raw options, its state, its children by key and its `namespace` flag. */
  datatype Module = Module(raw: RawModule, state: Value, children: Entries<nat>, namespace: bool)

  /** `obj[key]` on a record: the value of the first entry with that key. */
  function Lookup<T(==)>(es: Entries<T>, key: string): (r: Option<T>)
    ensures r.Some? <==> HasKey(es, key)
    ensures r.Some? ==> exists j :: 0 <= j < |es| && es[j] == (key, r.value) && !HasKey(es[..j], key)
    decreases |es|
  {
    if |es| == 0 then None
    else if es[0].0 == key then
      assert es[0] == (key, es[0].1) && es[..0] == [];
      Some(es[0].1)
    else
      var r := Lookup(es[1..], key);
      if r.Some? then
        var j :| 0 <= j < |es[1..]| && es[1..][j] == (key, r.value) && !HasKey(es[1..][..j], key);
        assert es[..j + 1] == [es[0]] + es[1..][..j];
        assert es[j + 1] == (key, r.value);
        r
      else r
  }

  /** An entry with the key that no earlier entry has is what `Lookup` finds. */
  lemma {:induction false} LookupFirst<T>(es: Entries<T>, j: nat)
    requires j < |es| && !HasKey(es[..j], es[j].0)
    ensures Lookup(es, es[j].0) == Some(es[j].1)
  {
    var r := Lookup(es, es[j].0);
    var i :| 0 <= i < |es| && es[i] == (es[j].0, r.value) && !HasKey(es[..i], es[j].0);
  }

  /** `obj[key] = v` on a record: an existing key keeps its place, a new key goes last. */
  function Put<T>(es: Entries<T>, key: string, v: T): (r: Entries<T>)
  {
    if HasKey(es, key) then seq(|es|, j requires 0 <= j < |es| => if es[j].0 == key then (key, v) else es[j])
    else es + [(key, v)]
  }

  /** `Put` keeps every existing key in place, and keys stay distinct. */
  lemma PutKeepsKeys<T>(es: Entries<T>, key: string, v: T)
    requires DistinctKeys(es)
    ensures |Put(es, key, v)| >= |es| && DistinctKeys(Put(es, key, v))
    ensures forall j :: 0 <= j < |es| ==> Put(es, key, v)[j].0 == es[j].0
    ensures forall j :: 0 <= j < |es| && es[j].0 != key ==> Put(es, key, v)[j] == es[j]
  {
  }

  /** After `Put` the key reads back the new value. */
  lemma PutReadsBack<T>(es: Entries<T>, key: string, v: T)
    requires DistinctKeys(es)
    ensures Lookup(Put(es, key, v), key) == Some(v)
  {
    var r := Put(es, key, v);
    PutKeepsKeys(es, key, v);
    var kj :| 0 <= kj < |r| && r[kj].0 == key;
    forall j | 0 <= j < kj
      ensures r[..kj][j].0 != key
    {
      assert r[..kj][j] == r[j];
    }
    LookupFirst(r, kj);
  }

  /** After `Put` every other key reads as before. */
  lemma PutKeepsOthers<T>(es: Entries<T>, key: string, v: T, k: string)
    requires DistinctKeys(es) && k != key
    ensures Lookup(Put(es, key, v), k) == Lookup(es, k)
  {
    var r := Put(es, key, v);
    PutKeepsKeys(es, key, v);
    var a := Lookup(es, k);
    if a.Some? {
      var j :| 0 <= j < |es| && es[j] == (k, a.value) && !HasKey(es[..j], k);
      forall i | 0 <= i < j
        ensures r[..j][i].0 != k
      {
        assert r[..j][i].0 == es[..j][i].0;
      }
      LookupFirst(r, j);
    } else {
      forall i | 0 <= i < |r|
        ensures r[i].0 != k
      {
        if i < |es| {
          assert r[i].0 == es[i].0;
        }
      }
    }
  }

  /** A key not yet present is appended after the existing entries. */
  lemma PutNewKey<T>(es: Entries<T>, key: string, v: T)
    requires !HasKey(es, key)
    ensures Put(es, key, v) == es + [(key, v)]
  {
  }

  /** `new Module(rawModule)` */
  function NewModule(raw: RawModule): (m: Module)
    ensures m.raw == raw && m.state == raw.state && m.namespace == Truthy(raw.namespace)
    ensures forall k :: GetChild(m, k) == None
  {
    Module(raw, raw.state, [], Truthy(raw.namespace))
  }

  /** `getChild(key)`: the child under `key`, or null. */
  function GetChild(m: Module, key: string): Option<nat>
  {
    Lookup(m.children, key)
  }

  /** `addChild(key, module)` */
  function AddChild(m: Module, key: string, child: nat): Module
  {
    m.(children := Put(m.children, key, child))
  }

  /** `getChild` returns the module last added under that key, and `addChild` leaves other keys alone. */
  lemma AddChildThenGetChild(m: Module, key: string, child: nat)
    requires DistinctKeys(m.children)
    ensures GetChild(AddChild(m, key, child), key) == Some(child)
    ensures forall k :: k != key ==> GetChild(AddChild(m, key, child), k) == GetChild(m, k)
  {
    PutKeepsKeys(m.children, key, child);
    PutReadsBack(m.children, key, child);
    forall k | k != key
      ensures GetChild(AddChild(m, key, child), k) == GetChild(m, k)
    {
      PutKeepsOthers(m.children, key, child, k);
    }
  }

  // ----------------------------------------------------------- the arena

  /** Every child id is a live module created after its parent, and child keys are distinct. */
  ghost predicate HeapOK(nodes: map<nat, Module>, nextId: nat)
  {
    (forall id :: id in nodes ==> id < nextId)
    && (forall id :: id in nodes ==> ChildrenOK(nodes, id))
  }

  ghost predicate ChildrenOK(nodes: map<nat, Module>, id: nat)
    requires id in nodes
  {
    DistinctKeys(nodes[id].children)
    && forall j :: 0 <= j < |nodes[id].children| ==> nodes[id].children[j].1 in nodes && nodes[id].children[j].1 > id
  }

  /** `module.getChild(key)` for the module with id `id`. */
  function GetChildAt(nodes: map<nat, Module>, id: nat, key: string): Option<nat>
  {
    if id in nodes then GetChild(nodes[id], key) else None
  }

  /**
   * `keys.reduce((module, key) => module.getChild(key), start)`: a null
   * module before the last key throws a TypeError.
   */
  function Walk(nodes: map<nat, Module>, cur: Option<nat>, keys: seq<string>): Result<Option<nat>>
    decreases |keys|
  {
    if |keys| == 0 then Ok(cur)
    else if cur.None? then Throw("Cannot read properties of null (reading 'getChild')")
    else Walk(nodes, GetChildAt(nodes, cur.value, keys[0]), keys[1..])
  }

  /** Walking one key further is one more `getChild` on the module reached. */
  lemma {:induction false} WalkSnoc(nodes: map<nat, Module>, cur: Option<nat>, keys: seq<string>, k: string)
    ensures Walk(nodes, cur, keys + [k]) ==
      match Walk(nodes, cur, keys)
      case Throw(msg) => Throw(msg)
      case Ok(None) => Throw("Cannot read properties of null (reading 'getChild')")
      case Ok(Some(x)) => Ok(GetChildAt(nodes, x, k))
    decreases |keys|
  {
    if |keys| > 0 && cur.Some? {
      assert (keys + [k])[1..] == keys[1..] + [k];
      WalkSnoc(nodes, GetChildAt(nodes, cur.value, keys[0]), keys[1..], k);
    }
  }

  /** A walk from a live module ends at a live module with an id no smaller, and larger after a step. */
  lemma {:induction false} WalkGrows(nodes: map<nat, Module>, nextId: nat, s: nat, keys: seq<string>, e: nat)
    requires HeapOK(nodes, nextId) && s in nodes && Walk(nodes, Some(s), keys) == Ok(Some(e))
    ensures e in nodes && s <= e && (|keys| > 0 ==> s < e)
    decreases |keys|
  {
    if |keys| > 0 {
      var c := GetChildAt(nodes, s, keys[0]);
      ChildIsLater(nodes, nextId, s, keys[0]);
      WalkGrows(nodes, nextId, c.value, keys[1..], e);
    }
  }

  lemma ChildIsLater(nodes: map<nat, Module>, nextId: nat, s: nat, key: string)
    requires HeapOK(nodes, nextId) && s in nodes
    ensures GetChildAt(nodes, s, key).Some? ==> GetChildAt(nodes, s, key).value in nodes && GetChildAt(nodes, s, key).value > s
  {
    var c := GetChildAt(nodes, s, key);
    if c.Some? {
      assert ChildrenOK(nodes, s);
      var j :| 0 <= j < |nodes[s].children| && nodes[s].children[j] == (key, c.value) && !HasKey(nodes[s].children[..j], key);
    }
  }

  /** A walk that ends at `e` reads only modules below `e`, so it survives any change at `e` or later. */
  lemma {:induction false} WalkFrame(n1: map<nat, Module>, n2: map<nat, Module>, nextId: nat, s: nat, keys: seq<string>, e: nat)
    requires HeapOK(n1, nextId) && s in n1 && Walk(n1, Some(s), keys) == Ok(Some(e))
    requires forall x :: x < e && x in n1 ==> x in n2 && n2[x] == n1[x]
    ensures Walk(n2, Some(s), keys) == Ok(Some(e))
    decreases |keys|
  {
    if |keys| > 0 {
      WalkGrows(n1, nextId, s, keys, e);
      var c := GetChildAt(n1, s, keys[0]);
      assert GetChildAt(n2, s, keys[0]) == c;
      ChildIsLater(n1, nextId, s, keys[0]);
      WalkFrame(n1, n2, nextId, c.value, keys[1..], e);
    }
  }

  // ------------------------------------------------------ the mirror

  /**
   * The module `id` was built from `raw`, and its children, in key order,
   * from the nested options; every module of the subtree has an id in
   * `[lo, hi)`.
   */
  ghost predicate Mirrors(nodes: map<nat, Module>, id: nat, raw: RawModule, lo: nat, hi: nat)
    decreases raw
  {
    lo <= id < hi && id in nodes && nodes[id] == NewModule(raw).(children := nodes[id].children)
    && |nodes[id].children| == |raw.modules|
    && forall j :: 0 <= j < |raw.modules| ==>
         nodes[id].children[j].0 == raw.modules[j].0 && Mirrors(nodes, nodes[id].children[j].1, raw.modules[j].1, lo, hi)
  }

  /** A subtree whose modules are untouched still mirrors its options. */
  lemma {:induction false} MirrorsFrame(n1: map<nat, Module>, n2: map<nat, Module>, id: nat, raw: RawModule, lo: nat, hi: nat)
    requires Mirrors(n1, id, raw, lo, hi)
    requires forall x :: lo <= x < hi && x in n1 ==> x in n2 && n2[x] == n1[x]
    ensures Mirrors(n2, id, raw, lo, hi)
    decreases raw
  {
    forall j | 0 <= j < |raw.modules|
      ensures Mirrors(n2, n2[id].children[j].1, raw.modules[j].1, lo, hi)
    {
      MirrorsFrame(n1, n2, n1[id].children[j].1, raw.modules[j].1, lo, hi);
    }
  }

  /** A wider id range still bounds the subtree. */
  lemma {:induction false} MirrorsWiden(nodes: map<nat, Module>, id: nat, raw: RawModule, lo: nat, hi: nat, lo2: nat, hi2: nat)
    requires Mirrors(nodes, id, raw, lo, hi) && lo2 <= lo && hi <= hi2
    ensures Mirrors(nodes, id, raw, lo2, hi2)
    decreases raw
  {
    forall j | 0 <= j < |raw.modules|
      ensures Mirrors(nodes, nodes[id].children[j].1, raw.modules[j].1, lo2, hi2)
    {
      MirrorsWiden(nodes, nodes[id].children[j].1, raw.modules[j].1, lo, hi, lo2, hi2);
    }
  }

  /** The module under which `register` adds a module at a non-empty `path`, or the error that stops it. */
  function ParentOf(nodes: map<nat, Module>, root: Option<nat>, path: seq<string>): Result<nat>
    requires |path| > 0
  {
    match Walk(nodes, root, path[..|path| - 1])
    case Throw(msg) => Throw(msg)
    case Ok(None) => Throw("Cannot read properties of null (reading 'addChild')")
    case Ok(Some(p)) => Ok(p)
  }

  /** The modules `register` leaves as they were: all but the parent it adds to. */
  ghost predicate Untouched(old0: map<nat, Module>, root: Option<nat>, path: seq<string>, nodes: map<nat, Module>)
  {
    forall x :: x in old0 && (|path| == 0 || ParentOf(old0, root, path) != Ok(x)) ==> x in nodes && nodes[x] == old0[x]
  }

  /** No module disappears, and the new ones have ids in `[next0, next)`. */
  ghost predicate Grown(n0: map<nat, Module>, next0: nat, nodes: map<nat, Module>, next: nat)
  {
    next0 <= next
    && (forall x :: x in n0 ==> x in nodes)
    && (forall x :: x in nodes && x !in n0 ==> next0 <= x < next)
  }

  /** Every module but `id` is as it was. */
  ghost predicate StableBut(n0: map<nat, Module>, nodes: map<nat, Module>, id: nat)
  {
    forall x :: x in n0 && x != id ==> x in nodes && nodes[x] == n0[x]
  }

  /** The module `id` mirrors `raw`, its subtree lies in `[id, hi)`, and `path` leads to it from the root. */
  ghost predicate Built(nodes: map<nat, Module>, root: Option<nat>, path: seq<string>, raw: RawModule, id: nat, hi: nat)
  {
    Mirrors(nodes, id, raw, id, hi) && Walk(nodes, root, path) == Ok(Some(id))
  }

  /**
   * What `register(raw, path)` does, from the tree `n0` with root `root0`
   * and next id `next0` to the tree `nodes` with root `root` and next id
   * `next`, returning `r`.
   */
  ghost predicate Registered(n0: map<nat, Module>, root0: Option<nat>, next0: nat, path: seq<string>, raw: RawModule,
                             nodes: map<nat, Module>, root: Option<nat>, next: nat, r: Result<nat>)
  {
    Grown(n0, next0, nodes, next) && Untouched(n0, root0, path, nodes)
    && root == (if |path| == 0 then Some(next0) else root0)
    && if |path| > 0 && ParentOf(n0, root0, path).Throw? then
         r == Throw(ParentOf(n0, root0, path).msg) && nodes == n0 && next == next0
       else
         r == Ok(next0) && Built(nodes, root, path, raw, next0, next)
         && (|path| > 0 ==>
               var p := ParentOf(n0, root0, path).value;
               p in n0 && p in nodes && nodes[p] == AddChild(n0[p], path[|path| - 1], next0))
  }

  /** The `j`-th nested option is registered under `id`, at a key of the options, in `[id + 1, hi)`. */
  ghost predicate ChildDone(nodes: map<nat, Module>, raw: RawModule, id: nat, j: nat, hi: nat)
    requires id in nodes && j < |raw.modules| && j < |nodes[id].children|
  {
    nodes[id].children[j].0 == raw.modules[j].0 && Mirrors(nodes, nodes[id].children[j].1, raw.modules[j].1, id + 1, hi)
  }

  /** The module `id` was created from `raw`, and its first `i` nested options are registered. */
  ghost predicate ChildrenSoFar(nodes: map<nat, Module>, raw: RawModule, id: nat, i: nat, hi: nat)
  {
    id in nodes && nodes[id] == NewModule(raw).(children := nodes[id].children)
    && |nodes[id].children| == i && i <= |raw.modules|
    && forall j :: 0 <= j < i ==> ChildDone(nodes, raw, id, j, hi)
  }

  /** Adding a fresh module under a live parent keeps the arena well formed. */
  lemma LinkKeepsHeapOK(n: map<nat, Module>, next: nat, p: nat, key: string, m: Module)
    requires HeapOK(n, next) && p in n && m.children == []
    ensures HeapOK(n[next := m][p := AddChild(n[p], key, next)], next + 1)
  {
    var n2 := n[next := m][p := AddChild(n[p], key, next)];
    forall x | x in n2
      ensures ChildrenOK(n2, x)
    {
      if x != p && x != next {
        assert ChildrenOK(n, x);
      } else if x == p {
        assert ChildrenOK(n, p);
        PutKeepsKeys(n[p].children, key, next);
        assert forall j :: 0 <= j < |n2[p].children| ==> n2[p].children[j].1 in n2 && n2[p].children[j].1 > p by {
          forall j | 0 <= j < |n2[p].children|
            ensures n2[p].children[j].1 in n2 && n2[p].children[j].1 > p
          {
            if j < |n[p].children| && n[p].children[j].0 != key {
              assert n2[p].children[j] == n[p].children[j];
            }
          }
        }
      }
    }
  }

  /** After the link, the path leads from the root to the new module. */
  lemma LinkWalk(n: map<nat, Module>, next: nat, root: Option<nat>, path: seq<string>, p: nat, m: Module)
    requires HeapOK(n, next) && root.Some? && root.value in n && |path| > 0 && ParentOf(n, root, path) == Ok(p)
    ensures p in n && Walk(n[next := m][p := AddChild(n[p], path[|path| - 1], next)], root, path) == Ok(Some(next))
  {
    var key := path[|path| - 1];
    var prefix := path[..|path| - 1];
    WalkGrows(n, next, root.value, prefix, p);
    var n2 := n[next := m][p := AddChild(n[p], key, next)];
    assert ChildrenOK(n, p);
    AddChildThenGetChild(n[p], key, next);
    WalkFrame(n, n2, next, root.value, prefix, p);
    WalkSnoc(n2, root, prefix, key);
    assert prefix + [key] == path;
  }

  /** `ModuleCollection`: the module tree and its root. */
  class ModuleCollection {
    var nodes: map<nat, Module>
    var nextId: nat
    var root: Option<nat>

    ghost predicate Valid()
      reads this
    {
      HeapOK(nodes, nextId) && (root.Some? ==> root.value in nodes)
    }

    /** `new ModuleCollection(rootModule)`: registers the root options at the empty path. */
    constructor(rootModule: RawModule)
      requires WellKeyed(rootModule)
      ensures Valid() && root == Some(0) && Mirrors(nodes, 0, rootModule, 0, nextId)
    {
      nodes := map[];
      nextId := 0;
      root := None;
      new;
      var r := Register(rootModule, []);
    }

    /**
     * `register(rawModule, path)`: creates the module, makes it the root
     * (empty path) or adds it under the last key of `path` to the module the
     * other keys lead to, then registers each nested option at `path + [key]`,
     * and returns the new module. A path whose parent cannot be reached
     * throws before the tree changes.
     */
    method Register(raw: RawModule, path: seq<string>) returns (r: Result<nat>)
      requires Valid() && WellKeyed(raw)
      modifies this
      decreases raw, 2
      ensures Valid() && Registered(old(nodes), old(root), old(nextId), path, raw, nodes, root, nextId, r)
    {
      var id := nextId;
      var m := NewModule(raw);
      ghost var n0, root0 := nodes, root;
      if |path| == 0 {
        nodes := nodes[id := m];
        nextId := nextId + 1;
        root := Some(id);
      } else {
        var parent := ParentOf(nodes, root, path);
        if parent.Throw? {
          return Throw(parent.msg);
        }
        AddChildAt(m, path, parent.value);
      }
      ghost var n1 := nodes;
      r := Ok(id);
      ChildrenOfNew(raw, path, id);
      if |path| == 0 {
        RegisteredRoot(n0, root0, id, raw, n1, nodes, root, nextId);
      } else {
        RegisteredUnder(n0, root0, id, path, raw, n1, nodes, root, nextId);
      }
    }

    /** Allocates the module `m` and `parent.addChild(path.at(-1), m)`. */
    method AddChildAt(m: Module, path: seq<string>, p: nat)
      requires Valid() && |path| > 0 && ParentOf(nodes, root, path) == Ok(p) && m.children == []
      modifies this
      ensures Valid() && nextId == old(nextId) + 1 && root == old(root)
      ensures p in old(nodes) && nodes == old(nodes)[old(nextId) := m][p := AddChild(old(nodes)[p], path[|path| - 1], old(nextId))]
      ensures Walk(nodes, root, path) == Ok(Some(old(nextId)))
    {
      LinkWalk(nodes, nextId, root, path, p, m);
      LinkKeepsHeapOK(nodes, nextId, p, path[|path| - 1], m);
      nodes := nodes[nextId := m][p := AddChild(nodes[p], path[|path| - 1], nextId)];
      nextId := nextId + 1;
    }

    /** Registers the nested options of the new module `id`, one key after the other. */
    method ChildrenOfNew(raw: RawModule, path: seq<string>, id: nat)
      requires Valid() && WellKeyed(raw) && id in nodes && id + 1 == nextId
      requires nodes[id] == NewModule(raw) && Walk(nodes, root, path) == Ok(Some(id))
      modifies this
      decreases raw, 1
      ensures Valid() && Grown(old(nodes), old(nextId), nodes, nextId) && root == old(root)
      ensures StableBut(old(nodes), nodes, id)
      ensures Built(nodes, root, path, raw, id, nextId)
    {
      var i := 0;
      while i < |raw.modules|
        invariant Valid() && root == old(root) && i <= |raw.modules|
        invariant Grown(old(nodes), old(nextId), nodes, nextId) && StableBut(old(nodes), nodes, id)
        invariant Walk(nodes, root, path) == Ok(Some(id)) && ChildrenSoFar(nodes, raw, id, i, nextId)
      {
        RegisterChild(raw, path, id, i);
        i := i + 1;
      }
      MirrorsOfNew(nodes, nextId, raw, id);
    }

    /** One step of `forEachValue(rawModule.modules, ...)`: registers the `i`-th nested option under the module `id`. */
    method RegisterChild(raw: RawModule, path: seq<string>, id: nat, i: nat)
      requires i < |raw.modules| && WellKeyed(raw)
      requires Valid() && nextId > id && Walk(nodes, root, path) == Ok(Some(id)) && ChildrenSoFar(nodes, raw, id, i, nextId)
      modifies this
      decreases raw, 0
      ensures Valid() && root == old(root) && Grown(old(nodes), old(nextId), nodes, nextId) && StableBut(old(nodes), nodes, id)
      ensures Walk(nodes, root, path) == Ok(Some(id)) && ChildrenSoFar(nodes, raw, id, i + 1, nextId)
    {
      var key := raw.modules[i].0;
      var childPath := path + [key];
      assert childPath[..|childPath| - 1] == path;
      assert !HasKey(nodes[id].children, key) by {
        forall j | 0 <= j < |nodes[id].children|
          ensures nodes[id].children[j].0 != key
        {
          assert ChildDone(nodes, raw, id, j, nextId);
        }
      }
      ghost var n0 := nodes;
      ghost var next0 := nextId;
      var c := Register(raw.modules[i].1, childPath);
      ChildAppended(n0, next0, raw, path, id, i, nodes, root, nextId);
    }
  }

  /** Once all nested options are registered, the new module mirrors its options. */
  lemma MirrorsOfNew(nodes: map<nat, Module>, next: nat, raw: RawModule, id: nat)
    requires HeapOK(nodes, next) && ChildrenSoFar(nodes, raw, id, |raw.modules|, next)
    ensures Mirrors(nodes, id, raw, id, next)
  {
    forall j | 0 <= j < |raw.modules|
      ensures nodes[id].children[j].0 == raw.modules[j].0 && Mirrors(nodes, nodes[id].children[j].1, raw.modules[j].1, id, next)
    {
      assert ChildDone(nodes, raw, id, j, next);
      MirrorsWiden(nodes, nodes[id].children[j].1, raw.modules[j].1, id + 1, next, id, next);
    }
  }

  /** `register(raw, [])` as the three steps: allocate, make root, register the nested options. */
  lemma RegisteredRoot(n0: map<nat, Module>, root0: Option<nat>, next0: nat, raw: RawModule,
                       n1: map<nat, Module>, nodes: map<nat, Module>, root: Option<nat>, next: nat)
    requires HeapOK(n0, next0) && n1 == n0[next0 := NewModule(raw)]
    requires Grown(n1, next0 + 1, nodes, next) && StableBut(n1, nodes, next0)
    requires root == Some(next0) && Built(nodes, root, [], raw, next0, next)
    ensures Registered(n0, root0, next0, [], raw, nodes, root, next, Ok(next0))
  {
  }

  /** `register(raw, path)` for a non-empty path: allocate and link under the parent, then register the nested options. */
  lemma RegisteredUnder(n0: map<nat, Module>, root0: Option<nat>, next0: nat, path: seq<string>, raw: RawModule,
                        n1: map<nat, Module>, nodes: map<nat, Module>, root: Option<nat>, next: nat)
    requires |path| > 0 && HeapOK(n0, next0) && ParentOf(n0, root0, path).Ok?
    requires var p := ParentOf(n0, root0, path).value;
      p in n0 && n1 == n0[next0 := NewModule(raw)][p := AddChild(n0[p], path[|path| - 1], next0)]
    requires Grown(n1, next0 + 1, nodes, next) && StableBut(n1, nodes, next0)
    requires root == root0 && Built(nodes, root, path, raw, next0, next)
    ensures Registered(n0, root0, next0, path, raw, nodes, root, next, Ok(next0))
  {
    var p := ParentOf(n0, root0, path).value;
    assert p != next0;
  }

  /** Registering the `i`-th nested option appends one child to `id` and changes no other module of the tree before. */
  lemma ChildAppendedShape(n0: map<nat, Module>, next0: nat, raw: RawModule, path: seq<string>, id: nat, i: nat,
                           nodes: map<nat, Module>, root: Option<nat>, next: nat)
    requires i < |raw.modules| && HeapOK(n0, next0) && next0 > id && id in n0
    requires Walk(n0, root, path) == Ok(Some(id))
    requires !HasKey(n0[id].children, raw.modules[i].0)
    requires Registered(n0, root, next0, path + [raw.modules[i].0], raw.modules[i].1, nodes, root, next, Ok(next0))
    requires (path + [raw.modules[i].0])[..|path|] == path
    ensures Grown(n0, next0, nodes, next) && StableBut(n0, nodes, id)
    ensures id in nodes && nodes[id] == n0[id].(children := n0[id].children + [(raw.modules[i].0, next0)])
    ensures Mirrors(nodes, next0, raw.modules[i].1, next0, next)
  {
    var key := raw.modules[i].0;
    assert ParentOf(n0, root, path + [key]) == Ok(id);
    PutNewKey(n0[id].children, key, next0);
  }

  /** The children registered before the `i`-th still mirror their options. */
  lemma ChildAppendedOlder(n0: map<nat, Module>, next0: nat, raw: RawModule, id: nat, i: nat, nodes: map<nat, Module>, next: nat)
    requires ChildrenSoFar(n0, raw, id, i, next0) && i < |raw.modules| && id < next0 <= next
    requires id in nodes && nodes[id] == n0[id].(children := n0[id].children + [(raw.modules[i].0, next0)])
    requires forall x :: id < x < next0 && x in n0 ==> x in nodes && nodes[x] == n0[x]
    requires Mirrors(nodes, next0, raw.modules[i].1, next0, next)
    ensures ChildrenSoFar(nodes, raw, id, i + 1, next)
  {
    forall j | 0 <= j < i
      ensures ChildDone(nodes, raw, id, j, next)
    {
      assert ChildDone(n0, raw, id, j, next0);
      MirrorsFrame(n0, nodes, n0[id].children[j].1, raw.modules[j].1, id + 1, next0);
      MirrorsWiden(nodes, n0[id].children[j].1, raw.modules[j].1, id + 1, next0, id + 1, next);
    }
    MirrorsWiden(nodes, next0, raw.modules[i].1, next0, next, id + 1, next);
    assert ChildDone(nodes, raw, id, i, next);
  }

  /** After registering the `i`-th nested option, the children registered before still mirror theirs. */
  lemma ChildAppended(n0: map<nat, Module>, next0: nat, raw: RawModule, path: seq<string>, id: nat, i: nat,
                      nodes: map<nat, Module>, root: Option<nat>, next: nat)
    requires i < |raw.modules| && HeapOK(n0, next0) && next0 > id && root.Some? && root.value in n0
    requires Walk(n0, root, path) == Ok(Some(id)) && ChildrenSoFar(n0, raw, id, i, next0)
    requires !HasKey(n0[id].children, raw.modules[i].0)
    requires Registered(n0, root, next0, path + [raw.modules[i].0], raw.modules[i].1, nodes, root, next, Ok(next0))
    requires (path + [raw.modules[i].0])[..|path|] == path
    ensures Grown(n0, next0, nodes, next) && StableBut(n0, nodes, id)
    ensures Walk(nodes, root, path) == Ok(Some(id)) && ChildrenSoFar(nodes, raw, id, i + 1, next)
  {
    ChildAppendedShape(n0, next0, raw, path, id, i, nodes, root, next);
    ChildAppendedOlder(n0, next0, raw, id, i, nodes, next);
    WalkGrows(n0, next0, root.value, path, id);
    WalkFrame(n0, nodes, next0, root.value, path, id);
  }

  // ------------------------------------------------------ namespaces

  /** The part of the namespace a module contributes: `key + "/"` when namespaced, else nothing. */
  function Segment(nodes: map<nat, Module>, c: nat, key: string): string
  {
    if c in nodes && nodes[c].namespace then key + "/" else ""
  }

  /**
   * `getNamespaced(path)`: walks from `cur` key by key, concatenating each
   * reached module's segment; a missing module throws a TypeError.
   */
  function NamespaceFrom(nodes: map<nat, Module>, cur: Option<nat>, keys: seq<string>): Result<string>
    decreases |keys|
  {
    if |keys| == 0 then Ok("")
    else if cur.None? then Throw("Cannot read properties of null (reading 'getChild')")
    else
      var c := GetChildAt(nodes, cur.value, keys[0]);
      if c.None? then Throw("Cannot read properties of null (reading 'namespace')")
      else
        var rest := NamespaceFrom(nodes, c, keys[1..]);
        if rest.Throw? then rest else Ok(Segment(nodes, c.value, keys[0]) + rest.value)
  }

  /** `getNamespaced` succeeds exactly when every key of the path leads to a module. */
  lemma {:induction false} NamespaceDefinedIff(nodes: map<nat, Module>, cur: Option<nat>, keys: seq<string>)
    requires |keys| > 0
    ensures NamespaceFrom(nodes, cur, keys).Ok? <==> Walk(nodes, cur, keys).Ok? && Walk(nodes, cur, keys).value.Some?
    decreases |keys|
  {
    if cur.Some? && |keys| > 1 {
      NamespaceDefinedIff(nodes, GetChildAt(nodes, cur.value, keys[0]), keys[1..]);
    }
  }

  /** One more key appends the reached child's segment to the namespace. */
  lemma {:induction false} NamespaceSnoc(nodes: map<nat, Module>, cur: Option<nat>, keys: seq<string>, k: string, x: nat, c: nat)
    requires Walk(nodes, cur, keys) == Ok(Some(x)) && GetChildAt(nodes, x, k) == Some(c)
    ensures NamespaceFrom(nodes, cur, keys).Ok?
    ensures NamespaceFrom(nodes, cur, keys + [k]).Ok?
    ensures NamespaceFrom(nodes, cur, keys + [k]).value == NamespaceFrom(nodes, cur, keys).value + Segment(nodes, c, k)
    decreases |keys|
  {
    if |keys| == 0 {
      assert [k][1..] == [];
      assert Segment(nodes, c, k) + "" == Segment(nodes, c, k);
    } else {
      assert (keys + [k])[1..] == keys[1..] + [k];
      NamespaceSnoc(nodes, GetChildAt(nodes, cur.value, keys[0]), keys[1..], k, x, c);
    }
  }

  /** A namespaced `a` holding a plain `c`: `getNamespaced(["a", "c"])` is "a/". */
  lemma NamespaceExample(s: Value)
    ensures
      var c := Module(RawModule(s, [], [], [], [], [], Undefined, Undefined), s, [], false);
      var a := Module(RawModule(s, [], [], [], [], [], Bool(true), Undefined), s, [("c", 2)], true);
      var root := Module(RawModule(s, [], [], [], [], [], Undefined, Undefined), s, [("a", 1)], false);
      NamespaceFrom(map[0 := root, 1 := a, 2 := c], Some(0), ["a", "c"]).Ok?
      && NamespaceFrom(map[0 := root, 1 := a, 2 := c], Some(0), ["a", "c"]).value == "a/"
  {
    var c := Module(RawModule(s, [], [], [], [], [], Undefined, Undefined), s, [], false);
    var a := Module(RawModule(s, [], [], [], [], [], Bool(true), Undefined), s, [("c", 2)], true);
    var root := Module(RawModule(s, [], [], [], [], [], Undefined, Undefined), s, [("a", 1)], false);
    var nodes := map[0 := root, 1 := a, 2 := c];
    assert GetChildAt(nodes, 0, "a") == Some(1);
    assert GetChildAt(nodes, 1, "c") == Some(2);
    assert ["a", "c"][1..] == ["c"] && ["c"][1..] == [];
    assert NamespaceFrom(nodes, Some(1), ["c"]).value == "" + "";
  }
}
