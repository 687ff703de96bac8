/**
 * The noop host: an in-memory tree of instances and text instances kept
 * in arrays. Instance and text-instance ids come from one shared counter;
 * containers are identified by their root id.
 */
module NoopHost {
  import opened Wrappers
  import opened JsValues
  import opened Fiber

  /** A host node. `parent` is -1 while unattached (it can also become undefined, see `AppendChildToContainer`). */
  datatype HostNode =
    | Instance(itype: Value, props: Value, children: seq<nat>, parent: Value)
    | TextInstance(text: Value, parent: Value)

  /** Something that has `children`: a container (by root id) or an instance (by id). */
  datatype HostParent = ContainerRef(rootId: nat) | InstanceRef(id: nat)

  /** `Array.prototype.indexOf`: the first index holding `x`, or -1. */
  function IndexOf(s: seq<nat>, x: nat): (i: int)
    ensures -1 <= i < |s|
    ensures i == -1 <==> x !in s
    ensures i >= 0 ==> s[i] == x && x !in s[..i]
  {
    if |s| == 0 then -1
    else if s[0] == x then 0
    else
      var j := IndexOf(s[1..], x);
      assert j >= 0 ==> s[1..][..j] == s[1..j + 1];
      if j == -1 then -1 else j + 1
  }

  /** `s.splice(i, 1)` */
  function RemoveAt(s: seq<nat>, i: nat): (r: seq<nat>)
    requires i < |s|
    ensures |r| == |s| - 1
    ensures multiset(r) == multiset(s) - multiset{s[i]}
  {
    assert s == s[..i] + [s[i]] + s[i + 1..];
    s[..i] + s[i + 1..]
  }

  /** `s.splice(i, 0, x)` */
  function InsertAt(s: seq<nat>, i: nat, x: nat): (r: seq<nat>)
    requires i <= |s|
    ensures |r| == |s| + 1 && r[i] == x
    ensures multiset(r) == multiset(s) + multiset{x}
  {
    assert s == s[..i] + s[i..];
    s[..i] + [x] + s[i..]
  }

  /** The outcome of a host call that may throw. */
  datatype Outcome = Done | Thrown(msg: string)

  class NoopHostState {
    var nodes: map<nat, HostNode>
    var containers: map<nat, seq<nat>>
    var instanceCount: nat

    /** The host as the rendered tree shows it. */
    function View(): HostView
      reads this
    {
      ViewOf(nodes, containers)
    }

    ghost predicate Valid()
      reads this
    {
      forall id :: id in nodes ==> id < instanceCount
    }

    constructor()
      ensures Valid() && nodes == map[] && containers == map[] && instanceCount == 0
    {
      nodes := map[];
      containers := map[];
      instanceCount := 0;
    }

    predicate HasParent(p: HostParent)
      reads this
    {
      match p
      case ContainerRef(r) => r in containers
      case InstanceRef(id) => id in nodes && nodes[id].Instance?
    }

    function ChildrenOf(p: HostParent): seq<nat>
      requires HasParent(p)
      reads this
    {
      match p
      case ContainerRef(r) => containers[r]
      case InstanceRef(id) => nodes[id].children
    }

    method SetChildren(p: HostParent, children: seq<nat>)
      requires HasParent(p)
      modifies this`nodes, this`containers
      ensures HasParent(p) && ChildrenOf(p) == children
      ensures p.ContainerRef? ==> nodes == old(nodes) && containers == old(containers)[p.rootId := children]
      ensures p.InstanceRef? ==> containers == old(containers) && nodes == old(nodes)[p.id := old(nodes)[p.id].(children := children)]
    {
      match p
      case ContainerRef(r) => containers := containers[r := children];
      case InstanceRef(id) => nodes := nodes[id := nodes[id].(children := children)];
    }

    /** `createInstance(type, props)`: the next id, no children, parent -1. */
    method CreateInstance(itype: Value, props: Value) returns (id: nat)
      requires Valid()
      modifies this`nodes, this`instanceCount
      ensures Valid()
      ensures id == old(instanceCount) && instanceCount == id + 1 && id !in old(nodes)
      ensures nodes == old(nodes)[id := Instance(itype, props, [], Num(-1))]
    {
      id := instanceCount;
      instanceCount := instanceCount + 1;
      nodes := nodes[id := Instance(itype, props, [], Num(-1))];
    }

    /** `createTextInstance(content)`: the next id from the same counter, parent -1. */
    method CreateTextInstance(content: Value) returns (id: nat)
      requires Valid()
      modifies this`nodes, this`instanceCount
      ensures Valid()
      ensures id == old(instanceCount) && instanceCount == id + 1 && id !in old(nodes)
      ensures nodes == old(nodes)[id := TextInstance(content, Num(-1))]
    {
      id := instanceCount;
      instanceCount := instanceCount + 1;
      nodes := nodes[id := TextInstance(content, Num(-1))];
    }

    /** Attaches `child` under `parentId` and pushes it at the end, unless it already has another parent. */
    method AttachAndPush(p: HostParent, child: nat, parentId: Value) returns (outcome: Outcome)
      requires HasParent(p) && child in nodes
      requires p.InstanceRef? ==> p.id != child
      modifies this`nodes, this`containers
      ensures var prev := old(nodes)[child].parent;
        outcome.Thrown? <==> prev != Num(-1) && prev != parentId
      ensures outcome.Thrown? ==> nodes == old(nodes) && containers == old(containers)
      ensures outcome.Done? ==> child in nodes && nodes[child] == old(nodes)[child].(parent := parentId)
      ensures outcome.Done? ==> HasParent(p) && ChildrenOf(p) == old(ChildrenOf(p)) + [child]
      ensures outcome.Done? ==> forall id :: id in old(nodes) && id != child && !(p.InstanceRef? && id == p.id) ==>
        id in nodes && nodes[id] == old(nodes)[id]
      ensures outcome.Done? && p.InstanceRef? ==> containers == old(containers)
      ensures outcome.Done? && p.ContainerRef? ==> forall r :: r in old(containers) && r != p.rootId ==>
        r in containers && containers[r] == old(containers)[r]
      ensures nodes.Keys == old(nodes).Keys && containers.Keys == old(containers).Keys
      ensures outcome.Done? && p.InstanceRef? ==> nodes[p.id].Instance? && nodes[p.id] == old(nodes)[p.id].(children := nodes[p.id].children)
      ensures ContainersOnly(old(containers), containers, p)
    {
      var prev := nodes[child].parent;
      if prev != Num(-1) && prev != parentId {
        return Thrown("不能重复挂载 child");
      }
      nodes := nodes[child := nodes[child].(parent := parentId)];
      var children := ChildrenOf(p);
      SetChildren(p, children + [child]);
      outcome := Done;
    }

    /** `appendInitialChild(parent, child)`: the parent id is the container's root id or the instance's id. */
    method AppendInitialChild(p: HostParent, child: nat) returns (outcome: Outcome)
      requires HasParent(p) && child in nodes
      requires p.InstanceRef? ==> p.id != child
      modifies this`nodes, this`containers
      ensures var prev := old(nodes)[child].parent;
        outcome.Thrown? <==> prev != Num(-1) && prev != Num(if p.ContainerRef? then p.rootId else p.id)
      ensures outcome.Done? ==> HasParent(p) && ChildrenOf(p) == old(ChildrenOf(p)) + [child]
      ensures outcome.Done? ==> child in nodes && nodes[child].parent == Num(if p.ContainerRef? then p.rootId else p.id)
      ensures outcome.Done? ==> forall id :: id in old(nodes) && id != child && !(p.InstanceRef? && id == p.id) ==>
        id in nodes && nodes[id] == old(nodes)[id]
      ensures outcome.Thrown? ==> nodes == old(nodes) && containers == old(containers)
      ensures nodes.Keys == old(nodes).Keys && containers.Keys == old(containers).Keys
      ensures outcome.Done? && p.InstanceRef? ==> nodes[p.id].Instance? && nodes[p.id] == old(nodes)[p.id].(children := nodes[p.id].children)
      ensures ContainersOnly(old(containers), containers, p)
    {
      outcome := AttachAndPush(p, child, Num(if p.ContainerRef? then p.rootId else p.id));
    }

    /**
     * `appendChildToContainer(parent, child)`: the parent id is read as
     * `parent.rootId`, which an instance does not have, so under an
     * instance the child's parent becomes undefined.
     */
    method AppendChildToContainer(p: HostParent, child: nat) returns (outcome: Outcome)
      requires HasParent(p) && child in nodes
      requires p.InstanceRef? ==> p.id != child
      modifies this`nodes, this`containers
      ensures var prev := old(nodes)[child].parent;
        outcome.Thrown? <==> prev != Num(-1) && prev != (if p.ContainerRef? then Num(p.rootId) else Undefined)
      ensures outcome.Done? ==> HasParent(p) && ChildrenOf(p) == old(ChildrenOf(p)) + [child]
      ensures outcome.Done? ==> child in nodes && nodes[child] == old(nodes)[child].(parent := if p.ContainerRef? then Num(p.rootId) else Undefined)
      ensures outcome.Done? ==> forall id :: id in old(nodes) && id != child && !(p.InstanceRef? && id == p.id) ==>
        id in nodes && nodes[id] == old(nodes)[id]
      ensures outcome.Thrown? ==> nodes == old(nodes) && containers == old(containers)
      ensures nodes.Keys == old(nodes).Keys && containers.Keys == old(containers).Keys
      ensures outcome.Done? && p.InstanceRef? ==> nodes[p.id].Instance? && nodes[p.id] == old(nodes)[p.id].(children := nodes[p.id].children)
      ensures ContainersOnly(old(containers), containers, p)
    {
      outcome := AttachAndPush(p, child, if p.ContainerRef? then Num(p.rootId) else Undefined);
    }

    /** `commitTextUpdate(textInstance, content)` */
    method CommitTextUpdate(textInstance: nat, content: Value)
      requires textInstance in nodes && nodes[textInstance].TextInstance?
      modifies this`nodes
      ensures nodes == old(nodes)[textInstance := old(nodes)[textInstance].(text := content)]
    {
      nodes := nodes[textInstance := nodes[textInstance].(text := content)];
    }

    /** `commitUpdate(fiber)`: a HostText fiber's text becomes `memoizedProps?.textContent ?? ""`. */
    method CommitUpdate(tag: WorkTag, memoizedProps: Value, stateNode: StateNode)
      requires tag == HostText ==> stateNode.HostInstance? && stateNode.id in nodes && nodes[stateNode.id].TextInstance?
      modifies this`nodes
      ensures tag == HostText ==> nodes == old(nodes)[stateNode.id := old(nodes)[stateNode.id].(text := TextUpdate(memoizedProps))]
      ensures tag != HostText ==> nodes == old(nodes)
      ensures View() == (if tag == HostText then TextView(old(View()), stateNode.id, TextUpdate(memoizedProps)) else old(View()))
    {
      if tag == HostText {
        TextViewOf(nodes, containers, stateNode.id, TextUpdate(memoizedProps));
        CommitTextUpdate(stateNode.id, TextUpdate(memoizedProps));
      }
    }

    /** `removeChild(child, container)`: removes the first occurrence; throws if there is none. */
    method RemoveChild(child: nat, p: HostParent) returns (outcome: Outcome)
      requires HasParent(p)
      modifies this`nodes, this`containers
      ensures outcome.Thrown? <==> child !in old(ChildrenOf(p))
      ensures outcome.Thrown? ==> nodes == old(nodes) && containers == old(containers)
      ensures outcome.Done? ==> HasParent(p) && ChildrenOf(p) == RemoveAt(old(ChildrenOf(p)), IndexOf(old(ChildrenOf(p)), child))
      ensures containers.Keys == old(containers).Keys && ContainersOnly(old(containers), containers, p)
      ensures p.ContainerRef? ==> nodes == old(nodes)
      ensures p.InstanceRef? ==> containers == old(containers)
      ensures ChildrenOnly(old(nodes), nodes, p)
    {
      var children := ChildrenOf(p);
      var index := IndexOf(children, child);
      if index == -1 {
        return Thrown("child 不存在");
      }
      SetChildren(p, RemoveAt(children, index));
      outcome := Done;
    }

    /**
     * `insertChildToContainer(child, container, before)`: throws if `before`
     * is absent; otherwise removes the child's first occurrence and then
     * inserts it at `before`'s index taken before that removal.
     */
    method InsertChildToContainer(child: nat, p: HostParent, before: nat) returns (outcome: Outcome)
      requires HasParent(p)
      modifies this`nodes, this`containers
      ensures outcome.Thrown? <==> before !in old(ChildrenOf(p))
      ensures outcome.Thrown? ==> nodes == old(nodes) && containers == old(containers)
      ensures outcome.Done? ==> HasParent(p) && ChildrenOf(p) == InsertResult(old(ChildrenOf(p)), child, before)
      ensures containers.Keys == old(containers).Keys && ContainersOnly(old(containers), containers, p)
      ensures p.ContainerRef? ==> nodes == old(nodes)
      ensures p.InstanceRef? ==> containers == old(containers)
      ensures ChildrenOnly(old(nodes), nodes, p)
    {
      var children := ChildrenOf(p);
      if IndexOf(children, before) == -1 {
        return Thrown("before 不存在");
      }
      SetChildren(p, InsertResult(children, child, before));
      outcome := Done;
    }
  }

  /** Only the children of the instance `p` (if `p` is one) differ between `n0` and `n1`. */
  ghost predicate ChildrenOnly(n0: map<nat, HostNode>, n1: map<nat, HostNode>, p: HostParent)
  {
    && n1.Keys == n0.Keys
    && (forall id :: id in n0 && !(p.InstanceRef? && id == p.id) ==> n1[id] == n0[id])
    && (p.InstanceRef? && p.id in n0 && n0[p.id].Instance? ==> n1[p.id].Instance? && n1[p.id] == n0[p.id].(children := n1[p.id].children))
  }

  /** `p` is a container of `containers` or an instance of `nodes`. */
  predicate ParentIn(nodes: map<nat, HostNode>, containers: map<nat, seq<nat>>, p: HostParent)
  {
    match p
    case ContainerRef(r) => r in containers
    case InstanceRef(id) => id in nodes && nodes[id].Instance?
  }

  /** Only the children of the container `p` (if `p` is one) differ between `c0` and `c1`. */
  ghost predicate ContainersOnly(c0: map<nat, seq<nat>>, c1: map<nat, seq<nat>>, p: HostParent)
  {
    && c1.Keys == c0.Keys
    && forall r :: r in c0 && !(p.ContainerRef? && r == p.rootId) ==> c1[r] == c0[r]
  }

  lemma ContainersOnlyRefl(c: map<nat, seq<nat>>, p: HostParent)
    ensures ContainersOnly(c, c, p)
  {
  }

  lemma ContainersOnlyTrans(c0: map<nat, seq<nat>>, c1: map<nat, seq<nat>>, c2: map<nat, seq<nat>>, p: HostParent)
    requires ContainersOnly(c0, c1, p) && ContainersOnly(c1, c2, p)
    ensures ContainersOnly(c0, c2, p)
  {
  }

  /**
   * The host as the rendered tree shows it: every node with its type,
   * props, text and children, and the children of every container. The
   * `parent` a node records (only for the duplicate-mount check) is left
   * out.
   */
  datatype HostView = HostView(nodes: map<nat, HostNode>, containers: map<nat, seq<nat>>)

  function Bare(nodes: map<nat, HostNode>): map<nat, HostNode>
  {
    map id | id in nodes :: nodes[id].(parent := Num(-1))
  }

  function ViewOf(nodes: map<nat, HostNode>, containers: map<nat, seq<nat>>): HostView
  {
    HostView(Bare(nodes), containers)
  }

  /** The children of `p` in the view; none when `p` is missing. */
  function KidsOf(v: HostView, p: HostParent): seq<nat>
  {
    match p
    case ContainerRef(r) => if r in v.containers then v.containers[r] else []
    case InstanceRef(id) => if id in v.nodes && v.nodes[id].Instance? then v.nodes[id].children else []
  }

  /** The view with the children of `p` replaced by `kids`; unchanged when `p` is missing. */
  function WithKids(v: HostView, p: HostParent, kids: seq<nat>): HostView
  {
    match p
    case ContainerRef(r) => if r in v.containers then v.(containers := v.containers[r := kids]) else v
    case InstanceRef(id) =>
      if id in v.nodes && v.nodes[id].Instance? then v.(nodes := v.nodes[id := v.nodes[id].(children := kids)]) else v
  }

  /**
   * A change that leaves every node but `p` as it was (up to the parent it
   * records), and every container but `p`, shows in the view as new
   * children of `p` and nothing else.
   */
  lemma OnlyKidsView(n0: map<nat, HostNode>, c0: map<nat, seq<nat>>, n1: map<nat, HostNode>, c1: map<nat, seq<nat>>, p: HostParent)
    requires ParentIn(n0, c0, p) && n1.Keys == n0.Keys && ContainersOnly(c0, c1, p)
    requires forall id :: id in n0 && !(p.InstanceRef? && id == p.id) ==> n1[id].(parent := Num(-1)) == n0[id].(parent := Num(-1))
    requires p.InstanceRef? ==> n1[p.id].Instance? && n1[p.id] == n0[p.id].(children := n1[p.id].children)
    ensures ParentIn(n1, c1, p)
    ensures ViewOf(n1, c1) == WithKids(ViewOf(n0, c0), p, KidsOf(ViewOf(n1, c1), p))
  {
    var v0, v1 := ViewOf(n0, c0), ViewOf(n1, c1);
    var w := WithKids(v0, p, KidsOf(v1, p));
    assert w.nodes == v1.nodes;
    assert w.containers == v1.containers;
  }

  /** In the view, `p` has the children the host gives it. */
  lemma KidsOfView(n: map<nat, HostNode>, c: map<nat, seq<nat>>, p: HostParent)
    requires ParentIn(n, c, p)
    ensures KidsOf(ViewOf(n, c), p) == match p case ContainerRef(r) => c[r] case InstanceRef(id) => n[id].children
  {
  }

  /** The view after the text node `id` is given `text`; unchanged when there is no such text node. */
  function TextView(v: HostView, id: nat, text: Value): HostView
  {
    if id in v.nodes && v.nodes[id].TextInstance? then v.(nodes := v.nodes[id := v.nodes[id].(text := text)]) else v
  }

  /** Setting a text node's text shows in the view as that node's new text and nothing else. */
  lemma TextViewOf(n: map<nat, HostNode>, c: map<nat, seq<nat>>, id: nat, text: Value)
    requires id in n && n[id].TextInstance?
    ensures ViewOf(n[id := n[id].(text := text)], c) == TextView(ViewOf(n, c), id, text)
  {
    var n1 := n[id := n[id].(text := text)];
    var v0 := ViewOf(n, c);
    assert Bare(n1) == v0.nodes[id := v0.nodes[id].(text := text)];
  }

  /** `memoizedProps?.textContent ?? ""` */
  function TextUpdate(memoizedProps: Value): Value
  {
    Coalesce(Get(memoizedProps, "textContent"), Str(""))
  }

  /** The children after `insertChildToContainer`, for a `before` that is present. */
  function InsertResult(s: seq<nat>, child: nat, before: nat): seq<nat>
    requires before in s
  {
    var beforeIndex := IndexOf(s, before);
    var rest := if child in s then RemoveAt(s, IndexOf(s, child)) else s;
    InsertAt(rest, beforeIndex, child)
  }

  /** Inserting moves the child when it is already present and adds it otherwise: no other child is lost or duplicated. */
  lemma InsertResultCount(s: seq<nat>, child: nat, before: nat)
    requires before in s
    ensures var r := InsertResult(s, child, before);
      && |r| == (if child in s then |s| else |s| + 1)
      && multiset(r) == (if child in s then multiset(s) else multiset(s) + multiset{child})
  {
    var rest := if child in s then RemoveAt(s, IndexOf(s, child)) else s;
    assert child in s ==> multiset(rest) + multiset{child} == multiset(s);
  }

  /** Removing the first occurrence keeps every other element, in order. */
  lemma RemoveFirstOccurrence(s: seq<nat>, child: nat)
    requires child in s
    ensures var i := IndexOf(s, child);
      RemoveAt(s, i) == s[..i] + s[i + 1..] && child !in s[..i]
  {
  }

  /**
   * A child that stood before `before` lands just after it: `before` moves
   * one slot left and the child takes `before`'s old slot.
   */
  lemma InsertLandsAfterWhenPreceding(s: seq<nat>, child: nat, before: nat)
    requires before in s && child in s && child != before
    requires IndexOf(s, child) < IndexOf(s, before)
    ensures var b := IndexOf(s, before);
      var r := InsertResult(s, child, before);
      b >= 1 && r[b - 1] == before && r[b] == child
  {
    var b := IndexOf(s, before);
    var i := IndexOf(s, child);
    var rest := RemoveAt(s, i);
    assert rest[b - 1] == s[b];
  }

  /** A child that did not precede `before` (or was absent) lands just before it. */
  lemma InsertLandsBeforeOtherwise(s: seq<nat>, child: nat, before: nat)
    requires before in s && child != before
    requires child in s ==> IndexOf(s, child) > IndexOf(s, before)
    ensures var b := IndexOf(s, before);
      var r := InsertResult(s, child, before);
      b + 1 < |r| && r[b] == child && r[b + 1] == before
  {
    var b := IndexOf(s, before);
    if child in s {
      var i := IndexOf(s, child);
      var rest := RemoveAt(s, i);
      assert rest[b] == s[b];
    }
  }

  /** `[1, 2, 3]`, moving 1 before 3, gives `[2, 3, 1]`: 1 lands after 3. */
  lemma InsertExample()
    ensures InsertResult([1, 2, 3], 1, 3) == [2, 3, 1]
  {
    assert IndexOf([1, 2, 3], 3) == 2 by {
      assert [1, 2, 3][1..] == [2, 3];
      assert [2, 3][1..] == [3];
    }
    assert RemoveAt([1, 2, 3], 0) == [2, 3];
  }
}
