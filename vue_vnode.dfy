/**
 * Virtual nodes of mini-vue (mini-vue/packages/runtime-core/src/vnode.ts)
 * and the `h` helper (mini-vue/packages/runtime-core/src/h.ts).
 *
 * A vnode handed back to user code, for instance as a child of another
 * vnode, is a plain object; `AsValue` gives that object and `IsVNode`
 * recognises it by its `__v_isVNode` property.
 */
module VueVNode {
  import opened JsValues

  /** The shape flags of Vue 3's `ShapeFlags` enumeration used here. */
  const ELEMENT: bv32 := 1
  const STATEFUL_COMPONENT: bv32 := 4
  const TEXT_CHILDREN: bv32 := 8
  const ARRAY_CHILDREN: bv32 := 16

  datatype VNode = VNode(
    isVNode: bool,
    typ: Value,
    props: Value,
    children: Value,
    component: Value,
    shapeFlag: bv32,
    key: Value,
    el: Value)

  /** The vnode as the plain object user code sees. */
  function AsValue(v: VNode): (r: Value)
    ensures r.Rec? && Get(r, "__v_isVNode") == Bool(v.isVNode)
  {
    Rec(map[
      "__v_isVNode" := Bool(v.isVNode),
      "type" := v.typ,
      "props" := v.props,
      "children" := v.children,
      "component" := v.component,
      "shapeFlag" := Num(v.shapeFlag as int),
      "key" := v.key,
      "el" := v.el])
  }

  /** `isVNode(value)`: the value is an object whose `__v_isVNode` is true. */
  predicate IsVNode(v: Value)
  {
    Get(v, "__v_isVNode") == Bool(true)
  }

  /** The flag a vnode type selects: a string is an element, an object a stateful component, anything else 0. */
  function TypeFlag(typ: Value): (r: bv32)
    ensures typ.Str? ==> r == ELEMENT
    ensures !typ.Str? && IsObject(typ) ==> r == STATEFUL_COMPONENT
    ensures !typ.Str? && !IsObject(typ) ==> r == 0
  {
    if typ.Str? then ELEMENT else if IsObject(typ) then STATEFUL_COMPONENT else 0
  }

  /** The flag the children add: none for null or undefined, `ARRAY_CHILDREN` for an array, `TEXT_CHILDREN` otherwise. */
  function ChildrenFlag(children: Value): (r: bv32)
    ensures Nullish(children) ==> r == 0
    ensures children.Arr? ==> r == ARRAY_CHILDREN
    ensures !Nullish(children) && !children.Arr? ==> r == TEXT_CHILDREN
  {
    if Nullish(children) then 0 else if children.Arr? then ARRAY_CHILDREN else TEXT_CHILDREN
  }

  /** `children = null` as a default parameter: an absent (undefined) argument becomes null. */
  function DefaultNull(v: Value): (r: Value)
    ensures r == (if v.Undefined? then Null else v)
  {
    if v.Undefined? then Null else v
  }

  /** `normalizeChildren(vnode, children)`: ORs the children's flag into the vnode's shape flag. */
  function NormalizeChildren(vnode: VNode, children: Value): (r: VNode)
    ensures r == vnode.(shapeFlag := vnode.shapeFlag | ChildrenFlag(children))
  {
    vnode.(shapeFlag := vnode.shapeFlag | ChildrenFlag(children))
  }

  /** `createBaseVNode(type, props, children, shapeFlag)` */
  function CreateBaseVNode(typ: Value, props: Value, children: Value, shapeFlag: bv32): (r: VNode)
    ensures r.isVNode && r.typ == typ && r.props == props && r.children == DefaultNull(children)
    ensures r.component == Null && r.el == Null
    ensures r.key == (if Nullish(props) then Null else Coalesce(Get(props, "key"), Null))
    ensures r.shapeFlag == shapeFlag | ChildrenFlag(children)
  {
    var c := DefaultNull(children);
    var vnode := VNode(true, typ, props, c, Null, shapeFlag,
                       if Nullish(props) then Null else Coalesce(Get(props, "key"), Null), Null);
    assert ChildrenFlag(c) == ChildrenFlag(children);
    NormalizeChildren(vnode, c)
  }

  /** `createVNode(type, props, children)` */
  function CreateVNode(typ: Value, props: Value, children: Value): (r: VNode)
    ensures r == CreateBaseVNode(typ, props, children, TypeFlag(typ))
  {
    CreateBaseVNode(typ, props, children, TypeFlag(typ))
  }

  /** The flags of a new vnode: its type's flag, its children's flag, and no other bit. */
  lemma ShapeFlagParts(typ: Value, props: Value, children: Value)
    ensures var f := CreateVNode(typ, props, children).shapeFlag;
      && (f & ELEMENT != 0 <==> typ.Str?)
      && (f & STATEFUL_COMPONENT != 0 <==> !typ.Str? && IsObject(typ))
      && (f & ARRAY_CHILDREN != 0 <==> children.Arr?)
      && (f & TEXT_CHILDREN != 0 <==> !Nullish(children) && !children.Arr?)
      && f & !(ELEMENT | STATEFUL_COMPONENT | TEXT_CHILDREN | ARRAY_CHILDREN) == 0
  {
  }

  /** `h(...arguments)`, with `args` the arguments object. */
  function H(args: seq<Value>): (r: VNode)
  {
    var typ := if |args| > 0 then args[0] else Undefined;
    var propsOrChildren := if |args| > 1 then args[1] else Undefined;
    var children := if |args| > 2 then args[2] else Undefined;
    if |args| == 1 then CreateVNode(typ, Null, Null)
    else if |args| == 2 then
      if IsObject(propsOrChildren) && !propsOrChildren.Arr? then
        if IsVNode(propsOrChildren) then CreateVNode(typ, Null, Arr([propsOrChildren]))
        else CreateVNode(typ, propsOrChildren, Null)
      else CreateVNode(typ, Null, propsOrChildren)
    else
      var c := if |args| > 3 then Arr(args[2..]) else if |args| == 3 && IsVNode(children) then Arr([children]) else children;
      CreateVNode(typ, propsOrChildren, c)
  }

  /** With one argument: no props and no children. */
  lemma HTypeOnly(typ: Value)
    ensures var v := H([typ]);
      v.typ == typ && v.props == Null && v.children == Null && v.shapeFlag == TypeFlag(typ)
  {
  }

  /** With two arguments: a vnode becomes the only child, another non-array object the props, anything else the children. */
  lemma HTwoArguments(typ: Value, x: Value)
    ensures var v := H([typ, x]);
      && (IsObject(x) && !x.Arr? && IsVNode(x) ==> v.props == Null && v.children == Arr([x]) && v.shapeFlag & ARRAY_CHILDREN != 0)
      && (IsObject(x) && !x.Arr? && !IsVNode(x) ==> v.props == x && v.children == Null && v.shapeFlag == TypeFlag(typ))
      && (!(IsObject(x) && !x.Arr?) ==> v.props == Null && v.children == DefaultNull(x))
  {
  }

  /** With more than three arguments, every argument from the third on is a child, in order. */
  lemma HManyChildren(args: seq<Value>)
    requires |args| > 3
    ensures var v := H(args);
      v.typ == args[0] && v.props == args[1] && v.children == Arr(args[2..])
      && v.shapeFlag == TypeFlag(args[0]) | ARRAY_CHILDREN
  {
  }

  /** With exactly three arguments, a vnode child is wrapped in an array and anything else is passed through. */
  lemma HThreeArguments(typ: Value, props: Value, child: Value)
    ensures var v := H([typ, props, child]);
      v.props == props && v.children == (if IsVNode(child) then Arr([child]) else DefaultNull(child))
  {
  }

  /** A vnode built by `h` is recognised as a vnode once handed to user code. */
  lemma HIsVNode(args: seq<Value>)
    ensures IsVNode(AsValue(H(args)))
  {
  }
}
