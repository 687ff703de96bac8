/**
 * Refs to a property of an object (`ObjectRefImpl`, `toRef`, `toRefs` in
 * mini-vue/packages/reactivity/src/ref.ts). Such a ref keeps no value of
 * its own: it reads and writes the property of the object it points to,
 * so every ref made from one object sees the writes of the others.
 */
module VueObjectRef {
  import opened JsValues

  /** A plain object or array whose properties the refs read and write; `props` holds its enumerable own keys. */
  class Target {
    var props: map<string, Value>
    const isArray: bool
    var length: nat

    constructor(props: map<string, Value>, isArray: bool, length: nat)
      ensures this.props == props && this.isArray == isArray && this.length == length
    {
      this.props := props;
      this.isArray := isArray;
      this.length := length;
    }
  }

  /** `ObjectRefImpl`: the pair (`_object`, `_key`). */
  class ObjectRef {
    const target: Target
    const key: string

    /** `toRef(target, key)` */
    constructor(target: Target, key: string)
      ensures this.target == target && this.key == key
    {
      this.target := target;
      this.key := key;
    }

    /** `ref.value` (get): the property as it is now, undefined when absent. */
    function Get(): (r: Value)
      reads this, target
      ensures key in target.props ==> r == target.props[key]
      ensures key !in target.props ==> r.Undefined?
    {
      if key in target.props then target.props[key] else Undefined
    }

    /** `ref.value = v`: writes the property of the target and nothing else. */
    method Set(v: Value)
      modifies target
      ensures target.props == old(target.props)[key := v]
      ensures target.length == old(target.length)
      ensures Get() == v
    {
      target.props := target.props[key := v];
    }
  }

  /** What `toRefs` returns: an array of the target's length, or a plain object. */
  datatype Refs = RefArray(length: nat, items: map<string, ObjectRef>) | RefObject(items: map<string, ObjectRef>)

  /** `toRefs(object)`: one new ref per enumerable key, each pointing at that key of the object. */
  method ToRefs(obj: Target) returns (r: Refs)
    ensures r.RefArray? <==> obj.isArray
    ensures r.RefArray? ==> r.length == obj.length
    ensures r.items.Keys == obj.props.Keys
    ensures forall k :: k in r.items ==> r.items[k].target == obj && r.items[k].key == k && fresh(r.items[k])
  {
    var items: map<string, ObjectRef> := map[];
    var keys := obj.props.Keys;
    while keys != {}
      invariant keys <= obj.props.Keys
      invariant items.Keys == obj.props.Keys - keys
      invariant forall k :: k in items ==> items[k].target == obj && items[k].key == k && fresh(items[k])
      decreases |keys|
    {
      var k :| k in keys;
      var ref := new ObjectRef(obj, k);
      items := items[k := ref];
      keys := keys - {k};
    }
    r := if obj.isArray then RefArray(obj.length, items) else RefObject(items);
  }
}
