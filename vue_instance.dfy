/**
 * The public instance proxy of a mini-vue component
 * (mini-vue/packages/runtime-core/src/componentPublicInstance.ts): property
 * reads and writes on the component's `this` are routed to its setup
 * state, then its props, then its data.
 */
module VueInstance {
  import opened JsValues

  /** The three objects the proxy looks into, as their own properties. */
  class Instance {
    var setupState: map<string, Value>
    var props: map<string, Value>
    var data: map<string, Value>

    constructor (setupState: map<string, Value>, props: map<string, Value>, data: map<string, Value>)
      ensures this.setupState == setupState && this.props == props && this.data == data
    {
      this.setupState := setupState;
      this.props := props;
      this.data := data;
    }

    /** The proxy's `get` trap. */
    function Get(key: string): (r: Value)
      reads this
      ensures |key| > 0 && key[0] == '$' ==> r == Undefined
      ensures !(|key| > 0 && key[0] == '$') && key in setupState ==> r == setupState[key]
      ensures !(|key| > 0 && key[0] == '$') && key !in setupState && key in props ==> r == props[key]
      ensures !(|key| > 0 && key[0] == '$') && key !in setupState && key !in props && key in data ==> r == data[key]
      ensures key !in setupState && key !in props && key !in data ==> r == Undefined
    {
      if |key| > 0 && key[0] == '$' then Undefined
      else if key in setupState then setupState[key]
      else if key in props then props[key]
      else if key in data then data[key]
      else Undefined
    }

    /** The proxy's `set` trap: only the first of the three objects that owns the key is written. */
    method Set(key: string, value: Value) returns (ok: bool)
      modifies this
      ensures ok
      ensures old(key in setupState) ==> setupState == old(setupState)[key := value] && props == old(props) && data == old(data)
      ensures old(key !in setupState && key in props) ==> props == old(props)[key := value] && setupState == old(setupState) && data == old(data)
      ensures old(key !in setupState && key !in props && key in data) ==> data == old(data)[key := value] && setupState == old(setupState) && props == old(props)
      ensures old(key !in setupState && key !in props && key !in data) ==> setupState == old(setupState) && props == old(props) && data == old(data)
    {
      if key in setupState {
        setupState := setupState[key := value];
      } else if key in props {
        props := props[key := value];
      } else if key in data {
        data := data[key := value];
      }
      ok := true;
    }
  }
}
