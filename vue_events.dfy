/**
 * Event handlers on elements in mini-vue
 * (mini-vue/packages/runtime-dom/src/modules/events.ts).
 *
 * Each element caches one invoker per `onXxx` property in `_vei`. The
 * invoker is the listener registered with the element and forwards every
 * event to its current `value`, so a new handler is installed by changing
 * that `value` alone. Invokers are objects with an identity: the model
 * keeps them in a table by id.
 */
module VueEvents {
  import opened Wrappers
  import opened JsValues

  /** ASCII lower-casing of one character. */
  function LowerChar(c: char): char
  {
    if 'A' <= c <= 'Z' then (c as int + 32) as char else c
  }

  /** `rawName.slice(2).toLowerCase()` */
  function EventName(rawName: string): (r: string)
    ensures |r| == if |rawName| < 2 then 0 else |rawName| - 2
    ensures forall i :: 0 <= i < |r| ==> r[i] == LowerChar(rawName[i + 2])
  {
    var rest := if |rawName| < 2 then "" else rawName[2..];
    seq(|rest|, i requires 0 <= i < |rest| => LowerChar(rest[i]))
  }

  /** A host element with its invoker cache and its registered listeners. */
  class EventElement {
    /** `el._vei`: `None` until the first patch; an entry holding `None` was cleared to undefined. */
    var vei: Option<map<string, Option<nat>>>
    /** The element's listeners, as (event name, invoker id), in registration order. */
    var listeners: seq<(string, nat)>
    /** `invoker.value` of every invoker created so far. */
    var invokerValue: map<nat, Value>
    var nextInvoker: nat

    ghost predicate Valid()
      reads this
    {
      (forall l :: l in listeners ==> l.1 in invokerValue)
      && (forall i :: i in invokerValue ==> i < nextInvoker)
      && (vei.Some? ==> forall k :: k in vei.value && vei.value[k].Some? ==> vei.value[k].value in invokerValue)
    }

    constructor ()
      ensures Valid() && vei == None && listeners == [] && invokerValue == map[] && nextInvoker == 0
    {
      vei := None;
      listeners := [];
      invokerValue := map[];
      nextInvoker := 0;
    }

    /** The invoker cached under `rawName`, if any. */
    function Cached(rawName: string): Option<nat>
      reads this
    {
      if vei.Some? && rawName in vei.value then vei.value[rawName] else None
    }

    /** `patchEvent(el, rawName, prevValue, nextValue)` */
    method PatchEvent(rawName: string, nextValue: Value)
      requires Valid()
      modifies this
      ensures Valid()
      ensures vei.Some?
      ensures forall k :: k != rawName ==> Cached(k) == old(Cached(k))
      // a new handler with an invoker in place: only the invoker's value changes
      ensures Truthy(nextValue) && old(Cached(rawName)).Some? ==>
        var i := old(Cached(rawName)).value;
        && invokerValue == old(invokerValue)[i := nextValue]
        && listeners == old(listeners) && Cached(rawName) == Some(i) && nextInvoker == old(nextInvoker)
      // a new handler and no invoker: one fresh invoker, cached and listened with
      ensures Truthy(nextValue) && old(Cached(rawName)).None? ==>
        var i := old(nextInvoker);
        && i !in old(invokerValue)
        && invokerValue == old(invokerValue)[i := nextValue] && nextInvoker == i + 1
        && Cached(rawName) == Some(i) && listeners == old(listeners) + [(EventName(rawName), i)]
      // no handler and an invoker: the listener is removed and the entry cleared
      ensures !Truthy(nextValue) && old(Cached(rawName)).Some? ==>
        var i := old(Cached(rawName)).value;
        && Cached(rawName) == None && invokerValue == old(invokerValue) && nextInvoker == old(nextInvoker)
        && listeners == Without(old(listeners), (EventName(rawName), i))
      // neither: nothing but the cache object changes
      ensures !Truthy(nextValue) && old(Cached(rawName)).None? ==>
        && listeners == old(listeners) && invokerValue == old(invokerValue) && nextInvoker == old(nextInvoker)
        && Cached(rawName) == None
    {
      if vei.None? {
        vei := Some(map[]);
      }
      var invokers := vei.value;
      var existing := if rawName in invokers then invokers[rawName] else None;
      if Truthy(nextValue) && existing.Some? {
        invokerValue := invokerValue[existing.value := nextValue];
      } else {
        var name := EventName(rawName);
        if Truthy(nextValue) {
          var invoker := CreateInvoker(nextValue);
          vei := Some(invokers[rawName := Some(invoker)]);
          AddEventListener(name, invoker);
        } else if existing.Some? {
          RemoveEventListener(name, existing.value);
          vei := Some(invokers[rawName := None]);
        }
      }
    }

    /** `createInvoker(initialValue)`: a fresh invoker whose value is the handler. */
    method CreateInvoker(initialValue: Value) returns (id: nat)
      requires Valid()
      modifies this`invokerValue, this`nextInvoker
      ensures id == old(nextInvoker) && nextInvoker == id + 1 && id !in old(invokerValue)
      ensures invokerValue == old(invokerValue)[id := initialValue]
      ensures Valid()
    {
      id := nextInvoker;
      invokerValue := invokerValue[id := initialValue];
      nextInvoker := nextInvoker + 1;
    }

    /** `addEventListener`: a listener already registered for the name is not added twice. */
    method AddEventListener(name: string, invoker: nat)
      modifies this`listeners
      ensures listeners == if (name, invoker) in old(listeners) then old(listeners) else old(listeners) + [(name, invoker)]
    {
      if (name, invoker) !in listeners {
        listeners := listeners + [(name, invoker)];
      }
    }

    /** `removeEventListener` */
    method RemoveEventListener(name: string, invoker: nat)
      modifies this`listeners
      ensures listeners == Without(old(listeners), (name, invoker))
    {
      var i := 0;
      var kept: seq<(string, nat)> := [];
      while i < |listeners|
        invariant 0 <= i <= |listeners|
        invariant kept == Without(listeners[..i], (name, invoker)) && listeners == old(listeners)
      {
        WithoutSnoc(listeners[..i], listeners[i], (name, invoker));
        assert listeners[..i + 1] == listeners[..i] + [listeners[i]];
        if listeners[i] != (name, invoker) {
          kept := kept + [listeners[i]];
        }
        i := i + 1;
      }
      assert listeners[..i] == listeners;
      listeners := kept;
    }

    /** The handlers an event named `name` reaches: each matching listener's invoker forwards to its current value. */
    function Dispatched(name: string): seq<Value>
      reads this
      requires Valid()
    {
      HandlersFor(listeners, invokerValue, name)
    }
  }

  /** `ls` without the entry `x`. */
  function Without(ls: seq<(string, nat)>, x: (string, nat)): (r: seq<(string, nat)>)
    ensures x !in r
    ensures forall y :: y in r <==> y in ls && y != x
    decreases |ls|
  {
    if |ls| == 0 then []
    else Without(ls[..|ls| - 1], x) + (if ls[|ls| - 1] == x then [] else [ls[|ls| - 1]])
  }

  lemma WithoutSnoc(ls: seq<(string, nat)>, y: (string, nat), x: (string, nat))
    ensures Without(ls + [y], x) == Without(ls, x) + (if y == x then [] else [y])
  {
    assert (ls + [y])[..|ls|] == ls;
  }

  /** The current values of the invokers listening for `name`, in registration order. */
  function HandlersFor(ls: seq<(string, nat)>, values: map<nat, Value>, name: string): (r: seq<Value>)
    requires forall l :: l in ls ==> l.1 in values
    ensures |r| <= |ls|
    decreases |ls|
  {
    if |ls| == 0 then []
    else
      var last := ls[|ls| - 1];
      HandlersFor(ls[..|ls| - 1], values, name) + (if last.0 == name then [values[last.1]] else [])
  }

  /** Changing an invoker's value redirects every event it receives, with no other change. */
  lemma {:induction false} HandlersAfterValueChange(ls: seq<(string, nat)>, values: map<nat, Value>, name: string, i: nat, v: Value, k: nat)
    requires forall l :: l in ls ==> l.1 in values
    requires i in values && k < |ls| && ls[k] == (name, i)
    ensures v in HandlersFor(ls, values[i := v], name)
    decreases |ls|
  {
    var n := |ls| - 1;
    if k < n {
      assert ls[..n][k] == ls[k];
      HandlersAfterValueChange(ls[..n], values, name, i, v, k);
    }
  }

  /**
   * Patching a handler onto an element that has none for that property
   * makes the next event of that name reach it.
   */
  method PatchThenDispatch(el: EventElement, rawName: string, handler: Value)
    requires el.Valid() && el.Cached(rawName).None? && Truthy(handler)
    modifies el
    ensures el.Valid() && handler in el.Dispatched(EventName(rawName))
  {
    el.PatchEvent(rawName, handler);
    var i := el.Cached(rawName).value;
    HandlersAfterValueChange(el.listeners, el.invokerValue, EventName(rawName), i, handler, |el.listeners| - 1);
    assert el.invokerValue[i := handler] == el.invokerValue;
  }
}
