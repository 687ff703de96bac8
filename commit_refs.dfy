/**
 * Ref attachment during commit (`safelyAttachRef` and `safelyDetachRef`
 * in big-react/packages/react-reconciler/src/commitWork.ts).
 *
 * A fiber's `ref` is whatever the element carried. A function ref is
 * called with the instance; a ref object (an `Obj`) gets the instance as
 * its `current`. What user code can observe of this is `RefCells`: the
 * `current` of each ref object and the calls made to function refs.
 */
module CommitRefs {
  import opened JsValues
  import opened Fiber
  import opened NoopHost

  /** A call of function ref `fid` with `arg` (an instance, or null as `NoStateNode`). */
  datatype RefCall = RefCall(fid: nat, arg: StateNode)

  /** The observable side of refs. */
  datatype RefState = RefState(currents: map<nat, StateNode>, calls: seq<RefCall>)

  /** Assigning `current` on a primitive or undefined throws in strict-mode code. */
  const REF_TYPE_ERROR := "Cannot create property 'current' on a primitive value"

  /** `ref.current = instance` fails exactly when `ref` is undefined or a primitive other than null. */
  predicate WriteThrows(ref: Value)
  {
    ref.Undefined? || ref.Bool? || ref.Num? || ref.Str? || ref.Sym?
  }

  /**
   * Writing `instance` through a non-null ref: a function ref is called, a
   * ref object's `current` is set, and an array or plain record (which has
   * no identity here) changes nothing observable.
   */
  function WriteRef(s: RefState, ref: Value, instance: StateNode): RefState
  {
    match ref
    case Func(fid) => s.(calls := s.calls + [RefCall(fid, instance)])
    case Obj(oid) => s.(currents := s.currents[oid := instance])
    case _ => s
  }

  class RefCells {
    var state: RefState

    constructor()
      ensures state == RefState(map[], [])
    {
      state := RefState(map[], []);
    }

    /** One write through `ref`; a null ref is skipped, a primitive one throws and changes nothing. */
    method SetRef(ref: Value, instance: StateNode) returns (outcome: Outcome)
      modifies this
      ensures outcome.Thrown? <==> WriteThrows(ref)
      ensures outcome.Thrown? || ref.Null? ==> state == old(state)
      ensures outcome.Done? && !ref.Null? ==> state == WriteRef(old(state), ref, instance)
    {
      if ref.Null? {
        return Done;
      }
      if WriteThrows(ref) {
        return Thrown(REF_TYPE_ERROR);
      }
      state := WriteRef(state, ref, instance);
      outcome := Done;
    }

    /** `safelyAttachRef(fiber)`: the ref receives the fiber's instance. */
    method SafelyAttachRef(f: Fiber) returns (outcome: Outcome)
      modifies this
      ensures outcome.Thrown? <==> WriteThrows(f.ref)
      ensures outcome.Thrown? || f.ref.Null? ==> state == old(state)
      ensures outcome.Done? && !f.ref.Null? ==> state == WriteRef(old(state), f.ref, f.stateNode)
    {
      outcome := SetRef(f.ref, f.stateNode);
    }

    /** `safelyDetachRef(fiber)`: the ref receives null. */
    method SafelyDetachRef(f: Fiber) returns (outcome: Outcome)
      modifies this
      ensures outcome.Thrown? <==> WriteThrows(f.ref)
      ensures outcome.Thrown? || f.ref.Null? ==> state == old(state)
      ensures outcome.Done? && !f.ref.Null? ==> state == WriteRef(old(state), f.ref, NoStateNode)
    {
      outcome := SetRef(f.ref, NoStateNode);
    }
  }

  /** Attaching and then detaching leaves a ref object's `current` null and a function ref called twice, last with null. */
  lemma AttachThenDetach(s: RefState, ref: Value, instance: StateNode)
    requires ref.Func? || ref.Obj?
    ensures var s2 := WriteRef(WriteRef(s, ref, instance), ref, NoStateNode);
      && (ref.Obj? ==> ref.oid in s2.currents && s2.currents[ref.oid] == NoStateNode && s2.calls == s.calls)
      && (ref.Func? ==> s2.calls == s.calls + [RefCall(ref.fid, instance), RefCall(ref.fid, NoStateNode)]
                        && s2.currents == s.currents)
  {
  }

  /** A write through one ref object leaves every other ref object's `current` as it was. */
  lemma WriteRefLocal(s: RefState, ref: Value, instance: StateNode, other: nat)
    requires other in s.currents && !(ref.Obj? && ref.oid == other)
    ensures var s2 := WriteRef(s, ref, instance);
      other in s2.currents && s2.currents[other] == s.currents[other]
  {
  }
}
