/**
 * Fiber side-effect flags, the phase masks built from them, and the
 * hook-effect tags. All are 32-bit bitsets, as JavaScript bitwise
 * operators work on 32-bit integers.
 */
module FiberFlags {
  type Flags = bv32

  const NoFlags: Flags := 0
  const Placement: Flags := 0x2
  const Update: Flags := 0x4
  const ChildDeletion: Flags := 0x10
  const Ref: Flags := 0x200
  const Passive: Flags := 0x800

  const MutationMask: Flags := Placement | Update | ChildDeletion | Ref
  const LayoutMask: Flags := Ref
  const PassiveMask: Flags := Passive | ChildDeletion

  /** Hook-effect tags, kept in `Effect.tag`. */
  type HookFlags = bv32
  const HookNoFlags: HookFlags := 0
  const HookHasEffect: HookFlags := 0x1
  const HookLayout: HookFlags := 0x4
  const HookPassive: HookFlags := 0x8

  /** Exactly one bit is set. */
  predicate SingleBit(x: bv32)
  {
    x != 0 && x & (x - 1) == 0
  }

  /** `(flags & mask) !== NoFlags` */
  predicate HasAny(flags: Flags, mask: Flags)
  {
    flags & mask != NoFlags
  }

  lemma FlagsAreDistinctBits()
    ensures NoFlags == 0
    ensures SingleBit(Placement) && SingleBit(Update) && SingleBit(ChildDeletion)
    ensures SingleBit(Ref) && SingleBit(Passive)
    ensures Placement & Update == 0 && Placement & ChildDeletion == 0 && Placement & Ref == 0
    ensures Placement & Passive == 0 && Update & ChildDeletion == 0 && Update & Ref == 0
    ensures Update & Passive == 0 && ChildDeletion & Ref == 0 && ChildDeletion & Passive == 0
    ensures Ref & Passive == 0
  {
  }

  /** A flag word is in the mutation mask iff it holds one of its four flags, never Passive alone. */
  lemma MutationMaskExactly(f: Flags)
    ensures HasAny(f, MutationMask) <==>
      (HasAny(f, Placement) || HasAny(f, Update) || HasAny(f, ChildDeletion) || HasAny(f, Ref))
    ensures MutationMask & Passive == 0
  {
  }

  lemma LayoutMaskWithinMutationMask(f: Flags)
    ensures LayoutMask == Ref
    ensures HasAny(f, LayoutMask) ==> HasAny(f, MutationMask)
  {
  }

  /** A deletion alone is enough to enter both the mutation and the passive phase. */
  lemma DeletionEntersMutationAndPassive(f: Flags)
    ensures HasAny(f, PassiveMask) <==> HasAny(f, Passive) || HasAny(f, ChildDeletion)
    ensures HasAny(f, ChildDeletion) ==> HasAny(f, PassiveMask) && HasAny(f, MutationMask)
  {
  }

  lemma HookTagsAreDistinctBits()
    ensures HookNoFlags == 0
    ensures SingleBit(HookHasEffect) && SingleBit(HookLayout) && SingleBit(HookPassive)
    ensures HookHasEffect & HookLayout == 0 && HookHasEffect & HookPassive == 0
    ensures HookLayout & HookPassive == 0
  {
  }

  /** `flags | Update`, as `markUpdate` sets it. */
  function MarkUpdate(flags: Flags): (r: Flags)
  {
    flags | Update
  }

  /** `flags | Ref`, as both `markRef`s set it. */
  function MarkRef(flags: Flags): (r: Flags)
  {
    flags | Ref
  }

  /** `flags | Passive`, as a component with an effect to run is marked. */
  function MarkPassive(flags: Flags): (r: Flags)
  {
    flags | Passive
  }

  /** Marking Passive keeps every flag and sets Passive. */
  lemma MarkPassiveBits(x: Flags)
    ensures MarkPassive(x) & x == x && HasAny(MarkPassive(x), Passive)
  {
  }

  /** `markUpdate` keeps every flag, sets Update and leaves Ref as it was. */
  lemma MarkUpdateBits(x: Flags)
    ensures MarkUpdate(x) & x == x && HasAny(MarkUpdate(x), Update)
    ensures HasAny(MarkUpdate(x), Ref) <==> HasAny(x, Ref)
  {
  }

  /** `markRef` keeps every flag, sets Ref and leaves Update as it was. */
  lemma MarkRefBits(x: Flags)
    ensures MarkRef(x) & x == x && HasAny(MarkRef(x), Ref)
    ensures HasAny(MarkRef(x), Update) <==> HasAny(x, Update)
  {
  }

  /** Both marks together keep every flag and set both Update and Ref. */
  lemma MarkBothBits(x: Flags)
    ensures MarkRef(MarkUpdate(x)) & x == x
    ensures HasAny(MarkRef(MarkUpdate(x)), Update) && HasAny(MarkRef(MarkUpdate(x)), Ref)
  {
  }

  lemma SelfAnd(x: Flags)
    ensures x & x == x
  {
  }

  /** `flags & ~bits`, as a commit step clears the flags it has handled. */
  function Without(flags: Flags, bits: Flags): Flags
  {
    flags & !bits
  }

  /** Clearing `bits` removes them, keeps every other bit, and changes nothing when none was set. */
  lemma WithoutBits(f: Flags, bits: Flags, other: Flags)
    ensures !HasAny(Without(f, bits), bits)
    ensures bits & other == 0 ==> (HasAny(Without(f, bits), other) <==> HasAny(f, other))
    ensures !HasAny(f, bits) ==> Without(f, bits) == f
  {
    ClearRemoves(f, bits);
    if bits & other == 0 {
      ClearKeeps(f, bits, other);
    }
    if !HasAny(f, bits) {
      ClearNoop(f, bits);
    }
  }

  lemma ClearRemoves(f: Flags, bits: Flags)
    ensures !HasAny(Without(f, bits), bits)
  {
  }

  lemma ClearKeeps(f: Flags, bits: Flags, other: Flags)
    requires bits & other == 0
    ensures Without(f, bits) & other == f & other
  {
  }

  lemma ClearNoop(f: Flags, bits: Flags)
    requires !HasAny(f, bits)
    ensures Without(f, bits) == f
  {
  }

  /** Clearing in two steps is clearing both at once. */
  lemma WithoutTwice(f: Flags, a: Flags, b: Flags)
    ensures Without(Without(f, a), b) == Without(f, a | b)
  {
  }
}
