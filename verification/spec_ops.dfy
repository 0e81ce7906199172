/** The per-class table of object operations: the internal methods named by
    the ECMAScript standard plus the runtime's allocate, finalize and scan
    hooks. A slot may hold the inherit sentinel, meaning "take the parent
    class's entry"; resolving the sentinel happens when a class is
    registered, which is not part of this model. */
module EjsSpecOps {

  /** A function-pointer slot. `Inherit` is the sentinel `(void*)-1`, which
      is neither null nor the address of any function. */
  datatype OpSlot = NullOp | Inherit | Fn(address: nat)

  datatype SpecOps = SpecOps(
    className: string,
    GetPrototypeOf: OpSlot,
    SetPrototypeOf: OpSlot,
    IsExtensible: OpSlot,
    PreventExtensions: OpSlot,
    GetOwnProperty: OpSlot,
    DefineOwnProperty: OpSlot,
    HasProperty: OpSlot,
    Get: OpSlot,
    Set: OpSlot,
    Delete: OpSlot,
    Enumerate: OpSlot,
    OwnPropertyKeys: OpSlot,
    Allocate: OpSlot,
    Finalize: OpSlot,
    Scan: OpSlot)

  /** Number of operation slots in a table. */
  const SlotCount := 15

  /** The operation slots of a table, in declaration order. */
  function Slots(ops: SpecOps): (s: seq<OpSlot>)
    ensures |s| == SlotCount
  {
    [ops.GetPrototypeOf, ops.SetPrototypeOf, ops.IsExtensible, ops.PreventExtensions,
     ops.GetOwnProperty, ops.DefineOwnProperty, ops.HasProperty,
     ops.Get, ops.Set, ops.Delete, ops.Enumerate, ops.OwnPropertyKeys,
     ops.Allocate, ops.Finalize, ops.Scan]
  }

  /** A table in which no slot is the sentinel any more. */
  predicate Resolved(ops: SpecOps) {
    Inherit !in Slots(ops)
  }

  /** The class-definition macro: the i-th operation argument lands in the
      i-th slot, and the class name is the macro's first argument. */
  function DefineClass(
    name: string,
    getPrototypeOf: OpSlot, setPrototypeOf: OpSlot, isExtensible: OpSlot, preventExtensions: OpSlot,
    getOwnProperty: OpSlot, defineOwnProperty: OpSlot, hasProperty: OpSlot,
    get: OpSlot, set_: OpSlot, delete: OpSlot, enumerate: OpSlot, ownPropertyKeys: OpSlot,
    allocate: OpSlot, finalize: OpSlot, scan: OpSlot): (r: SpecOps)
    ensures r.className == name
    ensures Slots(r) == [getPrototypeOf, setPrototypeOf, isExtensible, preventExtensions,
                         getOwnProperty, defineOwnProperty, hasProperty,
                         get, set_, delete, enumerate, ownPropertyKeys,
                         allocate, finalize, scan]
  {
    SpecOps(name, getPrototypeOf, setPrototypeOf, isExtensible, preventExtensions,
            getOwnProperty, defineOwnProperty, hasProperty,
            get, set_, delete, enumerate, ownPropertyKeys,
            allocate, finalize, scan)
  }

  /** A class that implements nothing itself: every slot is the sentinel. */
  function DefineInheritAllClass(name: string): (r: SpecOps)
    ensures r.className == name
    ensures forall i | 0 <= i < SlotCount :: Slots(r)[i] == Inherit
    ensures !Resolved(r)
  {
    DefineClass(name, Inherit, Inherit, Inherit, Inherit, Inherit, Inherit, Inherit,
                Inherit, Inherit, Inherit, Inherit, Inherit, Inherit, Inherit, Inherit)
  }

  /** Every table is the one the class-definition macro builds from its own
      name and slots, so the macro can express any table. */
  lemma DefineClassFromSlots(ops: SpecOps)
    ensures var s := Slots(ops);
            DefineClass(ops.className, s[0], s[1], s[2], s[3], s[4], s[5], s[6], s[7],
                        s[8], s[9], s[10], s[11], s[12], s[13], s[14]) == ops
  {
  }

  /** A table is the inherit-all class of its own name exactly when every
      one of its slots holds the sentinel. */
  lemma InheritAllExactly(ops: SpecOps)
    ensures ops == DefineInheritAllClass(ops.className)
            <==> forall i | 0 <= i < SlotCount :: Slots(ops)[i] == Inherit
  {
    if forall i | 0 <= i < SlotCount :: Slots(ops)[i] == Inherit {
      DefineClassFromSlots(ops);
      var s := Slots(ops);
      assert s[0] == Inherit && s[1] == Inherit && s[2] == Inherit && s[3] == Inherit && s[4] == Inherit;
      assert s[5] == Inherit && s[6] == Inherit && s[7] == Inherit && s[8] == Inherit && s[9] == Inherit;
      assert s[10] == Inherit && s[11] == Inherit && s[12] == Inherit && s[13] == Inherit && s[14] == Inherit;
    }
  }
}
