/** The object record and its extensible bit. The extensible flag lives in
    the garbage collector's per-object header word, above the bits the
    collector reserves for itself; how many bits that is belongs to the
    collector, so the shift is a parameter here. Header words use the same
    one-bit-positions representation as descriptor flags. */
module EjsObjectHeader {
  import opened EjsValue
  import opened EjsSpecOps

  /** The collector's header word, as the set of its one-bit positions. */
  type HeaderWord = set<nat>

  /** The object's property map, owned by the object and opaque here. */
  datatype PropertyMapRef = PropertyMapRef(address: nat)

  datatype EjsObject = EjsObject(gcHeader: HeaderWord, ops: SpecOps, proto: EjsVal, propertyMap: PropertyMapRef)

  /** The unshifted extensible flag, `0x01`. */
  const ExtensibleFlag: HeaderWord := {0}

  /** The flag moved above the collector's bits. The unshifted flag is an
      `int` literal, so the shift must stay below the sign bit. */
  predicate ValidShift(shift: nat) {
    shift < 31
  }

  /** `w << n` on a word of one-bit positions. */
  function ShiftLeft(w: HeaderWord, n: nat): (r: HeaderWord)
    ensures forall k: nat :: k in r <==> (k >= n && k - n in w)
  {
    set k | k in w :: k + n
  }

  function ExtensibleFlagShifted(shift: nat): (r: HeaderWord)
    requires ValidShift(shift)
    ensures r == {shift}
  {
    ShiftLeft(ExtensibleFlag, shift)
  }

  function IsExtensible(o: EjsObject, shift: nat): (r: bool)
    requires ValidShift(shift)
    ensures r <==> shift in o.gcHeader
  {
    var masked := o.gcHeader * ExtensibleFlagShifted(shift);
    assert shift in o.gcHeader ==> shift in masked;
    masked != {}
  }

  /** Turns the extensible bit on and touches nothing else. */
  function SetExtensible(o: EjsObject, shift: nat): (r: EjsObject)
    requires ValidShift(shift)
    ensures IsExtensible(r, shift)
    ensures forall k: nat :: k != shift ==> (k in r.gcHeader <==> k in o.gcHeader)
    ensures r.ops == o.ops && r.proto == o.proto && r.propertyMap == o.propertyMap
  {
    o.(gcHeader := o.gcHeader + ExtensibleFlagShifted(shift))
  }

  /** Turns the extensible bit off and touches nothing else. */
  function ClearExtensible(o: EjsObject, shift: nat): (r: EjsObject)
    requires ValidShift(shift)
    ensures !IsExtensible(r, shift)
    ensures forall k: nat :: k != shift ==> (k in r.gcHeader <==> k in o.gcHeader)
    ensures r.ops == o.ops && r.proto == o.proto && r.propertyMap == o.propertyMap
  {
    o.(gcHeader := o.gcHeader - ExtensibleFlagShifted(shift))
  }

  /** One write of the extensible bit: set when `b`, clear otherwise. */
  function WriteExtensible(o: EjsObject, shift: nat, b: bool): EjsObject
    requires ValidShift(shift)
  {
    if b then SetExtensible(o, shift) else ClearExtensible(o, shift)
  }

  /** A run of writes, applied first to last. */
  function WriteAll(o: EjsObject, shift: nat, writes: seq<bool>): EjsObject
    requires ValidShift(shift)
    decreases |writes|
  {
    if writes == [] then o
    else WriteExtensible(WriteAll(o, shift, writes[..|writes| - 1]), shift, writes[|writes| - 1])
  }

  /** After any run of writes the query answers with the most recent one (or
      the original bit when there was none), and the other header bits and
      the remaining fields are as they were. */
  lemma {:induction false} LastWriteWins(o: EjsObject, shift: nat, writes: seq<bool>)
    requires ValidShift(shift)
    ensures IsExtensible(WriteAll(o, shift, writes), shift)
            == if writes == [] then IsExtensible(o, shift) else writes[|writes| - 1]
    ensures WriteAll(o, shift, writes).gcHeader - {shift} == o.gcHeader - {shift}
    ensures var r := WriteAll(o, shift, writes);
            r.ops == o.ops && r.proto == o.proto && r.propertyMap == o.propertyMap
    decreases |writes|
  {
    if writes != [] {
      LastWriteWins(o, shift, writes[..|writes| - 1]);
    }
  }

  /** Setting and clearing undo each other on an object whose bit was
      respectively off and on. */
  lemma SetClearInverse(o: EjsObject, shift: nat)
    requires ValidShift(shift)
    ensures !IsExtensible(o, shift) ==> ClearExtensible(SetExtensible(o, shift), shift) == o
    ensures IsExtensible(o, shift) ==> SetExtensible(ClearExtensible(o, shift), shift) == o
  {
    if !IsExtensible(o, shift) {
      assert ClearExtensible(SetExtensible(o, shift), shift).gcHeader == o.gcHeader;
    } else {
      assert SetExtensible(ClearExtensible(o, shift), shift).gcHeader == o.gcHeader;
    }
  }
}
