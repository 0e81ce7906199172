/** The property descriptor record of the runtime: a 32-bit flag word holding,
    for each attribute, a value bit and an independent "explicitly set" bit,
    plus two value slots. `value` and `getter` share one slot (a C union), so
    writing either is visible through both.

    Every operation below is a macro in the runtime; here each is a pure
    function from the old descriptor to the new one. Contracts are stated
    against `AsSpec`, the ECMA-262 Property Descriptor the record stands for,
    and against the raw flag bits the operation must leave alone. */
module EjsPropertyDesc {
  import opened EjsValue
  import opened SpecDescriptor
  import opened PropertyFlags

  /** `slot` is the union of the `value` and `getter` members. */
  datatype PropertyDesc = PropertyDesc(flags: Word, slot: EjsVal, setter: EjsVal)

  /** The C members a macro may name; `value` and `getter` are one storage location. */
  datatype Member = ValueMember | GetterMember | SetterMember

  /** Reading member `m` of the record. Whenever a field is present in the
      denoted descriptor, reading its member yields that field, and reading
      `value` or `getter` always yields the same thing. */
  function Read(p: PropertyDesc, m: Member): (r: EjsVal)
    ensures m == ValueMember && AsSpec(p).Value.Some? ==> AsSpec(p).Value == Some(r)
    ensures m == GetterMember && AsSpec(p).Get.Some? ==> AsSpec(p).Get == Some(r)
    ensures m == SetterMember && AsSpec(p).Set.Some? ==> AsSpec(p).Set == Some(r)
    ensures m != SetterMember && AsSpec(p).Value.Some? ==> AsSpec(p).Value == Some(r)
    ensures m != SetterMember && AsSpec(p).Get.Some? ==> AsSpec(p).Get == Some(r)
  {
    if m == SetterMember then p.setter else p.slot
  }

  /** The ECMA-262 Property Descriptor this record denotes: a field is present
      exactly when its set bit is on, and then holds the stored bit or slot. */
  function AsSpec(p: PropertyDesc): SpecDesc {
    SpecDesc(
      Value := if FlagValueSet <= p.flags then Some(p.slot) else None,
      Get := if FlagGetterSet <= p.flags then Some(p.slot) else None,
      Set := if FlagSetterSet <= p.flags then Some(p.setter) else None,
      Writable := if FlagWritableSet <= p.flags then Some(FlagWritable <= p.flags) else None,
      Enumerable := if FlagEnumerableSet <= p.flags then Some(FlagEnumerable <= p.flags) else None,
      Configurable := if FlagConfigurableSet <= p.flags then Some(FlagConfigurable <= p.flags) else None)
  }

  /** A descriptor freshly built from a flag word, with both slots undefined. */
  function FromFlags(flags: Word): PropertyDesc {
    PropertyDesc(flags, Undefined, Undefined)
  }

  // ---------------------------------------------------------------------
  // Each named operation below is the expansion of one of the runtime's
  // generic macros with that attribute's bits and member filled in:
  //   set flag:        value bits set or cleared according to v, then set bit on;
  //   set value flag:  member assigned, then set bit on;
  //   clear flag:      set bit off;
  //   clear value flag: member assigned undefined, then set bit off;
  //   flag default reads: stored bit or member when the set bit is on, else the default.
  // Attribute setters come first.

  function SetEnumerable(p: PropertyDesc, v: bool): (r: PropertyDesc)
    ensures AsSpec(r) == AsSpec(p).(Enumerable := Some(v))
    ensures r.flags - PropEnumerable == p.flags - PropEnumerable
    ensures r.slot == p.slot && r.setter == p.setter
  {
    var f := if v then p.flags + FlagEnumerable else p.flags - FlagEnumerable;
    p.(flags := f + FlagEnumerableSet)
  }

  function SetConfigurable(p: PropertyDesc, v: bool): (r: PropertyDesc)
    ensures AsSpec(r) == AsSpec(p).(Configurable := Some(v))
    ensures r.flags - PropConfigurable == p.flags - PropConfigurable
    ensures r.slot == p.slot && r.setter == p.setter
  {
    var f := if v then p.flags + FlagConfigurable else p.flags - FlagConfigurable;
    p.(flags := f + FlagConfigurableSet)
  }

  function SetWritable(p: PropertyDesc, v: bool): (r: PropertyDesc)
    ensures AsSpec(r) == AsSpec(p).(Writable := Some(v))
    ensures r.flags - PropWritable == p.flags - PropWritable
    ensures r.slot == p.slot && r.setter == p.setter
  {
    var f := if v then p.flags + FlagWritable else p.flags - FlagWritable;
    p.(flags := f + FlagWritableSet)
  }

  // ---------------------------------------------------------------------
  // Slot setters. Because value and getter share a slot, setting one also
  // changes what the other field reads whenever that field is present.

  function SetValue(p: PropertyDesc, v: EjsVal): (r: PropertyDesc)
    ensures AsSpec(r) == AsSpec(p).(Value := Some(v), Get := if AsSpec(p).Get.Some? then Some(v) else None)
    ensures r.flags - FlagValueSet == p.flags - FlagValueSet
    ensures r.setter == p.setter
  {
    p.(slot := v, flags := p.flags + FlagValueSet)
  }

  function SetGetter(p: PropertyDesc, v: EjsVal): (r: PropertyDesc)
    ensures AsSpec(r) == AsSpec(p).(Get := Some(v), Value := if AsSpec(p).Value.Some? then Some(v) else None)
    ensures Read(r, ValueMember) == v
    ensures r.flags - FlagGetterSet == p.flags - FlagGetterSet
    ensures r.setter == p.setter
  {
    p.(slot := v, flags := p.flags + FlagGetterSet)
  }

  function SetSetter(p: PropertyDesc, v: EjsVal): (r: PropertyDesc)
    ensures AsSpec(r) == AsSpec(p).(Set := Some(v))
    ensures r.flags - FlagSetterSet == p.flags - FlagSetterSet
    ensures r.slot == p.slot
  {
    p.(setter := v, flags := p.flags + FlagSetterSet)
  }

  // ---------------------------------------------------------------------
  // Clearing. Clearing a slot writes undefined into it; clearing writable
  // only forgets that it was set and keeps the raw value bit.

  function ClearValue(p: PropertyDesc): (r: PropertyDesc)
    ensures AsSpec(r) == AsSpec(p).(Value := None, Get := if AsSpec(p).Get.Some? then Some(Undefined) else None)
    ensures r.slot == Undefined
    ensures r.flags - FlagValueSet == p.flags - FlagValueSet
    ensures r.setter == p.setter
  {
    p.(slot := Undefined, flags := p.flags - FlagValueSet)
  }

  function ClearWritable(p: PropertyDesc): (r: PropertyDesc)
    ensures AsSpec(r) == AsSpec(p).(Writable := None)
    ensures r.flags * FlagWritable == p.flags * FlagWritable
    ensures r.flags - FlagWritableSet == p.flags - FlagWritableSet
    ensures r.slot == p.slot && r.setter == p.setter
  {
    p.(flags := p.flags - FlagWritableSet)
  }

  function ClearGetter(p: PropertyDesc): (r: PropertyDesc)
    ensures AsSpec(r) == AsSpec(p).(Get := None, Value := if AsSpec(p).Value.Some? then Some(Undefined) else None)
    ensures r.slot == Undefined
    ensures r.flags - FlagGetterSet == p.flags - FlagGetterSet
    ensures r.setter == p.setter
  {
    p.(slot := Undefined, flags := p.flags - FlagGetterSet)
  }

  function ClearSetter(p: PropertyDesc): (r: PropertyDesc)
    ensures AsSpec(r) == AsSpec(p).(Set := None)
    ensures r.setter == Undefined
    ensures r.flags - FlagSetterSet == p.flags - FlagSetterSet
    ensures r.slot == p.slot
  {
    p.(setter := Undefined, flags := p.flags - FlagSetterSet)
  }

  // ---------------------------------------------------------------------
  // Presence queries: "explicitly set", whatever the value bit holds.

  function HasEnumerable(p: PropertyDesc): (r: bool)
    ensures r <==> AsSpec(p).Enumerable.Some?
  {
    SingleBitTest(p.flags, FlagEnumerableSet);
    FlagToBool(p.flags * FlagEnumerableSet)
  }

  function HasConfigurable(p: PropertyDesc): (r: bool)
    ensures r <==> AsSpec(p).Configurable.Some?
  {
    SingleBitTest(p.flags, FlagConfigurableSet);
    FlagToBool(p.flags * FlagConfigurableSet)
  }

  function HasWritable(p: PropertyDesc): (r: bool)
    ensures r <==> AsSpec(p).Writable.Some?
  {
    SingleBitTest(p.flags, FlagWritableSet);
    FlagToBool(p.flags * FlagWritableSet)
  }

  function HasValue(p: PropertyDesc): (r: bool)
    ensures r <==> AsSpec(p).Value.Some?
  {
    SingleBitTest(p.flags, FlagValueSet);
    FlagToBool(p.flags * FlagValueSet)
  }

  function HasGetter(p: PropertyDesc): (r: bool)
    ensures r <==> AsSpec(p).Get.Some?
  {
    SingleBitTest(p.flags, FlagGetterSet);
    FlagToBool(p.flags * FlagGetterSet)
  }

  function HasSetter(p: PropertyDesc): (r: bool)
    ensures r <==> AsSpec(p).Set.Some?
  {
    SingleBitTest(p.flags, FlagSetterSet);
    FlagToBool(p.flags * FlagSetterSet)
  }

  // ---------------------------------------------------------------------
  // Defaulting readers: the field when present, the Table 7 default otherwise.

  function IsEnumerable(p: PropertyDesc): (r: bool)
    ensures r == BoolOrDefault(AsSpec(p).Enumerable)
  {
    SingleBitTest(p.flags, FlagEnumerableSet);
    SingleBitTest(p.flags, FlagEnumerable);
    if FlagToBool(p.flags * FlagEnumerableSet) then FlagToBool(p.flags * FlagEnumerable) else false
  }

  function IsConfigurable(p: PropertyDesc): (r: bool)
    ensures r == BoolOrDefault(AsSpec(p).Configurable)
  {
    SingleBitTest(p.flags, FlagConfigurableSet);
    SingleBitTest(p.flags, FlagConfigurable);
    if FlagToBool(p.flags * FlagConfigurableSet) then FlagToBool(p.flags * FlagConfigurable) else false
  }

  function IsWritable(p: PropertyDesc): (r: bool)
    ensures r == BoolOrDefault(AsSpec(p).Writable)
  {
    SingleBitTest(p.flags, FlagWritableSet);
    SingleBitTest(p.flags, FlagWritable);
    if FlagToBool(p.flags * FlagWritableSet) then FlagToBool(p.flags * FlagWritable) else false
  }

  function GetValue(p: PropertyDesc): (r: EjsVal)
    ensures r == ValueOrDefault(AsSpec(p).Value)
  {
    SingleBitTest(p.flags, FlagValueSet);
    if FlagToBool(p.flags * FlagValueSet) then Read(p, ValueMember) else Undefined
  }

  function GetGetter(p: PropertyDesc): (r: EjsVal)
    ensures r == ValueOrDefault(AsSpec(p).Get)
  {
    SingleBitTest(p.flags, FlagGetterSet);
    if FlagToBool(p.flags * FlagGetterSet) then Read(p, GetterMember) else Undefined
  }

  function GetSetter(p: PropertyDesc): (r: EjsVal)
    ensures r == ValueOrDefault(AsSpec(p).Set)
  {
    SingleBitTest(p.flags, FlagSetterSet);
    if FlagToBool(p.flags * FlagSetterSet) then Read(p, SetterMember) else Undefined
  }
}
