/** Laws relating the descriptor macros to one another: presence versus
    value bits, defaults, the shared value/getter slot, the composite flag
    words, and how successive updates combine. */
module PropertyDescLaws {
  import opened EjsValue
  import opened SpecDescriptor
  import opened PropertyFlags
  import opened EjsPropertyDesc

  /** The word with the bits of `m` flipped (`w ^ m`). */
  function Toggle(w: Word, m: Word): Word {
    (w - m) + (m - w)
  }

  /** A presence query looks only at the set bit: flipping the attribute's
      value bit never changes it, and changes the defaulting reader only
      when the attribute is present. */
  lemma HasIgnoresValueBit(p: PropertyDesc)
    ensures HasEnumerable(p.(flags := Toggle(p.flags, FlagEnumerable))) == HasEnumerable(p)
    ensures HasConfigurable(p.(flags := Toggle(p.flags, FlagConfigurable))) == HasConfigurable(p)
    ensures HasWritable(p.(flags := Toggle(p.flags, FlagWritable))) == HasWritable(p)
    ensures !HasEnumerable(p) ==> !IsEnumerable(p.(flags := Toggle(p.flags, FlagEnumerable)))
    ensures !HasConfigurable(p) ==> !IsConfigurable(p.(flags := Toggle(p.flags, FlagConfigurable)))
    ensures !HasWritable(p) ==> !IsWritable(p.(flags := Toggle(p.flags, FlagWritable)))
    ensures HasEnumerable(p) ==> IsEnumerable(p.(flags := Toggle(p.flags, FlagEnumerable))) == !IsEnumerable(p)
    ensures HasConfigurable(p) ==> IsConfigurable(p.(flags := Toggle(p.flags, FlagConfigurable))) == !IsConfigurable(p)
    ensures HasWritable(p) ==> IsWritable(p.(flags := Toggle(p.flags, FlagWritable))) == !IsWritable(p)
  {
  }

  /** The set mask collects exactly the presence bits: a descriptor with none
      of them on is the empty descriptor, and every reader yields its default. */
  lemma SetMaskMeansEmpty(p: PropertyDesc)
    ensures p.flags * FlagSetMask == {} <==> AsSpec(p) == EmptySpec
    ensures p.flags * FlagSetMask == {} ==>
              !IsEnumerable(p) && !IsConfigurable(p) && !IsWritable(p)
              && GetValue(p) == Undefined && GetGetter(p) == Undefined && GetSetter(p) == Undefined
  {
  }

  /** After a clear, the field is absent and reads as its default. */
  lemma ClearForgets(p: PropertyDesc)
    ensures !HasValue(ClearValue(p)) && GetValue(ClearValue(p)) == Undefined
    ensures !HasGetter(ClearGetter(p)) && GetGetter(ClearGetter(p)) == Undefined
    ensures !HasSetter(ClearSetter(p)) && GetSetter(ClearSetter(p)) == Undefined
    ensures !HasWritable(ClearWritable(p)) && !IsWritable(ClearWritable(p))
  {
  }

  /** Clearing writable keeps the raw value bit: turning the presence bit back
      on by hand makes `IsWritable` answer with that raw bit again, while
      `SetWritable` overwrites it. */
  lemma ClearWritableKeepsRawBit(p: PropertyDesc, v: bool)
    ensures var c := ClearWritable(p);
            IsWritable(c.(flags := c.flags + FlagWritableSet)) == (FlagWritable <= p.flags)
    ensures SetWritable(ClearWritable(p), v) == SetWritable(p, v)
  {
  }

  /** `value` and `getter` are one slot: once the getter is set, every read of
      the value member yields it, and so does `GetValue` when value is present. */
  lemma GetterAliasesValue(p: PropertyDesc, g: EjsVal)
    ensures Read(SetGetter(p, g), ValueMember) == g
    ensures HasValue(SetGetter(p, g)) ==> GetValue(SetGetter(p, g)) == g
    ensures HasValue(SetGetter(p, g)) <==> HasValue(p)
    ensures GetGetter(SetGetter(p, g)) == g
  {
  }

  /** Whenever both value and get are present they read the same slot. */
  lemma ValueAndGetterAgree(p: PropertyDesc)
    ensures HasValue(p) && HasGetter(p) ==> GetValue(p) == GetGetter(p)
    ensures AsSpec(p).Value.Some? && AsSpec(p).Get.Some? ==> AsSpec(p).Value == AsSpec(p).Get
  {
  }

  /** Clearing value writes undefined into the shared slot, so a getter that
      is still present now reads as undefined. */
  lemma ClearValueClobbersGetter(p: PropertyDesc)
    ensures HasGetter(ClearValue(p)) == HasGetter(p)
    ensures GetGetter(ClearValue(p)) == Undefined
    ensures GetValue(ClearGetter(p)) == Undefined
  {
  }

  /** The positive composite words make the attribute present and true; the
      NOT forms make it present and false. */
  lemma CompositeFlagWords(p: PropertyDesc)
    ensures PropEnumerable <= p.flags ==> HasEnumerable(p) && IsEnumerable(p)
    ensures PropConfigurable <= p.flags ==> HasConfigurable(p) && IsConfigurable(p)
    ensures PropWritable <= p.flags ==> HasWritable(p) && IsWritable(p)
    ensures p.flags * PropEnumerable == PropNotEnumerable ==> HasEnumerable(p) && !IsEnumerable(p)
    ensures p.flags * PropConfigurable == PropNotConfigurable ==> HasConfigurable(p) && !IsConfigurable(p)
    ensures p.flags * PropWritable == PropNotWritable ==> HasWritable(p) && !IsWritable(p)
  {
  }

  /** A descriptor made from one composite word alone reads back exactly that
      attribute and nothing else. */
  lemma EnumerableWords()
    ensures AsSpec(FromFlags(PropEnumerable)) == EmptySpec.(Enumerable := Some(true))
    ensures AsSpec(FromFlags(PropNotEnumerable)) == EmptySpec.(Enumerable := Some(false))
  {
  }

  lemma ConfigurableWords()
    ensures AsSpec(FromFlags(PropConfigurable)) == EmptySpec.(Configurable := Some(true))
    ensures AsSpec(FromFlags(PropNotConfigurable)) == EmptySpec.(Configurable := Some(false))
  {
  }

  lemma WritableWords()
    ensures AsSpec(FromFlags(PropWritable)) == EmptySpec.(Writable := Some(true))
    ensures AsSpec(FromFlags(PropNotWritable)) == EmptySpec.(Writable := Some(false))
  {
  }

  /** The composite word for one optional attribute: nothing when absent,
      the positive word for true, the NOT word for false. */
  function AttributeWord(o: Option<bool>, pos: Word, neg: Word): Word {
    if o.None? then {} else if o.value then pos else neg
  }

  /** Composite words combine with `|`: or-ing any choice of enumerable,
      configurable and writable words denotes the descriptor with exactly
      those attributes and nothing else. */
  lemma CombinedWords(e: Option<bool>, c: Option<bool>, w: Option<bool>)
    ensures AsSpec(FromFlags(AttributeWord(e, PropEnumerable, PropNotEnumerable)
                             + AttributeWord(c, PropConfigurable, PropNotConfigurable)
                             + AttributeWord(w, PropWritable, PropNotWritable)))
            == EmptySpec.(Enumerable := e, Configurable := c, Writable := w)
  {
  }

  /** Setting an attribute or slot twice keeps only the second value. */
  lemma SetEnumerableTwice(p: PropertyDesc, a: bool, b: bool)
    ensures SetEnumerable(SetEnumerable(p, a), b) == SetEnumerable(p, b)
  {
  }

  lemma SetConfigurableTwice(p: PropertyDesc, a: bool, b: bool)
    ensures SetConfigurable(SetConfigurable(p, a), b) == SetConfigurable(p, b)
  {
  }

  lemma SetWritableTwice(p: PropertyDesc, a: bool, b: bool)
    ensures SetWritable(SetWritable(p, a), b) == SetWritable(p, b)
  {
  }

  lemma SetSlotTwice(p: PropertyDesc, v: EjsVal, w: EjsVal)
    ensures SetValue(SetValue(p, v), w) == SetValue(p, w)
    ensures SetGetter(SetGetter(p, v), w) == SetGetter(p, w)
    ensures SetSetter(SetSetter(p, v), w) == SetSetter(p, w)
  {
  }

  /** Setters of different attributes, and of value and setter, commute. */
  lemma EnumerableWritableCommute(p: PropertyDesc, a: bool, b: bool)
    ensures SetEnumerable(SetWritable(p, a), b) == SetWritable(SetEnumerable(p, b), a)
  {
  }

  lemma ConfigurableEnumerableCommute(p: PropertyDesc, a: bool, b: bool)
    ensures SetConfigurable(SetEnumerable(p, a), b) == SetEnumerable(SetConfigurable(p, b), a)
  {
  }

  lemma WritableConfigurableCommute(p: PropertyDesc, a: bool, b: bool)
    ensures SetWritable(SetConfigurable(p, a), b) == SetConfigurable(SetWritable(p, b), a)
  {
  }

  lemma ValueSetterCommute(p: PropertyDesc, v: EjsVal, w: EjsVal)
    ensures SetSetter(SetValue(p, v), w) == SetValue(SetSetter(p, w), v)
  {
  }

  /** A clear undoes the matching set, up to the undefined it leaves behind,
      and clearing twice is clearing once. */
  lemma ClearAfterSet(p: PropertyDesc, v: EjsVal)
    ensures ClearValue(SetValue(p, v)) == ClearValue(p)
    ensures ClearGetter(SetGetter(p, v)) == ClearGetter(p)
    ensures ClearSetter(SetSetter(p, v)) == ClearSetter(p)
  {
  }

  lemma ClearTwice(p: PropertyDesc)
    ensures ClearValue(ClearValue(p)) == ClearValue(p)
    ensures ClearGetter(ClearGetter(p)) == ClearGetter(p)
    ensures ClearSetter(ClearSetter(p)) == ClearSetter(p)
    ensures ClearWritable(ClearWritable(p)) == ClearWritable(p)
  {
  }

  /** Builds, from the empty descriptor, the record for an ECMA-262 descriptor
      by applying one setter per present field. */
  function Materialize(d: SpecDesc): PropertyDesc {
    var p0 := FromFlags({});
    var p1 := if d.Enumerable.Some? then SetEnumerable(p0, d.Enumerable.value) else p0;
    var p2 := if d.Configurable.Some? then SetConfigurable(p1, d.Configurable.value) else p1;
    var p3 := if d.Writable.Some? then SetWritable(p2, d.Writable.value) else p2;
    var p4 := if d.Set.Some? then SetSetter(p3, d.Set.value) else p3;
    var p5 := if d.Get.Some? then SetGetter(p4, d.Get.value) else p4;
    if d.Value.Some? then SetValue(p5, d.Value.value) else p5
  }

  /** The setters applied by `Materialize` rebuild every descriptor whose
      value and get agree. */
  lemma MaterializeDenotes(d: SpecDesc)
    requires d.Value.Some? && d.Get.Some? ==> d.Value == d.Get
    ensures AsSpec(Materialize(d)) == d
  {
    var p0 := FromFlags({});
    var p1 := if d.Enumerable.Some? then SetEnumerable(p0, d.Enumerable.value) else p0;
    var p2 := if d.Configurable.Some? then SetConfigurable(p1, d.Configurable.value) else p1;
    var p3 := if d.Writable.Some? then SetWritable(p2, d.Writable.value) else p2;
    assert AsSpec(p3) == EmptySpec.(Enumerable := d.Enumerable, Configurable := d.Configurable,
                                    Writable := d.Writable);
    var p4 := if d.Set.Some? then SetSetter(p3, d.Set.value) else p3;
    assert AsSpec(p4) == AsSpec(p3).(Set := d.Set);
    var p5 := if d.Get.Some? then SetGetter(p4, d.Get.value) else p4;
    assert AsSpec(p5) == AsSpec(p4).(Get := d.Get);
  }

  /** The record can stand for exactly the ECMA-262 descriptors in which value
      and get, when both present, agree: every record denotes such a
      descriptor, and the setters reach every such descriptor. */
  lemma {:induction false} RepresentableDescriptors(d: SpecDesc)
    ensures (exists p :: AsSpec(p) == d) <==> (d.Value.Some? && d.Get.Some? ==> d.Value == d.Get)
    ensures (d.Value.Some? && d.Get.Some? ==> d.Value == d.Get) ==> AsSpec(Materialize(d)) == d
  {
    if d.Value.Some? && d.Get.Some? ==> d.Value == d.Get {
      MaterializeDenotes(d);
      var p := Materialize(d);
      assert AsSpec(p) == d;
    } else {
      forall p | true
        ensures AsSpec(p) != d
      {
        ValueAndGetterAgree(p);
      }
    }
  }
}
