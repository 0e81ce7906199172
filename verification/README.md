# Ejs object header and `trim`, modelled in Dafny

This project models two small, fully visible pieces of the Ejs JavaScript
runtime and compiler:

* **The property-descriptor flag algebra of `runtime/ejs-object.h`.** An
  `EJSPropertyDesc` is a 32-bit flag word plus value slots:
  * For each of enumerable, configurable and writable, the word has a value
    bit and an independent "explicitly set" bit.
  * The value, getter and setter slots each have their own "explicitly set"
    bit.
  * `value` and `getter` share one union slot.

  The set, clear, has, is and get macros are modelled as pure functions on a
  `PropertyDesc` record. The same header also holds:
  * the extensible bit packed into the collector's header word;
  * the `EJSSpecOps` table, with its `OP_INHERIT` sentinel and the
    class-definition macros.
* **`trim` in `ejs-llvm/ejs-llvm.cpp`.** It strips leading and trailing
  spaces and newlines with `find_first_not_of`, `find_last_not_of` and
  `erase`. It is modelled on top of a small model of those `std::string`
  members, including the `size_t` wrap-around of `npos + 1`.

Every descriptor contract is stated against `AsSpec`. This abstraction
function maps the C record to the Property Descriptor of ECMA-262 5.1,
section 8.10:
* A field is present exactly when its "set" bit is on.
* A defaulting reader returns the Table 7 default of section 8.6.1 for an
  absent field: `false` for the Boolean attributes, `undefined` for value,
  get and set.

So each set, clear and read macro is checked against the standard's record
of optional fields, not against its own bit twiddling. The remaining
contracts say "nothing else changes" about the raw flag bits and slots.

Machine words are modelled as the set of positions of their one bits:
* `w | m` becomes `w + m`.
* `w & ~m` becomes `w - m`.
* `(w & m) != 0` becomes `w * m != {}`.
* The constant `1 << k` becomes `{k}`.

Modules, one per file:

| file | module | contents |
|---|---|---|
| values.dfy | `EjsValue` | `Option`, and `EjsVal` (an `ejsval`: undefined or an opaque value) |
| spec_descriptor.dfy | `SpecDescriptor` | the ECMA-262 Property Descriptor record and the Table 7 defaults |
| flags.dfy | `PropertyFlags` | the flag word, its bit constants, the composite `EJS_PROP_*` words, `FLAG_TO_BOOL` |
| property_desc.dfy | `EjsPropertyDesc` | the descriptor record and every `_ejs_property_desc_*` macro |
| property_desc_laws.dfy | `PropertyDescLaws` | laws relating the macros: defaults, aliasing, last write wins, commutation, representable descriptors |
| spec_ops.dfy | `EjsSpecOps` | the operations table, `OP_INHERIT`, `EJS_DEFINE_CLASS`, `EJS_DEFINE_INHERIT_ALL_CLASS` |
| object_header.dfy | `EjsObjectHeader` | the object record and the extensible bit in its header word |
| cpp_string.dfy | `StdString` | `npos`, `size_t` addition, `find_first_not_of`, `find_last_not_of`, `erase` |
| trim.dfy | `EjsLlvm` | `trim`, with reference definitions of leading and trailing padding |
| trim_laws.dfy | `TrimLaws` | what `trim` promises: the decomposition, the unpadded ends, idempotence, examples |

## Model

| member | source | states |
|---|---|---|
| PropertyFlags.SingleBitTest | runtime/ejs-object.h:69 | `FLAG_TO_BOOL` (modelled by `FlagToBool`, "some bit on") of a word masked with a single-bit constant is true exactly when that bit is on in the word |
| EjsPropertyDesc.Read | runtime/ejs-object.h:35-39 | reading a member whose field is present yields that field of the denoted descriptor; `value` and `getter` are one union member, so reading either yields whichever of value and get is present |
| EjsPropertyDesc.SetEnumerable | runtime/ejs-object.h:71 | afterwards enumerable is present and equal to `v`, and every other field of the descriptor is as before; no flag bit outside the enumerable pair changes, and neither slot changes |
| EjsPropertyDesc.SetConfigurable | runtime/ejs-object.h:72 | afterwards configurable is present and equal to `v`, and every other field is as before; only the configurable bit pair changes, and the slots do not |
| EjsPropertyDesc.SetWritable | runtime/ejs-object.h:73 | afterwards writable is present and equal to `v`, and every other field is as before; only the writable bit pair changes, and the slots do not |
| EjsPropertyDesc.SetValue | runtime/ejs-object.h:74 | afterwards value is present and equal to `v`; a present get now also reads `v`, because of the shared slot; set and the three attributes are unchanged; only the value-set bit changes among the flags |
| EjsPropertyDesc.SetGetter | runtime/ejs-object.h:75 | afterwards get is present and equal to `v`; a present value now also reads `v`; any read of the value member yields `v`; only the getter-set bit changes |
| EjsPropertyDesc.SetSetter | runtime/ejs-object.h:76 | afterwards set is present and equal to `v`, and every other field is as before; the shared value/getter slot is untouched |
| EjsPropertyDesc.ClearValue | runtime/ejs-object.h:78 | afterwards value is absent and the shared slot holds undefined, so a present get reads undefined; the other fields and all flag bits except value-set are unchanged |
| EjsPropertyDesc.ClearWritable | runtime/ejs-object.h:79 | afterwards writable is absent and every other field is as before; the raw writable value bit is kept, and only the writable-set bit changes |
| EjsPropertyDesc.ClearGetter | runtime/ejs-object.h:81 | afterwards get is absent and the shared slot holds undefined, so a present value reads undefined; only the getter-set bit changes |
| EjsPropertyDesc.ClearSetter | runtime/ejs-object.h:82 | afterwards set is absent and the setter slot holds undefined; only the setter-set bit changes, and the shared slot is untouched |
| EjsPropertyDesc.HasEnumerable | runtime/ejs-object.h:84 | true exactly when enumerable is present in the denoted descriptor |
| EjsPropertyDesc.HasConfigurable | runtime/ejs-object.h:85 | true exactly when configurable is present |
| EjsPropertyDesc.HasWritable | runtime/ejs-object.h:86 | true exactly when writable is present |
| EjsPropertyDesc.HasValue | runtime/ejs-object.h:87 | true exactly when value is present |
| EjsPropertyDesc.HasGetter | runtime/ejs-object.h:88 | true exactly when get is present |
| EjsPropertyDesc.HasSetter | runtime/ejs-object.h:89 | true exactly when set is present |
| EjsPropertyDesc.IsEnumerable | runtime/ejs-object.h:94 | the enumerable attribute of the denoted descriptor, or false (Table 7) when absent |
| EjsPropertyDesc.IsConfigurable | runtime/ejs-object.h:95 | the configurable attribute, or false when absent |
| EjsPropertyDesc.IsWritable | runtime/ejs-object.h:96 | the writable attribute, or false when absent |
| EjsPropertyDesc.GetValue | runtime/ejs-object.h:98 | the value field, or undefined when absent |
| EjsPropertyDesc.GetGetter | runtime/ejs-object.h:99 | the get field, or undefined when absent |
| EjsPropertyDesc.GetSetter | runtime/ejs-object.h:100 | the set field, or undefined when absent |
| PropertyDescLaws.HasIgnoresValueBit | runtime/ejs-object.h:84-96 | flipping an attribute's value bit never changes its `has_*` answer; it changes `is_*` exactly when the attribute is present |
| PropertyDescLaws.SetMaskMeansEmpty | runtime/ejs-object.h:25 | a descriptor has no bit of the set mask on exactly when it denotes the empty descriptor, and then every reader returns its default |
| PropertyDescLaws.ClearForgets | runtime/ejs-object.h:78-82 | after clearing value, getter, setter or writable, the matching `has_*` is false and the matching reader returns its default, whatever was stored |
| PropertyDescLaws.ClearWritableKeepsRawBit | runtime/ejs-object.h:79 | clearing writable keeps the raw value bit, so turning the set bit back on by hand makes `is_writable` answer with that raw bit (which may differ from the old answer when writable was absent); setting writable afterwards gives the same result as setting it directly |
| PropertyDescLaws.GetterAliasesValue | runtime/ejs-object.h:35-38 | after `set_getter(p, g)`, reading the value member yields `g`, and `get_value` returns `g` whenever value is present; value presence is unchanged |
| PropertyDescLaws.ValueAndGetterAgree | runtime/ejs-object.h:35-38 | whenever both value and get are present they read the same slot and are equal |
| PropertyDescLaws.ClearValueClobbersGetter | runtime/ejs-object.h:64-67 | clearing value keeps get present but makes it read undefined, and clearing the getter makes `get_value` undefined |
| PropertyDescLaws.CompositeFlagWords | runtime/ejs-object.h:27-32 | a word containing a positive composite makes that attribute present and true; a word whose pair equals the `NOT_*` composite makes it present and false |
| PropertyDescLaws.EnumerableWords | runtime/ejs-object.h:27 | a descriptor built from `EJS_PROP_ENUMERABLE` alone denotes `{enumerable: true}`, and one from `EJS_PROP_NOT_ENUMERABLE` denotes `{enumerable: false}` |
| PropertyDescLaws.ConfigurableWords | runtime/ejs-object.h:28 | the configurable composites denote `{configurable: true}` and `{configurable: false}` |
| PropertyDescLaws.WritableWords | runtime/ejs-object.h:29 | the writable composites denote `{writable: true}` and `{writable: false}` |
| PropertyDescLaws.CombinedWords | runtime/ejs-object.h:27-32 | for every choice of absent, true or false for each of enumerable, configurable and writable, or-ing the matching composite words gives exactly the descriptor with those three attributes and no other field |
| PropertyDescLaws.SetEnumerableTwice | runtime/ejs-object.h:45-53 | setting enumerable twice is the same as setting it once to the second value |
| PropertyDescLaws.SetConfigurableTwice | runtime/ejs-object.h:45-53 | setting configurable twice keeps only the second value |
| PropertyDescLaws.SetWritableTwice | runtime/ejs-object.h:45-53 | setting writable twice keeps only the second value |
| PropertyDescLaws.SetSlotTwice | runtime/ejs-object.h:55-58 | setting value, getter or setter twice keeps only the second value |
| PropertyDescLaws.EnumerableWritableCommute | runtime/ejs-object.h:45-53 | setting enumerable and writable in either order gives the same descriptor |
| PropertyDescLaws.ConfigurableEnumerableCommute | runtime/ejs-object.h:45-53 | setting configurable and enumerable in either order gives the same descriptor |
| PropertyDescLaws.WritableConfigurableCommute | runtime/ejs-object.h:45-53 | setting writable and configurable in either order gives the same descriptor |
| PropertyDescLaws.ValueSetterCommute | runtime/ejs-object.h:55-58 | setting value and setter in either order gives the same descriptor |
| PropertyDescLaws.ClearAfterSet | runtime/ejs-object.h:55-67 | clearing a slot right after setting it is the same as clearing it |
| PropertyDescLaws.ClearTwice | runtime/ejs-object.h:60-67 | every clear macro is idempotent |
| PropertyDescLaws.MaterializeDenotes | runtime/ejs-object.h:71-76 | applying the set macros for each present field, starting from the empty record, yields a record that denotes exactly the given ECMA-262 descriptor, whenever its value and get (if both present) agree |
| PropertyDescLaws.RepresentableDescriptors | runtime/ejs-object.h:13-40 | an ECMA-262 descriptor is denoted by some record exactly when its value and get, if both present, are equal; every such descriptor is reached from the empty record by the set macros (`Materialize`, one setter per present field) |
| EjsSpecOps.Slots | runtime/ejs-object.h:159-183 | a table has exactly fifteen operation slots besides its class name |
| EjsSpecOps.DefineClass | runtime/ejs-object.h:186-204 | the table carries the given class name, and its i-th slot is the macro's i-th operation argument, in declaration order |
| EjsSpecOps.DefineClassFromSlots | runtime/ejs-object.h:186-204 | every table is what the class-definition macro builds from its own name and slots |
| EjsSpecOps.InheritAllExactly | runtime/ejs-object.h:205 | a table is the inherit-all class of its name exactly when all fifteen of its slots hold `OP_INHERIT`, in both directions |
| EjsSpecOps.DefineInheritAllClass | runtime/ejs-object.h:205 | every one of the fifteen slots is the inherit sentinel, so the table is unresolved, and the class name is kept |
| EjsObjectHeader.ShiftLeft | runtime/ejs-object.h:212 | bit `k` of `w << n` is on exactly when `k >= n` and bit `k - n` of `w` is on |
| EjsObjectHeader.ExtensibleFlagShifted | runtime/ejs-object.h:210-212 | the shifted extensible flag is the single bit at the shift position |
| EjsObjectHeader.IsExtensible | runtime/ejs-object.h:217 | true exactly when the extensible bit of the header word is on |
| EjsObjectHeader.SetExtensible | runtime/ejs-object.h:214 | afterwards the object is extensible; every other header bit, the ops table, the prototype and the property map are unchanged |
| EjsObjectHeader.ClearExtensible | runtime/ejs-object.h:215 | afterwards the object is not extensible; every other header bit and every other field are unchanged |
| EjsObjectHeader.LastWriteWins | runtime/ejs-object.h:214-217 | after any run of set and clear operations, `IS_EXTENSIBLE` answers with the most recent one, or with the original bit if there was none; the other header bits and fields are as they were |
| EjsObjectHeader.SetClearInverse | runtime/ejs-object.h:214-215 | clearing after setting restores an object that was not extensible, and setting after clearing restores one that was |
| StdString.AddSize | ejs-llvm/ejs-llvm.cpp:22 | `size_t` addition equals the integer sum when that fits, and wraps past `npos` otherwise |
| StdString.FindFirstNotOf | ejs-llvm/ejs-llvm.cpp:21 | returns a position at or after `pos` whose character is outside the set, with every earlier position from `pos` inside it; returns `npos` only when every position from `pos` is inside the set |
| StdString.FindLastNotOfBelow | ejs-llvm/ejs-llvm.cpp:22 | returns the last position below `n` whose character is outside the set, or `npos` when every such position is inside it |
| StdString.FindLastNotOf | ejs-llvm/ejs-llvm.cpp:22 | returns the last position at or before `pos`, and inside the string, whose character is outside the set, or `npos` when there is none |
| StdString.Erase | ejs-llvm/ejs-llvm.cpp:21-22 | fails (`out_of_range`) exactly when `pos` is past the end; otherwise keeps the first `pos` characters and removes `min(count, size - pos)` characters after them |
| EjsLlvm.Trim | ejs-llvm/ejs-llvm.cpp:19-24 | an all-padding input yields the empty string; otherwise the result is the input between its leading and its trailing run of spaces and newlines |
| EjsLlvm.AfterLastInRange | ejs-llvm/ejs-llvm.cpp:22 | the position after the last non-padding character is never past the end, because `npos + 1` wraps to 0, so the second erase cannot throw |
| EjsLlvm.FirstErase | ejs-llvm/ejs-llvm.cpp:21 | the first erase empties an all-padding string, and otherwise removes exactly the leading padding |
| EjsLlvm.SecondErase | ejs-llvm/ejs-llvm.cpp:22 | the second erase keeps everything up to the last non-padding character, and empties a string that has none |
| EjsLlvm.TrimSteps | ejs-llvm/ejs-llvm.cpp:21-22 | after both erases, what remains ends exactly where the input's trailing padding begins |
| TrimLaws.TrimEmptyIff | ejs-llvm/ejs-llvm.cpp:21-22 | the result is empty exactly when the input consists only of spaces and newlines |
| TrimLaws.TrimUnpadded | ejs-llvm/ejs-llvm.cpp:21-22 | the result never begins or ends with a space or a newline |
| TrimLaws.TrimOnlyRemovesPadding | ejs-llvm/ejs-llvm.cpp:21-22 | the input equals prefix + result + suffix for an all-padding prefix and suffix |
| TrimLaws.TrimPadding | ejs-llvm/ejs-llvm.cpp:21-22 | trimming any all-padding prefix + unpadded core + all-padding suffix gives back exactly the core |
| TrimLaws.TrimKeepsUnpadded | ejs-llvm/ejs-llvm.cpp:21-22 | a string that neither begins nor ends with padding is returned unchanged |
| TrimLaws.TrimIdempotent | ejs-llvm/ejs-llvm.cpp:19-24 | trimming twice is the same as trimming once |
| TrimLaws.TrimKeepsOtherWhitespace | ejs-llvm/ejs-llvm.cpp:21-22 | tabs and carriage returns at the ends are kept: `"\t x\r"` is returned unchanged |
| TrimLaws.TrimKeepsInnerPadding | ejs-llvm/ejs-llvm.cpp:21-22 | padding between non-padding characters stays: `" \n a \n b\n "` trims to `"a \n b"` |
| TrimLaws.TrimAllPadding | ejs-llvm/ejs-llvm.cpp:21-22 | an example of an all-padding input: `" \n\n "` trims to `""` (the general law is `TrimEmptyIff`) |

## Left out

- The bodies of `Get`, `Put`, `GetMethod`, `HasProperty`, `DeletePropertyOrThrow`, `ToPropertyKey`, `ToPropertyDescriptor`, `FromPropertyDescriptor`, `IsDataDescriptor` and `IsAccessorDescriptor` are not modelled: only their prototypes appear in `runtime/ejs-object.h`.
- The same holds for `_ejs_propertydesc_new`/`_ejs_propertydesc_free`, the `_ejs_propertymap_*` routines and the property iterator. The property map is an opaque reference in the object record.
- `_ejs_Class_initialize`, which resolves inherited slots against a parent table, is declared but not defined in the header, so it is not modelled. Only the sentinel and the "resolved" predicate are.
- The `OP` and `CLASSNAME` dispatch macros are left out. They are a field read behind a null assertion.
- The value of `EJS_GC_USER_FLAGS_SHIFT` and the collector's own header bits live outside this header. The shift is a parameter, required to be below 31 because the unshifted flag is an `int` literal. The header word is a set of bit positions of unstated width.
- `ejsval` is opaque: only `undefined` is singled out. Its tagging and boxing are not modelled.
- Function-pointer slots are an address or null. The functions they point to are not modelled.
- The header's generic macros (`_ejs_property_desc_set_flag`, `_set_value_flag`, `_clear_flag`, `_clear_value_flag`, `_get_flag_default`, `_get_value_flag_default`) have no member of their own. Each named macro is modelled as that macro expanded with its own bits and member. Every use in the header is one of those expansions.
- `node-llvm/irbuilder.cpp` is a wrapper around foreign LLVM calls, and `_ejs_llvm_init` in `ejs-llvm/ejs-llvm.cpp` only registers initialisers. `test/esprima-roundtrip2.js` drives external parser libraries. None of them is part of this model.
- `trim` works in place and returns a reference to its argument. The model returns the new string instead, which is the value the caller sees through either.
- A `std::string` is assumed shorter than `npos` (`ValidString`), as every real string is, since `max_size()` is smaller.
- The object record's `ops` field is a pointer in C. The model holds the table itself, since tables are never mutated through an object.

## Notes

- `EJSSpecOps` has fifteen function slots plus `class_name` (runtime/ejs-object.h:159-183), so `SlotCount` is 15 and `DefineClass` takes fifteen slot arguments after the name.
- Section 8.10 of ECMA-262 5.1 says a property descriptor may not be both a data descriptor (value or writable present) and an accessor descriptor (get or set present). The macros do not enforce this. A record can have both the value-set and the getter-set bit on, and then the two fields read the shared union slot and are equal (`ValueAndGetterAgree`, `RepresentableDescriptors`).
