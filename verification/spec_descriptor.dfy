/** The Property Descriptor specification type of ECMA-262 5.1 section 8.10:
    a record whose every field is either present or absent, together with the
    default attribute values of section 8.6.1 (Table 7) that apply when a field
    is absent. */
module SpecDescriptor {
  import opened EjsValue

  datatype SpecDesc = SpecDesc(
    Value: Option<EjsVal>,
    Get: Option<EjsVal>,
    Set: Option<EjsVal>,
    Writable: Option<bool>,
    Enumerable: Option<bool>,
    Configurable: Option<bool>)

  /** The descriptor with no field present. */
  const EmptySpec := SpecDesc(None, None, None, None, None, None)

  /** Table 7: an absent Boolean attribute reads as false. */
  function BoolOrDefault(o: Option<bool>): bool {
    o.GetOr(false)
  }

  /** Table 7: an absent value, get or set reads as undefined. */
  function ValueOrDefault(o: Option<EjsVal>): EjsVal {
    o.GetOr(Undefined)
  }
}
