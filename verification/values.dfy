/** Values the runtime stores in property descriptors and object headers. */
module EjsValue {

  /** A descriptor field that may be absent, or a library call that may
      fail (an `erase` position past the end). */
  datatype Option<+T> = None | Some(value: T) {

    /** The field itself when present, the fallback when absent. */
    function GetOr(default: T): T {
      if Some? then value else default
    }
  }

  /** An `ejsval`. The runtime packs every language value into one tagged word;
      the descriptor macros only ever single out `undefined` (the default of
      value, get and set), so every other value is an opaque identity. */
  datatype EjsVal = Undefined | Defined(id: nat)
}
