/** The descriptor flag word and its bit layout.

    A machine word is modelled as the set of positions of its one bits, so
    that the C operators on flags read directly: `w | m` is `w + m`,
    `w & ~m` is `w - m`, and `(w & m) != 0` is `w * m != {}`. A single-bit
    constant `1 << k` is the set `{k}`. */
module PropertyFlags {

  /** A 32-bit word (`uint32_t`): one-bit positions 0 through 31. */
  type Word = w: set<nat> | forall k | k in w :: k < 32

  // Attribute value bits.
  const FlagEnumerable: Word := {0}
  const FlagConfigurable: Word := {1}
  const FlagWritable: Word := {2}
  // Bit 3 is unused.

  // "Explicitly set" bits, one per attribute and one per value slot.
  const FlagEnumerableSet: Word := {4}
  const FlagConfigurableSet: Word := {5}
  const FlagWritableSet: Word := {6}
  const FlagValueSet: Word := {7}
  const FlagGetterSet: Word := {8}
  const FlagSetterSet: Word := {9}

  const FlagSetMask: Word :=
    FlagEnumerableSet + FlagConfigurableSet + FlagWritableSet + FlagValueSet + FlagGetterSet + FlagSetterSet

  // Composite attribute words: the positive forms carry the value bit and the
  // set bit, the NOT forms only the set bit (an explicit false).
  const PropEnumerable: Word := FlagEnumerable + FlagEnumerableSet
  const PropConfigurable: Word := FlagConfigurable + FlagConfigurableSet
  const PropWritable: Word := FlagWritable + FlagWritableSet
  const PropNotEnumerable: Word := FlagEnumerableSet
  const PropNotConfigurable: Word := FlagConfigurableSet
  const PropNotWritable: Word := FlagWritableSet

  /** A masked word read as a Boolean: any bit on. */
  function FlagToBool(x: Word): bool {
    x != {}
  }

  /** Testing a single-bit mask is asking whether that bit is on. */
  lemma SingleBitTest(w: Word, m: Word)
    requires |m| == 1
    ensures FlagToBool(w * m) <==> m <= w
  {
    var k :| k in m;
    assert m == {k} by {
      forall j | j in m ensures j == k {
        if j != k {
          assert {j, k} <= m;
          assert |{j, k}| == 2;
          SubsetSize({j, k}, m);
        }
      }
    }
    if k in w {
      assert k in w * m;
    }
  }

  lemma SubsetSize(a: set<nat>, b: set<nat>)
    requires a <= b
    ensures |a| <= |b|
  {
    assert b == a + (b - a);
  }
}
