/** The few `std::string` members the compiler's string helpers rely on, with
    the C++ library's conventions: positions are `size_t`, "not found" is the
    largest `size_t` value `npos`, and `erase` past the end throws
    `std::out_of_range`, modelled here as `None`. Strings are sequences of
    `char`. */
module StdString {
  import opened EjsValue

  /** `std::string::npos`, the largest 64-bit `size_t`. */
  const Npos: nat := 0xFFFF_FFFF_FFFF_FFFF

  /** Values a 64-bit `size_t` can hold. */
  type SizeT = n: nat | n <= Npos

  /** `size_t` addition, which wraps around past `npos`. */
  function AddSize(a: SizeT, b: SizeT): (r: SizeT)
    ensures a + b <= Npos ==> r == a + b
    ensures a + b > Npos ==> r == a + b - (Npos + 1)
  {
    (a + b) % (Npos + 1)
  }

  /** A string's length is always below `npos` (`max_size()` is smaller). */
  predicate ValidString(s: string) {
    |s| < Npos
  }

  function Min(a: nat, b: nat): nat {
    if a <= b then a else b
  }

  /** `s.find_first_not_of(chars, pos)`: the first position at or after `pos`
      whose character is not in `chars`, or `npos` when there is none. */
  function FindFirstNotOf(s: string, chars: string, pos: SizeT): (r: SizeT)
    requires ValidString(s)
    ensures r != Npos ==> pos <= r < |s| && s[r] !in chars
    ensures r != Npos ==> forall i | pos <= i < r :: s[i] in chars
    ensures r == Npos ==> forall i | pos <= i < |s| :: s[i] in chars
    decreases |s| - pos
  {
    if pos >= |s| then Npos
    else if s[pos] !in chars then pos
    else FindFirstNotOf(s, chars, pos + 1)
  }

  /** The search behind `find_last_not_of`: the last position below `n` whose
      character is not in `chars`, or `npos`. */
  function FindLastNotOfBelow(s: string, chars: string, n: nat): (r: SizeT)
    requires ValidString(s) && n <= |s|
    ensures r != Npos ==> r < n && s[r] !in chars
    ensures r != Npos ==> forall i | r < i < n :: s[i] in chars
    ensures r == Npos ==> forall i | 0 <= i < n :: s[i] in chars
  {
    if n == 0 then Npos
    else if s[n - 1] !in chars then n - 1
    else FindLastNotOfBelow(s, chars, n - 1)
  }

  /** `s.find_last_not_of(chars, pos)`: the last position at or before `pos`
      (and inside the string) whose character is not in `chars`, or `npos`. */
  function FindLastNotOf(s: string, chars: string, pos: SizeT): (r: SizeT)
    requires ValidString(s)
    ensures r != Npos ==> r <= pos && r < |s| && s[r] !in chars
    ensures r != Npos ==> forall i | r < i <= pos && i < |s| :: s[i] in chars
    ensures r == Npos ==> forall i | 0 <= i <= pos && i < |s| :: s[i] in chars
  {
    FindLastNotOfBelow(s, chars, if pos < |s| then pos + 1 else |s|)
  }

  /** `s.erase(pos, count)`: removes up to `count` characters starting at
      `pos`, fewer when the string ends first; a `pos` past the end throws. */
  function Erase(s: string, pos: SizeT, count: SizeT): (r: Option<string>)
    ensures r.None? <==> pos > |s|
    ensures r.Some? ==> |r.value| == |s| - Min(count, |s| - pos)
    ensures r.Some? ==> forall i | 0 <= i < pos :: r.value[i] == s[i]
    ensures r.Some? ==> forall i | pos <= i < |r.value| :: r.value[i] == s[i + Min(count, |s| - pos)]
  {
    if pos > |s| then None
    else Some(s[..pos] + s[pos + Min(count, |s| - pos)..])
  }
}
