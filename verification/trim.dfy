/** The compiler binding's `trim` helper: strips leading and trailing
    spaces and newlines from a string in place and returns it. Only the two
    characters ' ' and '\n' count as padding; tabs, carriage returns and
    every other character are kept. */
module EjsLlvm {
  import opened EjsValue
  import opened StdString

  /** The padding characters trim removes. */
  const PaddingChars: string := " \n"

  predicate IsPadding(c: char) {
    c in PaddingChars
  }

  /** Every character of `s` at positions `lo` up to (not including) `hi` is padding. */
  predicate PaddingBetween(s: string, lo: int, hi: int) {
    forall i | lo <= i < hi && 0 <= i < |s| :: IsPadding(s[i])
  }

  predicate AllPadding(s: string) {
    PaddingBetween(s, 0, |s|)
  }

  /** The end of the padding run that starts at `k`. */
  function LeadingFrom(s: string, k: nat): (n: nat)
    requires k <= |s|
    ensures k <= n <= |s|
    ensures PaddingBetween(s, k, n)
    ensures n < |s| ==> !IsPadding(s[n])
    decreases |s| - k
  {
    if k < |s| && IsPadding(s[k]) then LeadingFrom(s, k + 1) else k
  }

  /** The length of the longest all-padding prefix. */
  function LeadingPadding(s: string): (n: nat)
    ensures n <= |s|
    ensures PaddingBetween(s, 0, n)
    ensures n < |s| ==> !IsPadding(s[n])
  {
    LeadingFrom(s, 0)
  }

  /** The length of the padding run that ends `k` characters before the end. */
  function TrailingFrom(s: string, k: nat): (n: nat)
    requires k <= |s|
    ensures k <= n <= |s|
    ensures PaddingBetween(s, |s| - n, |s| - k)
    ensures n < |s| ==> !IsPadding(s[|s| - n - 1])
    decreases |s| - k
  {
    if k < |s| && IsPadding(s[|s| - k - 1]) then TrailingFrom(s, k + 1) else k
  }

  /** The length of the longest all-padding suffix. */
  function TrailingPadding(s: string): (n: nat)
    ensures n <= |s|
    ensures PaddingBetween(s, |s| - n, |s|)
    ensures n < |s| ==> !IsPadding(s[|s| - n - 1])
  {
    TrailingFrom(s, 0)
  }

  /** A padding prefix ended by a non-padding character (or by the end) has
      exactly the computed length. */
  lemma LeadingPaddingUnique(s: string, n: nat)
    requires n <= |s| && PaddingBetween(s, 0, n) && (n < |s| ==> !IsPadding(s[n]))
    ensures LeadingPadding(s) == n
  {
  }

  lemma TrailingPaddingUnique(s: string, n: nat)
    requires n <= |s| && PaddingBetween(s, |s| - n, |s|) && (n < |s| ==> !IsPadding(s[|s| - n - 1]))
    ensures TrailingPadding(s) == n
  {
  }

  /** `trim(str)`: erase from the front up to the first non-padding
      character, then erase everything after the last one. When the string
      is all padding the first search yields `npos`, the first erase empties
      the string, the second search yields `npos` again, and `npos + 1`
      wraps to position 0. */
  function Trim(str: string): (r: string)
    requires ValidString(str)
    ensures AllPadding(str) ==> r == []
    ensures !AllPadding(str) ==>
              (LeadingPadding(str) < |str| - TrailingPadding(str)
               && r == str[LeadingPadding(str)..|str| - TrailingPadding(str)])
  {
    var first := FindFirstNotOf(str, PaddingChars, 0);
    match Erase(str, 0, first)
    case None => assert false; str
    case Some(prefixGone) =>
      var last := FindLastNotOf(prefixGone, PaddingChars, Npos);
      AfterLastInRange(prefixGone, last);
      match Erase(prefixGone, AddSize(last, 1), Npos)
      case None => assert false; prefixGone
      case Some(trimmed) =>
        FirstErase(str, first, prefixGone);
        SecondErase(prefixGone, last, trimmed);
        if first == Npos then trimmed
        else
          TrimSteps(str, first, prefixGone, last, trimmed);
          trimmed
  }

  /** The position after the last non-padding character is never past the
      end: on `npos` the addition wraps to 0. */
  lemma AfterLastInRange(s: string, last: SizeT)
    requires ValidString(s) && last == FindLastNotOf(s, PaddingChars, Npos)
    ensures AddSize(last, 1) <= |s|
  {
    if last == Npos {
      assert AddSize(last, 1) == 0;
    } else {
      assert last < |s|;
      assert AddSize(last, 1) == last + 1;
    }
  }

  /** The first erase: with no non-padding character the string empties;
      otherwise exactly the leading padding goes. */
  lemma FirstErase(str: string, first: SizeT, prefixGone: string)
    requires ValidString(str)
    requires first == FindFirstNotOf(str, PaddingChars, 0)
    requires Erase(str, 0, first) == Some(prefixGone)
    ensures first == Npos ==> AllPadding(str) && prefixGone == []
    ensures first != Npos ==> first < |str| && first == LeadingPadding(str) && prefixGone == str[first..]
    ensures first != Npos ==> !AllPadding(str) && prefixGone != [] && !IsPadding(prefixGone[0])
  {
    if first != Npos {
      LeadingPaddingUnique(str, first);
      assert prefixGone == str[first..];
    }
  }

  /** The second erase keeps everything up to the last non-padding
      character; with none, `npos + 1` wraps to 0 and everything goes. */
  lemma SecondErase(s: string, last: SizeT, trimmed: string)
    requires ValidString(s)
    requires last == FindLastNotOf(s, PaddingChars, Npos)
    requires Erase(s, AddSize(last, 1), Npos) == Some(trimmed)
    ensures last == Npos ==> AllPadding(s) && trimmed == []
    ensures s != [] && !IsPadding(s[0]) ==> last != Npos
    ensures last != Npos ==> last < |s| && !IsPadding(s[last]) && PaddingBetween(s, last + 1, |s|)
                             && trimmed == s[..last + 1]
  {
    if last != Npos {
      assert trimmed == s[..last + 1];
    }
  }

  /** The two erases combined: what the second erase keeps ends at the last
      non-padding character of the input, so the trailing padding of the
      input is exactly what was cut. */
  lemma TrimSteps(str: string, first: nat, prefixGone: string, last: nat, trimmed: string)
    requires first == LeadingPadding(str) && prefixGone == str[first..]
    requires last < |prefixGone| && !IsPadding(prefixGone[last])
    requires PaddingBetween(prefixGone, last + 1, |prefixGone|)
    requires trimmed == prefixGone[..last + 1]
    ensures LeadingPadding(str) < |str| - TrailingPadding(str)
    ensures trimmed == str[LeadingPadding(str)..|str| - TrailingPadding(str)]
  {
    var end := first + last + 1;
    assert !IsPadding(str[end - 1]) by { assert str[end - 1] == prefixGone[last]; }
    assert PaddingBetween(str, end, |str|) by {
      forall i | end <= i < |str| ensures IsPadding(str[i]) {
        assert str[i] == prefixGone[i - first];
      }
    }
    TrailingPaddingUnique(str, |str| - end);
  }
}
