/** What `trim` promises its callers: it removes exactly the surrounding
    spaces and newlines, nothing inside, and trimming twice is trimming once. */
module TrimLaws {
  import opened StdString
  import opened EjsLlvm

  /** A string that neither starts nor ends with padding. */
  predicate Unpadded(s: string) {
    s == [] || (!IsPadding(s[0]) && !IsPadding(s[|s| - 1]))
  }

  /** The result is empty exactly when the input is all padding. */
  lemma TrimEmptyIff(s: string)
    requires ValidString(s)
    ensures Trim(s) == [] <==> AllPadding(s)
  {
  }

  /** The result never starts or ends with padding. */
  lemma TrimUnpadded(s: string)
    requires ValidString(s)
    ensures Unpadded(Trim(s))
  {
    if !AllPadding(s) {
      var r := Trim(s);
      assert r[0] == s[LeadingPadding(s)];
      assert r[|r| - 1] == s[|s| - TrailingPadding(s) - 1];
    }
  }

  /** The counted prefix and suffix are all padding. */
  lemma PaddingEnds(s: string)
    ensures AllPadding(s[..LeadingPadding(s)])
    ensures AllPadding(s[|s| - TrailingPadding(s)..])
  {
    var pre, post := s[..LeadingPadding(s)], s[|s| - TrailingPadding(s)..];
    forall k | 0 <= k < |pre| ensures IsPadding(pre[k]) {
      assert pre[k] == s[k];
    }
    forall k | 0 <= k < |post| ensures IsPadding(post[k]) {
      assert post[k] == s[|s| - TrailingPadding(s) + k];
    }
  }

  /** Only padding is removed: the input is the result with an all-padding
      prefix and an all-padding suffix around it, which this lemma returns. */
  lemma TrimOnlyRemovesPadding(s: string) returns (pre: string, post: string)
    requires ValidString(s)
    ensures AllPadding(pre) && AllPadding(post)
    ensures s == pre + Trim(s) + post
  {
    if AllPadding(s) {
      pre, post := s, [];
      assert s == pre + Trim(s) + post;
    } else {
      var i, j := LeadingPadding(s), |s| - TrailingPadding(s);
      PaddingEnds(s);
      SplitThree(s, i, j);
      pre, post := s[..i], s[j..];
    }
  }

  lemma SplitThree(s: string, i: nat, j: nat)
    requires i <= j <= |s|
    ensures s == s[..i] + s[i..j] + s[j..]
  {
  }

  /** Padding put around an unpadded string is exactly what trim takes
      away: trimming `pre + core + post` gives back `core`. */
  lemma {:induction false} TrimPadding(pre: string, core: string, post: string)
    requires AllPadding(pre) && AllPadding(post) && Unpadded(core)
    requires ValidString(pre + core + post)
    ensures Trim(pre + core + post) == core
  {
    var s := pre + core + post;
    if core == [] {
      assert AllPadding(s) by {
        forall i | 0 <= i < |s| ensures IsPadding(s[i]) {
          if i < |pre| { assert s[i] == pre[i]; } else { assert s[i] == post[i - |pre|]; }
        }
      }
    } else {
      assert s[|pre|] == core[0];
      assert PaddingBetween(s, 0, |pre|) by {
        forall i | 0 <= i < |pre| ensures IsPadding(s[i]) { assert s[i] == pre[i]; }
      }
      LeadingPaddingUnique(s, |pre|);
      var end := |pre| + |core|;
      assert s[end - 1] == core[|core| - 1];
      assert PaddingBetween(s, end, |s|) by {
        forall i | end <= i < |s| ensures IsPadding(s[i]) { assert s[i] == post[i - end]; }
      }
      TrailingPaddingUnique(s, |post|);
      assert !AllPadding(s) by { assert !IsPadding(s[|pre|]); }
      assert s[|pre|..end] == core;
    }
  }

  /** Unpadded strings are left alone. */
  lemma TrimKeepsUnpadded(s: string)
    requires ValidString(s) && Unpadded(s)
    ensures Trim(s) == s
  {
    assert AllPadding([]);
    TrimPadding([], s, []);
    assert [] + s + [] == s;
  }

  /** Trimming twice is trimming once. */
  lemma TrimIdempotent(s: string)
    requires ValidString(s)
    ensures Trim(Trim(s)) == Trim(s)
  {
    TrimUnpadded(s);
    TrimKeepsUnpadded(Trim(s));
  }

  /** Tabs and carriage returns are not padding. */
  lemma TrimKeepsOtherWhitespace()
    ensures Trim("\t x\r") == "\t x\r"
  {
    TrimKeepsUnpadded("\t x\r");
  }

  /** Padding between non-padding characters stays. */
  lemma TrimKeepsInnerPadding()
    ensures Trim(" \n a \n b\n ") == "a \n b"
  {
    var pre, core, post := " \n ", "a \n b", "\n ";
    assert AllPadding(pre) && AllPadding(post) && Unpadded(core);
    assert pre + core + post == " \n a \n b\n ";
    TrimPadding(pre, core, post);
  }

  /** A string of nothing but padding trims to the empty string. */
  lemma TrimAllPadding()
    ensures Trim(" \n\n ") == ""
  {
    assert AllPadding(" \n\n ");
  }
}
