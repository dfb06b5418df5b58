/** Character-level string operations shared by the path, key and URL models. */
module Strings {
  import opened Results

  /** Every character of `s` is a slash (the empty string included). */
  predicate AllSlashes(s: string) {
    forall i :: 0 <= i < |s| ==> s[i] == '/'
  }

  /** `s` neither starts nor ends with a slash. */
  predicate Unpadded(s: string) {
    s == [] || (s[0] != '/' && s[|s| - 1] != '/')
  }

  predicate EndsWith(s: string, suffix: string) {
    |suffix| <= |s| && s[|s| - |suffix|..] == suffix
  }

  /** Removes the leading run of slashes: the `^\/+` alternative of the trimming pattern. */
  function DropLeadingSlashes(s: string): (r: string)
    ensures |r| <= |s| && r == s[|s| - |r|..]
    ensures AllSlashes(s[..|s| - |r|])
    ensures r == [] || r[0] != '/'
    decreases |s|
  {
    if |s| > 0 && s[0] == '/' then DropLeadingSlashes(s[1..]) else s
  }

  /** Removes the trailing run of slashes: the `\/+$` alternative of the trimming pattern. */
  function DropTrailingSlashes(s: string): (r: string)
    ensures |r| <= |s| && r == s[..|r|]
    ensures AllSlashes(s[|r|..])
    ensures r == [] || r[|r| - 1] != '/'
    decreases |s|
  {
    if |s| > 0 && s[|s| - 1] == '/' then DropTrailingSlashes(s[..|s| - 1]) else s
  }

  /**
   * `s.replace(/^\/+|\/+$/g, '')`: the global replacement deletes the leading
   * run of slashes and then the trailing one (a string of slashes only is
   * consumed entirely by the first alternative).
   */
  function TrimSlashes(s: string): (r: string)
    ensures Unpadded(r)
    ensures exists a, b :: s == a + r + b && AllSlashes(a) && AllSlashes(b)
  {
    var inner := DropLeadingSlashes(s);
    var r := DropTrailingSlashes(inner);
    TrimmedIsFramed(s, inner, r);
    r
  }

  /** A slash-only prefix of `s` and a slash-only suffix of the rest frame what is left between them. */
  lemma TrimmedIsFramed(s: string, inner: string, r: string)
    requires |inner| <= |s| && inner == s[|s| - |inner|..] && AllSlashes(s[..|s| - |inner|])
    requires |r| <= |inner| && r == inner[..|r|] && AllSlashes(inner[|r|..])
    requires inner == [] || inner[0] != '/'
    requires r == [] || r[|r| - 1] != '/'
    ensures Unpadded(r)
    ensures exists a, b :: s == a + r + b && AllSlashes(a) && AllSlashes(b)
  {
    if r != [] {
      assert r[0] == inner[0];
    }
    var lead, trail := s[..|s| - |inner|], inner[|r|..];
    assert s == lead + inner;
    assert inner == r + trail;
    assert s == lead + r + trail;
  }

  lemma {:induction false} DropLeadingPastSlashes(a: string, t: string)
    requires AllSlashes(a)
    requires t == [] || t[0] != '/'
    ensures DropLeadingSlashes(a + t) == t
    decreases |a|
  {
    if a != [] {
      assert (a + t)[1..] == a[1..] + t;
      DropLeadingPastSlashes(a[1..], t);
    } else {
      assert a + t == t;
    }
  }

  lemma {:induction false} DropTrailingPastSlashes(t: string, b: string)
    requires AllSlashes(b)
    requires t == [] || t[|t| - 1] != '/'
    ensures DropTrailingSlashes(t + b) == t
    decreases |b|
  {
    if b != [] {
      assert (t + b)[..|t + b| - 1] == t + b[..|b| - 1];
      DropTrailingPastSlashes(t, b[..|b| - 1]);
    } else {
      assert t + b == t;
    }
  }

  lemma AllSlashesConcat(a: string, b: string)
    requires AllSlashes(a) && AllSlashes(b)
    ensures AllSlashes(a + b)
  {
    forall i | 0 <= i < |a + b| ensures (a + b)[i] == '/' {
      if i < |a| { assert (a + b)[i] == a[i]; } else { assert (a + b)[i] == b[i - |a|]; }
    }
  }

  /**
   * Trimming is determined by the frame: whatever runs of slashes surround an
   * unpadded middle, the middle (interior slashes included) is what is left.
   */
  lemma {:induction false} TrimSlashesOfFramed(a: string, m: string, b: string)
    requires AllSlashes(a) && AllSlashes(b) && Unpadded(m)
    ensures TrimSlashes(a + m + b) == m
  {
    if m == [] {
      var s := a + m + b;
      assert s == a + b;
      AllSlashesConcat(a, b);
      assert s == s + [];
      DropLeadingPastSlashes(s, []);
    } else {
      assert a + m + b == a + (m + b);
      DropLeadingPastSlashes(a, m + b);
      DropTrailingPastSlashes(m, b);
    }
  }

  lemma TrimSlashesIdempotent(s: string)
    ensures TrimSlashes(TrimSlashes(s)) == TrimSlashes(s)
  {
    var r := TrimSlashes(s);
    assert r == [] + r + [];
    TrimSlashesOfFramed([], r, []);
  }

  /** A path of slashes only trims to nothing, and nothing else does. */
  lemma TrimSlashesEmpty(s: string)
    ensures TrimSlashes(s) == [] <==> AllSlashes(s)
  {
    if AllSlashes(s) {
      assert s == s + [] + [];
      TrimSlashesOfFramed(s, [], []);
    }
    if TrimSlashes(s) == [] {
      var a, b :| s == a + TrimSlashes(s) + b && AllSlashes(a) && AllSlashes(b);
      assert s == a + b;
      AllSlashesConcat(a, b);
    }
  }

  /** ASCII lower-casing of one character; other characters are unchanged. */
  function LowerChar(c: char): char {
    if 'A' <= c <= 'Z' then (c as int + 32) as char else c
  }

  /** `String.prototype.toLowerCase`, restricted to the ASCII letters. */
  function ToLower(s: string): (r: string)
    ensures |r| == |s|
    ensures forall i {:trigger r[i]} :: 0 <= i < |s| ==> r[i] == LowerChar(s[i])
  {
    if s == [] then [] else [LowerChar(s[0])] + ToLower(s[1..])
  }

  /** Index of the last occurrence of `c` in `s`, if any. */
  function LastIndexOf(s: string, c: char): (r: Option<nat>)
    ensures r.None? <==> c !in s
    ensures r.Some? ==> r.value < |s| && s[r.value] == c && c !in s[r.value + 1..]
    decreases |s|
  {
    if s == [] then None
    else if s[|s| - 1] == c then Some(|s| - 1)
    else LastIndexOf(s[..|s| - 1], c)
  }

  /** Lower-casing acts character by character, so it commutes with slicing. */
  lemma ToLowerSlices(s: string, i: nat)
    requires i <= |s|
    ensures ToLower(s)[i..] == ToLower(s[i..])
    ensures ToLower(s)[..i] == ToLower(s[..i])
  {
    ToLowerSuffix(s, i);
    ToLowerPrefix(s, i);
  }

  lemma ToLowerSuffix(s: string, i: nat)
    requires i <= |s|
    ensures ToLower(s)[i..] == ToLower(s[i..])
  {
    var t, u := ToLower(s)[i..], ToLower(s[i..]);
    assert |t| == |u|;
    forall k | 0 <= k < |u| ensures t[k] == u[k] {
      assert t[k] == LowerChar(s[i + k]) by { assert t[k] == ToLower(s)[i + k]; }
      assert u[k] == LowerChar(s[i + k]) by { assert s[i..][k] == s[i + k]; }
    }
  }

  lemma ToLowerPrefix(s: string, i: nat)
    requires i <= |s|
    ensures ToLower(s)[..i] == ToLower(s[..i])
  {
    var t, u := ToLower(s)[..i], ToLower(s[..i]);
    assert |t| == |u|;
    forall k | 0 <= k < |u| ensures t[k] == u[k] {
      assert t[k] == LowerChar(s[k]) by { assert t[k] == ToLower(s)[k]; }
      assert u[k] == LowerChar(s[k]) by { assert s[..i][k] == s[k]; }
    }
  }

  /** A string without upper-case letters is its own lower-case form. */
  lemma ToLowerOfLower(s: string)
    requires forall i :: 0 <= i < |s| ==> !('A' <= s[i] <= 'Z')
    ensures ToLower(s) == s
  {
  }

  lemma ToLowerIdempotent(s: string)
    ensures ToLower(ToLower(s)) == ToLower(s)
  {
  }

  /** Lower-casing never creates or removes a slash, so the trailing run is the same. */
  lemma {:induction false} DropTrailingSlashesLower(s: string)
    ensures DropTrailingSlashes(ToLower(s)) == ToLower(DropTrailingSlashes(s))
    decreases |s|
  {
    if |s| > 0 && s[|s| - 1] == '/' {
      ToLowerSlices(s, |s| - 1);
      DropTrailingSlashesLower(s[..|s| - 1]);
    }
  }

  /** Searching for a character that is not a letter gives the same index after lower-casing. */
  lemma {:induction false} LastIndexOfLower(s: string, c: char)
    requires !('a' <= c <= 'z') && !('A' <= c <= 'Z')
    ensures LastIndexOf(ToLower(s), c) == LastIndexOf(s, c)
    decreases |s|
  {
    if s != [] {
      var n := |s| - 1;
      var t := ToLower(s);
      assert t[n] == LowerChar(s[n]);
      if s[n] == c {
        assert t[n] == c;
        assert LastIndexOf(t, c) == Some(n);
      } else {
        assert t[n] != c;
        assert LastIndexOf(t, c) == LastIndexOf(t[..n], c);
        assert t[..n] == ToLower(s[..n]) by {
          ToLowerSlices(s, n);
        }
        LastIndexOfLower(s[..n], c);
      }
    }
  }

  /** The last `c` of `x + [c] + y` is the one between them when `y` has none. */
  lemma {:induction false} LastIndexOfSplit(x: string, c: char, y: string)
    requires c !in y
    ensures LastIndexOf(x + [c] + y, c) == Some(|x|)
    decreases |y|
  {
    var s := x + [c] + y;
    if y == [] {
      assert s[|s| - 1] == c;
    } else {
      var n := |s| - 1;
      assert s[n] == y[|y| - 1];
      assert s[..n] == x + [c] + y[..|y| - 1];
      LastIndexOfSplit(x, c, y[..|y| - 1]);
    }
  }
}
