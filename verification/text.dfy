/** The few Python string operations the feed filter relies on: `str.strip()`,
    `str.startswith(p)` and the slice `s[:n]`. Strings are sequences of Unicode
    scalar values, which are Python strings without lone surrogates. */
module Text {

  /** The characters Python's `str.isspace()` accepts, which are the ones
      `str.strip()` with no argument removes. */
  predicate IsSpace(c: char) {
    || c == ' '
    || ('\t' <= c <= '\r')
    || ('\U{1C}' <= c <= '\U{1F}')
    || c == '\U{85}'
    || c == '\U{A0}'
    || c == '\U{1680}'
    || ('\U{2000}' <= c <= '\U{200A}')
    || c == '\U{2028}'
    || c == '\U{2029}'
    || c == '\U{202F}'
    || c == '\U{205F}'
    || c == '\U{3000}'
  }

  /** The same characters listed one by one: the 29 code points whose Unicode
      bidirectional class is WS, B or S, or whose general category is Zs. */
  const SpaceChars: seq<char> := [
    '\t', '\n', '\U{B}', '\U{C}', '\r', '\U{1C}', '\U{1D}', '\U{1E}', '\U{1F}', ' ',
    '\U{85}', '\U{A0}', '\U{1680}',
    '\U{2000}', '\U{2001}', '\U{2002}', '\U{2003}', '\U{2004}', '\U{2005}',
    '\U{2006}', '\U{2007}', '\U{2008}', '\U{2009}', '\U{200A}',
    '\U{2028}', '\U{2029}', '\U{202F}', '\U{205F}', '\U{3000}']

  /** `IsSpace` accepts exactly the listed characters, and there are 29 of them. */
  lemma IsSpaceExactly(c: char)
    ensures IsSpace(c) <==> c in SpaceChars
    ensures |SpaceChars| == 29
  {
  }

  /** Every character of `s` is white space (vacuously so for the empty string). */
  predicate AllSpace(s: string) {
    forall k :: 0 <= k < |s| ==> IsSpace(s[k])
  }

  /** Neither end of `s` is white space: what `strip()` leaves behind. */
  predicate Stripped(s: string) {
    s == [] || (!IsSpace(s[0]) && !IsSpace(s[|s| - 1]))
  }

  /** `s.lstrip()`: the suffix of `s` left after dropping leading white space. */
  function TrimStart(s: string): (r: string)
    ensures |r| <= |s|
    ensures r == [] || !IsSpace(r[0])
  {
    if s != [] && IsSpace(s[0]) then TrimStart(s[1..]) else s
  }

  /** `TrimStart` keeps a suffix. */
  lemma {:induction false} TrimStartIsSuffix(s: string)
    ensures TrimStart(s) == s[|s| - |TrimStart(s)|..]
  {
    if s != [] && IsSpace(s[0]) {
      TrimStartIsSuffix(s[1..]);
    }
  }

  /** What `TrimStart` drops is white space. */
  lemma {:induction false} TrimStartDropsSpace(s: string)
    ensures AllSpace(s[..|s| - |TrimStart(s)|])
  {
    if s != [] && IsSpace(s[0]) {
      TrimStartDropsSpace(s[1..]);
      var n := |s| - |TrimStart(s)|;
      forall k | 0 <= k < n ensures IsSpace(s[k]) {
        if k > 0 {
          assert s[k] == s[1..][..n - 1][k - 1];
        }
      }
    }
  }

  /** `s.rstrip()`: the prefix of `s` left after dropping trailing white space. */
  function TrimEnd(s: string): (r: string)
    ensures |r| <= |s| && r == s[..|r|]
    ensures r == [] || !IsSpace(r[|r| - 1])
  {
    if s != [] && IsSpace(s[|s| - 1]) then TrimEnd(s[..|s| - 1]) else s
  }

  /** What `TrimEnd` drops is white space. */
  lemma {:induction false} TrimEndDropsSpace(s: string)
    ensures AllSpace(s[|TrimEnd(s)|..])
  {
    if s != [] && IsSpace(s[|s| - 1]) {
      var p := s[..|s| - 1];
      TrimEndDropsSpace(p);
      var n := |TrimEnd(s)|;
      forall k | n <= k < |s| ensures IsSpace(s[k]) {
        if k < |s| - 1 {
          assert s[k] == p[n..][k - n];
        }
      }
    }
  }

  /** `s.strip()`: the infix of `s` with white space on neither end. */
  function Strip(s: string): (r: string)
    ensures Stripped(r)
  {
    TrimEnd(TrimStart(s))
  }

  /** `Strip` keeps the infix starting at `StripStart`. */
  lemma StripIsInfix(s: string)
    ensures StripStart(s) + |Strip(s)| <= |s|
    ensures Strip(s) == s[StripStart(s)..StripStart(s) + |Strip(s)|]
  {
    TrimStartIsSuffix(s);
  }

  /** Where the infix kept by `Strip` begins. */
  function StripStart(s: string): (i: nat)
    ensures i <= |s|
  {
    |s| - |TrimStart(s)|
  }

  /** What `Strip` drops, on either side, is white space. */
  lemma StripDropsOnlySpace(s: string)
    ensures StripStart(s) + |Strip(s)| <= |s|
    ensures AllSpace(s[..StripStart(s)])
    ensures AllSpace(s[StripStart(s) + |Strip(s)|..])
  {
    var t := TrimStart(s);
    TrimStartIsSuffix(s);
    var i := |s| - |t|;
    TrimStartDropsSpace(s);
    TrimEndDropsSpace(t);
    assert s[i + |Strip(s)|..] == t[|TrimEnd(t)|..];
  }

  /** `strip()` yields the empty string exactly when there is nothing but white space. */
  lemma StripEmptyIffAllSpace(s: string)
    ensures Strip(s) == [] <==> AllSpace(s)
  {
    var r := Strip(s);
    var i := StripStart(s);
    StripIsInfix(s);
    StripDropsOnlySpace(s);
    assert s == s[..i] + r + s[i + |r|..];
    AllSpaceSplit(s[..i], r, s[i + |r|..]);
    if r != [] {
      assert !IsSpace(r[0]);
    }
  }

  /** White space throughout a concatenation is white space throughout each part. */
  lemma AllSpaceSplit(a: string, b: string, c: string)
    ensures AllSpace(a + b + c) <==> AllSpace(a) && AllSpace(b) && AllSpace(c)
  {
    var s := a + b + c;
    if AllSpace(a) && AllSpace(b) && AllSpace(c) {
      forall k | 0 <= k < |s| ensures IsSpace(s[k]) {
        if k < |a| {
          assert s[k] == a[k];
        } else if k < |a| + |b| {
          assert s[k] == b[k - |a|];
        } else {
          assert s[k] == c[k - |a| - |b|];
        }
      }
    }
    if AllSpace(s) {
      forall k | 0 <= k < |a| ensures IsSpace(a[k]) {
        assert a[k] == s[k];
      }
      forall k | 0 <= k < |b| ensures IsSpace(b[k]) {
        assert b[k] == s[|a| + k];
      }
      forall k | 0 <= k < |c| ensures IsSpace(c[k]) {
        assert c[k] == s[|a| + |b| + k];
      }
    }
  }

  /** Stripping an already stripped string changes nothing, so `strip()` is idempotent. */
  lemma StripOfStripped(s: string)
    requires Stripped(s)
    ensures Strip(s) == s
  {
  }

  lemma StripIdempotent(s: string)
    ensures Strip(Strip(s)) == Strip(s)
  {
    StripOfStripped(Strip(s));
  }

  /** `s.startswith(p)`. */
  predicate StartsWith(s: string, p: string) {
    |p| <= |s| && s[..|p|] == p
  }

  /** `startswith` compares the first `|p|` characters one by one; a prefix longer
      than `s` never matches. */
  lemma StartsWithPointwise(s: string, p: string)
    ensures StartsWith(s, p) <==> |p| <= |s| && forall i :: 0 <= i < |p| ==> s[i] == p[i]
  {
    if |p| <= |s| && forall i :: 0 <= i < |p| ==> s[i] == p[i] {
      assert s[..|p|] == p;
    }
  }

  /** `s[:n]` for a non-negative `n`: at most `n` characters, taken from the front. */
  function Truncate(s: string, n: nat): (r: string)
    ensures |r| <= n
    ensures StartsWith(s, r)
    ensures |s| <= n ==> r == s
    ensures n <= |s| ==> |r| == n
  {
    if |s| <= n then s else s[..n]
  }
}
