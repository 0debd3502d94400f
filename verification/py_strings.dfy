/** The few Python `str` operations the scoring scripts rely on, with
    Python's semantics: `replace(p, "")`, `endswith`, `strip()` and the
    slices `s[:n]` and `s[-n:]`. */
module PyStrings {

  /** `s.startswith(p)` */
  predicate StartsWith(s: string, p: string) {
    |p| <= |s| && s[..|p|] == p
  }

  /** `s.endswith(p)` */
  predicate EndsWith(s: string, p: string) {
    |p| <= |s| && s[|s| - |p|..] == p
  }

  /** `s` ends with `p` exactly when it is some front part followed by `p`,
      and then `p` occurs in `s`. */
  lemma EndsWithSplit(s: string, p: string)
    ensures EndsWith(s, p) <==> |p| <= |s| && s == s[..|s| - |p|] + p
    ensures EndsWith(s, p) ==> Contains(s, p)
  {
    if EndsWith(s, p) {
      assert StartsWith(s[|s| - |p|..], p);
    }
  }

  /** `p in s`: `p` occurs at some position of `s`. */
  predicate Contains(s: string, p: string) {
    exists i | 0 <= i <= |s| :: StartsWith(s[i..], p)
  }

  /** No proper suffix of `p` is also a prefix of `p`, so two occurrences
      of `p` can never overlap. */
  predicate Borderless(p: string) {
    forall i | 0 < i < |p| :: p[i..] != p[..|p| - i]
  }

  /** `s.replace(p, "")`: scanning left to right, every non-overlapping
      occurrence of `p` is deleted. */
  function RemoveAll(s: string, p: string): (r: string)
    requires |p| > 0
    ensures |r| <= |s|
    decreases |s|
  {
    if |s| < |p| then s
    else if s[..|p|] == p then RemoveAll(s[|p|..], p)
    else [s[0]] + RemoveAll(s[1..], p)
  }

  lemma ContainsShift(s: string, p: string)
    requires |s| > 0
    requires Contains(s[1..], p)
    ensures Contains(s, p)
  {
    var i :| 0 <= i <= |s[1..]| && StartsWith(s[1..][i..], p);
    assert s[1..][i..] == s[i + 1..];
  }

  /** A string without any occurrence of `p` is left unchanged. */
  lemma {:induction false} RemoveAllAbsent(s: string, p: string)
    requires |p| > 0
    requires !Contains(s, p)
    ensures RemoveAll(s, p) == s
    decreases |s|
  {
    if |s| >= |p| {
      assert s[0..] == s;
      assert !StartsWith(s[0..], p);
      if Contains(s[1..], p) {
        ContainsShift(s, p);
      }
      RemoveAllAbsent(s[1..], p);
      assert [s[0]] + s[1..] == s;
    }
  }

  /** `replace(p, "")` deletes something exactly when `p` occurs: at least
      one whole occurrence goes when it does, and nothing changes otherwise. */
  lemma {:induction false} RemoveAllShortens(s: string, p: string)
    requires |p| > 0
    ensures Contains(s, p) ==> |RemoveAll(s, p)| <= |s| - |p|
    ensures !Contains(s, p) ==> RemoveAll(s, p) == s
    decreases |s|
  {
    if Contains(s, p) {
      var i :| 0 <= i <= |s| && StartsWith(s[i..], p);
      if s[..|p|] != p {
        assert s[0..] == s;
        assert i != 0;
        assert s[1..][i - 1..] == s[i..];
        assert StartsWith(s[1..][i - 1..], p);
        RemoveAllShortens(s[1..], p);
      }
    } else {
      RemoveAllAbsent(s, p);
    }
  }

  /** Deleting a borderless pattern from `x + p`, where `x` does not contain
      `p`, gives back `x`: the trailing occurrence is the only one. */
  lemma {:induction false} RemoveAllTrailing(x: string, p: string)
    requires |p| > 0 && Borderless(p)
    requires !Contains(x, p)
    ensures RemoveAll(x + p, p) == x
    decreases |x|
  {
    var s := x + p;
    if |x| == 0 {
      assert s == p;
      assert s[|p|..] == [];
    } else {
      if |x| >= |p| {
        assert x[0..] == x;
        assert x[..|p|] == s[..|p|];
        assert !StartsWith(x[0..], p);
      } else {
        var i := |x|;
        assert p[i..] != p[..|p| - i];
        assert s[..|p|] == x + p[..|p| - i];
      }
      assert s[..|p|] != p;
      assert s[1..] == x[1..] + p;
      if Contains(x[1..], p) {
        ContainsShift(x, p);
      }
      RemoveAllTrailing(x[1..], p);
      assert [x[0]] + x[1..] == x;
    }
  }

  /** Python's `str.isspace()` for one character: the characters `strip()`
      removes when given no argument. */
  predicate IsSpace(c: char) {
    || ('\t' <= c <= '\r')
    || ('\U{1C}' <= c <= ' ')
    || c == '\U{85}' || c == '\U{A0}' || c == '\U{1680}'
    || ('\U{2000}' <= c <= '\U{200A}')
    || c == '\U{2028}' || c == '\U{2029}' || c == '\U{202F}'
    || c == '\U{205F}' || c == '\U{3000}'
  }

  function TrimStart(s: string): (r: string)
    ensures |r| <= |s| && r == s[|s| - |r|..]
    ensures forall k | 0 <= k < |s| - |r| :: IsSpace(s[k])
    ensures r == [] || !IsSpace(r[0])
    decreases |s|
  {
    if |s| > 0 && IsSpace(s[0]) then TrimStart(s[1..]) else s
  }

  function TrimEnd(s: string): (r: string)
    ensures |r| <= |s| && r == s[..|r|]
    ensures forall k | |r| <= k < |s| :: IsSpace(s[k])
    ensures r == [] || !IsSpace(r[|r| - 1])
    decreases |s|
  {
    if |s| > 0 && IsSpace(s[|s| - 1]) then TrimEnd(s[..|s| - 1]) else s
  }

  /** How many whitespace characters `s` starts with. */
  function LeadingSpaces(s: string): (n: nat)
    ensures n <= |s|
    ensures forall k | 0 <= k < n :: IsSpace(s[k])
    ensures n == |s| || !IsSpace(s[n])
  {
    |s| - |TrimStart(s)|
  }

  /** `s.strip()`: what remains of `s` once its leading and its trailing
      whitespace are dropped; it neither starts nor ends with whitespace. */
  function Strip(s: string): (r: string)
    ensures LeadingSpaces(s) + |r| <= |s|
    ensures r == s[LeadingSpaces(s)..][..|r|]
    ensures forall k | |r| <= k < |s| - LeadingSpaces(s) :: IsSpace(s[LeadingSpaces(s)..][k])
    ensures r == [] || (!IsSpace(r[0]) && !IsSpace(r[|r| - 1]))
  {
    TrimEnd(TrimStart(s))
  }

  /** The stripped string is empty exactly when every character is whitespace. */
  lemma StripEmptyIff(s: string)
    ensures Strip(s) == [] <==> forall k | 0 <= k < |s| :: IsSpace(s[k])
  {
    var r := Strip(s);
    var i := LeadingSpaces(s);
    if r != [] {
      assert s[i] == r[0];
    }
  }

  /** `s[:n]` for a non-negative `n`. */
  function PrefixSlice(s: string, n: nat): (r: string)
    ensures |r| == if n < |s| then n else |s|
    ensures StartsWith(s, r)
  {
    if n < |s| then s[..n] else s
  }

  /** `s[-n:]`; for `n == 0` Python reads `s[-0:]` as `s[0:]`. */
  function SuffixSlice(s: string, n: nat): (r: string)
    ensures n > 0 ==> |r| == if n < |s| then n else |s|
    ensures n == 0 ==> r == s
    ensures EndsWith(s, r)
  {
    if n == 0 || |s| <= n then s else s[|s| - n..]
  }
}
