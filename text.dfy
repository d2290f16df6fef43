/** The string operations the reply clean-up uses, in Python's terms:
    `str.replace(p, '')`, `str.strip()` and the substring test `p in s`. */
module Text {

  /** Python's `str.isspace` for one character: the characters that
      `str.strip()` with no argument removes. */
  predicate IsSpace(c: char) {
    ('\t' <= c <= '\r') || ('\U{1C}' <= c <= ' ') || c == '\U{85}' || c == '\U{A0}'
    || c == '\U{1680}' || ('\U{2000}' <= c <= '\U{200A}') || ('\U{2028}' <= c <= '\U{2029}')
    || c == '\U{202F}' || c == '\U{205F}' || c == '\U{3000}'
  }

  /** `p` occurs in `s` starting at index `i`. */
  predicate OccursAt(s: string, p: string, i: int) {
    0 <= i <= |s| - |p| && s[i..i + |p|] == p
  }

  /** `p` occurs in `s` as a contiguous substring (Python's `p in s`): there
      is an index of `s` at which `p` starts. */
  function Contains(s: string, p: string): (b: bool)
    ensures b <==> exists i :: OccursAt(s, p, i)
  {
    if p <= s then
      assert s[0..|p|] == p;
      assert OccursAt(s, p, 0);
      true
    else if |s| == 0 then false
    else
      OccursShift(s, p);
      Contains(s[1..], p)
  }

  /** When `p` is not a prefix of `s`, its occurrences in `s` are those in
      `s[1..]`, shifted by one. */
  lemma OccursShift(s: string, p: string)
    requires |s| > 0 && !(p <= s)
    ensures (exists i :: OccursAt(s, p, i)) <==> (exists i :: OccursAt(s[1..], p, i))
  {
    if exists i :: OccursAt(s, p, i) {
      var i :| OccursAt(s, p, i);
      if i > 0 {
        SliceOfSlice(s, 1, |s|, i - 1, i - 1 + |p|);
        assert OccursAt(s[1..], p, i - 1);
      }
    }
    if exists i :: OccursAt(s[1..], p, i) {
      var i :| OccursAt(s[1..], p, i);
      SliceOfSlice(s, 1, |s|, i, i + |p|);
      assert OccursAt(s, p, i + 1);
    }
  }

  lemma SliceOfSlice(s: string, a: nat, b: nat, c: nat, d: nat)
    requires a <= b <= |s| && c <= d <= b - a
    ensures s[a..b][c..d] == s[a + c..a + d]
  {
    assert forall n :: 0 <= n < d - c ==> s[a..b][c..d][n] == s[a + c + n];
  }

  /** A substring of a slice of `s` is a substring of `s`. */
  lemma ContainsSlice(s: string, i: nat, j: nat, p: string)
    requires i <= j <= |s|
    requires Contains(s[i..j], p)
    ensures Contains(s, p)
  {
    var k :| OccursAt(s[i..j], p, k);
    SliceOfSlice(s, i, j, k, k + |p|);
    assert OccursAt(s, p, i + k);
  }

  /** A substring of a piece of `s` is a substring of `s`. */
  lemma ContainsPiece(s: string, r: string, i: nat, p: string)
    requires i + |r| <= |s| && r == s[i..i + |r|]
    ensures Contains(r, p) ==> Contains(s, p)
  {
    if Contains(r, p) {
      ContainsSlice(s, i, i + |r|, p);
    }
  }

  /** A string lacking some character of `p` does not contain `p`. */
  lemma {:induction false} NotContainsChar(s: string, p: string, k: nat)
    requires k < |p| && p[k] !in s
    ensures !Contains(s, p)
  {
    if |s| > 0 {
      assert forall c :: c in s[1..] ==> c in s;
      NotContainsChar(s[1..], p, k);
    }
  }

  /** Python's `s.replace(p, '')`: every occurrence of `p`, found left to
      right without overlap, is removed. */
  function RemoveAll(s: string, p: string): (r: string)
    requires |p| > 0
    ensures |r| <= |s|
    decreases |s|
  {
    if |s| < |p| then s
    else if s[..|p|] == p then RemoveAll(s[|p|..], p)
    else [s[0]] + RemoveAll(s[1..], p)
  }

  /** A string in which `p` does not occur is left as it is. */
  lemma {:induction false} RemoveAllNoMatch(s: string, p: string)
    requires |p| > 0 && !Contains(s, p)
    ensures RemoveAll(s, p) == s
    decreases |s|
  {
    if |s| >= |p| {
      RemoveAllNoMatch(s[1..], p);
      assert [s[0]] + s[1..] == s;
    }
  }

  /** A string in which the first character of `p` never appears is left as it is. */
  lemma {:induction false} RemoveAllAbsent(s: string, p: string)
    requires |p| > 0
    requires forall i :: 0 <= i < |s| ==> s[i] != p[0]
    ensures RemoveAll(s, p) == s
  {
    if |s| >= |p| {
      assert s[..|p|][0] == s[0];
      RemoveAllAbsent(s[1..], p);
    }
  }

  /** A first character other than `p[0]` is kept, and the removal goes on
      after it. */
  lemma RemoveAllStep(w: string, p: string)
    requires |p| > 0 && |w| > 0 && w[0] != p[0]
    ensures RemoveAll(w, p) == [w[0]] + RemoveAll(w[1..], p)
  {
    if |w| >= |p| {
      assert w[..|p|][0] == w[0];
    } else {
      assert RemoveAll(w[1..], p) == w[1..];
      assert [w[0]] + w[1..] == w;
    }
  }

  /** A prefix lacking the first character of `p` is copied through, and the
      removal goes on in the rest. */
  lemma {:induction false} RemoveAllSkip(u: string, v: string, p: string)
    requires |p| > 0
    requires forall i :: 0 <= i < |u| ==> u[i] != p[0]
    ensures RemoveAll(u + v, p) == u + RemoveAll(v, p)
  {
    if |u| == 0 {
      assert u + v == v;
    } else {
      calc {
        RemoveAll(u + v, p);
        { assert (u + v)[0] == u[0];
          RemoveAllStep(u + v, p);
          assert (u + v)[1..] == u[1..] + v; }
        [u[0]] + RemoveAll(u[1..] + v, p);
        { RemoveAllSkip(u[1..], v, p); }
        [u[0]] + (u[1..] + RemoveAll(v, p));
        { assert [u[0]] + u[1..] == u; }
        u + RemoveAll(v, p);
      }
    }
  }

  /** An occurrence of `p` at the start is removed, and the removal goes on
      in the rest. */
  lemma RemoveAllLead(p: string, v: string)
    requires |p| > 0
    ensures RemoveAll(p + v, p) == RemoveAll(v, p)
  {
    assert (p + v)[..|p|] == p;
    assert (p + v)[|p|..] == v;
  }

  /** A string that does not start with the first character of `p` keeps its
      first character. */
  lemma RemoveAllKeepsHead(s: string, p: string)
    requires |p| > 0 && |s| > 0 && s[0] != p[0]
    ensures |RemoveAll(s, p)| > 0 && RemoveAll(s, p)[0] == s[0]
  {
    if |s| >= |p| {
      assert s[..|p|][0] == s[0];
    }
  }

  const Fence: string := "```"

  /** No triple backtick is left once every triple backtick has been removed:
      a run of n backticks shrinks to n % 3 of them, so no new run of three
      can form where two runs meet. */
  lemma {:induction false} RemoveAllFenceLeavesNone(s: string)
    ensures !Contains(RemoveAll(s, Fence), Fence)
    decreases |s|
  {
    var r := RemoveAll(s, Fence);
    if |s| < 3 {
      NotContainsShorter(s, Fence);
    } else if s[..3] == Fence {
      RemoveAllFenceLeavesNone(s[3..]);
    } else {
      var t := RemoveAll(s[1..], Fence);
      assert r == [s[0]] + t;
      RemoveAllFenceLeavesNone(s[1..]);
      assert r[1..] == t;
      if s[0] == '`' {
        if s[1] != '`' {
          RemoveAllKeepsHead(s[1..], Fence);
        } else {
          var u := s[1..];
          if |u| >= 3 {
            assert u[..3] != Fence;
            assert t == [u[0]] + RemoveAll(u[1..], Fence);
            RemoveAllKeepsHead(u[1..], Fence);
          }
        }
      }
    }
  }

  lemma {:induction false} NotContainsShorter(s: string, p: string)
    requires |s| < |p|
    ensures !Contains(s, p)
  {
    if |s| > 0 {
      NotContainsShorter(s[1..], p);
    }
  }

  /** The number of whitespace characters `s.lstrip()` removes. */
  function LeadingSpaces(s: string): (n: nat)
    ensures n <= |s|
    ensures forall k :: 0 <= k < n ==> IsSpace(s[k])
    ensures n < |s| ==> !IsSpace(s[n])
  {
    if |s| > 0 && IsSpace(s[0]) then
      var n := LeadingSpaces(s[1..]);
      assert forall k :: 1 <= k < 1 + n ==> s[k] == s[1..][k - 1];
      1 + n
    else 0
  }

  /** The number of whitespace characters `s.rstrip()` removes. */
  function TrailingSpaces(s: string): (n: nat)
    ensures n <= |s|
    ensures forall k :: |s| - n <= k < |s| ==> IsSpace(s[k])
    ensures n < |s| ==> !IsSpace(s[|s| - n - 1])
  {
    if |s| > 0 && IsSpace(s[|s| - 1]) then
      var n := TrailingSpaces(s[..|s| - 1]);
      assert forall k :: |s| - 1 - n <= k < |s| - 1 ==> s[k] == s[..|s| - 1][k];
      1 + n
    else 0
  }

  /** `r` is what `s.strip()` leaves of `s`: the slice of `s` after its
      `i` leading characters, where everything cut off on either side is
      whitespace and `r` neither starts nor ends with whitespace. */
  predicate StrippedAt(s: string, i: nat, r: string) {
    && i + |r| <= |s| && r == s[i..i + |r|]
    && (forall k :: 0 <= k < i ==> IsSpace(s[k]))
    && (forall k :: i + |r| <= k < |s| ==> IsSpace(s[k]))
    && (r == [] || (!IsSpace(r[0]) && !IsSpace(r[|r| - 1])))
  }

  /** Python's `s.strip()`: `s` without its leading whitespace, then without
      the trailing whitespace of what is left. */
  function Strip(s: string): (r: string)
    ensures StrippedAt(s, LeadingSpaces(s), r)
  {
    var i := LeadingSpaces(s);
    var n := TrailingSpaces(s[i..]);
    StripFacts(s, i, n);
    s[i..|s| - n]
  }

  /** The cut made by Strip is a strip: `i` leading whitespace characters of
      `s`, then `n` trailing ones of what is left. */
  lemma StripFacts(s: string, i: nat, n: nat)
    requires i <= |s| && (forall k :: 0 <= k < i ==> IsSpace(s[k])) && (i < |s| ==> !IsSpace(s[i]))
    requires n <= |s| - i
    requires forall k :: |s[i..]| - n <= k < |s[i..]| ==> IsSpace(s[i..][k])
    requires n < |s| - i ==> !IsSpace(s[i..][|s| - i - n - 1])
    ensures StrippedAt(s, i, s[i..|s| - n])
  {
    var r := s[i..|s| - n];
    forall k | |s| - n <= k < |s|
      ensures IsSpace(s[k])
    {
      assert s[k] == s[i..][k - i];
    }
    if r != [] {
      assert r[0] == s[i];
      assert r[|r| - 1] == s[i..][|s| - i - n - 1];
    }
  }

  /** Only one slice of `s` is a strip of it: the cut is determined. */
  lemma StrippedAtUnique(s: string, i: nat, r: string, j: nat, q: string)
    requires StrippedAt(s, i, r) && StrippedAt(s, j, q)
    ensures r == q
  {
    if r != [] && q != [] {
      assert s[i] == r[0] && s[i + |r| - 1] == r[|r| - 1];
      assert s[j] == q[0] && s[j + |q| - 1] == q[|q| - 1];
      assert i == j;
      assert |r| == |q|;
    } else if r != [] || q != [] {
      // A strip that is empty leaves only whitespace in `s`, and a strip
      // that is not starts at a character that is not whitespace.
      assert false;
    }
  }

  /** Any strip of `s` is the one Strip returns. */
  lemma StripIs(s: string, j: nat, q: string)
    requires StrippedAt(s, j, q)
    ensures Strip(s) == q
  {
    StrippedAtUnique(s, LeadingSpaces(s), Strip(s), j, q);
  }

  /** A string without outer whitespace is its own strip. */
  lemma StripUnchanged(s: string)
    requires s == [] || (!IsSpace(s[0]) && !IsSpace(s[|s| - 1]))
    ensures Strip(s) == s
  {
    assert StrippedAt(s, 0, s);
    StripIs(s, 0, s);
  }

  /** Every character of `s` is whitespace. */
  predicate AllSpace(s: string) {
    forall i :: 0 <= i < |s| ==> IsSpace(s[i])
  }

  /** Whitespace added on either side does not change the strip. */
  lemma StripPadded(a: string, x: string, c: string)
    requires AllSpace(a) && AllSpace(c)
    ensures Strip(a + x + c) == Strip(x)
  {
    PaddedAt(a, x, c, LeadingSpaces(x), Strip(x));
    StripIs(a + x + c, |a| + LeadingSpaces(x), Strip(x));
  }

  /** A strip of `x` is a strip of `x` padded with whitespace. */
  lemma PaddedAt(a: string, x: string, c: string, i: nat, r: string)
    requires AllSpace(a) && AllSpace(c) && StrippedAt(x, i, r)
    ensures StrippedAt(a + x + c, |a| + i, r)
  {
    var s := a + x + c;
    assert forall k :: 0 <= k < |x| ==> s[|a| + k] == x[k];
    assert forall k :: 0 <= k < |a| ==> s[k] == a[k];
    assert forall k :: |a| + |x| <= k < |s| ==> s[k] == c[k - |a| - |x|];
    assert s[|a| + i..|a| + i + |r|] == x[i..i + |r|];
  }
}
