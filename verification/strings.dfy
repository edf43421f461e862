/** The Python `str` operations the miner relies on: ASCII lower-casing,
    `startswith`, `endswith`, `in`, `rfind`, `rstrip`, `split(...)[-1]`
    and the code-point order that `sorted` uses on strings. */
module Strings {

  predicate IsUpperAscii(c: char) {
    'A' <= c <= 'Z'
  }

  /** `str.lower` on one character, for the ASCII range. */
  function LowerChar(c: char): (r: char)
    ensures !IsUpperAscii(r)
    ensures IsUpperAscii(c) ==> 'a' <= r <= 'z' && r as int - c as int == 32
    ensures !IsUpperAscii(c) ==> r == c
  {
    if IsUpperAscii(c) then (c as int + 32) as char else c
  }

  /** `str.lower`, mapping only the ASCII letters A-Z. */
  function Lower(s: string): (r: string)
    ensures |r| == |s|
    ensures forall i :: 0 <= i < |s| ==> r[i] == LowerChar(s[i])
  {
    seq(|s|, i requires 0 <= i < |s| => LowerChar(s[i]))
  }

  predicate NoUpper(s: string) {
    forall i :: 0 <= i < |s| ==> !IsUpperAscii(s[i])
  }

  predicate HasUpper(s: string) {
    exists i :: 0 <= i < |s| && IsUpperAscii(s[i])
  }

  /** `s.startswith(pre)`. */
  predicate StartsWith(s: string, pre: string) {
    |pre| <= |s| && s[..|pre|] == pre
  }

  /** `s.endswith(suf)`. */
  predicate EndsWith(s: string, suf: string) {
    |suf| <= |s| && s[|s| - |suf|..] == suf
  }

  predicate OccursAt(s: string, w: string, i: int) {
    0 <= i && i + |w| <= |s| && s[i..i + |w|] == w
  }

  /** `w in s` for strings. */
  predicate Contains(s: string, w: string) {
    exists i | 0 <= i <= |s| :: OccursAt(s, w, i)
  }

  /** `s.rfind(c)`: the index of the last occurrence of `c`, or -1. */
  function LastIndexOf(s: string, c: char): (r: int)
    ensures -1 <= r < |s|
    ensures r >= 0 ==> s[r] == c
    ensures forall j :: r < j < |s| ==> s[j] != c
  {
    if |s| == 0 then -1
    else if s[|s| - 1] == c then |s| - 1
    else LastIndexOf(s[..|s| - 1], c)
  }

  /** `s.rstrip(c)` for a single character. */
  function RStrip(s: string, c: char): (r: string)
    ensures |r| <= |s| && r == s[..|r|]
    ensures |r| == 0 || r[|r| - 1] != c
    ensures forall j :: |r| <= j < |s| ==> s[j] == c
  {
    if |s| > 0 && s[|s| - 1] == c then RStrip(s[..|s| - 1], c) else s
  }

  /** `s.split(c)[-1]`: everything after the last `c`. */
  function AfterLast(s: string, c: char): (r: string)
    ensures c !in r
    ensures EndsWith(s, r)
    ensures |r| < |s| ==> s[|s| - |r| - 1] == c
  {
    s[LastIndexOf(s, c) + 1..]
  }

  // ---------------------------------------------------------------------------
  // Lower-casing
  // ---------------------------------------------------------------------------

  lemma LowerHasNoUpper(s: string)
    ensures NoUpper(Lower(s))
  {
  }

  lemma LowerIdempotent(s: string)
    ensures Lower(Lower(s)) == Lower(s)
  {
  }

  lemma LowerOfNoUpper(s: string)
    requires NoUpper(s)
    ensures Lower(s) == s
  {
  }

  lemma NoUpperConcat(a: string, b: string)
    requires NoUpper(a) && NoUpper(b)
    ensures NoUpper(a + b)
  {
    assert forall i :: 0 <= i < |a + b| ==> (a + b)[i] == if i < |a| then a[i] else b[i - |a|];
  }

  /** Lower-casing commutes with dropping a prefix. */
  lemma LowerFrom(s: string, i: int)
    requires 0 <= i <= |s|
    ensures Lower(s)[i..] == Lower(s[i..])
  {
  }

  lemma LowerConcat(a: string, b: string)
    ensures Lower(a + b) == Lower(a) + Lower(b)
  {
  }

  /** A lower-cased string can start or end only with entries free of upper-case letters. */
  lemma {:induction false} UpperEntryNeverMatches(s: string, w: string)
    requires HasUpper(w)
    ensures !StartsWith(Lower(s), w)
    ensures !EndsWith(Lower(s), w)
  {
    var i :| 0 <= i < |w| && IsUpperAscii(w[i]);
    var l := Lower(s);
    assert NoUpper(l);
    assert |w| <= |l| ==> !IsUpperAscii(l[i]) && !IsUpperAscii(l[|l| - |w| + i]);
  }

  lemma EndsWithTransitive(s: string, t: string, u: string)
    requires EndsWith(s, t) && EndsWith(t, u)
    ensures EndsWith(s, u)
  {
    assert s[|s| - |u|..] == t[|t| - |u|..];
  }

  // ---------------------------------------------------------------------------
  // Code-point order (Python's `<` on `str`)
  // ---------------------------------------------------------------------------

  predicate Less(a: string, b: string)
    decreases |a|
  {
    if |a| == 0 then |b| > 0
    else if |b| == 0 then false
    else if a[0] != b[0] then a[0] < b[0]
    else Less(a[1..], b[1..])
  }

  lemma {:induction false} LessIrreflexive(a: string)
    ensures !Less(a, a)
    decreases |a|
  {
    if |a| > 0 {
      LessIrreflexive(a[1..]);
    }
  }

  lemma {:induction false} LessTransitive(a: string, b: string, c: string)
    requires Less(a, b) && Less(b, c)
    ensures Less(a, c)
    decreases |a|
  {
    if |a| > 0 && a[0] == b[0] && b[0] == c[0] {
      LessTransitive(a[1..], b[1..], c[1..]);
    }
  }

  lemma {:induction false} LessTotal(a: string, b: string)
    ensures a == b || Less(a, b) || Less(b, a)
    decreases |a|
  {
    if |a| > 0 && |b| > 0 && a[0] == b[0] {
      LessTotal(a[1..], b[1..]);
      if a[1..] == b[1..] {
        assert a == [a[0]] + a[1..] && b == [b[0]] + b[1..];
      }
    }
  }

  lemma LessAsymmetric(a: string, b: string)
    requires Less(a, b)
    ensures !Less(b, a)
  {
    if Less(b, a) {
      LessTransitive(a, b, a);
      LessIrreflexive(a);
    }
  }

  /** Of two strings, at most one is less than the other. */
  lemma LessAsymmetricOrEqual(a: string, b: string)
    ensures !Less(a, b) || !Less(b, a)
  {
    if Less(a, b) {
      LessAsymmetric(a, b);
    }
  }
}
