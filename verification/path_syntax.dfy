/** The pieces of `pathlib`, `re` and `fnmatch` that the classifier uses, for
    POSIX paths: `PurePosixPath(p).name`, `PurePosixPath(p).suffix`, a regular
    expression of the form `(^|/)word(/|$)`, and `fnmatch.fnmatch` for
    patterns whose only wildcard is `*`. */
module PathSyntax {
  import opened Strings

  /** A path component that pathlib keeps: not empty (from `//` or a
      leading or trailing `/`) and not `.`. */
  predicate IsRealComponent(seg: string) {
    seg != "" && seg != "."
  }

  /** `PurePosixPath(p).name`: the last component that survives pathlib's
      normalisation, or "" when there is none (`""`, `"/"`, `"."`). */
  function Name(p: string): (r: string)
    ensures '/' !in r
    ensures r == "" || IsRealComponent(r)
    decreases |p|
  {
    var k := LastIndexOf(p, '/');
    var seg := p[k + 1..];
    if IsRealComponent(seg) then seg
    else if k < 0 then ""
    else Name(p[..k])
  }

  /** `PurePosixPath(p).suffix`: from the last dot of the name, provided that
      dot is neither the first nor the last character of the name. This is
      the rule of pathlib up to Python 3.13, under which `a.` has no suffix. */
  function Suffix(p: string): (r: string)
  {
    var name := Name(p);
    var i := LastIndexOf(name, '.');
    if 0 < i < |name| - 1 then name[i..] else ""
  }

  /** `re.search(r"(^|/)w(/|$)", p)`: `w` occurs as a whole `/`-separated
      segment of `p`. */
  predicate HasSegment(p: string, w: string) {
    exists i | 0 <= i <= |p| :: SegmentAt(p, w, i)
  }

  predicate SegmentAt(p: string, w: string, i: int) {
    && OccursAt(p, w, i)
    && (i == 0 || p[i - 1] == '/')
    && (i + |w| == |p| || p[i + |w|] == '/')
  }

  /** `fnmatch.fnmatch(name, pat)` on POSIX (case-sensitive), for patterns in
      which `*` is the only special character: `*` matches any run of
      characters, every other character matches itself. */
  predicate GlobMatch(s: string, pat: string)
    decreases |s| + |pat|
  {
    if |pat| == 0 then |s| == 0
    else if pat[0] == '*' then GlobMatch(s, pat[1..]) || (|s| > 0 && GlobMatch(s[1..], pat))
    else |s| > 0 && s[0] == pat[0] && GlobMatch(s[1..], pat[1..])
  }

  /** `url.rstrip("/").split("/")[-1]`: the repository name of a clone URL. */
  function UrlBaseName(url: string): (r: string)
    ensures '/' !in r
    ensures EndsWith(RStrip(url, '/'), r)
  {
    AfterLast(RStrip(url, '/'), '/')
  }

  // ---------------------------------------------------------------------------
  // Name and suffix
  // ---------------------------------------------------------------------------

  /** The name of `d/n` is `n` whenever `n` is a component pathlib keeps. */
  lemma NameOfJoin(d: string, n: string)
    requires '/' !in n && IsRealComponent(n)
    ensures Name(d + "/" + n) == n
  {
    var p := d + "/" + n;
    assert p[|d|] == '/';
    var k := LastIndexOf(p, '/');
    assert forall j :: |d| < j < |p| ==> p[j] == n[j - |d| - 1];
    assert k == |d|;
    assert p[k + 1..] == n;
  }

  /** A single kept component is its own name. */
  lemma NameOfComponent(n: string)
    requires '/' !in n && IsRealComponent(n)
    ensures Name(n) == n
  {
    assert LastIndexOf(n, '/') == -1;
  }

  /** The suffix of `stem.e`, alone or under a directory, is `.e` when
      neither `stem` nor `e` is empty or holds a dot. */
  lemma SuffixOfName(d: string, stem: string, e: string)
    requires '/' !in stem && '/' !in e && '.' !in stem && '.' !in e
    requires |stem| > 0 && |e| > 0
    ensures Suffix(stem + "." + e) == "." + e
    ensures Suffix(d + "/" + stem + "." + e) == "." + e
  {
    SuffixOfPlainName(stem, e);
    SuffixOfNameUnder(d, stem, e);
  }

  lemma SuffixOfPlainName(stem: string, e: string)
    requires '/' !in stem && '/' !in e && '.' !in stem && '.' !in e
    requires |stem| > 0 && |e| > 0
    ensures Suffix(stem + "." + e) == "." + e
  {
    DottedName(stem, e);
    NameOfComponent(stem + "." + e);
    SuffixOfDotted(stem + "." + e, stem, e);
  }

  lemma SuffixOfNameUnder(d: string, stem: string, e: string)
    requires '/' !in stem && '/' !in e && '.' !in stem && '.' !in e
    requires |stem| > 0 && |e| > 0
    ensures Suffix(d + "/" + stem + "." + e) == "." + e
  {
    var n := stem + "." + e;
    DottedName(stem, e);
    NameOfJoin(d, n);
    assert d + "/" + stem + "." + e == d + "/" + n;
    SuffixOfDotted(d + "/" + n, stem, e);
  }

  /** `stem.e` is a single kept component whose last dot follows `stem`. */
  lemma DottedName(stem: string, e: string)
    requires '/' !in stem && '/' !in e && '.' !in stem && '.' !in e
    requires |stem| > 0 && |e| > 0
    ensures var n := stem + "." + e;
      '/' !in n && IsRealComponent(n) && LastIndexOf(n, '.') == |stem| && n[|stem|..] == "." + e
  {
    var n := stem + "." + e;
    assert forall j :: 0 <= j < |n| ==> n[j] == (if j < |stem| then stem[j] else if j == |stem| then '.' else e[j - |stem| - 1]);
    assert n[|stem|] == '.';
    assert forall j :: |stem| < j < |n| ==> n[j] != '.';
    assert n[|stem|..] == "." + e;
  }

  lemma SuffixOfDotted(p: string, stem: string, e: string)
    requires |stem| > 0 && |e| > 0
    requires var n := stem + "." + e; Name(p) == n && LastIndexOf(n, '.') == |stem| && n[|stem|..] == "." + e
    ensures Suffix(p) == "." + e
  {
  }

  /** When the text after the last `/` is a kept component, that text is the
      name, so the name is a suffix of the path. This holds for every path
      that git prints. */
  lemma NameOfPlainPath(p: string)
    requires IsRealComponent(AfterLast(p, '/'))
    ensures Name(p) == AfterLast(p, '/')
    ensures EndsWith(p, Name(p))
  {
  }

  /** A trailing `/` does not change the name: pathlib drops it. */
  lemma NameIgnoresTrailingSlash(p: string)
    ensures Name(p + "/") == Name(p)
  {
    var q := p + "/";
    assert LastIndexOf(q, '/') == |p|;
    assert q[..|p|] == p;
  }

  /** The suffix is "" or a dot followed by at least one character, with no
      other dot, and the name ends with it. */
  lemma SuffixShape(p: string)
    ensures var s := Suffix(p);
      s == "" || (|s| >= 2 && s[0] == '.' && '.' !in s[1..] && EndsWith(Name(p), s))
  {
    var name := Name(p);
    var i := LastIndexOf(name, '.');
    if 0 < i < |name| - 1 {
      FromLastDot(name, i);
    }
  }

  /** The text from the last dot of a name on: a dot, then no other dot. */
  lemma FromLastDot(name: string, i: int)
    requires i == LastIndexOf(name, '.') && 0 < i < |name| - 1
    ensures var s := name[i..]; |s| >= 2 && s[0] == '.' && '.' !in s[1..] && EndsWith(name, s)
  {
    var s := name[i..];
    forall j | 1 <= j < |s| ensures s[j] != '.' {
      assert s[j] == name[i + j];
    }
  }

  /** A name whose only dot is its first character has no suffix
      (`.env`, `.gitignore`). */
  lemma LeadingDotHasNoSuffix(p: string)
    requires |Name(p)| > 0 && Name(p)[0] == '.' && '.' !in Name(p)[1..]
    ensures Suffix(p) == ""
  {
    var name := Name(p);
    var i := LastIndexOf(name, '.');
    assert forall j :: 1 <= j < |name| ==> name[j] == name[1..][j - 1];
  }

  /** A path without `/` has itself as its only whole segment. */
  lemma SegmentsOfComponent(c: string, w: string)
    requires '/' !in c && |w| > 0
    ensures HasSegment(c, w) ==> w == c
  {
    if HasSegment(c, w) {
      var i :| 0 <= i <= |c| && SegmentAt(c, w, i);
      assert i == 0 && |w| == |c|;
      assert c[..|c|] == c;
    }
  }

  /** In `a/b`, the only whole segments are `a` and `b`. */
  lemma SegmentsOfTwoComponents(a: string, b: string, w: string)
    requires '/' !in a && '/' !in b && '/' !in w && |w| > 0
    ensures HasSegment(a + "/" + b, w) ==> w == a || w == b
  {
    var p := a + "/" + b;
    if HasSegment(p, w) {
      var i :| 0 <= i <= |p| && SegmentAt(p, w, i);
      assert p[|a|] == '/';
      assert forall j :: 0 <= j < |a| ==> p[j] == a[j];
      assert forall j :: |a| < j < |p| ==> p[j] == b[j - |a| - 1];
      assert forall j :: 0 <= j < |w| ==> w[j] == p[i + j];
      assert i == 0 || i == |a| + 1;
      if i == 0 {
        assert |w| == |a|;
        assert p[..|a|] == a;
      } else {
        assert |w| == |b|;
        assert p[|a| + 1..] == b;
      }
    }
  }

  /** In `d/n`, the directory `d` is a whole segment. */
  lemma LeadingSegment(d: string, n: string)
    requires '/' !in d
    ensures SegmentAt(d + "/" + n, d, 0)
  {
    var p := d + "/" + n;
    assert p[..|d|] == d;
    assert p[|d|] == '/';
  }

  /** `d/n` starts with `x/` exactly when `d` is `x`, for `d` and `x`
      without `/`. */
  lemma SlashPrefix(d: string, n: string, x: string)
    requires '/' !in d && '/' !in x
    ensures StartsWith(d + "/" + n, x + "/") <==> d == x
  {
    var p, pre := d + "/" + n, x + "/";
    assert p[|d|] == '/' && pre[|x|] == '/';
    if StartsWith(p, pre) {
      if |d| == |x| {
        assert p[..|pre|][..|d|] == d && pre[..|x|] == x;
      }
    }
    if d == x {
      assert p[..|pre|] == pre;
    }
  }

  // ---------------------------------------------------------------------------
  // Globs
  // ---------------------------------------------------------------------------

  /** A literal prefix of a pattern must be matched literally. */
  lemma {:induction false} GlobLiteralPrefix(s: string, lit: string, rest: string)
    requires '*' !in lit
    ensures GlobMatch(s, lit + rest) <==> StartsWith(s, lit) && GlobMatch(s[|lit|..], rest)
    decreases |lit|
  {
    if |lit| > 0 {
      assert (lit + rest)[0] == lit[0];
      assert (lit + rest)[1..] == lit[1..] + rest;
      if |s| > 0 {
        GlobLiteralPrefix(s[1..], lit[1..], rest);
        if |lit| <= |s| {
          assert s[1..][|lit| - 1..] == s[|lit|..];
        }
        assert StartsWith(s, lit) <==> s[0] == lit[0] && StartsWith(s[1..], lit[1..]) by {
          if s[0] == lit[0] && StartsWith(s[1..], lit[1..]) {
            assert s[..|lit|] == [s[0]] + s[1..][..|lit| - 1];
            assert lit == [lit[0]] + lit[1..];
          }
          if StartsWith(s, lit) {
            assert s[1..][..|lit| - 1] == s[..|lit|][1..];
          }
        }
      }
    } else {
      assert lit + rest == rest;
    }
  }

  /** The number of characters of a pattern other than `*`. */
  function LiteralCount(pat: string): (n: nat)
    ensures n <= |pat|
  {
    if |pat| == 0 then 0 else (if pat[0] == '*' then 0 else 1) + LiteralCount(pat[1..])
  }

  lemma {:induction false} LiteralCountConcat(a: string, b: string)
    ensures LiteralCount(a + b) == LiteralCount(a) + LiteralCount(b)
    decreases |a|
  {
    if |a| > 0 {
      assert (a + b)[1..] == a[1..] + b;
      LiteralCountConcat(a[1..], b);
    } else {
      assert a + b == b;
    }
  }

  lemma {:induction false} LiteralCountOfLiteral(lit: string)
    requires '*' !in lit
    ensures LiteralCount(lit) == |lit|
    decreases |lit|
  {
    if |lit| > 0 {
      LiteralCountOfLiteral(lit[1..]);
    }
  }

  /** Every character of a pattern other than `*` consumes one character, so
      a name shorter than that count matches nothing. */
  lemma {:induction false} GlobNeedsLiterals(s: string, pat: string)
    ensures GlobMatch(s, pat) ==> |s| >= LiteralCount(pat)
    decreases |s| + |pat|
  {
    if |pat| > 0 {
      if pat[0] == '*' {
        GlobNeedsLiterals(s, pat[1..]);
        if |s| > 0 {
          GlobNeedsLiterals(s[1..], pat);
        }
      } else if |s| > 0 {
        GlobNeedsLiterals(s[1..], pat[1..]);
      }
    }
  }

  /** A pattern that is `*` followed by literal text matches exactly the
      strings that end with that text. */
  lemma {:induction false} GlobStarLiteral(s: string, lit: string)
    requires '*' !in lit
    ensures GlobMatch(s, "*" + lit) <==> EndsWith(s, lit)
    decreases |s|
  {
    var pat := "*" + lit;
    assert pat[1..] == lit;
    GlobLiteralPrefix(s, lit, "");
    assert lit + "" == lit;
    GlobLiteralExact(s, lit);
    if |s| > 0 {
      GlobStarLiteral(s[1..], lit);
      if EndsWith(s[1..], lit) {
        assert s[|s| - |lit|..] == s[1..][|s| - 1 - |lit|..];
      }
      if EndsWith(s, lit) && s != lit {
        GlobLiteralExactLength(s, lit);
        assert s[1..][|s| - 1 - |lit|..] == s[|s| - |lit|..];
      }
    }
  }

  /** A pattern without `*` matches only itself. */
  lemma {:induction false} GlobLiteralExact(s: string, lit: string)
    requires '*' !in lit
    ensures GlobMatch(s, lit) <==> s == lit
    decreases |lit|
  {
    if |lit| > 0 && |s| > 0 {
      GlobLiteralExact(s[1..], lit[1..]);
      if s[0] == lit[0] && s[1..] == lit[1..] {
        assert s == [s[0]] + s[1..] && lit == [lit[0]] + lit[1..];
      }
    }
  }

  lemma GlobLiteralExactLength(s: string, lit: string)
    requires EndsWith(s, lit) && s != lit
    ensures |s| > |lit|
  {
    assert s[|s| - |lit|..] == lit;
  }

  /** `a*b` with literal `a` and `b` matches exactly the strings that start
      with `a`, end with `b`, and are long enough for both. */
  lemma GlobInfix(s: string, a: string, b: string)
    requires '*' !in a && '*' !in b
    ensures GlobMatch(s, a + "*" + b) <==> |s| >= |a| + |b| && StartsWith(s, a) && EndsWith(s, b)
  {
    assert a + "*" + b == a + ("*" + b);
    GlobLiteralPrefix(s, a, "*" + b);
    if StartsWith(s, a) {
      var t := s[|a|..];
      GlobStarLiteral(t, b);
      if EndsWith(t, b) {
        assert t[|t| - |b|..] == s[|s| - |b|..];
      }
      if |s| >= |a| + |b| && EndsWith(s, b) {
        assert t[|t| - |b|..] == s[|s| - |b|..];
      }
    }
  }

  /** `a*` with literal `a` matches exactly the strings that start with `a`. */
  lemma GlobLiteralStar(s: string, a: string)
    requires '*' !in a
    ensures GlobMatch(s, a + "*") <==> StartsWith(s, a)
  {
    GlobInfix(s, a, "");
    assert a + "*" + "" == a + "*";
  }

  // ---------------------------------------------------------------------------
  // Repository names
  // ---------------------------------------------------------------------------

  /** Trailing slashes of the URL do not change the repository name. */
  lemma UrlBaseNameIgnoresTrailingSlash(url: string)
    ensures UrlBaseName(url + "/") == UrlBaseName(url)
  {
    var u := url + "/";
    assert u[..|u| - 1] == url;
  }
}
