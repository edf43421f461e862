/** The path classifier of src/lib/categorize.py: `should_skip`, the
    exclusion test applied before anything is counted, and `categorize`, an
    ordered first-match chain of rules that assigns one of eight categories. */
module Categorization {
  import opened Strings
  import opened PathSyntax

  datatype Category = Test | Ci | Infra | Build | Proto | Impl | Config | Other

  /** The string `categorize` returns for each category. */
  function CategoryName(c: Category): (r: string)
    ensures |r| > 0
  {
    match c
    case Test => "test"
    case Ci => "ci"
    case Infra => "infra"
    case Build => "build"
    case Proto => "proto"
    case Impl => "impl"
    case Config => "config"
    case Other => "other"
  }

  const ExtImpl: set<string> := {".go", ".java", ".py", ".js", ".ts", ".tsx", ".jsx", ".kt", ".rb", ".rs", ".php", ".cs"}
  const ExtConfig: set<string> := {".yml", ".yaml", ".json", ".toml", ".ini", ".cfg", ".env"}
  const ExtBuild: set<string> := {".gradle", ".xml"}
  const ExtInfra: set<string> := {".tf"}
  const ExtShell: set<string> := {".sh", ".bash", ".zsh"}

  /** `TEST_PAT.search(p)`. */
  predicate IsTestDir(p: string) {
    HasSegment(p, "test") || HasSegment(p, "tests") || HasSegment(p, "testing")
  }

  /** `CI_PAT.search(p)`. */
  predicate IsCiDir(p: string) {
    HasSegment(p, "ci") || HasSegment(p, "pipeline") || HasSegment(p, "workflows")
  }

  /** The rules of the chain, each over the lower-cased path `p` and its name. */
  predicate TestRule(p: string) {
    var name := Name(p);
    IsTestDir(p) || EndsWith(name, "_test.go") || EndsWith(name, "test.java")
  }

  predicate CiRule(p: string) {
    IsCiDir(p) || StartsWith(p, ".github/") || StartsWith(p, ".gitlab/")
  }

  predicate InfraDirRule(p: string) {
    || StartsWith(p, "docker/") || StartsWith(p, "k8s/") || StartsWith(p, "helm/") || StartsWith(p, "charts/")
    || Contains(p, "docker-compose")
  }

  predicate BuildNameRule(name: string) {
    name == "makefile" || name in {"pom.xml", "build.gradle", "settings.gradle"}
  }

  /** The category an extension alone gives, once no name or directory rule fired. */
  function ExtensionCategory(ext: string): Category {
    if ext == ".proto" then Proto
    else if ext in ExtImpl then Impl
    else if ext in ExtConfig then Config
    else if ext in ExtInfra then Infra
    else if ext in ExtBuild then Build
    else if ext in ExtShell then Build
    else Other
  }

  /** `categorize(path)`: the rule chain runs on the lower-cased path. */
  function Categorize(path: string): Category {
    CategoryOfLower(Lower(path))
  }

  /** The rule chain of `categorize`, given the lower-cased path `p`. */
  function CategoryOfLower(p: string): Category {
    var name := Name(p);
    if TestRule(p) then Test
    else if CiRule(p) then Ci
    else if InfraDirRule(p) then Infra
    else if name == "dockerfile" then Infra
    else if BuildNameRule(name) then Build
    else ExtensionCategory(Suffix(p))
  }

  /** `p.endswith(".proto")`, the case-sensitive test. */
  predicate HasProtoSuffix(p: string) {
    EndsWith(p, ".proto")
  }

  /** `p.lower().endswith(".proto")`, the case-insensitive test. */
  predicate HasProtoSuffixIgnoringCase(p: string) {
    EndsWith(Lower(p), ".proto")
  }

  /** A path as git prints it: the text after its last `/` is a real file
      name (no trailing `/`, not `.`). */
  predicate IsGitPath(p: string) {
    IsRealComponent(AfterLast(p, '/'))
  }

  // ---------------------------------------------------------------------------
  // should_skip
  // ---------------------------------------------------------------------------

  /** The three exclusion tables `should_skip` takes as arguments. */
  datatype SkipRules = SkipRules(prefixes: seq<string>, suffixes: seq<string>, patterns: seq<string>)

  /** The early-return loop over `skip_prefixes`: some entry is a prefix. */
  predicate AnyPrefix(s: string, pres: seq<string>) {
    exists i | 0 <= i < |pres| :: StartsWith(s, pres[i])
  }

  /** The early-return loop over `skip_suffixes`: some entry is a suffix. */
  predicate AnySuffix(s: string, sufs: seq<string>) {
    exists i | 0 <= i < |sufs| :: EndsWith(s, sufs[i])
  }

  /** The early-return loop over `skip_patterns`: some pattern matches. */
  predicate AnyGlob(name: string, pats: seq<string>) {
    exists i | 0 <= i < |pats| :: GlobMatch(name, pats[i])
  }

  /** The pattern stage of `should_skip`: only the final component of the
      lower-cased path is matched. */
  predicate PatternSkip(path: string, pats: seq<string>) {
    |pats| > 0 && AnyGlob(Name(Lower(path)), pats)
  }

  /** `should_skip(path, skip_prefixes=..., skip_suffixes=..., skip_patterns=...)`. */
  predicate ShouldSkip(path: string, rules: SkipRules) {
    var lower := Lower(path);
    || AnyPrefix(lower, rules.prefixes)
    || AnySuffix(lower, rules.suffixes)
    || PatternSkip(path, rules.patterns)
  }

  /** With all three tables empty nothing is skipped. */
  lemma NoRulesSkipNothing(path: string)
    ensures !ShouldSkip(path, SkipRules([], [], []))
  {
  }

  /** `should_skip` lower-cases the path itself, so a path and its
      lower-cased form are treated alike. */
  lemma ShouldSkipIgnoresCase(path: string, rules: SkipRules)
    ensures ShouldSkip(Lower(path), rules) == ShouldSkip(path, rules)
  {
    LowerIdempotent(path);
  }

  /** One more entry at the end of the prefix table. */
  lemma AnyPrefixSnoc(s: string, pres: seq<string>, w: string)
    ensures AnyPrefix(s, pres + [w]) <==> AnyPrefix(s, pres) || StartsWith(s, w)
  {
    var all := pres + [w];
    assert forall i :: 0 <= i < |pres| ==> all[i] == pres[i];
    assert all[|pres|] == w;
  }

  /** One more entry at the end of the suffix table. */
  lemma AnySuffixSnoc(s: string, sufs: seq<string>, w: string)
    ensures AnySuffix(s, sufs + [w]) <==> AnySuffix(s, sufs) || EndsWith(s, w)
  {
    var all := sufs + [w];
    assert forall i :: 0 <= i < |sufs| ==> all[i] == sufs[i];
    assert all[|sufs|] == w;
  }

  /** Table entries are not lower-cased: an entry with an upper-case letter
      never fires, so adding one changes nothing. */
  lemma UpperCaseEntryIsInert(path: string, rules: SkipRules, w: string)
    requires HasUpper(w)
    ensures ShouldSkip(path, rules.(prefixes := rules.prefixes + [w])) == ShouldSkip(path, rules)
    ensures ShouldSkip(path, rules.(suffixes := rules.suffixes + [w])) == ShouldSkip(path, rules)
  {
    UpperEntryNeverMatches(path, w);
    AnyPrefixSnoc(Lower(path), rules.prefixes, w);
    AnySuffixSnoc(Lower(path), rules.suffixes, w);
  }

  lemma LowerKeepsSlash(s: string)
    ensures LastIndexOf(Lower(s), '/') == LastIndexOf(s, '/')
    decreases |s|
  {
    if |s| > 0 {
      assert Lower(s)[..|s| - 1] == Lower(s[..|s| - 1]);
      LowerKeepsSlash(s[..|s| - 1]);
    }
  }

  lemma LowerJoin(d: string, n: string)
    ensures Lower(d + "/" + n) == Lower(d) + "/" + Lower(n)
  {
  }

  /** Patterns see only the file name: putting a file under any directory
      does not change whether a pattern matches it. */
  lemma PatternsSeeOnlyTheName(d: string, n: string, pats: seq<string>)
    requires '/' !in n && IsRealComponent(n)
    ensures PatternSkip(d + "/" + n, pats) == PatternSkip(n, pats)
  {
    LowerJoin(d, n);
    var ln := Lower(n);
    assert forall i :: 0 <= i < |ln| ==> ln[i] != '/';
    LowerIsDot(n);
    NameOfJoin(Lower(d), ln);
    NameOfLowerName(n);
  }

  lemma LowerIsDot(x: string)
    ensures Lower(x) == "." <==> x == "."
  {
    if |x| == 1 {
      assert Lower(x) == [LowerChar(x[0])] && x == [x[0]];
    }
  }

  lemma NameOfLowerName(n: string)
    requires '/' !in Lower(n) && IsRealComponent(Lower(n))
    ensures Name(Lower(n)) == Lower(n)
  {
    assert LastIndexOf(Lower(n), '/') == -1;
  }

  // ---------------------------------------------------------------------------
  // categorize
  // ---------------------------------------------------------------------------

  /** `categorize` lower-cases first, so it ignores case. */
  lemma CategorizeIgnoresCase(path: string)
    ensures Categorize(Lower(path)) == Categorize(path)
  {
    LowerIdempotent(path);
  }

  /** The test rule is tried first: a `test`/`tests`/`testing` segment or a
      `_test.go`/`test.java` name gives `test` whatever else holds, and
      nothing else gives `test`. */
  lemma TestRuleWins(path: string)
    ensures Categorize(path) == Test <==> TestRule(Lower(path))
  {
    TestRuleFirst(Lower(path));
  }

  /** The same rule stated on an already lower-cased path `p`. */
  lemma TestRuleFirst(p: string)
    ensures CategoryOfLower(p) == Test <==> TestRule(p)
  {
  }

  /** `ci` comes from a whole `ci`/`pipeline`/`workflows` segment or a
      `.github/`/`.gitlab/` prefix, and only when the test rule did not fire. */
  lemma CiRuleSecond(path: string)
    ensures Categorize(path) == Ci <==> !TestRule(Lower(path)) && CiRule(Lower(path))
  {
    CiRuleNext(Lower(path));
  }

  /** The same rule stated on an already lower-cased path `p`. */
  lemma CiRuleNext(p: string)
    ensures CategoryOfLower(p) == Ci <==> !TestRule(p) && CiRule(p)
  {
  }

  /** The infra-directory rule comes third. */
  lemma InfraRuleThird(p: string)
    requires !TestRule(p) && !CiRule(p) && InfraDirRule(p)
    ensures CategoryOfLower(p) == Infra
  {
  }

  /** Once the directory rules are passed, the name rules and then the
      extension decide. */
  lemma NameRulesLast(p: string)
    requires !TestRule(p) && !CiRule(p) && !InfraDirRule(p)
    ensures CategoryOfLower(p) ==
      if Name(p) == "dockerfile" then Infra
      else if BuildNameRule(Name(p)) then Build
      else ExtensionCategory(Suffix(p))
  {
  }

  /** None of the test, CI, infra-directory, Dockerfile or build-name rules
      fires on the lower-cased path `p`. */
  predicate NoEarlierRule(p: string) {
    && !TestRule(p) && !CiRule(p) && !InfraDirRule(p)
    && Name(p) != "dockerfile" && !BuildNameRule(Name(p))
  }

  /** Once none of the name and directory rules fired, the extension decides. */
  lemma ExtensionDecides(path: string)
    requires NoEarlierRule(Lower(path))
    ensures Categorize(path) == ExtensionCategory(Suffix(Lower(path)))
  {
    ExtensionLast(Lower(path));
  }

  /** The same rule stated on an already lower-cased path `p`. */
  lemma ExtensionLast(p: string)
    requires NoEarlierRule(p)
    ensures CategoryOfLower(p) == ExtensionCategory(Suffix(p))
  {
  }

  /** A `.proto` extension gives `proto` only when none of the test, CI,
      infra-directory, Dockerfile or build-name rules fired. */
  lemma ProtoNeedsNoEarlierRule(path: string)
    ensures Categorize(path) == Proto <==> NoEarlierRule(Lower(path)) && Suffix(Lower(path)) == ".proto"
  {
    ProtoOnlyLast(Lower(path));
  }

  /** The same rule stated on an already lower-cased path `p`. */
  lemma ProtoOnlyLast(p: string)
    ensures CategoryOfLower(p) == Proto <==> NoEarlierRule(p) && Suffix(p) == ".proto"
  {
  }

  /** A path categorised as `proto` has a name ending in `.proto`. */
  lemma ProtoCategoryHasProtoName(path: string)
    requires Categorize(path) == Proto
    ensures EndsWith(Name(Lower(path)), ".proto")
  {
    ProtoNeedsNoEarlierRule(path);
    SuffixShape(Lower(path));
  }

  lemma LowerGitPath(p: string)
    requires IsGitPath(p)
    ensures AfterLast(Lower(p), '/') == Lower(AfterLast(p, '/'))
    ensures IsGitPath(Lower(p))
  {
    LowerKeepsSlash(p);
    LowerFrom(p, LastIndexOf(p, '/') + 1);
    LowerIsDot(AfterLast(p, '/'));
  }

  /** For a path as git prints it, `categorize` gives `proto` only when the
      path itself ends in `.proto`, ignoring case; so after the
      case-insensitive `.proto` split the `categorize(p) != "proto"` filter
      of the co-change lists never removes a git path. */
  lemma GitPathProtoCategoryEndsWithProto(path: string)
    requires IsGitPath(path)
    requires Categorize(path) == Proto
    ensures HasProtoSuffixIgnoringCase(path)
  {
    ProtoCategoryHasProtoName(path);
    LowerGitPath(path);
    NameOfPlainPath(Lower(path));
    EndsWithTransitive(Lower(path), Name(Lower(path)), ".proto");
  }

  // ---------------------------------------------------------------------------
  // Paths of a fixed shape
  // ---------------------------------------------------------------------------

  /** The words `TEST_PAT` and `CI_PAT` look for as whole segments. */
  const DirectoryWords: set<string> := {"test", "tests", "testing", "ci", "pipeline", "workflows"}

  /** The top-level directories the CI and infra rules look for as prefixes. */
  const PrefixDirs: set<string> := {".github", ".gitlab", "docker", "k8s", "helm", "charts"}

  /** A file name none of the name rules picks out. */
  predicate OrdinaryName(n: string) {
    && n !in DirectoryWords && !EndsWith(n, "_test.go") && !EndsWith(n, "test.java")
    && n != "dockerfile" && !BuildNameRule(n)
  }

  /** `stem.e`, lower-case, with neither part empty nor holding a dot or a `/`. */
  predicate PlainDotted(stem: string, e: string) {
    && '/' !in stem && '/' !in e && '.' !in stem && '.' !in e
    && |stem| > 0 && |e| > 0 && NoUpper(stem) && NoUpper(e)
  }

  /** In a single component followed by `/`, the only whole segment is the
      component itself. */
  lemma SegmentsOfOneComponent(c: string, w: string)
    requires '/' !in c && '/' !in w && |w| > 0
    ensures HasSegment(c + "/", w) ==> w == c
  {
    var p := c + "/";
    if HasSegment(p, w) {
      var i :| 0 <= i <= |p| && SegmentAt(p, w, i);
      assert forall j :: 0 <= j < |c| ==> p[j] == c[j];
      assert i == 0;
      assert p[|c|] == '/';
      assert forall j :: 0 <= j < |w| ==> w[j] == p[j];
      assert |w| == |c|;
      assert p[..|c|] == c;
    }
  }

  /** None of the directory-word rules fires on `a/b` when neither component
      is one of the words. */
  lemma NoDirectoryWord(a: string, b: string)
    requires '/' !in a && '/' !in b && a !in DirectoryWords && b !in DirectoryWords
    ensures !IsTestDir(a + "/" + b) && !IsCiDir(a + "/" + b)
  {
    SegmentsOfTwoComponents(a, b, "test");
    SegmentsOfTwoComponents(a, b, "tests");
    SegmentsOfTwoComponents(a, b, "testing");
    SegmentsOfTwoComponents(a, b, "ci");
    SegmentsOfTwoComponents(a, b, "pipeline");
    SegmentsOfTwoComponents(a, b, "workflows");
  }

  /** The test rule does not fire on `d/n` when neither component is a test
      word and `n` is not named like a test. */
  lemma NoTestRuleUnder(d: string, n: string)
    requires '/' !in d && d !in DirectoryWords
    requires '/' !in n && IsRealComponent(n) && OrdinaryName(n)
    ensures !TestRule(d + "/" + n)
  {
    NameOfJoin(d, n);
    NoDirectoryWord(d, n);
  }

  /** The CI rule does not fire on `d/n` when neither component is a CI word
      and `d` is neither `.github` nor `.gitlab`. */
  lemma NoCiRuleUnder(d: string, n: string)
    requires '/' !in d && d !in DirectoryWords && d != ".github" && d != ".gitlab"
    requires '/' !in n && n !in DirectoryWords
    ensures !CiRule(d + "/" + n)
  {
    NoDirectoryWord(d, n);
    SlashPrefix(d, n, ".github");
    SlashPrefix(d, n, ".gitlab");
  }

  /** The infra-directory rule does not fire on `d/n` when `d` is not one of
      its directories and `docker-compose` does not occur. */
  lemma NoInfraRuleUnder(d: string, n: string)
    requires '/' !in d && d !in PrefixDirs && !Contains(d + "/" + n, "docker-compose")
    ensures !InfraDirRule(d + "/" + n)
  {
    SlashPrefix(d, n, "docker");
    SlashPrefix(d, n, "k8s");
    SlashPrefix(d, n, "helm");
    SlashPrefix(d, n, "charts");
  }

  /** A file `stem.e` in a directory that is neither a directory word nor
      one of the prefix directories is categorised by its extension `.e`
      alone: `test` and `ci` must be whole segments, not parts of one. */
  lemma CategoryUnderDirectory(p: string, d: string, n: string, stem: string, e: string, ext: string)
    requires p == d + "/" + n && n == stem + ext && ext == "." + e
    requires '/' !in d && NoUpper(d) && d !in DirectoryWords && d !in PrefixDirs
    requires PlainDotted(stem, e) && OrdinaryName(n) && !Contains(p, "docker-compose")
    ensures Categorize(p) == ExtensionCategory(ext)
  {
    assert n == stem + "." + e;
    assert p == d + "/" + stem + "." + e;
    DottedName(stem, e);
    NoUpperConcat(d + "/", n);
    LowerOfNoUpper(p);
    NameOfJoin(d, n);
    NoTestRuleUnder(d, n);
    NoCiRuleUnder(d, n);
    NoInfraRuleUnder(d, n);
    SuffixOfNameUnder(d, stem, e);
    ExtensionLast(p);
  }

  /** Any file in a top-level `test`, `tests` or `testing` directory is a
      test, whatever its extension. */
  lemma CategoryInTestDirectory(p: string, d: string, n: string)
    requires p == d + "/" + n && d in {"test", "tests", "testing"}
    ensures Categorize(p) == Test
  {
    LowerJoin(d, n);
    LowerOfNoUpper(d);
    LeadingSegment(d, Lower(n));
    TestRuleFirst(Lower(p));
  }

  /** A file with an ordinary name directly in a top-level `docker`, `k8s`,
      `helm` or `charts` directory is infra, whatever its extension. */
  lemma CategoryInInfraDirectory(p: string, d: string, n: string)
    requires p == d + "/" + n && NoUpper(p) && '/' !in d
    requires StartsWith(p, "docker/") || StartsWith(p, "k8s/") || StartsWith(p, "helm/") || StartsWith(p, "charts/")
    requires d !in DirectoryWords && d != ".github" && d != ".gitlab"
    requires '/' !in n && IsRealComponent(n) && OrdinaryName(n)
    ensures Categorize(p) == Infra
  {
    LowerOfNoUpper(p);
    NoTestRuleUnder(d, n);
    NoCiRuleUnder(d, n);
    InfraRuleThird(p);
  }

  /** A file with an ordinary name directly in `.github` or `.gitlab` is CI. */
  lemma CategoryInCiDirectory(p: string, d: string, n: string)
    requires p == d + "/" + n && NoUpper(p) && '/' !in d
    requires StartsWith(p, ".github/") || StartsWith(p, ".gitlab/")
    requires d !in DirectoryWords
    requires '/' !in n && IsRealComponent(n) && OrdinaryName(n)
    ensures Categorize(p) == Ci
  {
    LowerOfNoUpper(p);
    NoTestRuleUnder(d, n);
    CiRuleNext(p);
  }

  /** A file `stem.e` at the top level is categorised by its extension. */
  lemma CategoryOfTopLevelFile(n: string, stem: string, e: string, ext: string)
    requires n == stem + ext && ext == "." + e
    requires PlainDotted(stem, e) && OrdinaryName(n) && !Contains(n, "docker-compose")
    ensures Categorize(n) == ExtensionCategory(ext)
  {
    assert n == stem + "." + e;
    DottedName(stem, e);
    NoUpperConcat(stem + ".", e);
    TopLevelNoEarlierRule(n);
    SuffixOfPlainName(stem, e);
    ExtensionLast(n);
  }

  /** A top-level name whose only dot comes first has no extension and is
      `other`. */
  lemma CategoryOfHiddenFile(n: string)
    requires '/' !in n && NoUpper(n) && |n| >= 2 && n[0] == '.' && '.' !in n[1..]
    requires OrdinaryName(n) && !Contains(n, "docker-compose")
    ensures Categorize(n) == Other
  {
    TopLevelNoEarlierRule(n);
    NameOfComponent(n);
    LeadingDotHasNoSuffix(n);
    ExtensionLast(n);
  }

  lemma NoSlashPrefix(c: string, pre: string)
    requires '/' !in c && |pre| > 0 && pre[|pre| - 1] == '/'
    ensures !StartsWith(c, pre)
  {
    if |pre| <= |c| {
      assert c[..|pre|][|pre| - 1] == c[|pre| - 1];
    }
  }

  /** No rule before the name rules fires on a top-level lower-case file
      with an ordinary name. */
  lemma TopLevelFileRules(c: string)
    requires '/' !in c && IsRealComponent(c) && NoUpper(c) && !Contains(c, "docker-compose")
    requires c !in DirectoryWords
    requires !EndsWith(c, "_test.go") && !EndsWith(c, "test.java")
    ensures Lower(c) == c && Name(c) == c
    ensures !TestRule(c) && !CiRule(c) && !InfraDirRule(c)
  {
    LowerOfNoUpper(c);
    NameOfComponent(c);
    SegmentsOfComponent(c, "test");
    SegmentsOfComponent(c, "tests");
    SegmentsOfComponent(c, "testing");
    SegmentsOfComponent(c, "ci");
    SegmentsOfComponent(c, "pipeline");
    SegmentsOfComponent(c, "workflows");
    NoSlashPrefix(c, ".github/");
    NoSlashPrefix(c, ".gitlab/");
    NoSlashPrefix(c, "docker/");
    NoSlashPrefix(c, "k8s/");
    NoSlashPrefix(c, "helm/");
    NoSlashPrefix(c, "charts/");
  }

  /** With an ordinary name as well, no rule before the extension fires. */
  lemma TopLevelNoEarlierRule(c: string)
    requires '/' !in c && IsRealComponent(c) && NoUpper(c) && !Contains(c, "docker-compose")
    requires OrdinaryName(c)
    ensures Lower(c) == c && NoEarlierRule(c)
  {
    TopLevelFileRules(c);
  }

  /** For such a top-level file, the Dockerfile rule, the build-name rule
      and then the extension decide. */
  lemma TopLevelFileCategory(c: string)
    requires '/' !in c && IsRealComponent(c) && NoUpper(c) && !Contains(c, "docker-compose")
    requires c !in DirectoryWords
    requires !EndsWith(c, "_test.go") && !EndsWith(c, "test.java")
    ensures Categorize(c) ==
      if c == "dockerfile" then Infra
      else if BuildNameRule(c) then Build
      else ExtensionCategory(Suffix(c))
  {
    TopLevelFileRules(c);
    NameRulesLast(c);
  }

  /** In a single component with a trailing `/`, the whole segments are those
      of the component. */
  lemma SegmentWithTrailingSlash(c: string, w: string)
    requires '/' !in c && '/' !in w && |w| > 0
    ensures HasSegment(c + "/", w) <==> HasSegment(c, w)
  {
    SegmentsOfOneComponent(c, w);
    SegmentsOfComponent(c, w);
    if w == c {
      LeadingSegment(c, "");
      assert c + "/" + "" == c + "/";
      assert c[..|c|] == c;
      assert SegmentAt(c, w, 0);
    }
  }

  /** A trailing `/` adds no occurrence of a word without `/`. */
  lemma ContainsWithTrailingSlash(c: string, w: string)
    requires '/' !in w && |w| > 0
    ensures Contains(c + "/", w) <==> Contains(c, w)
  {
    var p := c + "/";
    if Contains(p, w) {
      var i :| 0 <= i <= |p| && OccursAt(p, w, i);
      assert p[i + |w| - 1] == w[|w| - 1];
      assert i + |w| <= |c|;
      assert p[i..i + |w|] == c[i..i + |w|];
      assert OccursAt(c, w, i);
    }
    if Contains(c, w) {
      var i :| 0 <= i <= |c| && OccursAt(c, w, i);
      assert p[i..i + |w|] == c[i..i + |w|];
      assert OccursAt(p, w, i);
    }
  }

  lemma TestRuleWithTrailingSlash(c: string)
    requires '/' !in c && IsRealComponent(c)
    ensures TestRule(c + "/") == TestRule(c)
  {
    NameIgnoresTrailingSlash(c);
    SegmentWithTrailingSlash(c, "test");
    SegmentWithTrailingSlash(c, "tests");
    SegmentWithTrailingSlash(c, "testing");
  }

  lemma CiRuleWithTrailingSlash(c: string)
    requires '/' !in c && c != ".github" && c != ".gitlab"
    ensures CiRule(c + "/") == CiRule(c)
  {
    SegmentWithTrailingSlash(c, "ci");
    SegmentWithTrailingSlash(c, "pipeline");
    SegmentWithTrailingSlash(c, "workflows");
    SlashPrefix(c, "", ".github");
    SlashPrefix(c, "", ".gitlab");
    assert c + "/" + "" == c + "/";
    NoSlashPrefix(c, ".github/");
    NoSlashPrefix(c, ".gitlab/");
  }

  lemma InfraRuleWithTrailingSlash(c: string)
    requires '/' !in c && c !in PrefixDirs
    ensures InfraDirRule(c + "/") == InfraDirRule(c)
  {
    ContainsWithTrailingSlash(c, "docker-compose");
    SlashPrefix(c, "", "docker");
    SlashPrefix(c, "", "k8s");
    SlashPrefix(c, "", "helm");
    SlashPrefix(c, "", "charts");
    assert c + "/" + "" == c + "/";
    NoSlashPrefix(c, "docker/");
    NoSlashPrefix(c, "k8s/");
    NoSlashPrefix(c, "helm/");
    NoSlashPrefix(c, "charts/");
  }

  /** pathlib drops a trailing `/`, and the segment rules see the same words
      with or without it: a single lower-case component keeps its category
      when a `/` is appended, unless it names one of the prefix directories. */
  lemma TrailingSlashKeepsCategory(p: string, c: string)
    requires p == c + "/" && '/' !in c && IsRealComponent(c) && NoUpper(c) && c !in PrefixDirs
    ensures Categorize(p) == Categorize(c)
  {
    NoUpperConcat(c, "/");
    LowerOfNoUpper(c);
    LowerOfNoUpper(c + "/");
    NameIgnoresTrailingSlash(c);
    TestRuleWithTrailingSlash(c);
    CiRuleWithTrailingSlash(c);
    InfraRuleWithTrailingSlash(c);
    ChainAgrees(c + "/", c);
  }

  /** Paths on which every rule agrees and that have the same name get the
      same category. */
  lemma ChainAgrees(p: string, q: string)
    requires TestRule(p) == TestRule(q) && CiRule(p) == CiRule(q) && InfraDirRule(p) == InfraDirRule(q)
    requires Name(p) == Name(q)
    ensures CategoryOfLower(p) == CategoryOfLower(q)
  {
    assert Suffix(p) == Suffix(q);
  }

  // ---------------------------------------------------------------------------
  // Worked examples of the rule order
  // ---------------------------------------------------------------------------

  /** The extension table at the extensions the examples use. */
  lemma SampleExtensions()
    ensures ExtensionCategory(".go") == Impl && ExtensionCategory(".yml") == Config
    ensures ExtensionCategory(".env") == Config && ExtensionCategory(".sh") == Build
    ensures ExtensionCategory(".proto") == Proto && ExtensionCategory("") == Other
  {
  }

  /** `tests/ci/deploy.yml`: the test rule wins over the CI directory and the
      `.yml` extension. */
  lemma TestBeatsCi()
    ensures Categorize("tests/ci/deploy.yml") == Test
  {
    CategoryInTestDirectory("tests/ci/deploy.yml", "tests", "ci/deploy.yml");
  }

  /** `contest/x.go` is not a test: `test` must be a whole segment. */
  lemma ContestIsNotTest()
    ensures Categorize("contest/x.go") == Impl
  {
    SampleExtensions();
    CategoryUnderDirectory("contest/x.go", "contest", "x.go", "x", "go", ".go");
  }

  /** `cicd/a.yml` is not CI: `ci` must be a whole segment. */
  lemma CicdIsNotCi()
    ensures Categorize("cicd/a.yml") == Config
  {
    SampleExtensions();
    CategoryUnderDirectory("cicd/a.yml", "cicd", "a.yml", "a", "yml", ".yml");
  }

  /** The `.github/` prefix gives `ci`. */
  lemma GithubIsCi()
    ensures Categorize(".github/release.yml") == Ci
  {
    CategoryInCiDirectory(".github/release.yml", ".github", "release.yml");
  }

  /** `test/a.proto` is a test: the `.proto` extension is consulted only
      after the directory rules. */
  lemma TestDirectoryBeatsProto()
    ensures Categorize("test/a.proto") == Test
  {
    CategoryInTestDirectory("test/a.proto", "test", "a.proto");
  }

  /** `docker/a.proto` is infra, for the same reason. */
  lemma InfraDirectoryBeatsProto()
    ensures Categorize("docker/a.proto") == Infra
  {
    CategoryInInfraDirectory("docker/a.proto", "docker", "a.proto");
  }

  /** A bare `.env` has no suffix and is `other`. */
  lemma DotEnvAlone()
    ensures Categorize(".env") == Other
  {
    CategoryOfHiddenFile(".env");
  }

  /** `x.env` has the suffix `.env` and is `config`. */
  lemma XDotEnv()
    ensures Categorize("x.env") == Config
  {
    SampleExtensions();
    CategoryOfTopLevelFile("x.env", "x", "env", ".env");
  }

  /** The same `categorize(p) != "proto"` filter can matter for a path with
      a trailing `/`, which pathlib strips: `a.proto/` is categorised
      `proto` but does not end in `.proto`. */
  lemma TrailingSlashProto()
    ensures Categorize("a.proto/") == Proto
    ensures !HasProtoSuffixIgnoringCase("a.proto/")
  {
    TrailingSlashProtoCategory();
    TrailingSlashNoProtoSuffix();
  }

  lemma TrailingSlashProtoCategory()
    ensures Categorize("a.proto/") == Proto
  {
    TopLevelProto();
    AProtoShape();
    TrailingSlashKeepsCategory("a.proto/", "a.proto");
  }

  lemma AProtoShape()
    ensures "a.proto/" == "a.proto" + "/" && '/' !in "a.proto" && IsRealComponent("a.proto")
    ensures NoUpper("a.proto") && "a.proto" !in PrefixDirs
  {
  }

  lemma TopLevelProto()
    ensures Categorize("a.proto") == Proto
  {
    SampleExtensions();
    CategoryOfTopLevelFile("a.proto", "a", "proto", ".proto");
  }

  lemma TrailingSlashNoProtoSuffix()
    ensures !HasProtoSuffixIgnoringCase("a.proto/")
  {
    LowerOfNoUpper("a.proto/");
  }

  /** `makefile`, `pom.xml` and `build.gradle` are build files by name. */
  lemma MakefileIsBuild()
    ensures Categorize("makefile") == Build
  {
    TopLevelFileCategory("makefile");
  }

  lemma PomIsBuild()
    ensures Categorize("pom.xml") == Build
  {
    TopLevelFileCategory("pom.xml");
  }

  lemma BuildGradleIsBuild()
    ensures Categorize("build.gradle") == Build
  {
    TopLevelFileCategory("build.gradle");
  }

  /** Shell scripts are build files by extension. */
  lemma ShellScriptIsBuild()
    ensures Categorize("run.sh") == Build
  {
    SampleExtensions();
    CategoryOfTopLevelFile("run.sh", "run", "sh", ".sh");
  }
}
