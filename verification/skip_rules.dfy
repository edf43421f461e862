/** The exclusion tables of src/lib/skip_rules.py (generated code, vendored
    dependencies, build outputs, documentation and lock files) and the
    shorter defaults of `BaseConfig` in src/lib/config.py, each as one
    instantiation of `should_skip`. */
module SkipTables {
  import opened Strings
  import opened PathSyntax
  import opened Categorization

  /** `SKIP_PREFIXES`. */
  const SkipPrefixes: seq<string> := [
    "docs/", ".github/", ".gitlab/",
    "vendor/", "third_party/", "node_modules/",
    "generated/", "gen/", "dist/", "build/", "target/", "out/"
  ]

  /** `SKIP_SUFFIXES`. */
  const SkipSuffixes: seq<string> := [
    ".md", ".png", ".jpg", ".jpeg", ".gif", ".svg",
    ".lock", ".sum",
    ".pb.go", ".pb.cc", ".pb.h", ".pb.c", ".pb.java", ".pb.kt", ".pb.py", ".proto.lock",
    "_generated.go", "_gen.go", ".generated.go"
  ]

  /** `SKIP_PATTERNS`. */
  const SkipPatterns: seq<string> := [
    "*_pb.go", "*_grpc.pb.go", "*_grpc.pb.*", "*_pb2.py", "*_pb2_grpc.py",
    "zz_generated.*", "bindata.go", "mock_*.go"
  ]

  /** The three tables of skip_rules.py passed together to `should_skip`. */
  const GeneratedCodeRules: SkipRules := SkipRules(SkipPrefixes, SkipSuffixes, SkipPatterns)

  /** The `skip_prefixes` default of `BaseConfig`. */
  const ConfigPrefixes: seq<string> := ["docs/", ".github/", ".gitlab/", "vendor/", "third_party/", "node_modules/"]

  /** The `skip_suffixes` default of `BaseConfig`. */
  const ConfigSuffixes: seq<string> := [".md", ".png", ".jpg", ".jpeg", ".gif", ".svg", ".lock", ".sum"]

  /** The tables a `BaseConfig` carries. It has no `skip_patterns` field, so
      the patterns are empty here. */
  const ConfigRules: SkipRules := SkipRules(ConfigPrefixes, ConfigSuffixes, [])

  /** No entry of the three tables has an upper-case letter, so each can
      match the lower-cased path. */
  lemma TablesAreLowerCase()
    ensures forall i :: 0 <= i < |SkipPrefixes| ==> NoUpper(SkipPrefixes[i])
    ensures forall i :: 0 <= i < |SkipSuffixes| ==> NoUpper(SkipSuffixes[i])
    ensures forall i :: 0 <= i < |SkipPatterns| ==> NoUpper(SkipPatterns[i])
  {
    PrefixesAreLowerCase();
    SuffixesAreLowerCase();
    PatternsAreLowerCase();
  }

  lemma PrefixesAreLowerCase()
    ensures forall i :: 0 <= i < |SkipPrefixes| ==> NoUpper(SkipPrefixes[i])
  {
  }

  lemma SuffixesAreLowerCase()
    ensures forall i :: 0 <= i < |SkipSuffixes| ==> NoUpper(SkipSuffixes[i])
  {
  }

  lemma PatternsAreLowerCase()
    ensures forall i :: 0 <= i < |SkipPatterns| ==> NoUpper(SkipPatterns[i])
  {
  }

  /** Every path under one of the listed directories is skipped, whatever the
      case of the rest of the path. The anchor is the start of the path. */
  lemma SkippedDirectory(i: nat, rest: string)
    requires i < |SkipPrefixes|
    ensures ShouldSkip(SkipPrefixes[i] + rest, GeneratedCodeRules)
  {
    var pre := SkipPrefixes[i];
    PrefixesAreLowerCase();
    LowerConcat(pre, rest);
    LowerOfNoUpper(pre);
    assert (pre + Lower(rest))[..|pre|] == pre;
  }

  /** Every path ending in one of the listed suffixes is skipped: images,
      documentation, lock files, protoc and Go generator outputs. */
  lemma SkippedSuffix(i: nat, rest: string)
    requires i < |SkipSuffixes|
    ensures ShouldSkip(rest + SkipSuffixes[i], GeneratedCodeRules)
  {
    var suf := SkipSuffixes[i];
    SuffixesAreLowerCase();
    LowerConcat(rest, suf);
    LowerOfNoUpper(suf);
    var l := Lower(rest) + suf;
    assert l[|l| - |suf|..] == suf;
  }

  /** `build/` is anchored at the start: no prefix entry removes
      `src/build/x.go`. */
  lemma NestedBuildDirectoryKept()
    ensures !AnyPrefix("src/build/x.go", SkipPrefixes)
  {
    var p := "src/build/x.go";
    forall i | 0 <= i < |SkipPrefixes| ensures !StartsWith(p, SkipPrefixes[i]) {
      var pre := SkipPrefixes[i];
      assert pre[0] != 's';
    }
  }

  /** A file whose name (in any directory) matches one of the patterns is
      skipped. */
  lemma SkippedName(d: string, n: string, i: nat)
    requires '/' !in n && IsRealComponent(n)
    requires i < |SkipPatterns| && GlobMatch(Lower(n), SkipPatterns[i])
    ensures ShouldSkip(n, GeneratedCodeRules)
    ensures ShouldSkip(d + "/" + n, GeneratedCodeRules)
  {
    assert '/' !in Lower(n) by {
      assert forall j :: 0 <= j < |n| ==> Lower(n)[j] != '/';
    }
    LowerIsDot(n);
    NameOfLowerName(n);
    PatternsSeeOnlyTheName(d, n, SkipPatterns);
  }

  lemma MockName(m: string)
    ensures GlobMatch("mock_" + m + ".go", SkipPatterns[7])
  {
    var n := "mock_" + m + ".go";
    assert SkipPatterns[7] == "mock_" + "*" + ".go";
    assert n[..5] == "mock_";
    assert n[|n| - 3..] == ".go";
    GlobInfix(n, "mock_", ".go");
  }

  /** `mock_*.go` skips Go mocks in every directory, whatever the case of
      the name. */
  lemma SkippedMock(d: string, m: string)
    requires '/' !in m && NoUpper(m)
    ensures ShouldSkip(d + "/mock_" + m + ".go", GeneratedCodeRules)
  {
    var n := "mock_" + m + ".go";
    assert d + "/mock_" + m + ".go" == d + "/" + n;
    assert forall j :: 0 <= j < |n| ==> n[j] != '/' && !IsUpperAscii(n[j]);
    LowerOfNoUpper(n);
    MockName(m);
    SkippedName(d, n, 7);
  }

  /** `zz_generated.*` skips Kubernetes deep-copy outputs in every directory. */
  lemma SkippedZzGenerated(d: string, e: string)
    requires '/' !in e && NoUpper(e)
    ensures ShouldSkip(d + "/zz_generated." + e, GeneratedCodeRules)
  {
    var n := "zz_generated." + e;
    assert d + "/zz_generated." + e == d + "/" + n;
    assert forall j :: 0 <= j < |n| ==> n[j] != '/' && !IsUpperAscii(n[j]);
    LowerOfNoUpper(n);
    assert SkipPatterns[5] == "zz_generated." + "*";
    assert n[..13] == "zz_generated.";
    GlobLiteralStar(n, "zz_generated.");
    SkippedName(d, n, 5);
  }

  /** `bindata.go` is skipped in every directory. */
  lemma SkippedBindata(d: string)
    ensures ShouldSkip(d + "/bindata.go", GeneratedCodeRules)
  {
    var n := "bindata.go";
    assert d + "/bindata.go" == d + "/" + n;
    LowerOfNoUpper(n);
    GlobLiteralExact(n, SkipPatterns[6]);
    SkippedName(d, n, 6);
  }

  predicate IsPlainStem(stem: string) {
    |stem| > 0 && NoUpper(stem) && '/' !in stem && '.' !in stem && '-' !in stem && '*' !in stem
  }

  lemma Pb2Characters(stem: string)
    requires IsPlainStem(stem)
    ensures var c := stem + "_pb2.py";
      forall j :: 0 <= j < |c| ==> c[j] != '/' && c[j] != '-' && !IsUpperAscii(c[j])
  {
  }

  lemma Pb2NoDockerCompose(stem: string)
    requires IsPlainStem(stem)
    ensures !Contains(stem + "_pb2.py", "docker-compose")
  {
    var c := stem + "_pb2.py";
    Pb2Characters(stem);
    assert forall i :: OccursAt(c, "docker-compose", i) ==> c[i..i + 14][6] == c[i + 6];
  }

  lemma Pb2Suffix(stem: string)
    requires IsPlainStem(stem)
    ensures Suffix(stem + "_pb2.py") == ".py"
  {
    assert stem + "_pb2" + "." + "py" == stem + "_pb2.py";
    SuffixOfName("", stem + "_pb2", "py");
  }

  lemma Pb2Shape(stem: string)
    requires IsPlainStem(stem)
    ensures var c := stem + "_pb2.py";
      && '/' !in c && IsRealComponent(c) && NoUpper(c) && Lower(c) == c
      && !Contains(c, "docker-compose")
      && c !in {"test", "tests", "testing", "ci", "pipeline", "workflows"}
      && !EndsWith(c, "_test.go") && !EndsWith(c, "test.java")
      && Suffix(c) == ".py"
  {
    var c := stem + "_pb2.py";
    Pb2Characters(stem);
    LowerOfNoUpper(c);
    Pb2NoDockerCompose(stem);
    Pb2Suffix(stem);
    assert c[|c| - 1] == 'y' && c[|c| - 3] == '.';
  }

  lemma Pb2IsImpl(stem: string)
    requires IsPlainStem(stem)
    ensures Categorize(stem + "_pb2.py") == Impl
  {
    Pb2Shape(stem);
    assert ExtensionCategory(".py") == Impl;
    TopLevelFileCategory(stem + "_pb2.py");
  }

  lemma Pb2MatchesPattern(stem: string)
    ensures GlobMatch(stem + "_pb2.py", SkipPatterns[3])
  {
    var c := stem + "_pb2.py";
    assert SkipPatterns[3] == "*" + "_pb2.py";
    assert c[|c| - 7..] == "_pb2.py";
    GlobStarLiteral(c, "_pb2.py");
  }

  lemma Pb2Skipped(stem: string)
    requires IsPlainStem(stem)
    ensures ShouldSkip(stem + "_pb2.py", GeneratedCodeRules)
  {
    Pb2Shape(stem);
    Pb2MatchesPattern(stem);
    SkippedName("", stem + "_pb2.py", 3);
  }

  /** A Python protobuf module `<stem>_pb2.py` would be `impl` by its `.py`
      extension, but the `*_pb2.py` pattern skips it first, so skipping takes
      precedence over classification (`service_pb2.py`, for one). */
  lemma SkipTakesPrecedence(stem: string)
    requires IsPlainStem(stem)
    ensures Categorize(stem + "_pb2.py") == Impl
    ensures ShouldSkip(stem + "_pb2.py", GeneratedCodeRules)
  {
    Pb2IsImpl(stem);
    Pb2Skipped(stem);
  }

  /** The suffix table without `.proto.lock`. */
  const SuffixesWithoutProtoLock: seq<string> := SkipSuffixes[..15] + SkipSuffixes[16..]

  /** The `.proto.lock` entry is subsumed by `.lock`: removing it changes no
      decision. */
  lemma ProtoLockSubsumed(path: string)
    ensures ShouldSkip(path, GeneratedCodeRules)
        == ShouldSkip(path, GeneratedCodeRules.(suffixes := SuffixesWithoutProtoLock))
  {
    var l := Lower(path);
    var short := SuffixesWithoutProtoLock;
    assert |short| == 18;
    assert forall j :: 0 <= j < 15 ==> short[j] == SkipSuffixes[j];
    assert forall j :: 15 <= j < 18 ==> short[j] == SkipSuffixes[j + 1];
    if AnySuffix(l, SkipSuffixes) {
      var i :| 0 <= i < |SkipSuffixes| && EndsWith(l, SkipSuffixes[i]);
      if i == 15 {
        assert SkipSuffixes[15] == ".proto.lock";
        assert EndsWith(".proto.lock", ".lock");
        EndsWithTransitive(l, ".proto.lock", ".lock");
        assert EndsWith(l, short[6]);
      } else if i > 15 {
        assert EndsWith(l, short[i - 1]);
      } else {
        assert EndsWith(l, short[i]);
      }
    }
    if AnySuffix(l, short) {
      var j :| 0 <= j < |short| && EndsWith(l, short[j]);
      if j < 15 {
        assert EndsWith(l, SkipSuffixes[j]);
      } else {
        assert EndsWith(l, SkipSuffixes[j + 1]);
      }
    }
  }

  /** The `BaseConfig` defaults are the first entries of the skip_rules.py
      tables, so whatever they skip the full tables skip too. */
  lemma ConfigRulesWeaker(path: string)
    ensures ShouldSkip(path, ConfigRules) ==> ShouldSkip(path, GeneratedCodeRules)
  {
    var l := Lower(path);
    assert ConfigPrefixes == SkipPrefixes[..6];
    assert ConfigSuffixes == SkipSuffixes[..8];
    if AnyPrefix(l, ConfigPrefixes) {
      var i :| 0 <= i < |ConfigPrefixes| && StartsWith(l, ConfigPrefixes[i]);
      assert SkipPrefixes[i] == ConfigPrefixes[i];
    }
    if AnySuffix(l, ConfigSuffixes) {
      var i :| 0 <= i < |ConfigSuffixes| && EndsWith(l, ConfigSuffixes[i]);
      assert SkipSuffixes[i] == ConfigSuffixes[i];
    }
  }
}
