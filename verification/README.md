# proto-change-miner, modelled in Dafny

proto-change-miner mines co-change statistics between Protocol Buffers schema
files (`.proto`) and the other files of a git repository. It answers one
question: when a schema changes, which other files change in the same commit?
It does this in four stages, and this project models each of them.

1. The **path classifier** is `should_skip` and `categorize` in
   `src/lib/categorize.py`, with the exclusion tables of `src/lib/skip_rules.py`.
   - A path is skipped when its lower-cased form starts with a listed prefix,
     ends with a listed suffix, or has a file name matching a listed `*`-glob.
   - A path gets one of `test`, `ci`, `infra`, `build`, `proto`, `impl`,
     `config` or `other`. The first matching rule of an ordered chain decides.
2. The **transaction collectors** turn commits into transactions. A
   transaction is the sorted list of paths a commit changed, kept when one
   of them ends `.proto`. There are two collectors:
   - `collect_transactions.py`, built on GitPython;
   - `src/collect_transactions.py`, built on PyDriller.
3. **Pair counting and metrics**:
   - `compute_pairs_for_repo` in `src/experiments/rq0/compute_pairs.py` has
     two counting passes, then computes support, confidence, baseline and lift
     for every (proto file, co-changed file) pair.
   - `extract_events_for_repo` in `src/experiments/rq0/extract_events.py`
     writes one event row per proto commit.
   - The standalone miner `mine_association_rules.py` counts pairs,
     filters them by three thresholds and ranks them.
4. **Baseline corpus counting** is `src/experiments/rq0/baseline_corpus.py`.
   Per repository, it counts how many commits touch each category and each
   extension. Across repositories, it sums those counts and builds the
   output tables.

Git access is replaced by abstract inputs:
- In the rq0 experiments, the commit lists are `seq<string>` and the
  changed files of a commit are a function `string -> seq<string>`.
- The GitPython collector reads a commit as its parent flag, its tree items
  and its diff entries.
- The PyDriller collector reads a commit as its modified files. Each file
  has an optional new path and an optional old path.

Ratios are exact reals. Loops that update counters and sets are methods with
loop invariants. Each method is proved against a specification function of
its inputs: for example, `Tallies(m, sets)` says that `m` counts, for every
key, the number of sets in the list that contain it. Properties of those
functions are proved as lemmas.

Modules:
- Helpers:
  - `Strings`: ASCII lower-casing, prefixes and suffixes, lexicographic order.
  - `PathSyntax`: pathlib `name` and `suffix`, whole-segment regex matches,
    `*`-globs, the last segment of a URL.
  - `Lists`: list comprehensions with a filter.
  - `Options`: the `Option` type and filter-map comprehensions.
  - `Counters`: `collections.Counter` as `map<K, nat>`.
  - `Sorting`: `sorted` and keyed sorts.
- One module per core file:
  - `Categorization` and `SkipTables`;
  - `GitCollect` and `PyDrillerCollect`;
  - `ComputePairs`, `ExtractEvents` and `BaselineCorpus`;
  - `MineRules`.

### Where the code disagrees with itself

- **`skip_patterns` has no config field.** `cfg.skip_patterns` is read at
  `src/experiments/rq0/compute_pairs.py:32` and at
  `src/experiments/rq0/baseline_corpus.py:60`, but `RQ0Config` and
  `BaseConfig` (`src/lib/config.py:7-39`) have no such field.
  - As written, both list comprehensions evaluate `cfg.skip_patterns` for
    each changed path. So `compute_pairs_for_repo` and
    `compute_baseline_for_repo` raise `AttributeError` at the first commit
    that has a changed path.
  - `run_baseline_corpus` catches each repository's exception and drops that
    repository (`src/experiments/rq0/baseline_corpus.py:135-140`). As
    written, then, every repository with a non-root commit that changes a
    path is missing from `results`, and a run usually ends at "No results to
    write". The `results` that `BaselineCorpus.RunBaselineCorpus` takes are
    the repositories that did not raise.
  - The model describes the behaviour once a pattern table is supplied. It
    passes the three tables together as one `SkipRules` value, so the
    patterns are an explicit input.
  - `SkipTables.ConfigRules` holds the `BaseConfig` defaults with no patterns.
  - `SkipTables.ConfigRulesWeaker` shows those defaults skip no path that
    the full tables keep.
- **The `.proto` test does not agree on case.**
  - It is case-sensitive in `mine_association_rules.py:16`,
    `collect_transactions.py:59` and `src/collect_transactions.py:70`
    (`MineRules.IsProto`, `GitCollect.HasProtoPath`,
    `PyDrillerCollect.HasProtoIn`).
  - It is case-insensitive in `src/experiments/rq0/compute_pairs.py:59` and
    `src/experiments/rq0/extract_events.py:32`
    (`Categorization.HasProtoSuffixIgnoringCase`).
- **Root commits.** `collect_transactions.py:25-29` lists the whole tree of
  a root commit. The rq0 pipeline gets its changed files from `git
  diff-tree` without `--root` (`src/lib/git_backend.py:57`), which lists
  nothing for a root commit. The model takes the rq0 changed files as an
  input, so it allows both behaviours there.
- **Duplicates.** Pair counting and the rule miner deduplicate a commit's
  paths before counting (`src/experiments/rq0/compute_pairs.py:67-68`,
  `mine_association_rules.py:32`). `src/experiments/rq0/extract_events.py:32`
  does not: it keeps a commit's `.proto` paths in their order, duplicates
  included. The model follows each
  (`ExtractEvents.RowProtoFiles`).
- **The category filter of compute_pairs is redundant for git paths.** The
  co-change filter at `src/experiments/rq0/compute_pairs.py:63-64` drops
  paths whose category is `proto`. For a path whose last segment is a real
  file name, this never drops anything that the `.proto` suffix test has not
  dropped already (`ComputePairs.CategoryFilterRedundant`). The test only
  matters for a path such as `a.proto/`, which categorizes as `proto` but has
  no `.proto` suffix (`Categorization.TrailingSlashProto`).
- **Empty paths.** The two collectors treat them differently
  (`PyDrillerCollect.EmptyPathKeptOnlyHere`).
  - The GitPython collector tests each diff side for truthiness, so it
    drops an empty path.
  - The PyDriller collector tests only for `None`, so it keeps an empty
    path.
- **The zero guard of `mine_association_rules.py:61-62` never fires** for a
  counted pair (`MineRules.CountedPairHasCountedFiles`).

## Model

| member | source | states |
|---|---|---|
| Categorization.ShouldSkip | src/lib/categorize.py:18-48 | `should_skip`: a listed prefix or suffix of the lower-cased path, or a listed glob matching its name, skips it; its contract is stated by NoRulesSkipNothing, ShouldSkipIgnoresCase, UpperCaseEntryIsInert and PatternsSeeOnlyTheName, and its tables by the SkipTables lemmas |
| Categorization.NoRulesSkipNothing | src/lib/categorize.py:33-48 | with all three tables empty, no path is skipped |
| Categorization.ShouldSkipIgnoresCase | src/lib/categorize.py:33-47 | a path and its lower-cased form are skipped alike |
| Categorization.UpperCaseEntryIsInert | src/lib/categorize.py:33-41 | a prefix or suffix entry with an upper-case letter never changes a decision, because entries are compared with the lower-cased path without being lower-cased themselves |
| Categorization.PatternsSeeOnlyTheName | src/lib/categorize.py:43-47 | globs are matched against the file name only: `d/n` and `n` get the same pattern decision |
| Categorization.Categorize | src/lib/categorize.py:51-88 | `categorize`: the rule chain run on the lower-cased path; stated by CategorizeIgnoresCase and, rule by rule, by TestRuleWins, CiRuleSecond, InfraRuleThird, NameRulesLast, ExtensionDecides and ProtoNeedsNoEarlierRule |
| Categorization.CategoryOfLower | src/lib/categorize.py:53-88 | the first-match chain over an already lower-cased path: test, ci, infra directory, dockerfile, build names, then the extension tables; stated by the same rule lemmas and by the directory and file-name lemmas below |
| Categorization.CategorizeIgnoresCase | src/lib/categorize.py:51-53 | `categorize(lower(p)) == categorize(p)` |
| Categorization.TestRuleWins | src/lib/categorize.py:56-57 | the result is `test` exactly when a whole segment is `test`, `tests` or `testing`, or the name ends `_test.go` or `test.java` |
| Categorization.CiRuleSecond | src/lib/categorize.py:58-59 | the result is `ci` exactly when the test rule fails and a whole `ci`, `pipeline` or `workflows` segment, or a `.github/` or `.gitlab/` prefix, is present |
| Categorization.InfraRuleThird | src/lib/categorize.py:62-63 | with the test and ci rules failing, an infra directory prefix or `docker-compose` gives `infra` |
| Categorization.NameRulesLast | src/lib/categorize.py:64-88 | after the directory rules, `dockerfile` gives infra, `makefile`, `pom.xml`, `build.gradle` and `settings.gradle` give build, and otherwise the extension decides |
| Categorization.ExtensionDecides | src/lib/categorize.py:72-88 | when no earlier rule fires, the category is that of the pathlib suffix of the lower-cased path |
| Categorization.ProtoNeedsNoEarlierRule | src/lib/categorize.py:56-74 | the result is `proto` exactly when no test, ci, infra or build-name rule fires and the suffix is `.proto` |
| Categorization.ProtoCategoryHasProtoName | src/lib/categorize.py:72-74 | a path categorized `proto` has a lower-cased name ending `.proto` |
| Categorization.GitPathProtoCategoryEndsWithProto | src/lib/categorize.py:72-74 | for a path whose last segment is a real name, category `proto` implies a case-insensitive `.proto` ending |
| Categorization.SampleExtensions | src/lib/categorize.py:12-15 | `.go` is impl, `.yml` and `.env` are config, `.sh` is build, `.proto` is proto, and no suffix is other |
| Categorization.CategoryUnderDirectory | src/lib/categorize.py:51-88 | a plain `d/stem.ext` outside the special directories gets the category of its extension |
| Categorization.CategoryInTestDirectory | src/lib/categorize.py:56-57 | every path under `test/`, `tests/` or `testing/` is test |
| Categorization.CategoryInCiDirectory | src/lib/categorize.py:58-59 | an ordinary file under `.github/` or `.gitlab/` is ci |
| Categorization.CategoryInInfraDirectory | src/lib/categorize.py:62-63 | an ordinary file under `docker/`, `k8s/`, `helm/` or `charts/` is infra |
| Categorization.CategoryOfTopLevelFile | src/lib/categorize.py:72-88 | a top-level `stem.ext` with an ordinary name gets the category of its extension |
| Categorization.CategoryOfHiddenFile | src/lib/categorize.py:72-88 | a top-level name with a leading dot and no other dot has no suffix and is other |
| Categorization.TopLevelFileCategory | src/lib/categorize.py:64-88 | a top-level name falls through to the dockerfile, build-name and extension rules |
| Categorization.TrailingSlashKeepsCategory | src/lib/categorize.py:51-88 | `c/` and `c` get the same category for a plain component `c` |
| Categorization.TestBeatsCi | src/lib/categorize.py:56-59 | `tests/ci/deploy.yml` is test |
| Categorization.ContestIsNotTest | src/lib/categorize.py:8 | `contest/x.go` is impl, not test |
| Categorization.CicdIsNotCi | src/lib/categorize.py:9 | `cicd/a.yml` is config, not ci |
| Categorization.GithubIsCi | src/lib/categorize.py:58-59 | `.github/release.yml` is ci |
| Categorization.TestDirectoryBeatsProto | src/lib/categorize.py:56-74 | `test/a.proto` is test |
| Categorization.InfraDirectoryBeatsProto | src/lib/categorize.py:62-74 | `docker/a.proto` is infra |
| Categorization.DotEnvAlone | src/lib/categorize.py:72-88 | a bare `.env` has no extension and is other |
| Categorization.XDotEnv | src/lib/categorize.py:77-78 | `x.env` is config |
| Categorization.TrailingSlashProto | src/lib/categorize.py:72-74 | `a.proto/` is categorized proto, yet it has no `.proto` ending |
| Categorization.MakefileIsBuild | src/lib/categorize.py:66-67 | `makefile` is build |
| Categorization.PomIsBuild | src/lib/categorize.py:68-69 | `pom.xml` is build |
| Categorization.BuildGradleIsBuild | src/lib/categorize.py:68-69 | `build.gradle` is build |
| Categorization.ShellScriptIsBuild | src/lib/categorize.py:85-86 | `run.sh` is build |
| PathSyntax.Name | src/lib/categorize.py:44 | `Path(p).name`: the last component pathlib keeps; its ensures say the name has no slash and is empty or a real component; stated further by NameOfJoin and NameIgnoresTrailingSlash |
| PathSyntax.NameOfJoin | src/lib/categorize.py:44 | `Path(d + "/" + n).name == n` for a real component `n` |
| PathSyntax.NameIgnoresTrailingSlash | src/lib/categorize.py:53 | a trailing slash does not change `Path.name` |
| PathSyntax.Suffix | src/lib/categorize.py:72 | `Path(p).suffix`: the name from its last dot, when that dot is neither first nor last; stated by SuffixShape, LeadingDotHasNoSuffix and SuffixOfName |
| PathSyntax.HasSegment | src/lib/categorize.py:8-9 | `TEST_PAT.search` and `CI_PAT.search` on the lower-cased path: the word is a whole `/`-separated segment; stated by TestRuleWins, CiRuleSecond, ContestIsNotTest and CicdIsNotCi |
| PathSyntax.SuffixShape | src/lib/categorize.py:72 | a pathlib suffix is empty, or a dot and at least one more character, with no further dot, ending the name |
| PathSyntax.LeadingDotHasNoSuffix | src/lib/categorize.py:72 | a name whose only dot is the leading one has no suffix |
| PathSyntax.SuffixOfName | src/lib/categorize.py:72 | `stem.e` and `d/stem.e` have the suffix `.e` |
| PathSyntax.GlobMatch | src/lib/categorize.py:46 | `fnmatch.fnmatch(name, pat)` for patterns whose only wildcard is `*`; stated by GlobStarLiteral, GlobLiteralStar, GlobInfix and GlobLiteralExact |
| PathSyntax.GlobStarLiteral | src/lib/categorize.py:46 | `fnmatch(s, "*" + lit)` holds exactly when `s` ends with `lit` |
| PathSyntax.GlobLiteralStar | src/lib/categorize.py:46 | `fnmatch(s, lit + "*")` holds exactly when `s` starts with `lit` |
| PathSyntax.GlobInfix | src/lib/categorize.py:46 | `fnmatch(s, a + "*" + b)` holds exactly when `s` starts with `a`, ends with `b`, and is long enough for both |
| PathSyntax.GlobLiteralExact | src/lib/categorize.py:46 | a pattern without `*` matches only itself |
| PathSyntax.UrlBaseName | collect_transactions.py:65 | the repository name has no slash and ends the URL stripped of trailing slashes |
| PathSyntax.UrlBaseNameIgnoresTrailingSlash | src/collect_transactions.py:101 | a trailing slash on the URL does not change the name |
| Sorting.SortedSet | collect_transactions.py:41 | `sorted` of a set of strings, also at `src/collect_transactions.py:75` and `src/experiments/rq0/baseline_corpus.py:191`: a strictly increasing list whose elements are exactly the set |
| Sorting.SortBy | src/experiments/rq0/baseline_corpus.py:164 | a keyed `sorted`, also the `most_common` order and the `sort_values` of `mine_association_rules.py:94-97`: a list ordered by the given total preorder that is a permutation of the input |
| SkipTables.TablesAreLowerCase | src/lib/skip_rules.py:12-68 | no entry of the three tables has an upper-case letter, so every entry can match |
| SkipTables.SkippedDirectory | src/lib/skip_rules.py:12-28 | every path starting with one of the twelve directory prefixes is skipped |
| SkipTables.NestedBuildDirectoryKept | src/lib/skip_rules.py:12-28 | prefixes anchor at the start: `src/build/x.go` matches none |
| SkipTables.SkippedSuffix | src/lib/skip_rules.py:33-52 | every path ending with a listed suffix (`.pb.go`, `_gen.go`, `.lock`, …) is skipped |
| SkipTables.SkippedName | src/lib/skip_rules.py:57-68 | a name matching a listed pattern is skipped in any directory |
| SkipTables.SkippedMock | src/lib/skip_rules.py:67 | `d/mock_m.go` is skipped |
| SkipTables.SkippedZzGenerated | src/lib/skip_rules.py:65 | `d/zz_generated.e` is skipped |
| SkipTables.SkippedBindata | src/lib/skip_rules.py:66 | `d/bindata.go` is skipped |
| SkipTables.SkipTakesPrecedence | src/lib/skip_rules.py:62 | `stem_pb2.py` categorizes as impl and is skipped all the same |
| SkipTables.ProtoLockSubsumed | src/lib/skip_rules.py:37-47 | dropping the `.proto.lock` entry changes no decision, since `.lock` covers it |
| SkipTables.ConfigRulesWeaker | src/lib/config.py:14-26 | the `BaseConfig` default tables skip nothing that the full tables keep |
| GitCollect.DiffPathsMember | collect_transactions.py:34-39 | the diff loop collects exactly the non-empty `a_path` and `b_path` of every entry, so both sides of a rename |
| GitCollect.CollectDiffPaths | collect_transactions.py:34-39 | the loop's set is that of `DiffPaths` |
| GitCollect.ChangedFilesInCommit | collect_transactions.py:22-41 | the result is the strictly sorted, duplicate-free list of the commit's changed paths |
| GitCollect.RootCommitListsTree | collect_transactions.py:25-29 | a parentless commit lists exactly the blob paths of its tree |
| GitCollect.ChildCommitListsDiff | collect_transactions.py:31-41 | a commit with a parent lists exactly the non-empty sides of its diff against the first parent |
| GitCollect.TxOf | collect_transactions.py:54-60 | the loop body for one commit: no transaction for an empty path list or one without a `.proto` path; stated by TxOfIff, CollectTransactions and TransactionsShape |
| GitCollect.TxOfIff | collect_transactions.py:55-60 | a commit yields a transaction exactly when one of its changed paths ends `.proto`, case-sensitively, and the transaction is its sorted path list |
| GitCollect.CollectTransactions | collect_transactions.py:49-61 | the transactions are those the commits yield, in commit order |
| GitCollect.TransactionsShape | collect_transactions.py:53-61 | transactions are non-empty, strictly sorted and hold a `.proto` path; there are no more of them than commits; the i-th comes from the i-th commit that yields one |
| GitCollect.CollectForRepo | collect_transactions.py:64-84 | nothing when the clone is missing or a `GitCommandError` is raised; any other exception propagates; otherwise one record per transaction, in order, named after the last URL segment |
| GitCollect.Records | collect_transactions.py:78-84 | one `{repo, transaction}` record per transaction, in order |
| PyDrillerCollect.PathsOf | src/collect_transactions.py:59-68 | the path set the inner loops build from the modified files; stated by PathsOfMember, EmptyPathKeptOnlyHere and CommitPaths |
| PyDrillerCollect.PathsOfMember | src/collect_transactions.py:59-68 | a commit's path set is every `new_path` and `old_path` that is not `None` |
| PyDrillerCollect.EmptyPathKeptOnlyHere | src/collect_transactions.py:65-68 | an empty path is kept here, and dropped by the GitPython collector |
| PyDrillerCollect.CommitPaths | src/collect_transactions.py:59-71 | the loop builds that path set, and `has_proto` holds exactly when one of its paths ends `.proto` |
| PyDrillerCollect.TxOf | src/collect_transactions.py:69-75 | the transaction of one commit, `sorted(paths)` when `has_proto and paths`; stated by TxOfIff, CollectTransactions and TransactionsFollowCommits |
| PyDrillerCollect.TxOfIff | src/collect_transactions.py:69-75 | a commit yields a transaction exactly when one of its paths ends `.proto`; the transaction is strictly sorted, duplicate-free, non-empty, holds that path and lists exactly the path set |
| PyDrillerCollect.CollectTransactions | src/collect_transactions.py:55-77 | the transactions are those the commits yield, in traversal order |
| PyDrillerCollect.TransactionsFollowCommits | src/collect_transactions.py:55-77 | there are no more transactions than commits, and the i-th comes from the i-th commit that yields one |
| PyDrillerCollect.RepoName | src/collect_transactions.py:101-102 | the name of the clone directory has no slash |
| PyDrillerCollect.RepoNameIsUrlBaseName | src/collect_transactions.py:101-102 | that name is the last URL segment whenever that segment is a real component |
| PyDrillerCollect.CollectForRepo | src/collect_transactions.py:173-194 | nothing when no clone is available or collection raises, otherwise one record per transaction, in order |
| ComputePairs.FilteredChangedFiles | src/experiments/rq0/compute_pairs.py:28-33 | a path survives exactly when it is changed by the commit and not skipped |
| ComputePairs.ProtoPaths | src/experiments/rq0/compute_pairs.py:59-61 | exactly the surviving paths with a `.proto` ending |
| ComputePairs.CochangePaths | src/experiments/rq0/compute_pairs.py:63-64 | exactly the surviving paths without a `.proto` ending and not categorized proto |
| ComputePairs.Ratio | src/experiments/rq0/compute_pairs.py:101-104 | a guarded quotient: never negative, 0 when either operand is 0, at most 1 when `a <= b`, and `r * b == a` when `b > 0` |
| ComputePairs.PairMetrics | src/experiments/rq0/compute_pairs.py:101-104 | all four metrics are non-negative; each divide-by-zero guard yields 0; support, confidence and baseline are at most 1 under the count bounds; support is at most baseline; lift is `both * nAll / (protoTx * fileTx)` |
| ComputePairs.RatioMonotone | src/experiments/rq0/compute_pairs.py:101-103 | a ratio grows with its numerator |
| ComputePairs.TallyProtoCommit | src/experiments/rq0/compute_pairs.py:59-79 | one commit raises the count of each of its proto files and each of its pairs by one, and adds its files to the candidate sets |
| ComputePairs.CountProtoCommits | src/experiments/rq0/compute_pairs.py:56-79 | phase 1: each proto count and each pair count is the number of proto commits whose deduplicated sets hold it; the candidate sets are the unions |
| ComputePairs.CountEach | src/experiments/rq0/compute_pairs.py:70-72 | one `+= 1` for every key of a set |
| ComputePairs.CountCandidateFiles | src/experiments/rq0/compute_pairs.py:82-93 | phase 2: each file count is the number of commits changing that candidate file |
| ComputePairs.RowOf | src/experiments/rq0/compute_pairs.py:96-119 | one output row from the three counts and `n_all_tx`, with `file_category` and the guarded metrics; stated by BuildRows, PairsUnder and RowBounds, with the metrics' contract in PairMetrics |
| ComputePairs.BuildRows | src/experiments/rq0/compute_pairs.py:96-119 | exactly one row per counted pair, each built from the three counters |
| ComputePairs.PairsUnder | src/experiments/rq0/compute_pairs.py:36-129 | the repository result: the commit counts, the numbers of unique files, one row per distinct pair with `n_pairs` rows, and each row's counts and metrics |
| ComputePairs.ComputePairsForRepo | src/experiments/rq0/compute_pairs.py:36-129 | the same, with the source's filter and `.proto` tests |
| ComputePairs.PairMeansSameCommit | src/experiments/rq0/compute_pairs.py:67-79 | a pair is counted exactly when some proto commit changes both its proto file and its co-change file |
| ComputePairs.PairCountBounds | src/experiments/rq0/compute_pairs.py:70-79 | `n_both_tx[(p, f)]` is at most the count of `p` and at most the number of commits co-changing `f` |
| ComputePairs.ProtoCountStep | src/experiments/rq0/compute_pairs.py:66-72 | one more commit raises the count of `p` by one exactly when `p` survives in it as a proto file, and by nothing otherwise |
| ComputePairs.CommitWithoutProtoIsInert | src/experiments/rq0/compute_pairs.py:59-61 | a commit with no surviving `.proto` path changes no counter and no set |
| ComputePairs.CountedProtoIsChanged | src/experiments/rq0/compute_pairs.py:59-68 | every candidate proto is a proto file changed by some proto commit |
| ComputePairs.CandidateIsCochanged | src/experiments/rq0/compute_pairs.py:63-68 | every candidate file is neither `.proto` nor of category proto, and is changed by a commit that has a proto file |
| ComputePairs.SourceProtoFiles | src/experiments/rq0/compute_pairs.py:28-68 | every candidate proto ends `.proto` case-insensitively, is not skipped, and is changed by some proto commit |
| ComputePairs.SourceCandidateFiles | src/experiments/rq0/compute_pairs.py:28-68 | every candidate file has no `.proto` ending, is not of category proto, is not skipped, and is changed by some proto commit |
| ComputePairs.SourceViewFilesAt | src/experiments/rq0/compute_pairs.py:28-33 | a surviving path is changed by the commit and not skipped |
| ComputePairs.HitsAreCandidates | src/experiments/rq0/compute_pairs.py:82-93 | the keys of `n_file_tx` are candidate files, and each count is at most `n_all_tx` |
| ComputePairs.FileCountCoversPairs | src/experiments/rq0/compute_pairs.py:70-93 | when the proto commits are distinct and among all commits, `n_both_tx[(p, f)] <= n_file_tx[f] <= n_all_tx` |
| ComputePairs.RowBounds | src/experiments/rq0/compute_pairs.py:96-119 | every row has `1 <= n_both_tx <= proto_tx <= n_proto_tx_any`, confidence in (0, 1] and `file_category == categorize(f)`; when the proto commits are distinct and among all commits, also `n_both_tx <= file_tx <= n_all_tx`, `0 < support <= baseline <= 1` and lift > 0 |
| ComputePairs.LiftPositive | src/experiments/rq0/compute_pairs.py:101-104 | under the count bounds, support and lift are positive |
| ComputePairs.WorkedExample | src/experiments/rq0/compute_pairs.py:101-104 | counts (10, 20, 15, 1000) give support 0.01, confidence 0.5, baseline 0.015 and lift 100/3 |
| ComputePairs.ZeroBaseline | src/experiments/rq0/compute_pairs.py:103-104 | with no file commits, baseline and lift are 0 |
| ComputePairs.CategoryFilterRedundant | src/experiments/rq0/compute_pairs.py:63-64 | for paths whose last segment is a real name, the category test drops nothing beyond the suffix test |
| ExtractEvents.EventRulesUseNoPatterns | src/experiments/rq0/extract_events.py:26-30 | filtering uses only the prefixes and the suffixes |
| ExtractEvents.RowFromFiles | src/experiments/rq0/extract_events.py:32-44 | the row of one commit from its kept paths, or none; stated by RowIffProto, RowProtoFiles and RowCochangeFiles |
| ExtractEvents.RowIffProto | src/experiments/rq0/extract_events.py:26-34 | a row is emitted for a commit exactly when some surviving path ends `.proto`, case-insensitively |
| ExtractEvents.CochangeObjs | src/experiments/rq0/extract_events.py:36-37 | each entry is a given path with its category, and that category is never proto |
| ExtractEvents.CochangeObjsPaths | src/experiments/rq0/extract_events.py:36-37 | the entries' paths are, in order, the given paths not categorized proto |
| ExtractEvents.RowProtoFiles | src/experiments/rq0/extract_events.py:32-34 | `protobuf_files` is the `.proto` paths in filtered order with their duplicates; with the non-proto paths, every surviving path is accounted for once |
| ExtractEvents.RowCochangeFiles | src/experiments/rq0/extract_events.py:36-44 | the co-change entries are the non-`.proto` surviving paths not categorized proto, in order, each with its category |
| ExtractEvents.ExtractEventsForRepo | src/experiments/rq0/extract_events.py:13-48 | the rows written are the rows of the proto commits in order, and the returned count is their number |
| ExtractEvents.Events | src/experiments/rq0/extract_events.py:25-46 | the rows the loop writes, in commit order; stated by EventsSnoc, EventsFollowCommits, EventsAtMostCommits and EventsAreRowsOf, and tied to the loop by ExtractEventsForRepo |
| ExtractEvents.EventsSnoc | src/experiments/rq0/extract_events.py:23-46 | one more commit appends its row, if it has one |
| ExtractEvents.EventsFollowCommits | src/experiments/rq0/extract_events.py:23-48 | the rows' commits are, in order, the commits that emit a row |
| ExtractEvents.EventsAtMostCommits | src/experiments/rq0/extract_events.py:46-48 | the number of rows written is at most the number of proto commits |
| ExtractEvents.EventsAreRowsOf | src/experiments/rq0/extract_events.py:39-44 | every written row is the row of its own commit |
| ExtractEvents.RowOfCommitNamesCommit | src/experiments/rq0/extract_events.py:39-44 | a commit's row names that commit |
| BaselineCorpus.GetExtension | src/experiments/rq0/baseline_corpus.py:32-36 | the lower-cased pathlib suffix, or `no_ext` exactly when the suffix is empty |
| BaselineCorpus.ProcessCommit | src/experiments/rq0/baseline_corpus.py:42-68 | `process_commit`: the category set and the extension set of the kept changed paths; stated by ProcessCommitSeesKeptPathsOnly and AllSkippedCommit |
| BaselineCorpus.ProcessCommitSeesKeptPathsOnly | src/experiments/rq0/baseline_corpus.py:53-68 | a category or an extension is in a commit's sets exactly when some changed path that is not skipped has it |
| BaselineCorpus.AllSkippedCommit | src/experiments/rq0/baseline_corpus.py:53-68 | a commit whose paths are all skipped contributes two empty sets |
| BaselineCorpus.ComputeBaselineForRepo | src/experiments/rq0/baseline_corpus.py:74-99 | `n_all_tx` is the number of commits, and each count is the number of commits whose set holds that key |
| BaselineCorpus.RepoCountsWithin | src/experiments/rq0/baseline_corpus.py:88-92 | each category count and each extension count is at most `n_all_tx` |
| BaselineCorpus.Aggregate | src/experiments/rq0/baseline_corpus.py:147-154 | the corpus counters and `total_n_tx` are the sums over the repositories |
| BaselineCorpus.TotalIsPointwiseSum | src/experiments/rq0/baseline_corpus.py:147-154 | the corpus count of a key is the sum of the repositories' counts of it |
| BaselineCorpus.TotalsWithin | src/experiments/rq0/baseline_corpus.py:147-154 | when each repository's counts are within its commits, every corpus count is within `total_n_tx` |
| BaselineCorpus.RatioRows | src/experiments/rq0/baseline_corpus.py:169-187 | the rows are ordered by count, largest first, and are a permutation of one row per key |
| BaselineCorpus.RatioRowsLength | src/experiments/rq0/baseline_corpus.py:169-187 | one row per counted key |
| BaselineCorpus.RatioRowsEntries | src/experiments/rq0/baseline_corpus.py:173-184 | every row carries a counted key, its count and `cnt / total_n_tx`, or 0.0 when the total is 0 |
| BaselineCorpus.RatioRowsCover | src/experiments/rq0/baseline_corpus.py:169-187 | every counted key has its row |
| BaselineCorpus.RatioRowsComplete | src/experiments/rq0/baseline_corpus.py:169-187 | every counted key has its row, for all keys at once |
| BaselineCorpus.ByRepoRows | src/experiments/rq0/baseline_corpus.py:191-208 | one line per repository, with that repository's count for each column and 0 for a key it never saw |
| BaselineCorpus.PerRepoRows | src/experiments/rq0/baseline_corpus.py:159-208 | the three per-repository tables list the repositories in name order |
| BaselineCorpus.RepoLeIsTotalPreorder | src/experiments/rq0/baseline_corpus.py:159 | ordering by repository name is a total preorder |
| BaselineCorpus.RunBaselineCorpus | src/experiments/rq0/baseline_corpus.py:142-208 | nothing is produced exactly when there are no results; otherwise it gives the totals; ratio rows ordered by count that are a permutation of one row per counted key, every counted key with its row and every row's key counted; sorted distinct columns, and per-repository tables in name order over a permutation of the results |
| MineRules.TxPairs | mine_association_rules.py:40-46 | a transaction adds exactly the pairs of one of its `.proto` files with one of its other files |
| MineRules.CountTransactions | mine_association_rules.py:20-46 | `total_tx` is the number of transactions; each file count and each pair count is the number of deduplicated transactions holding it |
| MineRules.IsProto | mine_association_rules.py:15-16 | `is_proto`: a case-sensitive `.proto` ending; stated by PairKeysShape and TxPairs |
| MineRules.PairKeysShape | mine_association_rules.py:15-16 | every pair key has a `.proto` first part and a non-`.proto` second part, case-sensitively |
| MineRules.CoCountWithin | mine_association_rules.py:36-46 | `co_count[(p, o)] <= count_file[p], count_file[o] <= total_tx` |
| MineRules.CountedPairHasCountedFiles | mine_association_rules.py:60-62 | both files of a counted pair have positive counts, so the zero guard never drops one |
| MineRules.QuotientFacts | mine_association_rules.py:56-65 | the ratios of ratios reduce: `(a/t)/(b/t) == a/b` and `(a/b)/(c/t) == a*t/(b*c)` |
| MineRules.RuleOf | mine_association_rules.py:55-84 | a pair yields a rule exactly when it passes the zero guard and the three thresholds; `conf == n_co / count_p` and `lift == n_co * total / (count_p * count_f)` |
| MineRules.RuleOfBounds | mine_association_rules.py:10-12 | a kept rule has support in [0.005, 1], confidence in [0.3, 1] and lift at least 1 |
| MineRules.KeptRules | mine_association_rules.py:55-84 | the rules of the counted pairs that pass the zero guard and the thresholds; stated by KeptRuleBounds, BuildRules, CollectRules and MineAssociationRules |
| MineRules.KeptRuleBounds | mine_association_rules.py:68-84 | the same for every rule kept from the counted pairs |
| MineRules.RulesOfNamePairs | mine_association_rules.py:75-77 | each rule names its own pair |
| MineRules.BuildRules | mine_association_rules.py:53-84 | the rows are exactly the rules that pass, each once |
| MineRules.CollectRules | mine_association_rules.py:55-84 | the loop over the pairs keeps exactly the rules that pass, each once |
| MineRules.RankLeIsTotalPreorder | mine_association_rules.py:94-97 | the (lift, confidence, support) descending order is a total preorder |
| MineRules.MineAssociationRules | mine_association_rules.py:19-97 | nothing is produced exactly when no rule passes; otherwise the output holds the passing rules, each once, ordered non-increasing by (lift, confidence, support) |

## Left out

- Git itself is left out. Commit listing, `git diff-tree`, GitPython's
  tree and diff objects and PyDriller's traversal become inputs. This covers
  `src/lib/git_backend.py`, `get_no_merge_commits` and `iter_commits`.
  Git pathspecs (`*.proto`) and `--max-count` are not interpreted.
- `ComputePairs.FileCountCoversPairs` and the second half of
  `ComputePairs.RowBounds` require the proto commits to be distinct and
  among all commits. The truncation `max_all_commits` can make that false in
  the source.
- Failures are inputs, because they come from I/O:
  - a missing clone (`present`);
  - `ensure_full_repo` failing (`cloned`);
  - in `PyDrillerCollect`, any `Exception` while collecting (`failed`),
    all of which `src/collect_transactions.py:180-184` catches;
  - in `GitCollect`, the kind of exception collection raises (`raised`).
    Only `GitCommandError` is caught (`collect_transactions.py:72-76`).
    Any other exception propagates, for example `InvalidGitRepositoryError`
    from `Repo(repo_path)` at `collect_transactions.py:50`. The model
    marks that outcome `Propagated` and does not model the exception
    further.
- `ensure_full_repo` is left out: cloning, unshallowing, deleting a broken
  clone and re-cloning are filesystem and network I/O.
- The I/O of every `main` is left out: pandas CSV, JSONL and Markdown
  reading and writing, `tqdm` and console output. Their computation is
  modelled: for example `MineRules.MineAssociationRules` models the counting,
  filtering and ranking of `mine_association_rules.py`'s `main`. The modelled
  operations return the rows they would write.
- Concurrency is left out. `multiprocessing.Pool`, `imap_unordered` and the
  `ProcessPoolExecutor` of `run_baseline_corpus` are not modelled.
  `RunBaselineCorpus` takes the per-repository results in any order.
- Other files left out as I/O or plumbing:
  - `src/experiments/rq0/main.py`, `merge_outputs.py` and `schema.py`;
  - `src/lib/io_utils.py`;
  - `src/utils/logging_setup.py`;
  - `src/detect_protobuf_repos.py` and `proto_finder.py`, which walk
    files and search their text.
- Floating point is not modelled: ratios are exact reals, so rounding is
  left out. The source compares doubles: the confidence `(n_co/t)/(n_p/t)`
  with 0.3 and the lift `conf/(n_f/t)` with 1.0. A pair exactly at a
  threshold, with confidence exactly 3/10 or lift exactly 1, can therefore
  be dropped by the program and kept by `MineRules.RuleOf` and
  `MineRules.KeptRules`, and the reverse. The same holds for the support
  threshold 0.005.
- `PathSyntax.Suffix` follows pathlib up to Python 3.13: a name that ends in
  a dot, such as `a.`, has no suffix. The source pins no Python version.
  Under a later pathlib that gives such a name the suffix `.`,
  `BaselineCorpus.GetExtension` would give `.` where the model gives
  `no_ext`, and `PathSyntax.SuffixShape` would not hold.
- Tie order is not modelled:
  - `MineRules.MineAssociationRules` states the ranking as an ordering and
    not the order pandas chooses among equal keys.
  - `BaselineCorpus.RatioRows` orders by count and not the order
    `most_common` chooses among equal counts.
  - `BaselineCorpus.RunBaselineCorpus` says the same of ties between
    equal repository names.
- Dictionary iteration order is not modelled: rows built from a `Counter`'s
  items come in an unspecified order. That is why `ComputePairs.BuildRows`
  and `MineRules.BuildRules` state their rows as a set of keys.
- Lower-casing covers ASCII letters only. Python's full Unicode `str.lower`
  is not modelled.
- Only `*` globs are modelled. `fnmatch`'s `?` and `[...]` are not, since
  no table uses them.
- `get_commits_touching_file` in `collect_transactions.py` is unused by the
  collector, and is not modelled.
