/** The baseline corpus statistics of src/experiments/rq0/baseline_corpus.py:
    per repository, in how many commits each category and each extension
    occurs; across repositories, the summed counts, their share of all
    commits, and the per-repository tables. Categories are counted under the
    names `categorize` returns. */
module BaselineCorpus {
  import opened Options
  import opened Strings
  import opened PathSyntax
  import opened Lists
  import opened Counters
  import opened Sorting
  import opened Categorization
  import opened ComputePairs

  /** `RepoBaselineResult`. */
  datatype RepoBaselineResult = RepoBaselineResult(
    repo: string,
    nAllTx: nat,
    catTxCounts: map<string, nat>,
    extTxCounts: map<string, nat>)

  /** `_get_extension`: the lower-cased suffix, or `no_ext` without one. */
  function GetExtension(path: string): (r: string)
    ensures |r| > 0 && NoUpper(r)
    ensures r == "no_ext" <==> Suffix(path) == ""
    ensures Suffix(path) != "" ==> r == Lower(Suffix(path)) && r[0] == '.'
  {
    var ext := Lower(Suffix(path));
    SuffixShape(path);
    LowerHasNoUpper(Suffix(path));
    if ext != "" then ext else "no_ext"
  }

  /** The categories and the extensions of a list of kept paths. */
  datatype CommitSets = CommitSets(cats: set<string>, exts: set<string>)

  /** The key a path is counted under in the category table. */
  function CategoryKey(f: string): string {
    CategoryName(Categorize(f))
  }

  function CategoriesOf(files: seq<string>): set<string> {
    set f | f in files :: CategoryKey(f)
  }

  function ExtensionsOf(files: seq<string>): set<string> {
    set f | f in files :: GetExtension(f)
  }

  /** `process_commit`: the sets of categories and extensions of the
      changed paths `should_skip` keeps. */
  function ProcessCommit(changed: string -> seq<string>, c: string, rules: SkipRules): CommitSets {
    var files := FilteredChangedFiles(changed, c, rules);
    CommitSets(CategoriesOf(files), ExtensionsOf(files))
  }

  /** The keys of the kept elements of a list. */
  lemma KeptKeys(s: seq<string>, keep: string -> bool, key: string -> string, k: string)
    ensures k in (set f | f in Filter(s, keep) :: key(f)) <==> exists f :: f in s && keep(f) && key(f) == k
  {
    if exists f :: f in s && keep(f) && key(f) == k {
      var f :| f in s && keep(f) && key(f) == k;
      assert f in Filter(s, keep);
    }
  }

  /** Only kept paths contribute, and each kept path contributes its
      category and its extension. */
  lemma ProcessCommitSeesKeptPathsOnly(changed: string -> seq<string>, c: string, rules: SkipRules, k: string)
    ensures k in ProcessCommit(changed, c, rules).cats <==>
      exists f :: f in changed(c) && !ShouldSkip(f, rules) && CategoryKey(f) == k
    ensures k in ProcessCommit(changed, c, rules).exts <==>
      exists f :: f in changed(c) && !ShouldSkip(f, rules) && GetExtension(f) == k
  {
    var keep := p => !ShouldSkip(p, rules);
    KeptKeys(changed(c), keep, CategoryKey, k);
    KeptKeys(changed(c), keep, GetExtension, k);
  }

  /** A commit whose paths are all skipped contributes nothing. */
  lemma AllSkippedCommit(changed: string -> seq<string>, c: string, rules: SkipRules)
    requires forall f :: f in changed(c) ==> ShouldSkip(f, rules)
    ensures ProcessCommit(changed, c, rules) == CommitSets({}, {})
  {
    NoMembersEmpty(FilteredChangedFiles(changed, c, rules));
  }

  /** The category set of each commit, in order. */
  function CatSets(changed: string -> seq<string>, commits: seq<string>, rules: SkipRules): (r: seq<set<string>>)
    ensures |r| == |commits|
    ensures forall i :: 0 <= i < |commits| ==> r[i] == ProcessCommit(changed, commits[i], rules).cats
  {
    seq(|commits|, i requires 0 <= i < |commits| => ProcessCommit(changed, commits[i], rules).cats)
  }

  /** The extension set of each commit, in order. */
  function ExtSets(changed: string -> seq<string>, commits: seq<string>, rules: SkipRules): (r: seq<set<string>>)
    ensures |r| == |commits|
    ensures forall i :: 0 <= i < |commits| ==> r[i] == ProcessCommit(changed, commits[i], rules).exts
  {
    seq(|commits|, i requires 0 <= i < |commits| => ProcessCommit(changed, commits[i], rules).exts)
  }

  /** `compute_baseline_for_repo`: one `Counter.update` per commit with the
      commit's category and extension sets. */
  method ComputeBaselineForRepo(repoName: string, allCommits: seq<string>, changed: string -> seq<string>, rules: SkipRules)
    returns (res: RepoBaselineResult)
    ensures res.repo == repoName && res.nAllTx == |allCommits|
    ensures Tallies(res.catTxCounts, CatSets(changed, allCommits, rules))
    ensures Tallies(res.extTxCounts, ExtSets(changed, allCommits, rules))
  {
    ghost var catSets := CatSets(changed, allCommits, rules);
    ghost var extSets := ExtSets(changed, allCommits, rules);
    var catTxCounts: map<string, nat> := map[];
    var extTxCounts: map<string, nat> := map[];
    TalliesEmpty(catSets);
    TalliesEmpty(extSets);
    var i := 0;
    while i < |allCommits|
      invariant 0 <= i <= |allCommits|
      invariant Tallies(catTxCounts, catSets[..i])
      invariant Tallies(extTxCounts, extSets[..i])
    {
      var sets := ProcessCommit(changed, allCommits[i], rules);
      CountedStep(catSets, i, catTxCounts);
      CountedStep(extSets, i, extTxCounts);
      catTxCounts := Bump(catTxCounts, sets.cats);
      extTxCounts := Bump(extTxCounts, sets.exts);
      i := i + 1;
    }
    assert catSets[..i] == catSets && extSets[..i] == extSets;
    res := RepoBaselineResult(repoName, |allCommits|, catTxCounts, extTxCounts);
  }

  /** The counts of a repository never exceed its number of commits. */
  predicate CountsWithin(r: RepoBaselineResult) {
    && (forall k | k in r.catTxCounts :: r.catTxCounts[k] <= r.nAllTx)
    && (forall k | k in r.extTxCounts :: r.extTxCounts[k] <= r.nAllTx)
  }

  /** Each category and each extension rises by at most one per commit. */
  lemma RepoCountsWithin(res: RepoBaselineResult, catSets: seq<set<string>>, extSets: seq<set<string>>)
    requires |catSets| == |extSets| == res.nAllTx
    requires Tallies(res.catTxCounts, catSets)
    requires Tallies(res.extTxCounts, extSets)
    ensures CountsWithin(res)
  {
    forall k | k in res.catTxCounts ensures res.catTxCounts[k] <= res.nAllTx {
      assert res.catTxCounts[k] == Get(res.catTxCounts, k);
    }
    forall k | k in res.extTxCounts ensures res.extTxCounts[k] <= res.nAllTx {
      assert res.extTxCounts[k] == Get(res.extTxCounts, k);
    }
  }

  // ---------------------------------------------------------------------------
  // Corpus totals
  // ---------------------------------------------------------------------------

  /** The per-repository counters of `results[..n]` summed. */
  function TotalCats(results: seq<RepoBaselineResult>): map<string, nat> {
    if |results| == 0 then map[] else Add(TotalCats(results[..|results| - 1]), results[|results| - 1].catTxCounts)
  }

  function TotalExts(results: seq<RepoBaselineResult>): map<string, nat> {
    if |results| == 0 then map[] else Add(TotalExts(results[..|results| - 1]), results[|results| - 1].extTxCounts)
  }

  function TotalTx(results: seq<RepoBaselineResult>): nat {
    if |results| == 0 then 0 else TotalTx(results[..|results| - 1]) + results[|results| - 1].nAllTx
  }

  /** The summed count of one key, repository by repository. */
  function CatCountSum(results: seq<RepoBaselineResult>, k: string): nat {
    if |results| == 0 then 0 else CatCountSum(results[..|results| - 1], k) + Get(results[|results| - 1].catTxCounts, k)
  }

  /** The accumulation loop of `run_baseline_corpus`. */
  method Aggregate(results: seq<RepoBaselineResult>)
    returns (totalCatCounts: map<string, nat>, totalExtCounts: map<string, nat>, totalNTx: nat)
    ensures totalCatCounts == TotalCats(results)
    ensures totalExtCounts == TotalExts(results)
    ensures totalNTx == TotalTx(results)
  {
    totalCatCounts, totalExtCounts, totalNTx := map[], map[], 0;
    var i := 0;
    while i < |results|
      invariant 0 <= i <= |results|
      invariant totalCatCounts == TotalCats(results[..i])
      invariant totalExtCounts == TotalExts(results[..i])
      invariant totalNTx == TotalTx(results[..i])
    {
      assert results[..i + 1][..i] == results[..i];
      var r := results[i];
      totalCatCounts := Add(totalCatCounts, r.catTxCounts);
      totalExtCounts := Add(totalExtCounts, r.extTxCounts);
      totalNTx := totalNTx + r.nAllTx;
      i := i + 1;
    }
    assert results[..i] == results;
  }

  /** The corpus count of a category is the sum of the repositories' counts. */
  lemma {:induction false} TotalIsPointwiseSum(results: seq<RepoBaselineResult>, k: string)
    ensures Get(TotalCats(results), k) == CatCountSum(results, k)
  {
    if |results| > 0 {
      TotalIsPointwiseSum(results[..|results| - 1], k);
    }
  }

  /** When each repository's counts stay within its commits, the corpus
      counts stay within all commits, so every `tx_ratio` is at most 1. */
  lemma {:induction false} TotalsWithin(results: seq<RepoBaselineResult>)
    requires forall i :: 0 <= i < |results| ==> CountsWithin(results[i])
    ensures forall k :: Get(TotalCats(results), k) <= TotalTx(results)
    ensures forall k :: Get(TotalExts(results), k) <= TotalTx(results)
  {
    if |results| > 0 {
      var n := |results| - 1;
      assert forall i :: 0 <= i < n ==> results[..n][i] == results[i];
      TotalsWithin(results[..n]);
      assert CountsWithin(results[n]);
    }
  }

  // ---------------------------------------------------------------------------
  // Output tables
  // ---------------------------------------------------------------------------

  /** A line of `category_baseline.csv` or `ext_baseline.csv`. */
  datatype RatioRow = RatioRow(key: string, txCount: nat, txRatio: real)

  /** A line of `repo_baseline.csv`. */
  datatype RepoRow = RepoRow(repo: string, nAllTx: nat)

  /** A line of `category_by_repo.csv` or `ext_by_repo.csv`: one count per
      column, in column order. */
  datatype ByRepoRow = ByRepoRow(repo: string, nAllTx: nat, counts: seq<nat>)

  /** The five tables; `catColumns` and `extColumns` are the count columns
      of the two by-repository tables. */
  datatype BaselineTables = BaselineTables(
    repoRows: seq<RepoRow>,
    catRows: seq<RatioRow>,
    extRows: seq<RatioRow>,
    catColumns: seq<string>,
    extColumns: seq<string>,
    catByRepo: seq<ByRepoRow>,
    extByRepo: seq<ByRepoRow>,
    totalNTx: nat)

  /** Line `j` of the three per-repository tables describes `r`. */
  predicate RowsOfRepo(t: BaselineTables, j: nat, r: RepoBaselineResult)
    requires j < |t.repoRows| && j < |t.catByRepo| && j < |t.extByRepo|
  {
    && t.repoRows[j] == RepoRow(r.repo, r.nAllTx)
    && t.catByRepo[j] == ByRepoRowOf(r, r.catTxCounts, t.catColumns)
    && t.extByRepo[j] == ByRepoRowOf(r, r.extTxCounts, t.extColumns)
  }

  /** The per-repository tables list `ordered`, one repository per line. */
  predicate PerRepoTables(t: BaselineTables, ordered: seq<RepoBaselineResult>) {
    && |t.repoRows| == |ordered| && |t.catByRepo| == |ordered| && |t.extByRepo| == |ordered|
    && forall j :: 0 <= j < |ordered| ==> RowsOfRepo(t, j, ordered[j])
  }

  /** `sorted(results, key=lambda x: x.repo)`. */
  predicate RepoLe(a: RepoBaselineResult, b: RepoBaselineResult) {
    !Less(b.repo, a.repo)
  }

  lemma RepoLeIsTotalPreorder()
    ensures TotalPreorder(RepoLe)
  {
    forall a: RepoBaselineResult, b: RepoBaselineResult ensures RepoLe(a, b) || RepoLe(b, a) {
      LessAsymmetricOrEqual(a.repo, b.repo);
    }
    forall a: RepoBaselineResult, b: RepoBaselineResult, c: RepoBaselineResult | RepoLe(a, b) && RepoLe(b, c)
      ensures RepoLe(a, c)
    {
      if Less(c.repo, a.repo) {
        LessTotal(a.repo, b.repo);
        if Less(a.repo, b.repo) {
          LessTransitive(c.repo, a.repo, b.repo);
        }
      }
    }
  }

  predicate RepoRowLe(a: RepoRow, b: RepoRow) {
    !Less(b.repo, a.repo)
  }

  /** `most_common()` orders by count, largest first; the order among equal
      counts is not modelled. */
  predicate CountDesc(a: RatioRow, b: RatioRow) {
    a.txCount >= b.txCount
  }

  lemma CountDescIsTotalPreorder()
    ensures TotalPreorder(CountDesc)
  {
  }

  /** The row of one key of a corpus counter. */
  function RatioRowOf(totals: map<string, nat>, totalNTx: nat, k: string): RatioRow {
    RatioRow(k, Get(totals, k), Ratio(Get(totals, k), totalNTx))
  }

  /** The rows of a corpus counter in the order of `keys`. */
  function RowsInKeyOrder(totals: map<string, nat>, totalNTx: nat, keys: seq<string>): (rows: seq<RatioRow>)
    ensures |rows| == |keys|
    ensures forall j :: 0 <= j < |keys| ==> rows[j] == RatioRowOf(totals, totalNTx, keys[j])
  {
    seq(|keys|, j requires 0 <= j < |keys| => RatioRowOf(totals, totalNTx, keys[j]))
  }

  /** `[{..., "tx_ratio": cnt / total_n_tx if total_n_tx > 0 else 0.0} for
      k, cnt in counter.most_common()]`, given the keys in any order. */
  function RatioRows(totals: map<string, nat>, totalNTx: nat, keys: seq<string>): (rows: seq<RatioRow>)
    requires TotalPreorder(CountDesc)
    ensures SortedBy(rows, CountDesc)
    ensures multiset(rows) == multiset(RowsInKeyOrder(totals, totalNTx, keys))
  {
    SortBy(RowsInKeyOrder(totals, totalNTx, keys), CountDesc)
  }

  /** One row per key. */
  lemma RatioRowsLength(totals: map<string, nat>, totalNTx: nat, keys: seq<string>)
    requires TotalPreorder(CountDesc)
    requires NoDuplicates(keys) && Elems(keys) == totals.Keys
    ensures |RatioRows(totals, totalNTx, keys)| == |totals.Keys|
  {
    SameMultisetSameLength(RatioRows(totals, totalNTx, keys), RowsInKeyOrder(totals, totalNTx, keys));
    DistinctCardinality(keys);
  }

  /** Every row carries a counted key, its count and its share of all
      commits. */
  lemma RatioRowsEntries(totals: map<string, nat>, totalNTx: nat, keys: seq<string>)
    requires TotalPreorder(CountDesc)
    requires Elems(keys) == totals.Keys
    ensures var rows := RatioRows(totals, totalNTx, keys);
      forall j :: 0 <= j < |rows| ==> rows[j] == RatioRowOf(totals, totalNTx, rows[j].key) && rows[j].key in totals
  {
    var unsorted := RowsInKeyOrder(totals, totalNTx, keys);
    var rows := RatioRows(totals, totalNTx, keys);
    forall j | 0 <= j < |rows| ensures rows[j] == RatioRowOf(totals, totalNTx, rows[j].key) && rows[j].key in totals {
      assert rows[j] in multiset(unsorted);
      var i :| 0 <= i < |unsorted| && unsorted[i] == rows[j];
      assert keys[i] in Elems(keys);
    }
  }

  /** Every counted key gets a row. */
  lemma RatioRowsCover(totals: map<string, nat>, totalNTx: nat, keys: seq<string>, k: string)
    requires TotalPreorder(CountDesc)
    requires Elems(keys) == totals.Keys
    requires k in totals
    ensures RatioRowOf(totals, totalNTx, k) in RatioRows(totals, totalNTx, keys)
  {
    assert k in Elems(keys);
    var j :| 0 <= j < |keys| && keys[j] == k;
    var unsorted := RowsInKeyOrder(totals, totalNTx, keys);
    assert unsorted[j] in multiset(RatioRows(totals, totalNTx, keys));
  }

  /** Every counted key has its row. */
  lemma RatioRowsComplete(totals: map<string, nat>, totalNTx: nat, keys: seq<string>)
    requires TotalPreorder(CountDesc)
    requires Elems(keys) == totals.Keys
    ensures forall k :: k in totals ==> RatioRowOf(totals, totalNTx, k) in RatioRows(totals, totalNTx, keys)
  {
    forall k | k in totals ensures RatioRowOf(totals, totalNTx, k) in RatioRows(totals, totalNTx, keys) {
      RatioRowsCover(totals, totalNTx, keys, k);
    }
  }

  /** The per-repository row of a column table: the repository's count of
      each column, 0 for one it never saw. */
  function ByRepoRowOf(r: RepoBaselineResult, counts: map<string, nat>, columns: seq<string>): ByRepoRow {
    ByRepoRow(r.repo, r.nAllTx, seq(|columns|, j requires 0 <= j < |columns| => Get(counts, columns[j])))
  }

  /** The loop building `category_by_repo.csv` (`cats` true) or
      `ext_by_repo.csv`. */
  method ByRepoRows(sortedResults: seq<RepoBaselineResult>, columns: seq<string>, cats: bool)
    returns (rows: seq<ByRepoRow>)
    ensures |rows| == |sortedResults|
    ensures forall j :: 0 <= j < |rows| ==>
      var r := sortedResults[j];
      rows[j] == ByRepoRowOf(r, if cats then r.catTxCounts else r.extTxCounts, columns)
  {
    rows := [];
    for i := 0 to |sortedResults|
      invariant |rows| == i
      invariant forall j :: 0 <= j < i ==>
        var r := sortedResults[j];
        rows[j] == ByRepoRowOf(r, if cats then r.catTxCounts else r.extTxCounts, columns)
    {
      var r := sortedResults[i];
      var counts := if cats then r.catTxCounts else r.extTxCounts;
      var row := ByRepoRowOf(r, counts, columns);
      rows := rows + [row];
    }
  }

  /** The aggregation and table building of `run_baseline_corpus`, given the
      per-repository results in completion order; nothing is written when
      there are none. */
  method RunBaselineCorpus(results: seq<RepoBaselineResult>) returns (out: Option<BaselineTables>)
    ensures |results| == 0 <==> out.None?
    ensures out.Some? ==>
      var t := out.value;
      && t.totalNTx == TotalTx(results)
      && SortedBy(t.catRows, CountDesc) && |t.catRows| == |TotalCats(results).Keys|
      && multiset(t.catRows) == multiset(RowsInKeyOrder(TotalCats(results), t.totalNTx, t.catColumns))
      && (forall j :: 0 <= j < |t.catRows| ==>
            t.catRows[j].key in TotalCats(results) && t.catRows[j] == RatioRowOf(TotalCats(results), t.totalNTx, t.catRows[j].key))
      && (forall k :: k in TotalCats(results) ==> RatioRowOf(TotalCats(results), t.totalNTx, k) in t.catRows)
      && SortedBy(t.extRows, CountDesc) && |t.extRows| == |TotalExts(results).Keys|
      && multiset(t.extRows) == multiset(RowsInKeyOrder(TotalExts(results), t.totalNTx, t.extColumns))
      && (forall j :: 0 <= j < |t.extRows| ==>
            t.extRows[j].key in TotalExts(results) && t.extRows[j] == RatioRowOf(TotalExts(results), t.totalNTx, t.extRows[j].key))
      && (forall k :: k in TotalExts(results) ==> RatioRowOf(TotalExts(results), t.totalNTx, k) in t.extRows)
      && StrictlySorted(t.catColumns) && Elems(t.catColumns) == TotalCats(results).Keys
      && StrictlySorted(t.extColumns) && Elems(t.extColumns) == TotalExts(results).Keys
      && SortedBy(t.repoRows, RepoRowLe)
      && exists ordered :: multiset(ordered) == multiset(results) && SortedBy(ordered, RepoLe) && PerRepoTables(t, ordered)
  {
    if |results| == 0 {
      return None;
    }
    var totalCatCounts, totalExtCounts, totalNTx := Aggregate(results);
    CountDescIsTotalPreorder();
    var allCats := SortedSet(totalCatCounts.Keys);
    var allExts := SortedSet(totalExtCounts.Keys);
    StrictlySortedDistinct(allCats);
    StrictlySortedDistinct(allExts);
    var catRows := RatioRows(totalCatCounts, totalNTx, allCats);
    var extRows := RatioRows(totalExtCounts, totalNTx, allExts);
    RatioRowsLength(totalCatCounts, totalNTx, allCats);
    RatioRowsLength(totalExtCounts, totalNTx, allExts);
    RatioRowsEntries(totalCatCounts, totalNTx, allCats);
    RatioRowsEntries(totalExtCounts, totalNTx, allExts);
    RatioRowsComplete(totalCatCounts, totalNTx, allCats);
    RatioRowsComplete(totalExtCounts, totalNTx, allExts);

    RepoLeIsTotalPreorder();
    var ordered := SortBy(results, RepoLe);
    var repoRows, catByRepo, extByRepo := PerRepoRows(ordered, allCats, allExts);
    var t := BaselineTables(repoRows, catRows, extRows, allCats, allExts, catByRepo, extByRepo, totalNTx);
    assert PerRepoTables(t, ordered);
    out := Some(t);
  }

  /** The lines of `repo_baseline.csv`, `category_by_repo.csv` and
      `ext_by_repo.csv`, one per repository in the given order. */
  method PerRepoRows(ordered: seq<RepoBaselineResult>, catColumns: seq<string>, extColumns: seq<string>)
    returns (repoRows: seq<RepoRow>, catByRepo: seq<ByRepoRow>, extByRepo: seq<ByRepoRow>)
    requires SortedBy(ordered, RepoLe)
    ensures SortedBy(repoRows, RepoRowLe)
    ensures |repoRows| == |ordered| && |catByRepo| == |ordered| && |extByRepo| == |ordered|
    ensures forall j :: 0 <= j < |ordered| ==>
      && repoRows[j] == RepoRow(ordered[j].repo, ordered[j].nAllTx)
      && catByRepo[j] == ByRepoRowOf(ordered[j], ordered[j].catTxCounts, catColumns)
      && extByRepo[j] == ByRepoRowOf(ordered[j], ordered[j].extTxCounts, extColumns)
  {
    repoRows := seq(|ordered|, j requires 0 <= j < |ordered| => RepoRow(ordered[j].repo, ordered[j].nAllTx));
    assert forall i, j :: 0 <= i < j < |repoRows| ==> RepoLe(ordered[i], ordered[j]);
    catByRepo := ByRepoRows(ordered, catColumns, true);
    extByRepo := ByRepoRows(ordered, extColumns, false);
  }
}
