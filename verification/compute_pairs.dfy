/** `compute_pairs_for_repo` of src/experiments/rq0/compute_pairs.py: two
    counting passes over a repository's history and one row of
    support/confidence/baseline/lift per (proto file, co-changed file) pair.
    The git queries are inputs: the proto-touching commits, all non-merge
    commits, and the changed paths of each commit. */
module ComputePairs {
  import opened Strings
  import opened Lists
  import opened Counters
  import opened Categorization

  /** A (proto file, co-changed file) pair. */
  type PairKey = (string, string)

  datatype Metrics = Metrics(support: real, confidence: real, baseline: real, lift: real)

  /** One output row of the pair table. */
  datatype PairRow = PairRow(
    repo: string,
    protoFile: string,
    file: string,
    fileCategory: Category,
    nAllTx: nat,
    nProtoTxForProto: nat,
    nFileTx: nat,
    nBothTx: nat,
    metrics: Metrics)

  datatype RepoPairResult = RepoPairResult(
    repo: string,
    nAllTx: nat,
    nProtoTxAny: nat,
    nUniqueProtoFiles: nat,
    nUniqueCochangeFiles: nat,
    nPairs: nat,
    rows: seq<PairRow>)

  /** `a / b if b else 0.0`. */
  function Ratio(a: nat, b: nat): (r: real)
    ensures r >= 0.0
    ensures b == 0 || a == 0 ==> r == 0.0
    ensures a <= b ==> r <= 1.0
    ensures b > 0 ==> r * b as real == a as real
  {
    if b != 0 then a as real / b as real else 0.0
  }

  /** The four ratios of a row, each guarded against a zero denominator. */
  function PairMetrics(both: nat, protoTx: nat, fileTx: nat, nAll: nat): (m: Metrics)
    ensures m.support >= 0.0 && m.confidence >= 0.0 && m.baseline >= 0.0 && m.lift >= 0.0
    ensures nAll == 0 ==> m.support == 0.0 && m.baseline == 0.0 && m.lift == 0.0
    ensures protoTx == 0 ==> m.confidence == 0.0 && m.lift == 0.0
    ensures fileTx == 0 ==> m.baseline == 0.0 && m.lift == 0.0
    ensures both <= nAll ==> m.support <= 1.0
    ensures both <= protoTx ==> m.confidence <= 1.0
    ensures fileTx <= nAll ==> m.baseline <= 1.0
    ensures both <= fileTx ==> m.support <= m.baseline
    ensures nAll > 0 && protoTx > 0 && fileTx > 0 ==>
      m.lift == (both * nAll) as real / (protoTx * fileTx) as real
  {
    var support := Ratio(both, nAll);
    var confidence := Ratio(both, protoTx);
    var baseline := Ratio(fileTx, nAll);
    var lift := if baseline > 0.0 then confidence / baseline else 0.0;
    LiftFacts(both, protoTx, fileTx, nAll);
    RatioMonotone(both, fileTx, nAll);
    Metrics(support, confidence, baseline, lift)
  }

  lemma LiftFacts(both: nat, protoTx: nat, fileTx: nat, nAll: nat)
    ensures var c, b := Ratio(both, protoTx), Ratio(fileTx, nAll);
      && (b > 0.0 ==> c / b >= 0.0)
      && (nAll > 0 && protoTx > 0 && fileTx > 0 ==> b > 0.0 && c / b == (both * nAll) as real / (protoTx * fileTx) as real)
  {
    var c, b := Ratio(both, protoTx), Ratio(fileTx, nAll);
    if b > 0.0 {
      DivNonNegative(c, b);
    }
    if nAll > 0 && protoTx > 0 && fileTx > 0 {
      var x, p, f, n := both as real, protoTx as real, fileTx as real, nAll as real;
      assert c == x / p && b == f / n;
      QuotientOfQuotients(x, p, f, n);
      assert (both * nAll) as real == x * n && (protoTx * fileTx) as real == p * f;
    }
  }

  lemma QuotientOfQuotients(x: real, p: real, f: real, n: real)
    requires p > 0.0 && f > 0.0 && n > 0.0
    ensures f / n > 0.0 && (x / p) / (f / n) == (x * n) / (p * f)
  {
  }

  lemma RatioMonotone(a: nat, b: nat, n: nat)
    ensures a <= b ==> Ratio(a, n) <= Ratio(b, n)
  {
    if n != 0 && a <= b {
      assert a as real / n as real <= b as real / n as real;
    }
  }

  lemma DivNonNegative(a: real, b: real)
    requires a >= 0.0 && b > 0.0
    ensures a / b >= 0.0
  {
  }

  /** The row for one pair, given its three counts and `n_all_tx`. */
  function RowOf(repo: string, p: string, f: string, nAll: nat, protoTx: nat, fileTx: nat, both: nat): PairRow {
    PairRow(repo, p, f, Categorize(f), nAll, protoTx, fileTx, both, PairMetrics(both, protoTx, fileTx, nAll))
  }

  // ---------------------------------------------------------------------------
  // Per-commit views
  // ---------------------------------------------------------------------------

  /** `_filtered_changed_files`: the changed paths of a commit that
      `should_skip` keeps, in git's order. */
  function FilteredChangedFiles(changed: string -> seq<string>, c: string, rules: SkipRules): (r: seq<string>)
    ensures forall p :: p in r <==> p in changed(c) && !ShouldSkip(p, rules)
    ensures |r| <= |changed(c)|
  {
    Filter(changed(c), p => !ShouldSkip(p, rules))
  }

  /** How both passes see a commit: its kept changed paths, the test that
      makes a path a proto file, and the category test that drops a path
      from the co-changed files. */
  datatype CommitView = CommitView(
    files: string -> seq<string>,
    isProto: string -> bool,
    protoCategory: string -> bool)

  /** The view `compute_pairs_for_repo` takes: `.proto` is tested on the
      lower-cased path, and a co-changed path must not categorise as
      `proto`. */
  function SourceView(changed: string -> seq<string>, rules: SkipRules): CommitView {
    CommitView(c => FilteredChangedFiles(changed, c, rules), HasProtoSuffixIgnoringCase, p => Categorize(p) == Proto)
  }

  /** `protos`: the kept paths that are proto files. */
  function ProtoPaths(v: CommitView, files: seq<string>): (r: seq<string>)
    ensures forall p :: p in r <==> p in files && v.isProto(p)
  {
    Filter(files, v.isProto)
  }

  /** The first `cochange` list: the kept paths that are not proto files. */
  function NonProtoPaths(v: CommitView, files: seq<string>): (r: seq<string>)
    ensures forall p :: p in r <==> p in files && !v.isProto(p)
  {
    Filter(files, p => !v.isProto(p))
  }

  /** `cochange`: the other kept paths, less any that categorise as `proto`. */
  function CochangePaths(v: CommitView, files: seq<string>): (r: seq<string>)
    ensures forall p :: p in r <==> p in files && !v.isProto(p) && !v.protoCategory(p)
  {
    Filter(NonProtoPaths(v, files), p => !v.protoCategory(p))
  }

  /** `protos_set` of commit `c`. */
  function ProtoSetAt(v: CommitView, c: string): set<string> {
    Elems(ProtoPaths(v, v.files(c)))
  }

  /** `cochange_set` of commit `c`, or nothing when the commit is passed over
      for want of a proto file. */
  function CochangeSetAt(v: CommitView, c: string): set<string> {
    if ProtoSetAt(v, c) == {} then {} else Elems(CochangePaths(v, v.files(c)))
  }

  /** The proto set of each proto commit, in order. */
  function ProtoSets(v: CommitView, commits: seq<string>): (r: seq<set<string>>)
    ensures |r| == |commits|
    ensures forall i :: 0 <= i < |commits| ==> r[i] == ProtoSetAt(v, commits[i])
  {
    seq(|commits|, i requires 0 <= i < |commits| => ProtoSetAt(v, commits[i]))
  }

  /** The co-change set of each proto commit, in order. */
  function CochangeSets(v: CommitView, commits: seq<string>): (r: seq<set<string>>)
    ensures |r| == |commits|
    ensures forall i :: 0 <= i < |commits| ==> r[i] == CochangeSetAt(v, commits[i])
  {
    seq(|commits|, i requires 0 <= i < |commits| => CochangeSetAt(v, commits[i]))
  }

  /** The pairs each proto commit adds to `n_both_tx`. */
  function PairSets(v: CommitView, commits: seq<string>): (r: seq<set<PairKey>>)
    ensures |r| == |commits|
    ensures forall i :: 0 <= i < |commits| ==> r[i] == Pairs(ProtoSetAt(v, commits[i]), CochangeSetAt(v, commits[i]))
  {
    seq(|commits|, i requires 0 <= i < |commits| => Pairs(ProtoSetAt(v, commits[i]), CochangeSetAt(v, commits[i])))
  }

  /** `hit`: the candidate files among the kept paths of each commit. */
  function HitSets(v: CommitView, commits: seq<string>, cand: set<string>): (r: seq<set<string>>)
    ensures |r| == |commits|
    ensures forall i :: 0 <= i < |commits| ==> r[i] == Elems(v.files(commits[i])) * cand
  {
    seq(|commits|, i requires 0 <= i < |commits| => Elems(v.files(commits[i])) * cand)
  }

  /** The candidate files: every file co-changed with a proto file. */
  function Candidates(v: CommitView, protoCommits: seq<string>): set<string> {
    Union(CochangeSets(v, protoCommits))
  }

  /** The row the two passes produce for the pair `(p, f)`. */
  function SpecRow(v: CommitView, repo: string, protoCommits: seq<string>, allCommits: seq<string>,
                   p: string, f: string): PairRow
  {
    RowOf(repo, p, f, |allCommits|,
      Occurrences(ProtoSets(v, protoCommits), p),
      Occurrences(HitSets(v, allCommits, Candidates(v, protoCommits)), f),
      Occurrences(PairSets(v, protoCommits), (p, f)))
  }

  function KeyOf(row: PairRow): PairKey {
    (row.protoFile, row.file)
  }

  /** The pairs the rows are about. */
  function RowKeys(rows: seq<PairRow>): set<PairKey> {
    if |rows| == 0 then {} else RowKeys(rows[..|rows| - 1]) + {KeyOf(rows[|rows| - 1])}
  }

  // ---------------------------------------------------------------------------
  // The two passes
  // ---------------------------------------------------------------------------

  /** `for k in keys: counter[k] += 1`. */
  method CountEach<K(!new)>(counts: map<K, nat>, keys: set<K>) returns (r: map<K, nat>)
    ensures r == Bump(counts, keys)
  {
    r := counts;
    BumpNothing(counts);
    var remaining := keys;
    ghost var done: set<K> := {};
    while remaining != {}
      invariant done + remaining == keys && done !! remaining
      invariant r == Bump(counts, done)
      decreases remaining
    {
      var k :| k in remaining;
      BumpOneMore(counts, done, k);
      r := r[k := Get(r, k) + 1];
      remaining := remaining - {k};
      done := done + {k};
    }
  }

  /** The body of the first pass for one proto commit `c`: a commit without
      a proto file is passed over, any other adds one to the count of each
      of its proto files and of each of its (proto file, co-changed file)
      pairs, and its files to the candidates. */
  method TallyProtoCommit(v: CommitView, c: string, nProtoTxForProto: map<string, nat>, nBothTx: map<PairKey, nat>,
                          candidateFiles: set<string>, candidateProtos: set<string>)
    returns (nProtoTxForProto': map<string, nat>, nBothTx': map<PairKey, nat>,
             candidateFiles': set<string>, candidateProtos': set<string>)
    ensures nProtoTxForProto' == Bump(nProtoTxForProto, ProtoSetAt(v, c))
    ensures nBothTx' == Bump(nBothTx, Pairs(ProtoSetAt(v, c), CochangeSetAt(v, c)))
    ensures candidateFiles' == candidateFiles + CochangeSetAt(v, c)
    ensures candidateProtos' == candidateProtos + ProtoSetAt(v, c)
  {
    var files := v.files(c);
    var protos := ProtoPaths(v, files);
    if |protos| == 0 {
      assert ProtoSetAt(v, c) == {} && CochangeSetAt(v, c) == {};
      BumpNothing(nProtoTxForProto);
      BumpNothing(nBothTx);
      return nProtoTxForProto, nBothTx, candidateFiles, candidateProtos;
    }
    var cochange := CochangePaths(v, files);
    var protosSet := Elems(protos);
    var cochangeSet := Elems(cochange);
    assert protos[0] in protosSet;
    assert ProtoSetAt(v, c) == protosSet && CochangeSetAt(v, c) == cochangeSet;
    nProtoTxForProto' := CountEach(nProtoTxForProto, protosSet);
    candidateProtos' := candidateProtos + protosSet;
    candidateFiles' := candidateFiles + cochangeSet;
    nBothTx' := CountEach(nBothTx, Pairs(protosSet, cochangeSet));
  }

  /** Phase 1: the pass over the proto-touching commits. */
  method CountProtoCommits(v: CommitView, protoCommits: seq<string>)
    returns (nProtoTxForProto: map<string, nat>, nBothTx: map<PairKey, nat>,
             candidateFiles: set<string>, candidateProtos: set<string>)
    ensures Tallies(nProtoTxForProto, ProtoSets(v, protoCommits))
    ensures candidateProtos == Union(ProtoSets(v, protoCommits))
    ensures candidateFiles == Candidates(v, protoCommits)
    ensures Tallies(nBothTx, PairSets(v, protoCommits))
  {
    ghost var protoSets := ProtoSets(v, protoCommits);
    ghost var cochangeSets := CochangeSets(v, protoCommits);
    ghost var pairSets := PairSets(v, protoCommits);
    nProtoTxForProto := map[];
    nBothTx := map[];
    candidateFiles := {};
    candidateProtos := {};
    TalliesEmpty(protoSets);
    TalliesEmpty(pairSets);
    var i := 0;
    while i < |protoCommits|
      invariant 0 <= i <= |protoCommits|
      invariant candidateProtos == Union(protoSets[..i])
      invariant candidateFiles == Union(cochangeSets[..i])
      invariant Tallies(nProtoTxForProto, protoSets[..i])
      invariant Tallies(nBothTx, pairSets[..i])
    {
      UnionStep(cochangeSets, i);
      UnionStep(protoSets, i);
      CountedStep(protoSets, i, nProtoTxForProto);
      CountedStep(pairSets, i, nBothTx);
      assert protoSets[i] == ProtoSetAt(v, protoCommits[i]) && cochangeSets[i] == CochangeSetAt(v, protoCommits[i]);
      assert pairSets[i] == Pairs(protoSets[i], cochangeSets[i]);
      nProtoTxForProto, nBothTx, candidateFiles, candidateProtos :=
        TallyProtoCommit(v, protoCommits[i], nProtoTxForProto, nBothTx, candidateFiles, candidateProtos);
      i := i + 1;
    }
    assert protoSets[..i] == protoSets && cochangeSets[..i] == cochangeSets && pairSets[..i] == pairSets;
  }

  /** Phase 2: the pass over all commits, counting candidate files only; it
      is skipped when there is no candidate. */
  method CountCandidateFiles(v: CommitView, allCommits: seq<string>, cand: set<string>)
    returns (nFileTx: map<string, nat>)
    ensures Tallies(nFileTx, HitSets(v, allCommits, cand))
  {
    ghost var hitSets := HitSets(v, allCommits, cand);
    nFileTx := map[];
    if cand != {} {
      TalliesEmpty(hitSets);
      var j := 0;
      while j < |allCommits|
        invariant 0 <= j <= |allCommits|
        invariant Tallies(nFileTx, hitSets[..j])
      {
        var files := v.files(allCommits[j]);
        var filesSet := Elems(files);
        var hit := filesSet * cand;
        CountedStep(hitSets, j, nFileTx);
        nFileTx := CountEach(nFileTx, hit);
        j := j + 1;
      }
      assert hitSets[..j] == hitSets;
    } else {
      forall f ensures Occurrences(hitSets, f) == 0 && f !in Union(hitSets) {
        OccurrencesAbsent(hitSets, f);
      }
    }
  }

  lemma RowKeysSnoc(rows: seq<PairRow>, row: PairRow)
    ensures RowKeys(rows + [row]) == RowKeys(rows) + {KeyOf(row)}
  {
    assert (rows + [row])[..|rows|] == rows;
  }

  lemma AddFresh<T>(s: set<T>, x: T)
    requires x !in s
    ensures |s + {x}| == |s| + 1
  {
  }

  /** `row` is the row for its own pair under the three counters. */
  predicate RowFromCounts(row: PairRow, repo: string, nAllTx: nat, nProtoTxForProto: map<string, nat>,
                          nFileTx: map<string, nat>, nBothTx: map<PairKey, nat>)
  {
    var p, f := row.protoFile, row.file;
    row == RowOf(repo, p, f, nAllTx, Get(nProtoTxForProto, p), Get(nFileTx, f), Get(nBothTx, (p, f)))
  }

  /** The row loop over `n_both_tx.items()`: one row per key. */
  method BuildRows(repo: string, nAllTx: nat, nProtoTxForProto: map<string, nat>,
                   nFileTx: map<string, nat>, nBothTx: map<PairKey, nat>)
    returns (rows: seq<PairRow>)
    ensures RowKeys(rows) == nBothTx.Keys && |rows| == |nBothTx.Keys|
    ensures forall j :: 0 <= j < |rows| ==> RowFromCounts(rows[j], repo, nAllTx, nProtoTxForProto, nFileTx, nBothTx)
  {
    rows := [];
    var remaining := nBothTx.Keys;
    ghost var done: set<PairKey> := {};
    while remaining != {}
      invariant done + remaining == nBothTx.Keys && done !! remaining
      invariant RowKeys(rows) == done && |rows| == |done|
      invariant forall j :: 0 <= j < |rows| ==> RowFromCounts(rows[j], repo, nAllTx, nProtoTxForProto, nFileTx, nBothTx)
      decreases remaining
    {
      var key :| key in remaining;
      var (p, f) := key;
      var both := nBothTx[key];
      var protoTx := Get(nProtoTxForProto, p);
      var fileTx := Get(nFileTx, f);
      var row := RowOf(repo, p, f, nAllTx, protoTx, fileTx, both);
      RowKeysSnoc(rows, row);
      AddFresh(done, key);
      rows := rows + [row];
      remaining := remaining - {key};
      done := done + {key};
    }
  }

  /** The two passes and the row loop under any view of the commits. */
  method PairsUnder(v: CommitView, repo: string, protoCommits: seq<string>, allCommits: seq<string>)
    returns (res: RepoPairResult)
    ensures res.repo == repo
    ensures res.nAllTx == |allCommits| && res.nProtoTxAny == |protoCommits|
    ensures res.nUniqueProtoFiles == |Union(ProtoSets(v, protoCommits))|
    ensures res.nUniqueCochangeFiles == |Candidates(v, protoCommits)|
    ensures res.nPairs == |res.rows|
    ensures RowKeys(res.rows) == Union(PairSets(v, protoCommits))
    ensures |res.rows| == |Union(PairSets(v, protoCommits))|
    ensures forall j :: 0 <= j < |res.rows| ==>
      res.rows[j] == SpecRow(v, repo, protoCommits, allCommits, res.rows[j].protoFile, res.rows[j].file)
  {
    var nProtoTxForProto, nBothTx, candidateFiles, candidateProtos := CountProtoCommits(v, protoCommits);
    var nAllTx := |allCommits|;
    var nFileTx := CountCandidateFiles(v, allCommits, candidateFiles);
    var rows := BuildRows(repo, nAllTx, nProtoTxForProto, nFileTx, nBothTx);
    forall j | 0 <= j < |rows|
      ensures rows[j] == SpecRow(v, repo, protoCommits, allCommits, rows[j].protoFile, rows[j].file)
    {
      var p, f := rows[j].protoFile, rows[j].file;
      assert RowFromCounts(rows[j], repo, nAllTx, nProtoTxForProto, nFileTx, nBothTx);
      assert Get(nProtoTxForProto, p) == Occurrences(ProtoSets(v, protoCommits), p);
      assert Get(nFileTx, f) == Occurrences(HitSets(v, allCommits, candidateFiles), f);
      assert Get(nBothTx, (p, f)) == Occurrences(PairSets(v, protoCommits), (p, f));
    }
    res := RepoPairResult(repo, nAllTx, |protoCommits|, |candidateProtos|, |candidateFiles|, |rows|, rows);
  }

  /** `compute_pairs_for_repo`: the git queries arrive as the two commit
      lists and the changed paths of each commit. */
  method ComputePairsForRepo(
    repo: string,
    protoCommits: seq<string>,
    allCommits: seq<string>,
    changed: string -> seq<string>,
    rules: SkipRules)
    returns (res: RepoPairResult)
    ensures var v := SourceView(changed, rules);
      && res.repo == repo
      && res.nAllTx == |allCommits| && res.nProtoTxAny == |protoCommits|
      && res.nUniqueProtoFiles == |Union(ProtoSets(v, protoCommits))|
      && res.nUniqueCochangeFiles == |Candidates(v, protoCommits)|
      && res.nPairs == |res.rows|
      && RowKeys(res.rows) == Union(PairSets(v, protoCommits))
      && |res.rows| == |Union(PairSets(v, protoCommits))|
      && forall j :: 0 <= j < |res.rows| ==>
           res.rows[j] == SpecRow(v, repo, protoCommits, allCommits, res.rows[j].protoFile, res.rows[j].file)
  {
    res := PairsUnder(SourceView(changed, rules), repo, protoCommits, allCommits);
  }

  // ---------------------------------------------------------------------------
  // What the counts mean
  // ---------------------------------------------------------------------------

  /** A pair is counted exactly when some proto commit changed both files:
      the proto file among its proto files and the other among its
      co-changed files. */
  lemma {:induction false} PairMeansSameCommit(v: CommitView, commits: seq<string>, p: string, f: string)
    ensures (p, f) in Union(PairSets(v, commits)) <==>
      exists i :: 0 <= i < |commits| && p in ProtoSetAt(v, commits[i]) && f in CochangeSetAt(v, commits[i])
  {
    var pairSets := PairSets(v, commits);
    UnionMember(pairSets, (p, f));
  }

  /** A pair is never counted more often than either of its files:
      `n_both_tx <= n_proto_tx_for_proto`, and `n_both_tx` is at most the
      number of proto commits in which the file was co-changed. */
  lemma PairCountBounds(v: CommitView, commits: seq<string>, p: string, f: string)
    ensures Occurrences(PairSets(v, commits), (p, f)) <= Occurrences(ProtoSets(v, commits), p)
    ensures Occurrences(PairSets(v, commits), (p, f)) <= Occurrences(CochangeSets(v, commits), f)
  {
    OccurrencesImply(PairSets(v, commits), ProtoSets(v, commits), (p, f), p);
    OccurrencesImply(PairSets(v, commits), CochangeSets(v, commits), (p, f), f);
  }

  /** Every counted proto file is a proto file of the view, kept in some
      proto commit. */
  lemma CountedProtoIsChanged(v: CommitView, commits: seq<string>, p: string) returns (i: nat)
    requires p in Union(ProtoSets(v, commits))
    ensures v.isProto(p) && i < |commits| && p in v.files(commits[i])
  {
    UnionMember(ProtoSets(v, commits), p);
    i :| 0 <= i < |commits| && p in ProtoSets(v, commits)[i];
  }

  /** Every candidate is neither a proto file nor of the `proto` category,
      and was kept in a commit that also kept a proto file. */
  lemma CandidateIsCochanged(v: CommitView, commits: seq<string>, f: string) returns (i: nat)
    requires f in Candidates(v, commits)
    ensures !v.isProto(f) && !v.protoCategory(f)
    ensures i < |commits| && f in v.files(commits[i]) && ProtoSetAt(v, commits[i]) != {}
  {
    UnionMember(CochangeSets(v, commits), f);
    i :| 0 <= i < |commits| && f in CochangeSets(v, commits)[i];
  }

  /** With no proto commit twice and every proto commit among all commits
      (both lists come from `git rev-list --no-merges --all`), a file is
      counted in the second pass at least as often as it was co-changed in
      the first, so `n_both_tx <= n_file_tx <= n_all_tx`. */
  lemma {:induction false} FileCountCoversPairs(v: CommitView, protoCommits: seq<string>, allCommits: seq<string>, p: string, f: string)
    requires NoDuplicates(protoCommits)
    requires forall i :: 0 <= i < |protoCommits| ==> protoCommits[i] in allCommits
    ensures Occurrences(PairSets(v, protoCommits), (p, f))
         <= Occurrences(HitSets(v, allCommits, Candidates(v, protoCommits)), f)
         <= |allCommits|
  {
    var cochangeSets := CochangeSets(v, protoCommits);
    var hitSets := HitSets(v, allCommits, Candidates(v, protoCommits));
    PairCountBounds(v, protoCommits, p, f);
    OccurrencesCountHits(cochangeSets, protoCommits, f);
    OccurrencesCountHits(hitSets, allCommits, f);
    forall c | c in Hits(cochangeSets, protoCommits, f) ensures c in Hits(hitSets, allCommits, f) {
      var i :| 0 <= i < |cochangeSets| && f in cochangeSets[i] && protoCommits[i] == c;
      UnionMember(cochangeSets, f);
      var j :| 0 <= j < |allCommits| && allCommits[j] == c;
      assert f in hitSets[j];
    }
    assert Hits(cochangeSets, protoCommits, f) <= Hits(hitSets, allCommits, f);
    SubsetCardinality(Hits(cochangeSets, protoCommits, f), Hits(hitSets, allCommits, f));
  }

  lemma SubsetCardinality<T>(a: set<T>, b: set<T>)
    requires a <= b
    ensures |a| <= |b|
  {
    assert b == a + (b - a);
  }

  /** Every row of the pair table is about a pair seen at least once, with
      confidence at most 1; under the conditions of `FileCountCoversPairs`
      also `support <= baseline <= 1`. */
  lemma {:induction false} RowBounds(v: CommitView, repo: string, protoCommits: seq<string>, allCommits: seq<string>, p: string, f: string)
    requires (p, f) in Union(PairSets(v, protoCommits))
    ensures var row := SpecRow(v, repo, protoCommits, allCommits, p, f);
      && 1 <= row.nBothTx <= row.nProtoTxForProto <= |protoCommits|
      && 0.0 < row.metrics.confidence <= 1.0
      && row.fileCategory == Categorize(f)
    ensures var row := SpecRow(v, repo, protoCommits, allCommits, p, f);
      NoDuplicates(protoCommits) && (forall i :: 0 <= i < |protoCommits| ==> protoCommits[i] in allCommits) ==>
        && row.nBothTx <= row.nFileTx <= row.nAllTx
        && 0.0 < row.metrics.support <= row.metrics.baseline <= 1.0
        && row.metrics.lift > 0.0
  {
    var row := SpecRow(v, repo, protoCommits, allCommits, p, f);
    OccurrencesPositive(PairSets(v, protoCommits), (p, f));
    PairCountBounds(v, protoCommits, p, f);
    assert row.metrics.confidence > 0.0;
    if NoDuplicates(protoCommits) && (forall i :: 0 <= i < |protoCommits| ==> protoCommits[i] in allCommits) {
      FileCountCoversPairs(v, protoCommits, allCommits, p, f);
      LiftPositive(row.nBothTx, row.nProtoTxForProto, row.nFileTx, row.nAllTx);
    }
  }

  lemma LiftPositive(both: nat, protoTx: nat, fileTx: nat, nAll: nat)
    requires 0 < both <= protoTx && both <= fileTx <= nAll
    ensures PairMetrics(both, protoTx, fileTx, nAll).lift > 0.0
    ensures PairMetrics(both, protoTx, fileTx, nAll).support > 0.0
  {
    var m := PairMetrics(both, protoTx, fileTx, nAll);
    assert (both * nAll) as real > 0.0 && (protoTx * fileTx) as real > 0.0;
    DivPositive((both * nAll) as real, (protoTx * fileTx) as real);
    DivPositive(both as real, nAll as real);
  }

  lemma DivPositive(a: real, b: real)
    requires a > 0.0 && b > 0.0
    ensures a / b > 0.0
  {
  }

  /** One more proto commit raises the count of a proto file by exactly one
      when the file is among its kept proto paths and leaves it otherwise:
      the per-commit set makes duplicates count once. */
  lemma ProtoCountStep(v: CommitView, commits: seq<string>, c: string, p: string)
    ensures Occurrences(ProtoSets(v, commits + [c]), p)
         == Occurrences(ProtoSets(v, commits), p) + (if p in v.files(c) && v.isProto(p) then 1 else 0)
  {
    var n := |commits|;
    var ps := ProtoSets(v, commits + [c]);
    assert ps[..n] == ProtoSets(v, commits);
    assert ps[..n + 1] == ps;
    OccurrencesStep(ps, n);
  }

  /** The second pass counts candidate files only, each at most once per
      commit. */
  lemma HitsAreCandidates(v: CommitView, allCommits: seq<string>, cand: set<string>, f: string)
    ensures f in Union(HitSets(v, allCommits, cand)) ==> f in cand
    ensures Occurrences(HitSets(v, allCommits, cand), f) <= |allCommits|
  {
    UnionMember(HitSets(v, allCommits, cand), f);
  }

  /** A proto commit without a proto file among its kept paths changes no
      count and no candidate set. */
  lemma CommitWithoutProtoIsInert(v: CommitView, commits: seq<string>, c: string)
    requires ProtoSetAt(v, c) == {}
    ensures Union(ProtoSets(v, commits + [c])) == Union(ProtoSets(v, commits))
    ensures Candidates(v, commits + [c]) == Candidates(v, commits)
    ensures Union(PairSets(v, commits + [c])) == Union(PairSets(v, commits))
    ensures forall p :: Occurrences(ProtoSets(v, commits + [c]), p) == Occurrences(ProtoSets(v, commits), p)
    ensures forall k :: Occurrences(PairSets(v, commits + [c]), k) == Occurrences(PairSets(v, commits), k)
  {
    var n := |commits|;
    assert (commits + [c])[..n] == commits;
    assert ProtoSets(v, commits + [c])[..n] == ProtoSets(v, commits);
    assert CochangeSets(v, commits + [c])[..n] == CochangeSets(v, commits);
    assert PairSets(v, commits + [c])[..n] == PairSets(v, commits);
  }

  /** 10 joint commits, 20 proto commits, 15 file commits out of 1000. */
  lemma WorkedExample()
    ensures PairMetrics(10, 20, 15, 1000) == Metrics(0.01, 0.5, 0.015, 100.0 / 3.0)
  {
  }

  /** A file never seen in the second pass: no error, both ratios 0. */
  lemma ZeroBaseline(both: nat, protoTx: nat, nAll: nat)
    ensures PairMetrics(both, protoTx, 0, nAll).baseline == 0.0
    ensures PairMetrics(both, protoTx, 0, nAll).lift == 0.0
  {
  }

  // ---------------------------------------------------------------------------
  // The view of compute_pairs.py
  // ---------------------------------------------------------------------------

  /** Under the source's view, a counted proto file ends in `.proto` ignoring
      case, survives `should_skip`, and was changed by some proto commit. */
  lemma SourceProtoFiles(changed: string -> seq<string>, rules: SkipRules, commits: seq<string>, p: string)
    requires p in Union(ProtoSets(SourceView(changed, rules), commits))
    ensures HasProtoSuffixIgnoringCase(p) && !ShouldSkip(p, rules)
    ensures exists i :: 0 <= i < |commits| && p in changed(commits[i])
  {
    var v := SourceView(changed, rules);
    var i := CountedProtoIsChanged(v, commits, p);
    SourceViewFilesAt(changed, rules, commits[i], p);
  }

  /** Under the source's view, a candidate does not end in `.proto`, does
      not categorise as `proto`, survives `should_skip` and was changed by a
      proto commit together with a proto file. */
  lemma SourceCandidateFiles(changed: string -> seq<string>, rules: SkipRules, commits: seq<string>, f: string)
    requires f in Candidates(SourceView(changed, rules), commits)
    ensures !HasProtoSuffixIgnoringCase(f) && Categorize(f) != Proto && !ShouldSkip(f, rules)
    ensures exists i :: 0 <= i < |commits| && f in changed(commits[i])
  {
    var v := SourceView(changed, rules);
    var i := CandidateIsCochanged(v, commits, f);
    SourceViewFilesAt(changed, rules, commits[i], f);
  }

  /** A path kept in a commit's view was changed by it and survives
      `should_skip`. */
  lemma SourceViewFilesAt(changed: string -> seq<string>, rules: SkipRules, c: string, x: string)
    requires x in SourceView(changed, rules).files(c)
    ensures x in changed(c) && !ShouldSkip(x, rules)
  {
    assert x in FilteredChangedFiles(changed, c, rules);
  }

  /** For paths as git prints them the `categorize(p) != "proto"` filter is
      redundant: it never removes a path the `.proto` test kept. */
  lemma CategoryFilterRedundant(changed: string -> seq<string>, rules: SkipRules, files: seq<string>)
    requires forall i :: 0 <= i < |files| ==> IsGitPath(files[i])
    ensures CochangePaths(SourceView(changed, rules), files) == NonProtoPaths(SourceView(changed, rules), files)
  {
    var v := SourceView(changed, rules);
    var s := NonProtoPaths(v, files);
    forall i | 0 <= i < |s| ensures !v.protoCategory(s[i]) {
      assert s[i] in files;
      if Categorize(s[i]) == Proto {
        GitPathProtoCategoryEndsWithProto(s[i]);
      }
    }
    FilterAll(s, p => !v.protoCategory(p));
  }
}
