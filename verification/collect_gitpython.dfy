/** The first-generation transaction collector, collect_transactions.py
    (GitPython): a commit's changed paths are its whole tree when it has no
    parent and otherwise both sides of its diff against the first parent; a
    transaction is the sorted list of those paths, kept when one of them
    ends `.proto`. The repository is given as its commit list and a view of
    each commit. */
module GitCollect {
  import opened Options
  import opened Strings
  import opened PathSyntax
  import opened Lists
  import opened Sorting

  /** An item of `commit.tree.traverse()`; `isBlob` is `item.type == "blob"`. */
  datatype TreeItem = TreeItem(path: string, isBlob: bool)

  /** An entry of `parent.diff(commit)`; a side is `None` when the file does
      not exist on it. */
  datatype DiffEntry = DiffEntry(aPath: Option<string>, bPath: Option<string>)

  /** What the collector reads of a commit: whether it has parents, its
      tree, and its diff against the first parent. */
  datatype GitCommit = GitCommit(hasParents: bool, tree: seq<TreeItem>, diffs: seq<DiffEntry>)

  /** One line of `transactions.jsonl`. */
  datatype TxRecord = TxRecord(repo: string, transaction: seq<string>)

  /** Python truthiness of an optional path: present and not empty. */
  predicate Truthy(p: Option<string>) {
    p.Some? && p.value != ""
  }

  /** The blob paths of a tree. */
  function TreeBlobPaths(tree: seq<TreeItem>): set<string> {
    set item | item in tree && item.isBlob :: item.path
  }

  /** The paths the diff loop adds, entry by entry. */
  function DiffPaths(diffs: seq<DiffEntry>): set<string> {
    if |diffs| == 0 then {}
    else
      var d := diffs[|diffs| - 1];
      DiffPaths(diffs[..|diffs| - 1])
        + (if Truthy(d.aPath) then {d.aPath.value} else {})
        + (if Truthy(d.bPath) then {d.bPath.value} else {})
  }

  /** Both sides of every entry are collected, renames included, and empty
      paths never are. */
  lemma {:induction false} DiffPathsMember(diffs: seq<DiffEntry>, p: string)
    ensures p in DiffPaths(diffs) <==>
      p != "" && exists d :: d in diffs && (d.aPath == Some(p) || d.bPath == Some(p))
  {
    if |diffs| > 0 {
      var init, d := diffs[..|diffs| - 1], diffs[|diffs| - 1];
      DiffPathsMember(init, p);
      assert diffs == init + [d];
      if exists e :: e in diffs && (e.aPath == Some(p) || e.bPath == Some(p)) {
        var e :| e in diffs && (e.aPath == Some(p) || e.bPath == Some(p));
        if e != d {
          assert e in init;
        }
      }
    }
  }

  /** The set behind `get_changed_files_in_commit`. */
  function ChangedPathSet(c: GitCommit): set<string> {
    if !c.hasParents then TreeBlobPaths(c.tree) else DiffPaths(c.diffs)
  }

  /** The diff loop of lines 34-39. */
  method CollectDiffPaths(diffs: seq<DiffEntry>) returns (paths: set<string>)
    ensures paths == DiffPaths(diffs)
  {
    paths := {};
    for i := 0 to |diffs|
      invariant paths == DiffPaths(diffs[..i])
    {
      var d := diffs[i];
      assert diffs[..i + 1][..i] == diffs[..i];
      if d.aPath.Some? && d.aPath.value != "" {
        paths := paths + {d.aPath.value};
      }
      if d.bPath.Some? && d.bPath.value != "" {
        paths := paths + {d.bPath.value};
      }
    }
    assert diffs[..|diffs|] == diffs;
  }

  /** `get_changed_files_in_commit`: the sorted, duplicate-free list of the
      commit's tree blobs when it has no parent, otherwise of both sides of
      its diff against the first parent. */
  method ChangedFilesInCommit(c: GitCommit) returns (paths: seq<string>)
    ensures paths == SortedElems(ChangedPathSet(c))
    ensures StrictlySorted(paths) && NoDuplicates(paths)
    ensures Elems(paths) == ChangedPathSet(c)
  {
    if !c.hasParents {
      paths := SortedSet(TreeBlobPaths(c.tree));
    } else {
      var s := CollectDiffPaths(c.diffs);
      paths := SortedSet(s);
    }
    StrictlySortedDistinct(paths);
  }

  /** A root commit lists every blob of its tree. */
  lemma RootCommitListsTree(c: GitCommit, p: string)
    requires !c.hasParents
    ensures p in SortedElems(ChangedPathSet(c)) <==> exists item :: item in c.tree && item.isBlob && item.path == p
  {
    assert p in SortedElems(ChangedPathSet(c)) <==> p in Elems(SortedElems(ChangedPathSet(c)));
  }

  /** A commit with a parent lists exactly the non-empty sides of its diff. */
  lemma ChildCommitListsDiff(c: GitCommit, p: string)
    requires c.hasParents
    ensures p in SortedElems(ChangedPathSet(c)) <==>
      p != "" && exists d :: d in c.diffs && (d.aPath == Some(p) || d.bPath == Some(p))
  {
    assert p in SortedElems(ChangedPathSet(c)) <==> p in Elems(SortedElems(ChangedPathSet(c)));
    DiffPathsMember(c.diffs, p);
  }

  predicate HasProtoPath(files: seq<string>) {
    exists f :: f in files && EndsWith(f, ".proto")
  }

  /** The transaction of a commit, if it yields one. */
  ghost function TxOf(c: GitCommit): Option<seq<string>> {
    var changed := SortedElems(ChangedPathSet(c));
    if |changed| == 0 then None
    else if HasProtoPath(changed) then Some(changed)
    else None
  }

  /** The transaction of each commit hash. */
  ghost function TxOfCommit(commitOf: string -> GitCommit): string -> Option<seq<string>> {
    h => TxOf(commitOf(h))
  }

  /** A commit yields a transaction exactly when one of its changed paths
      ends `.proto`, case-sensitively; that transaction is the sorted list of
      its changed paths. */
  lemma TxOfIff(c: GitCommit)
    ensures TxOf(c).Some? <==> exists f :: f in ChangedPathSet(c) && EndsWith(f, ".proto")
    ensures TxOf(c).Some? ==> Elems(TxOf(c).value) == ChangedPathSet(c) && StrictlySorted(TxOf(c).value)
  {
    var changed := SortedElems(ChangedPathSet(c));
    assert forall f :: f in changed <==> f in Elems(changed);
  }

  /** `collect_transactions`: the transactions of the commits, in commit
      order. */
  method CollectTransactions(hashes: seq<string>, commitOf: string -> GitCommit) returns (txs: seq<seq<string>>)
    ensures txs == FilterMap(hashes, TxOfCommit(commitOf))
  {
    txs := [];
    for i := 0 to |hashes|
      invariant txs == FilterMap(hashes[..i], TxOfCommit(commitOf))
    {
      var changed := ChangedFilesInCommit(commitOf(hashes[i]));
      FilterMapSnoc(hashes, i, TxOfCommit(commitOf));
      assert TxOfCommit(commitOf)(hashes[i]) == TxOf(commitOf(hashes[i]));
      if |changed| == 0 {
        continue;
      }
      if exists f | f in changed :: EndsWith(f, ".proto") {
        txs := txs + [changed];
      }
    }
    assert hashes[..|hashes|] == hashes;
  }

  /** Every transaction is a non-empty, strictly sorted list holding a
      `.proto` path, there are no more transactions than commits, and they
      come in the order of the commits that yield them. */
  lemma TransactionsShape(hashes: seq<string>, commitOf: string -> GitCommit)
    ensures var txs := FilterMap(hashes, TxOfCommit(commitOf));
      && |txs| <= |hashes|
      && (forall t :: t in txs ==> |t| > 0 && StrictlySorted(t) && HasProtoPath(t))
      && |txs| == |Filter(hashes, Defined(TxOfCommit(commitOf)))|
      && forall i :: 0 <= i < |txs| ==> txs[i] == TxOf(commitOf(Filter(hashes, Defined(TxOfCommit(commitOf)))[i])).value
  {
    FilterMapAsFilter(hashes, TxOfCommit(commitOf));
  }

  /** What `collect_transactions` raises, if anything. */
  datatype Raised = NothingRaised | GitCommandError | OtherException

  /** How `collect_for_repo` ends: it returns its records, or an exception
      it does not catch leaves it. */
  datatype RepoOutcome = Returned(rows: seq<TxRecord>) | Propagated

  /** `collect_for_repo`: nothing when the clone is missing (`present`
      false) or git raises a `GitCommandError`; any other exception, such as
      `InvalidGitRepositoryError` from `Repo(repo_path)` on a directory that
      is not a repository, propagates. Otherwise one record per transaction,
      in order, named after the URL's last segment (`UrlBaseName`). */
  method CollectForRepo(url: string, present: bool, raised: Raised, hashes: seq<string>, commitOf: string -> GitCommit)
    returns (out: RepoOutcome)
    ensures !present ==> out == Returned([])
    ensures present && raised == GitCommandError ==> out == Returned([])
    ensures present && raised == OtherException ==> out == Propagated
    ensures present && raised == NothingRaised ==>
      var txs := FilterMap(hashes, TxOfCommit(commitOf));
      && out.Returned? && |out.rows| == |txs|
      && forall i :: 0 <= i < |out.rows| ==> out.rows[i].repo == UrlBaseName(url) && out.rows[i].transaction == txs[i]
  {
    var repoName := UrlBaseName(url);
    if !present {
      return Returned([]);
    }
    match raised {
      case GitCommandError =>
        return Returned([]);
      case OtherException =>
        return Propagated;
      case NothingRaised =>
        var txList := CollectTransactions(hashes, commitOf);
        var rows := Records(repoName, txList);
        return Returned(rows);
    }
  }

  /** The record comprehension that ends `collect_for_repo`. */
  function Records(repo: string, txs: seq<seq<string>>): (rows: seq<TxRecord>)
    ensures |rows| == |txs|
    ensures forall i :: 0 <= i < |rows| ==> rows[i].repo == repo && rows[i].transaction == txs[i]
  {
    seq(|txs|, i requires 0 <= i < |txs| => TxRecord(repo, txs[i]))
  }
}
