/** The second-generation transaction collector, src/collect_transactions.py
    (PyDriller): a commit's paths are every `new_path` and `old_path` of its
    modified files that is not `None`; a transaction is their sorted list,
    kept when one of them ends `.proto`. The traversal is given as the list
    of non-merge commits, each as its modified files. */
module PyDrillerCollect {
  import opened Options
  import opened Strings
  import opened PathSyntax
  import opened Lists
  import opened Sorting
  import GitCollect

  /** A `ModifiedFile`: each side is `None` when the file does not exist on
      it (an added or a deleted file). */
  datatype ModifiedFile = ModifiedFile(newPath: Option<string>, oldPath: Option<string>)

  /** `REPOS_DIR`. */
  const ReposDir: string := "/workspace/repos"

  /** The paths the inner loop collects, file by file. */
  function PathsOf(mfs: seq<ModifiedFile>): set<string> {
    if |mfs| == 0 then {}
    else
      var m := mfs[|mfs| - 1];
      PathsOf(mfs[..|mfs| - 1])
        + (if m.newPath.Some? then {m.newPath.value} else {})
        + (if m.oldPath.Some? then {m.oldPath.value} else {})
  }

  /** Both sides of every modified file are collected, renames included.
      Unlike the GitPython collector, the test is `is None`, so an empty
      path would be kept. */
  lemma {:induction false} PathsOfMember(mfs: seq<ModifiedFile>, p: string)
    ensures p in PathsOf(mfs) <==> exists m :: m in mfs && (m.newPath == Some(p) || m.oldPath == Some(p))
  {
    if |mfs| > 0 {
      var init, m := mfs[..|mfs| - 1], mfs[|mfs| - 1];
      PathsOfMember(init, p);
      assert mfs == init + [m];
      if exists e :: e in mfs && (e.newPath == Some(p) || e.oldPath == Some(p)) {
        var e :| e in mfs && (e.newPath == Some(p) || e.oldPath == Some(p));
        if e != m {
          assert e in init;
        }
      }
    }
  }

  /** Where the two collectors differ: an empty path on a side is kept here
      and dropped by the GitPython collector's truthiness test. */
  lemma EmptyPathKeptOnlyHere()
    ensures "" in PathsOf([ModifiedFile(Some(""), None)])
    ensures "" !in GitCollect.DiffPaths([GitCollect.DiffEntry(Some(""), None)])
  {
    var mfs := [ModifiedFile(Some(""), None)];
    assert mfs[..0] == [];
    var ds := [GitCollect.DiffEntry(Some(""), None)];
    assert ds[..0] == [];
  }

  predicate HasProtoIn(paths: set<string>) {
    exists p :: p in paths && EndsWith(p, ".proto")
  }

  /** Lines 59-71 for one commit: the path set and the `has_proto` flag. */
  method CommitPaths(mfs: seq<ModifiedFile>) returns (paths: set<string>, hasProto: bool)
    ensures paths == PathsOf(mfs)
    ensures hasProto <==> HasProtoIn(paths)
  {
    paths, hasProto := {}, false;
    for i := 0 to |mfs|
      invariant paths == PathsOf(mfs[..i])
      invariant hasProto <==> HasProtoIn(paths)
    {
      var mf := mfs[i];
      assert mfs[..i + 1][..i] == mfs[..i];
      if mf.newPath.Some? {
        var p := mf.newPath.value;
        paths := paths + {p};
        if EndsWith(p, ".proto") {
          hasProto := true;
        }
      }
      if mf.oldPath.Some? {
        var p := mf.oldPath.value;
        paths := paths + {p};
        if EndsWith(p, ".proto") {
          hasProto := true;
        }
      }
    }
    assert mfs[..|mfs|] == mfs;
  }

  /** The transaction of a commit, if it yields one. */
  ghost function TxOf(mfs: seq<ModifiedFile>): Option<seq<string>> {
    var paths := PathsOf(mfs);
    if HasProtoIn(paths) && paths != {} then Some(SortedElems(paths)) else None
  }

  /** A commit yields a transaction exactly when one of its paths ends
      `.proto`, case-sensitively; the transaction is the strictly sorted
      list of all its paths and holds that `.proto` path. */
  lemma TxOfIff(mfs: seq<ModifiedFile>)
    ensures TxOf(mfs).Some? <==> exists m, p :: m in mfs && (m.newPath == Some(p) || m.oldPath == Some(p)) && EndsWith(p, ".proto")
    ensures TxOf(mfs).Some? ==>
      var t := TxOf(mfs).value;
      && StrictlySorted(t) && NoDuplicates(t) && |t| > 0
      && Elems(t) == PathsOf(mfs)
      && GitCollect.HasProtoPath(t)
  {
    if exists m, p :: m in mfs && (m.newPath == Some(p) || m.oldPath == Some(p)) && EndsWith(p, ".proto") {
      var m, p :| m in mfs && (m.newPath == Some(p) || m.oldPath == Some(p)) && EndsWith(p, ".proto");
      PathsOfMember(mfs, p);
    }
    if HasProtoIn(PathsOf(mfs)) {
      var p :| p in PathsOf(mfs) && EndsWith(p, ".proto");
      PathsOfMember(mfs, p);
      var t := SortedElems(PathsOf(mfs));
      StrictlySortedDistinct(t);
      assert p in Elems(t);
    }
  }

  /** `collect_transactions`: the transactions of the traversed commits, in
      traversal order. */
  method CollectTransactions(commits: seq<seq<ModifiedFile>>) returns (txs: seq<seq<string>>)
    ensures txs == FilterMap(commits, TxOf)
  {
    txs := [];
    for i := 0 to |commits|
      invariant txs == FilterMap(commits[..i], TxOf)
    {
      var paths, hasProto := CommitPaths(commits[i]);
      FilterMapSnoc(commits, i, TxOf);
      if hasProto && paths != {} {
        var sorted := SortedSet(paths);
        txs := txs + [sorted];
      }
    }
    assert commits[..|commits|] == commits;
  }

  /** There are no more transactions than commits, and they come in the
      order of the commits that yield them. */
  lemma TransactionsFollowCommits(commits: seq<seq<ModifiedFile>>)
    ensures var txs := FilterMap(commits, TxOf);
      && |txs| <= |commits|
      && |txs| == |Filter(commits, Defined(TxOf))|
      && forall i :: 0 <= i < |txs| ==> txs[i] == TxOf(Filter(commits, Defined(TxOf))[i]).value
  {
    FilterMapAsFilter(commits, TxOf);
  }

  /** `ensure_full_repo(url).name`: the name of `REPOS_DIR / name`. */
  function RepoName(url: string): (r: string)
    ensures '/' !in r
  {
    Name(ReposDir + "/" + UrlBaseName(url))
  }

  /** For every URL whose last segment is a real path component, the name is
      that segment, as in the GitPython collector. */
  lemma RepoNameIsUrlBaseName(url: string)
    requires IsRealComponent(UrlBaseName(url))
    ensures RepoName(url) == UrlBaseName(url)
  {
    NameOfJoin(ReposDir, UrlBaseName(url));
  }

  /** `collect_for_repo`: nothing when no full clone could be made (`cloned`
      false) or collection raises (`failed`), otherwise one record per
      transaction, in order. */
  method CollectForRepo(url: string, cloned: bool, failed: bool, commits: seq<seq<ModifiedFile>>)
    returns (rows: seq<GitCollect.TxRecord>)
    ensures !cloned || failed ==> rows == []
    ensures cloned && !failed ==> rows == GitCollect.Records(RepoName(url), FilterMap(commits, TxOf))
  {
    if !cloned {
      return [];
    }
    var repoName := RepoName(url);
    if failed {
      return [];
    }
    var txList := CollectTransactions(commits);
    rows := GitCollect.Records(repoName, txList);
  }
}
