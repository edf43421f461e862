/** `extract_events_for_repo` of src/experiments/rq0/extract_events.py: one
    event row per proto-touching commit, written in commit order. The JSONL
    file is the returned sequence of rows. */
module ExtractEvents {
  import opened Options
  import opened Strings
  import opened Lists
  import opened Categorization
  import opened ComputePairs

  /** `{"path": p, "cat": categorize(p)}`. */
  datatype CochangeEntry = CochangeEntry(path: string, cat: Category)

  /** One line of `events/<repo>.jsonl`. */
  datatype EventRow = EventRow(repo: string, commit: string, protobufFiles: seq<string>, cochangeFiles: seq<CochangeEntry>)

  /** The skip test of this stage: prefixes and suffixes only, no filename
      patterns. */
  function EventRules(prefixes: seq<string>, suffixes: seq<string>): SkipRules {
    SkipRules(prefixes, suffixes, [])
  }

  predicate IsProtoPath(p: string) {
    HasProtoSuffixIgnoringCase(p)
  }

  predicate NotProtoPath(p: string) {
    !HasProtoSuffixIgnoringCase(p)
  }

  /** `cochange_objs`: each co-changed path with its category, less those
      of the `proto` category, in order. */
  function CochangeObjs(files: seq<string>): (r: seq<CochangeEntry>)
    ensures |r| <= |files|
    ensures forall j :: 0 <= j < |r| ==> r[j].cat == Categorize(r[j].path) && r[j].cat != Proto && r[j].path in files
  {
    if |files| == 0 then []
    else
      var rest := CochangeObjs(files[1..]);
      if Categorize(files[0]) != Proto then [CochangeEntry(files[0], Categorize(files[0]))] + rest else rest
  }

  function PathsOf(entries: seq<CochangeEntry>): seq<string> {
    if |entries| == 0 then [] else [entries[0].path] + PathsOf(entries[1..])
  }

  predicate NotProtoCategory(p: string) {
    Categorize(p) != Proto
  }

  /** The row of commit `c` given its kept paths: none when no kept path
      ends in `.proto`, ignoring case. */
  function RowFromFiles(repo: string, c: string, files: seq<string>): Option<EventRow> {
    var protobufFiles := Filter(files, IsProtoPath);
    if |protobufFiles| == 0 then None
    else Some(EventRow(repo, c, protobufFiles, CochangeObjs(Filter(files, NotProtoPath))))
  }

  /** The body of the loop for one commit. */
  function EventRowOf(repo: string, c: string, changed: string -> seq<string>, rules: SkipRules): Option<EventRow> {
    RowFromFiles(repo, c, FilteredChangedFiles(changed, c, rules))
  }

  /** The body of the loop as a function of the commit. */
  function RowOfCommit(repo: string, changed: string -> seq<string>, rules: SkipRules): string -> Option<EventRow> {
    c => EventRowOf(repo, c, changed, rules)
  }

  /** The rows written for a list of commits, in order, given the row (or
      none) of each commit. */
  function Events(commits: seq<string>, rowOf: string -> Option<EventRow>): seq<EventRow> {
    if |commits| == 0 then []
    else
      var n := |commits| - 1;
      Events(commits[..n], rowOf) + (match rowOf(commits[n]) case Some(row) => [row] case None => [])
  }

  /** `extract_events_for_repo`, with the written lines as `rows` and the
      returned `total_proto_tx_any` as `nWritten`. */
  method ExtractEventsForRepo(repo: string, protoCommits: seq<string>, changed: string -> seq<string>,
                              prefixes: seq<string>, suffixes: seq<string>)
    returns (rows: seq<EventRow>, nWritten: nat)
    ensures rows == Events(protoCommits, RowOfCommit(repo, changed, EventRules(prefixes, suffixes)))
    ensures nWritten == |rows|
  {
    var rules := EventRules(prefixes, suffixes);
    rows := [];
    nWritten := 0;
    var i := 0;
    while i < |protoCommits|
      invariant 0 <= i <= |protoCommits|
      invariant rows == Events(protoCommits[..i], RowOfCommit(repo, changed, rules))
      invariant nWritten == |rows|
    {
      assert protoCommits[..i + 1][..i] == protoCommits[..i];
      var c := protoCommits[i];
      var row := EventRowOf(repo, c, changed, rules);
      if row.Some? {
        rows := rows + [row.value];
        nWritten := nWritten + 1;
      }
      i := i + 1;
    }
    assert protoCommits[..i] == protoCommits;
  }

  // ---------------------------------------------------------------------------
  // What the rows say
  // ---------------------------------------------------------------------------

  /** This stage never applies filename patterns: a path is dropped exactly
      when its lower-cased form starts with a prefix or ends with a suffix. */
  lemma EventRulesUseNoPatterns(p: string, prefixes: seq<string>, suffixes: seq<string>)
    ensures ShouldSkip(p, EventRules(prefixes, suffixes)) <==>
      AnyPrefix(Lower(p), prefixes) || AnySuffix(Lower(p), suffixes)
  {
  }

  /** A commit gets a row exactly when one of its kept paths ends in
      `.proto`, ignoring case. */
  lemma RowIffProto(repo: string, c: string, changed: string -> seq<string>, rules: SkipRules)
    ensures EventRowOf(repo, c, changed, rules).Some? <==>
      exists p :: p in changed(c) && !ShouldSkip(p, rules) && HasProtoSuffixIgnoringCase(p)
  {
    var files := FilteredChangedFiles(changed, c, rules);
    var protobufFiles := Filter(files, IsProtoPath);
    if |protobufFiles| > 0 {
      assert protobufFiles[0] in protobufFiles;
    }
  }

  lemma {:induction false} CochangeObjsPaths(files: seq<string>)
    ensures PathsOf(CochangeObjs(files)) == Filter(files, NotProtoCategory)
  {
    if |files| > 0 {
      CochangeObjsPaths(files[1..]);
    }
  }

  /** The proto paths of a row: the kept paths ending in `.proto`, in order
      and with their duplicates; together with the other kept paths they
      make up all kept paths. */
  lemma {:induction false} RowProtoFiles(repo: string, c: string, files: seq<string>)
    requires RowFromFiles(repo, c, files).Some?
    ensures var row := RowFromFiles(repo, c, files).value;
      && row.repo == repo && row.commit == c
      && row.protobufFiles == Filter(files, IsProtoPath) && |row.protobufFiles| > 0
      && (forall p :: HasProtoSuffixIgnoringCase(p) ==> multiset(row.protobufFiles)[p] == multiset(files)[p])
      && multiset(row.protobufFiles) + multiset(Filter(files, NotProtoPath)) == multiset(files)
  {
    FilterPartition(files, IsProtoPath, NotProtoPath);
    FilterCounts(files, IsProtoPath);
  }

  /** The co-change entries of a row: each other kept path that is not of
      the `proto` category, in order, with its category. */
  lemma {:induction false} RowCochangeFiles(repo: string, c: string, files: seq<string>)
    requires RowFromFiles(repo, c, files).Some?
    ensures var row := RowFromFiles(repo, c, files).value;
      && PathsOf(row.cochangeFiles) == Filter(Filter(files, NotProtoPath), NotProtoCategory)
      && (forall j :: 0 <= j < |row.cochangeFiles| ==>
            var e := row.cochangeFiles[j];
            e.cat == Categorize(e.path) && e.cat != Proto && !HasProtoSuffixIgnoringCase(e.path) && e.path in files)
  {
    CochangeObjsPaths(Filter(files, NotProtoPath));
  }

  /** The commits that get a row. */
  function Emits(rowOf: string -> Option<EventRow>): string -> bool {
    c => rowOf(c).Some?
  }

  function CommitsOf(rows: seq<EventRow>): seq<string> {
    if |rows| == 0 then [] else CommitsOf(rows[..|rows| - 1]) + [rows[|rows| - 1].commit]
  }

  lemma {:induction false} CommitsOfLength(rows: seq<EventRow>)
    ensures |CommitsOf(rows)| == |rows|
  {
    if |rows| > 0 {
      CommitsOfLength(rows[..|rows| - 1]);
    }
  }

  /** The last step of `Events`. */
  lemma EventsSnoc(commits: seq<string>, c: string, rowOf: string -> Option<EventRow>)
    ensures Events(commits + [c], rowOf) == Events(commits, rowOf)
      + (match rowOf(c) case Some(row) => [row] case None => [])
  {
    assert (commits + [c])[..|commits|] == commits;
  }

  /** The rows follow commit order: their commits are exactly the commits
      that get a row, in order. */
  lemma {:induction false} EventsFollowCommits(commits: seq<string>, rowOf: string -> Option<EventRow>)
    requires forall c :: rowOf(c).Some? ==> rowOf(c).value.commit == c
    ensures CommitsOf(Events(commits, rowOf)) == Filter(commits, Emits(rowOf))
  {
    if |commits| > 0 {
      var n := |commits| - 1;
      var init, c := commits[..n], commits[n];
      var rows, before := Events(commits, rowOf), Events(init, rowOf);
      EventsFollowCommits(init, rowOf);
      assert commits == init + [c];
      FilterSnoc(init, c, Emits(rowOf));
      EventsSnoc(init, c, rowOf);
      if rowOf(c).Some? {
        assert rows == before + [rowOf(c).value];
        assert rows[..|rows| - 1] == before;
        assert CommitsOf(rows) == CommitsOf(before) + [c];
        assert Filter(commits, Emits(rowOf)) == Filter(init, Emits(rowOf)) + [c];
      } else {
        assert rows == before;
        assert Filter(commits, Emits(rowOf)) == Filter(init, Emits(rowOf));
      }
    }
  }

  /** At most one row per proto commit. */
  lemma EventsAtMostCommits(commits: seq<string>, rowOf: string -> Option<EventRow>)
    requires forall c :: rowOf(c).Some? ==> rowOf(c).value.commit == c
    ensures |Events(commits, rowOf)| <= |commits|
  {
    EventsFollowCommits(commits, rowOf);
    CommitsOfLength(Events(commits, rowOf));
  }

  /** Each row is the row its commit gets. */
  lemma {:induction false} EventsAreRowsOf(commits: seq<string>, rowOf: string -> Option<EventRow>)
    requires forall c :: rowOf(c).Some? ==> rowOf(c).value.commit == c
    ensures forall j :: 0 <= j < |Events(commits, rowOf)| ==>
      var row := Events(commits, rowOf)[j];
      rowOf(row.commit) == Some(row)
  {
    if |commits| > 0 {
      var n := |commits| - 1;
      var init := commits[..n];
      EventsAreRowsOf(init, rowOf);
      assert commits == init + [commits[n]];
      EventsSnoc(init, commits[n], rowOf);
    }
  }

  /** The row of a commit is about that commit. */
  lemma RowOfCommitNamesCommit(repo: string, changed: string -> seq<string>, rules: SkipRules)
    ensures forall c :: RowOfCommit(repo, changed, rules)(c).Some? ==> RowOfCommit(repo, changed, rules)(c).value.commit == c
  {
  }
}
