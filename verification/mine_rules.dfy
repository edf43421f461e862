/** The standalone association-rule miner of mine_association_rules.py: one
    streaming pass counts transactions, files and (proto, other file) pairs;
    a second pass turns each pair into a rule with support, confidence and
    lift, keeps those above three thresholds, and ranks them. Ratios are
    exact rationals. */
module MineRules {
  import opened Options
  import opened Strings
  import opened Lists
  import opened Counters
  import opened Sorting
  import ComputePairs

  /** `is_proto`: a case-sensitive `.proto` ending. */
  predicate IsProto(path: string) {
    EndsWith(path, ".proto")
  }

  /** `MIN_SUPPORT`, `MIN_CONFIDENCE` and `MIN_LIFT`. */
  const MinSupport: real := 0.005
  const MinConfidence: real := 0.3
  const MinLift: real := 1.0

  type PairKey = (string, string)

  /** One line of `proto_file_cochanges.csv`. */
  datatype Rule = Rule(
    proto: string,
    file: string,
    support: real,
    confidence: real,
    lift: real,
    countProtoAndFile: nat,
    countProto: nat,
    countFile: nat)

  // ---------------------------------------------------------------------------
  // The counting pass
  // ---------------------------------------------------------------------------

  /** `list(set(tx))`: the files of a transaction, each once. */
  function TxFiles(tx: seq<string>): set<string> {
    Elems(tx)
  }

  function ProtosOf(files: set<string>): set<string> {
    set f | f in files && IsProto(f)
  }

  function OthersOf(files: set<string>): set<string> {
    set f | f in files && !IsProto(f)
  }

  /** The pairs a transaction adds to `co_count`. */
  function TxPairs(tx: seq<string>): (r: set<PairKey>)
    ensures forall p, o :: (p, o) in r <==> p in tx && o in tx && IsProto(p) && !IsProto(o)
  {
    Pairs(ProtosOf(TxFiles(tx)), OthersOf(TxFiles(tx)))
  }

  /** The file set of each transaction, in order. */
  function FileSets(txs: seq<seq<string>>): (r: seq<set<string>>)
    ensures |r| == |txs|
    ensures forall i :: 0 <= i < |txs| ==> r[i] == TxFiles(txs[i])
  {
    seq(|txs|, i requires 0 <= i < |txs| => TxFiles(txs[i]))
  }

  /** The pair set of each transaction, in order. */
  function PairSets(txs: seq<seq<string>>): (r: seq<set<PairKey>>)
    ensures |r| == |txs|
    ensures forall i :: 0 <= i < |txs| ==> r[i] == TxPairs(txs[i])
  {
    seq(|txs|, i requires 0 <= i < |txs| => TxPairs(txs[i]))
  }

  /** Lines 20-46 of `main`: `total_tx` counts transactions, `count_file`
      counts the transactions each file occurs in, `co_count` the
      transactions each (proto, other) pair occurs in. */
  method CountTransactions(txs: seq<seq<string>>)
    returns (totalTx: nat, countFile: map<string, nat>, coCount: map<PairKey, nat>)
    ensures totalTx == |txs|
    ensures Tallies(countFile, FileSets(txs))
    ensures Tallies(coCount, PairSets(txs))
  {
    ghost var fileSets, pairSets := FileSets(txs), PairSets(txs);
    totalTx, countFile, coCount := 0, map[], map[];
    TalliesEmpty(fileSets);
    TalliesEmpty(pairSets);
    for i := 0 to |txs|
      invariant totalTx == i
      invariant Tallies(countFile, fileSets[..i])
      invariant Tallies(coCount, pairSets[..i])
    {
      var files := TxFiles(txs[i]);
      totalTx := totalTx + 1;
      CountedStep(fileSets, i, countFile);
      countFile := ComputePairs.CountEach(countFile, files);
      var protos, others := ProtosOf(files), OthersOf(files);
      CountedStep(pairSets, i, coCount);
      coCount := ComputePairs.CountEach(coCount, Pairs(protos, others));
    }
    assert fileSets[..|txs|] == fileSets && pairSets[..|txs|] == pairSets;
  }

  /** Every counted pair is a proto file with a file that is not one. */
  lemma PairKeysShape(txs: seq<seq<string>>, coCount: map<PairKey, nat>, k: PairKey)
    requires Tallies(coCount, PairSets(txs))
    requires k in coCount
    ensures IsProto(k.0) && !IsProto(k.1)
  {
    UnionMember(PairSets(txs), k);
  }

  /** A pair occurs no more often than either of its files, and no file
      more often than there are transactions. */
  lemma CoCountWithin(txs: seq<seq<string>>, countFile: map<string, nat>, coCount: map<PairKey, nat>, p: string, o: string)
    requires Tallies(countFile, FileSets(txs))
    requires Tallies(coCount, PairSets(txs))
    ensures Get(coCount, (p, o)) <= Get(countFile, p) <= |txs|
    ensures Get(coCount, (p, o)) <= Get(countFile, o) <= |txs|
  {
    OccurrencesImply(PairSets(txs), FileSets(txs), (p, o), p);
    OccurrencesImply(PairSets(txs), FileSets(txs), (p, o), o);
  }

  /** So the zero guard of lines 60-62 never drops a counted pair. */
  lemma CountedPairHasCountedFiles(txs: seq<seq<string>>, countFile: map<string, nat>, coCount: map<PairKey, nat>, k: PairKey)
    requires Tallies(countFile, FileSets(txs))
    requires Tallies(coCount, PairSets(txs))
    requires k in coCount
    ensures 0 < coCount[k] <= Get(countFile, k.0) && coCount[k] <= Get(countFile, k.1)
    ensures 0 < coCount[k] <= |txs|
  {
    OccurrencesPositive(PairSets(txs), k);
    assert coCount[k] == Get(coCount, k);
    CoCountWithin(txs, countFile, coCount, k.0, k.1);
  }

  // ---------------------------------------------------------------------------
  // Metrics and thresholds
  // ---------------------------------------------------------------------------

  predicate Passes(support: real, confidence: real, lift: real) {
    support >= MinSupport && confidence >= MinConfidence && lift >= MinLift
  }

  /** `(a / t) / (b / t) == a / b` and `(a / b) / (c / t) == a * t / (b * c)`. */
  lemma QuotientFacts(a: real, b: real, c: real, t: real)
    requires b > 0.0 && c > 0.0 && t > 0.0
    ensures (a / t) / (b / t) == a / b
    ensures (a / b) / (c / t) == (a * t) / (b * c)
  {
    assert (a / t) / (b / t) * b == a by {
      assert (a / t) / (b / t) * (b / t) == a / t;
    }
    var q := (a / b) / (c / t);
    assert q * (c / t) == a / b;
    assert q * c * b == a * t by {
      assert q * (c / t) * t * b == (a / b) * t * b;
    }
  }

  /** Lines 55-84 for one pair: the three ratios computed as the source
      does, the zero guard and the threshold filter. Confidence and lift
      have the closed forms `n_co / n_p` and `n_co * total / (n_p * n_f)`. */
  function RuleOf(p: string, f: string, nCo: nat, nP: nat, nF: nat, total: nat): (r: Option<Rule>)
    requires total > 0
    ensures r.Some? <==>
      nP > 0 && nF > 0 &&
      Passes(nCo as real / total as real, nCo as real / nP as real, (nCo * total) as real / (nP * nF) as real)
    ensures r.Some? ==> r.value == Rule(p, f, nCo as real / total as real, nCo as real / nP as real,
                                        (nCo * total) as real / (nP * nF) as real, nCo, nP, nF)
  {
    var suppPf := nCo as real / total as real;
    var suppP := nP as real / total as real;
    var suppF := nF as real / total as real;
    if suppP == 0.0 || suppF == 0.0 then None
    else
      var conf := suppPf / suppP;
      var lift := conf / suppF;
      QuotientFacts(nCo as real, nP as real, nF as real, total as real);
      assert nCo as real / nP as real / (nF as real / total as real) == (nCo * total) as real / (nP * nF) as real;
      if suppPf < MinSupport then None
      else if conf < MinConfidence then None
      else if lift < MinLift then None
      else Some(Rule(p, f, suppPf, conf, lift, nCo, nP, nF))
  }

  /** Confidence and support never exceed 1 when the pair occurs no more
      often than its proto file, and that file in no more transactions than
      there are. */
  lemma RuleOfBounds(p: string, f: string, nCo: nat, nP: nat, nF: nat, total: nat)
    requires 0 < nCo <= nP <= total && nCo <= nF
    ensures RuleOf(p, f, nCo, nP, nF, total).Some? ==>
      var r := RuleOf(p, f, nCo, nP, nF, total).value;
      && MinSupport <= r.support <= 1.0
      && MinConfidence <= r.confidence <= 1.0
      && r.lift >= MinLift
      && r.countProtoAndFile <= r.countProto && r.countProtoAndFile <= r.countFile
  {
    QuotientAtMostOne(nCo, total);
    QuotientAtMostOne(nCo, nP);
  }

  lemma QuotientAtMostOne(a: nat, b: nat)
    requires 0 < b && a <= b
    ensures a as real / b as real <= 1.0
  {
    assert (a as real / b as real) * b as real == a as real;
  }

  /** The rule of each pair, or `None` for a pair that is not counted or
      does not pass. */
  function RulesOf(totalTx: nat, countFile: map<string, nat>, coCount: map<PairKey, nat>): PairKey -> Option<Rule> {
    k => if totalTx > 0 && k in coCount then RuleOf(k.0, k.1, coCount[k], Get(countFile, k.0), Get(countFile, k.1), totalTx) else None
  }

  /** The rules of `keys` that pass. */
  function Kept(keys: set<PairKey>, ruleOf: PairKey -> Option<Rule>): set<Rule> {
    set k | k in keys && ruleOf(k).Some? :: ruleOf(k).value
  }

  /** The rules that pass, one per counted pair. */
  function KeptRules(totalTx: nat, countFile: map<string, nat>, coCount: map<PairKey, nat>): set<Rule> {
    Kept(coCount.Keys, RulesOf(totalTx, countFile, coCount))
  }

  /** The rule of a pair names the pair. */
  predicate NamesPair(ruleOf: PairKey -> Option<Rule>, k: PairKey) {
    ruleOf(k).Some? ==> ruleOf(k).value.proto == k.0 && ruleOf(k).value.file == k.1
  }

  lemma RulesOfNamePairs(totalTx: nat, countFile: map<string, nat>, coCount: map<PairKey, nat>)
    ensures forall k :: NamesPair(RulesOf(totalTx, countFile, coCount), k)
  {
  }

  /** A kept rule of a counted pair lies in the ranges the thresholds and the
      counts allow: support in [0.005, 1], confidence in [0.3, 1], lift at
      least 1. */
  lemma KeptRuleBounds(txs: seq<seq<string>>, countFile: map<string, nat>, coCount: map<PairKey, nat>, r: Rule)
    requires Tallies(countFile, FileSets(txs))
    requires Tallies(coCount, PairSets(txs))
    requires r in KeptRules(|txs|, countFile, coCount)
    ensures MinSupport <= r.support <= 1.0
    ensures MinConfidence <= r.confidence <= 1.0
    ensures r.lift >= MinLift
    ensures r.countProtoAndFile <= r.countProto && r.countProtoAndFile <= r.countFile
  {
    var ruleOf := RulesOf(|txs|, countFile, coCount);
    var k :| k in coCount && ruleOf(k).Some? && ruleOf(k).value == r;
    CountedPairHasCountedFiles(txs, countFile, coCount, k);
    RuleOfBounds(k.0, k.1, coCount[k], Get(countFile, k.0), Get(countFile, k.1), |txs|);
  }

  /** Lines 53-84: one rule per counted pair that passes, each once. The
      pairs are visited in an arbitrary order, as a dictionary's items are. */
  method BuildRules(totalTx: nat, countFile: map<string, nat>, coCount: map<PairKey, nat>)
    returns (rows: seq<Rule>)
    ensures Elems(rows) == KeptRules(totalTx, countFile, coCount)
    ensures NoDuplicates(rows)
  {
    RulesOfNamePairs(totalTx, countFile, coCount);
    rows := CollectRules(coCount.Keys, RulesOf(totalTx, countFile, coCount));
  }

  lemma KeptStep(done: set<PairKey>, k: PairKey, ruleOf: PairKey -> Option<Rule>)
    ensures Kept(done + {k}, ruleOf) == Kept(done, ruleOf) + (if ruleOf(k).Some? then {ruleOf(k).value} else {})
  {
  }

  /** The loop over the pairs, for any rule of each pair. */
  method CollectRules(keys: set<PairKey>, ruleOf: PairKey -> Option<Rule>) returns (rows: seq<Rule>)
    requires forall k :: NamesPair(ruleOf, k)
    ensures Elems(rows) == Kept(keys, ruleOf)
    ensures NoDuplicates(rows)
  {
    rows := [];
    var remaining := keys;
    ghost var done: set<PairKey> := {};
    while remaining != {}
      invariant done + remaining == keys && done !! remaining
      invariant Elems(rows) == Kept(done, ruleOf)
      invariant forall j :: 0 <= j < |rows| ==> (rows[j].proto, rows[j].file) in done
      invariant NoDuplicates(rows)
      decreases remaining
    {
      var k :| k in remaining;
      var r := ruleOf(k);
      assert NamesPair(ruleOf, k);
      KeptStep(done, k, ruleOf);
      if r.Some? {
        rows := rows + [r.value];
      }
      done, remaining := done + {k}, remaining - {k};
    }
  }

  // ---------------------------------------------------------------------------
  // Ranking
  // ---------------------------------------------------------------------------

  /** `sort_values(by=["lift", "confidence", "support"], ascending=False)`:
      `a` may come before `b`. */
  predicate RankLe(a: Rule, b: Rule) {
    || a.lift > b.lift
    || (a.lift == b.lift && a.confidence > b.confidence)
    || (a.lift == b.lift && a.confidence == b.confidence && a.support >= b.support)
  }

  lemma RankLeIsTotalPreorder()
    ensures TotalPreorder(RankLe)
  {
  }

  /** `main`: count, build the rules, and rank them; nothing is written when
      no rule passes. The counters are returned for the three summary
      lines. */
  method MineAssociationRules(txs: seq<seq<string>>)
    returns (totalTx: nat, countFile: map<string, nat>, coCount: map<PairKey, nat>, out: Option<seq<Rule>>)
    ensures totalTx == |txs|
    ensures Tallies(countFile, FileSets(txs))
    ensures Tallies(coCount, PairSets(txs))
    ensures out.None? <==> KeptRules(totalTx, countFile, coCount) == {}
    ensures out.Some? ==>
      && Elems(out.value) == KeptRules(totalTx, countFile, coCount)
      && NoDuplicates(out.value)
      && SortedBy(out.value, RankLe)
  {
    totalTx, countFile, coCount := CountTransactions(txs);
    var rows := BuildRules(totalTx, countFile, coCount);
    if |rows| == 0 {
      return totalTx, countFile, coCount, None;
    }
    assert rows[0] in Elems(rows);
    RankLeIsTotalPreorder();
    var ranked := SortBy(rows, RankLe);
    SameElements(rows, ranked);
    out := Some(ranked);
  }
}
