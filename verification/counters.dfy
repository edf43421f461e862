/** `collections.Counter` as a finite map to naturals: a missing key reads as
    0, `update(keys)` adds one to each key of a set, and `update(other)` adds
    another counter pointwise. `Occurrences` and `Union` say what a counter
    holds after a streaming pass that updates it with one set per step. */
module Counters {
  import opened Lists

  /** `counter[k]`, which is 0 for a key never counted. */
  function Get<K>(m: map<K, nat>, k: K): nat {
    if k in m then m[k] else 0
  }

  /** `counter.update(keys)` for a set of keys: each key gains exactly one. */
  function Bump<K(!new)>(m: map<K, nat>, keys: set<K>): (r: map<K, nat>)
    ensures r.Keys == m.Keys + keys
    ensures forall k :: Get(r, k) == Get(m, k) + (if k in keys then 1 else 0)
  {
    map k | k in m.Keys + keys :: Get(m, k) + (if k in keys then 1 else 0)
  }

  /** `counter.update(other)` for another counter: counts add up. */
  function Add<K(!new)>(a: map<K, nat>, b: map<K, nat>): (r: map<K, nat>)
    ensures r.Keys == a.Keys + b.Keys
    ensures forall k :: Get(r, k) == Get(a, k) + Get(b, k)
  {
    map k | k in a.Keys + b.Keys :: Get(a, k) + Get(b, k)
  }

  /** The number of steps of a pass whose set contains `k`. */
  function Occurrences<K>(sets: seq<set<K>>, k: K): (n: nat)
    ensures n <= |sets|
  {
    if |sets| == 0 then 0
    else Occurrences(sets[..|sets| - 1], k) + (if k in sets[|sets| - 1] then 1 else 0)
  }

  /** Every key met during a pass. */
  function Union<K>(sets: seq<set<K>>): set<K> {
    if |sets| == 0 then {} else Union(sets[..|sets| - 1]) + sets[|sets| - 1]
  }

  /** All pairs with a first component from `xs` and a second from `ys`, as
      produced by two nested `for` loops. */
  function Pairs<A(!new), B(!new)>(xs: set<A>, ys: set<B>): (r: set<(A, B)>)
    ensures forall a, b :: (a, b) in r <==> a in xs && b in ys
  {
    set a, b | a in xs && b in ys :: (a, b)
  }

  /** One more step of a pass: what the loop bodies rely on. */
  lemma OccurrencesStep<K>(sets: seq<set<K>>, i: nat)
    requires i < |sets|
    ensures forall k :: Occurrences(sets[..i + 1], k) == Occurrences(sets[..i], k) + (if k in sets[i] then 1 else 0)
    ensures Union(sets[..i + 1]) == Union(sets[..i]) + sets[i]
  {
    assert sets[..i + 1][..i] == sets[..i];
  }

  /** The union of the first `i + 1` sets. */
  lemma UnionStep<K>(sets: seq<set<K>>, i: nat)
    requires i < |sets|
    ensures Union(sets[..i + 1]) == Union(sets[..i]) + sets[i]
  {
    assert sets[..i + 1][..i] == sets[..i];
  }

  /** Counting one more key of a set, one key at a time. */
  lemma BumpOneMore<K(!new)>(m: map<K, nat>, done: set<K>, k: K)
    requires k !in done
    ensures Bump(m, done)[k := Get(Bump(m, done), k) + 1] == Bump(m, done + {k})
  {
    var a, b := Bump(m, done)[k := Get(Bump(m, done), k) + 1], Bump(m, done + {k});
    assert forall x :: x in a <==> x in b;
    assert forall x :: x in a ==> a[x] == Get(a, x) && b[x] == Get(b, x);
  }

  /** `m` is the counter a streaming pass over `sets` leaves: it holds
      exactly the keys met, each with the number of steps that met it. */
  ghost predicate Tallies<K(!new)>(m: map<K, nat>, sets: seq<set<K>>) {
    && m.Keys == Union(sets)
    && forall k :: Get(m, k) == Occurrences(sets, k)
  }

  /** What a loop over a pass keeps: bumping the counter of the first `i`
      steps by the keys of step `i` gives the counter of the first `i + 1`. */
  lemma CountedStep<K(!new)>(sets: seq<set<K>>, i: nat, m: map<K, nat>)
    requires i < |sets|
    requires Tallies(m, sets[..i])
    ensures Tallies(Bump(m, sets[i]), sets[..i + 1])
  {
    OccurrencesStep(sets, i);
  }

  /** A step that meets nothing leaves the counter as it was. */
  lemma EmptyStep<K(!new)>(sets: seq<set<K>>, i: nat, m: map<K, nat>)
    requires i < |sets| && sets[i] == {}
    requires Tallies(m, sets[..i])
    ensures Tallies(m, sets[..i + 1])
  {
    OccurrencesStep(sets, i);
  }

  /** The counter of a pass that never started. */
  lemma BumpNothing<K(!new)>(m: map<K, nat>)
    ensures Bump(m, {}) == m
  {
    assert forall x :: x in m ==> m[x] == Get(m, x);
  }

  lemma TalliesEmpty<K(!new)>(sets: seq<set<K>>)
    ensures Tallies(map[], sets[..0])
  {
    assert sets[..0] == [];
  }

  /** A key is counted at least once exactly when it was met. */
  lemma {:induction false} OccurrencesPositive<K>(sets: seq<set<K>>, k: K)
    ensures Occurrences(sets, k) > 0 <==> k in Union(sets)
  {
    if |sets| > 0 {
      OccurrencesPositive(sets[..|sets| - 1], k);
    }
  }

  lemma {:induction false} UnionMember<K>(sets: seq<set<K>>, k: K)
    ensures k in Union(sets) <==> exists i :: 0 <= i < |sets| && k in sets[i]
  {
    if |sets| > 0 {
      var init := sets[..|sets| - 1];
      UnionMember(init, k);
      if k in Union(init) {
        var i :| 0 <= i < |init| && k in init[i];
        assert k in sets[i];
      }
      if exists i :: 0 <= i < |sets| && k in sets[i] {
        var i :| 0 <= i < |sets| && k in sets[i];
        if i < |sets| - 1 {
          assert k in init[i];
        }
      }
    }
  }

  /** If meeting `x` at a step always means meeting `y` at that step, `x` is
      counted no more often than `y`. */
  lemma {:induction false} OccurrencesImply<A, B>(a: seq<set<A>>, b: seq<set<B>>, x: A, y: B)
    requires |a| == |b|
    requires forall i :: 0 <= i < |a| && x in a[i] ==> y in b[i]
    ensures Occurrences(a, x) <= Occurrences(b, y)
  {
    if |a| > 0 {
      var n := |a| - 1;
      assert forall i :: 0 <= i < n && x in a[..n][i] ==> y in b[..n][i] by {
        forall i | 0 <= i < n && x in a[..n][i] ensures y in b[..n][i] {
          assert a[..n][i] == a[i] && b[..n][i] == b[i];
        }
      }
      OccurrencesImply(a[..n], b[..n], x, y);
    }
  }

  /** A key absent from every step is never counted. */
  lemma {:induction false} OccurrencesAbsent<K>(sets: seq<set<K>>, k: K)
    requires forall i :: 0 <= i < |sets| ==> k !in sets[i]
    ensures Occurrences(sets, k) == 0
    ensures k !in Union(sets)
  {
    UnionMember(sets, k);
    OccurrencesPositive(sets, k);
  }

  /** The commits of a pass whose step contains `k`. */
  function Hits<K>(sets: seq<set<K>>, commits: seq<string>, k: K): set<string>
    requires |sets| == |commits|
  {
    set i | 0 <= i < |sets| && k in sets[i] :: commits[i]
  }

  lemma HitsSnoc<K>(sets: seq<set<K>>, commits: seq<string>, k: K)
    requires |sets| == |commits| > 0
    ensures var n := |sets| - 1;
      Hits(sets, commits, k) == Hits(sets[..n], commits[..n], k) + (if k in sets[n] then {commits[n]} else {})
  {
    var n := |sets| - 1;
    var a, b := Hits(sets, commits, k), Hits(sets[..n], commits[..n], k) + (if k in sets[n] then {commits[n]} else {});
    forall c | c in a ensures c in b {
      var i :| 0 <= i < |sets| && k in sets[i] && commits[i] == c;
      if i < n {
        assert sets[..n][i] == sets[i] && commits[..n][i] == commits[i];
      }
    }
    forall c | c in b ensures c in a {
      if c in Hits(sets[..n], commits[..n], k) {
        var i :| 0 <= i < n && k in sets[..n][i] && commits[..n][i] == c;
        assert sets[i] == sets[..n][i];
      }
    }
  }

  lemma HitsWithin<K>(sets: seq<set<K>>, commits: seq<string>, k: K)
    requires |sets| == |commits|
    ensures Hits(sets, commits, k) <= Elems(commits)
  {
  }

  /** A pass meets `k` at least once per distinct commit that contains it,
      and exactly once per such commit when no commit comes twice. */
  lemma {:induction false} OccurrencesCountHits<K>(sets: seq<set<K>>, commits: seq<string>, k: K)
    requires |sets| == |commits|
    ensures |Hits(sets, commits, k)| <= Occurrences(sets, k)
    ensures NoDuplicates(commits) ==> |Hits(sets, commits, k)| == Occurrences(sets, k)
  {
    if |sets| > 0 {
      var n := |sets| - 1;
      OccurrencesCountHits(sets[..n], commits[..n], k);
      HitsSnoc(sets, commits, k);
      if NoDuplicates(commits) {
        assert NoDuplicates(commits[..n]);
        HitsWithin(sets[..n], commits[..n], k);
        assert commits[n] !in Elems(commits[..n]);
      }
    }
  }
}
