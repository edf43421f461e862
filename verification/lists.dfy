/** Python list comprehensions with a condition, `[x for x in s if keep(x)]`,
    and `set(s)`. */
module Lists {

  function Filter<T(!new)>(s: seq<T>, keep: T -> bool): (r: seq<T>)
    ensures |r| <= |s|
    ensures forall x :: x in r <==> x in s && keep(x)
    ensures forall i :: 0 <= i < |r| ==> keep(r[i])
  {
    if |s| == 0 then []
    else
      var tail := Filter(s[1..], keep);
      assert s == [s[0]] + s[1..];
      if keep(s[0]) then [s[0]] + tail else tail
  }

  /** `set(s)`. */
  function Elems<T>(s: seq<T>): set<T> {
    set x | x in s
  }

  predicate NoDuplicates<T(==)>(s: seq<T>) {
    forall i, j :: 0 <= i < j < |s| ==> s[i] != s[j]
  }

  /** A list with no member is empty. */
  lemma NoMembersEmpty<T>(r: seq<T>)
    ensures (forall x :: x !in r) ==> r == []
  {
    if |r| > 0 {
      assert r[0] in r;
    }
  }

  /** Filtering keeps every copy of a kept element and no copy of another. */
  lemma {:induction false} FilterCounts<T(!new)>(s: seq<T>, keep: T -> bool)
    ensures forall x :: multiset(Filter(s, keep))[x] == if keep(x) then multiset(s)[x] else 0
  {
    if |s| > 0 {
      FilterCounts(s[1..], keep);
      assert s == [s[0]] + s[1..];
    }
  }

  /** Filtering by a condition and by its negation splits a list: every
      element lands in exactly one of the two results, duplicates included. */
  lemma {:induction false} FilterPartition<T(!new)>(s: seq<T>, keep: T -> bool, drop: T -> bool)
    requires forall x :: drop(x) == !keep(x)
    ensures multiset(Filter(s, keep)) + multiset(Filter(s, drop)) == multiset(s)
    ensures |Filter(s, keep)| + |Filter(s, drop)| == |s|
  {
    var a, b := multiset(Filter(s, keep)), multiset(Filter(s, drop));
    FilterCounts(s, keep);
    FilterCounts(s, drop);
    forall x ensures (a + b)[x] == multiset(s)[x] {
      assert a[x] == if keep(x) then multiset(s)[x] else 0;
      assert b[x] == if drop(x) then multiset(s)[x] else 0;
    }
    assert a + b == multiset(s);
    assert |a + b| == |a| + |b|;
  }

  /** Filtering twice is filtering once by both conditions. */
  lemma {:induction false} FilterFilter<T(!new)>(s: seq<T>, k1: T -> bool, k2: T -> bool, both: T -> bool)
    requires forall x :: both(x) == (k1(x) && k2(x))
    ensures Filter(Filter(s, k1), k2) == Filter(s, both)
  {
    if |s| > 0 {
      FilterFilter(s[1..], k1, k2, both);
    }
  }

  /** A condition that holds of every element filters nothing out. */
  lemma {:induction false} FilterAll<T(!new)>(s: seq<T>, keep: T -> bool)
    requires forall i :: 0 <= i < |s| ==> keep(s[i])
    ensures Filter(s, keep) == s
  {
    if |s| > 0 {
      FilterAll(s[1..], keep);
    }
  }

  /** A condition that holds of no element leaves nothing. */
  lemma {:induction false} FilterNone<T(!new)>(s: seq<T>, keep: T -> bool)
    requires forall i :: 0 <= i < |s| ==> !keep(s[i])
    ensures Filter(s, keep) == []
  {
    if |s| > 0 {
      FilterNone(s[1..], keep);
    }
  }

  /** A list has at least as many entries as distinct elements. */
  lemma {:induction false} ElemsCardinality<T>(s: seq<T>)
    ensures |Elems(s)| <= |s|
  {
    if |s| > 0 {
      ElemsCardinality(s[1..]);
      assert Elems(s) == {s[0]} + Elems(s[1..]);
    }
  }

  /** A list without duplicates has exactly as many entries as elements. */
  lemma {:induction false} DistinctCardinality<T>(s: seq<T>)
    requires NoDuplicates(s)
    ensures |Elems(s)| == |s|
  {
    if |s| > 0 {
      assert NoDuplicates(s[1..]) by {
        forall i, j | 0 <= i < j < |s[1..]| ensures s[1..][i] != s[1..][j] {
          assert s[1..][i] == s[i + 1] && s[1..][j] == s[j + 1];
        }
      }
      DistinctCardinality(s[1..]);
      assert s[0] !in Elems(s[1..]) by {
        forall j | 0 <= j < |s[1..]| ensures s[1..][j] != s[0] {
          assert s[1..][j] == s[j + 1];
        }
      }
      assert Elems(s) == {s[0]} + Elems(s[1..]);
    }
  }

  /** Filtering a list with one more element at the end. */
  lemma {:induction false} FilterSnoc<T(!new)>(s: seq<T>, x: T, keep: T -> bool)
    ensures Filter(s + [x], keep) == Filter(s, keep) + (if keep(x) then [x] else [])
  {
    if |s| == 0 {
      assert s + [x] == [x];
      assert [x][1..] == [];
    } else {
      var t := s + [x];
      assert t[0] == s[0] && t[1..] == s[1..] + [x];
      FilterSnoc(s[1..], x, keep);
    }
  }

  /** A permutation keeps the elements and their distinctness. */
  lemma SameElements<T>(a: seq<T>, b: seq<T>)
    requires multiset(a) == multiset(b)
    requires NoDuplicates(a)
    ensures Elems(a) == Elems(b)
    ensures NoDuplicates(b)
  {
    forall x ensures x in a <==> x in b {
      assert x in a <==> x in multiset(a);
      assert x in b <==> x in multiset(b);
    }
    forall x | x in multiset(b) ensures multiset(b)[x] == 1 {
      MultiplicityOfDistinct(a, x);
    }
    forall i, j | 0 <= i < j < |b| ensures b[i] != b[j] {
      assert b[i] in multiset(b);
      if b[i] == b[j] {
        TwoIndicesMultiplicity(b, i, j);
      }
    }
  }

  lemma {:induction false} MultiplicityOfDistinct<T>(s: seq<T>, x: T)
    requires NoDuplicates(s)
    ensures multiset(s)[x] <= 1
  {
    if |s| > 0 {
      assert s == [s[0]] + s[1..];
      assert NoDuplicates(s[1..]) by {
        forall i, j | 0 <= i < j < |s[1..]| ensures s[1..][i] != s[1..][j] {
          assert s[1..][i] == s[i + 1] && s[1..][j] == s[j + 1];
        }
      }
      MultiplicityOfDistinct(s[1..], x);
      if x == s[0] {
        assert x !in s[1..] by {
          forall j | 0 <= j < |s[1..]| ensures s[1..][j] != x {
            assert s[1..][j] == s[j + 1];
          }
        }
      }
    }
  }

  lemma TwoIndicesMultiplicity<T>(s: seq<T>, i: nat, j: nat)
    requires i < j < |s| && s[i] == s[j]
    ensures multiset(s)[s[i]] >= 2
  {
    assert s == s[..i] + [s[i]] + s[i + 1..j] + [s[j]] + s[j + 1..];
  }

  /** A permutation has the same length. */
  lemma SameMultisetSameLength<T>(a: seq<T>, b: seq<T>)
    requires multiset(a) == multiset(b)
    ensures |a| == |b|
  {
    assert |multiset(a)| == |a| && |multiset(b)| == |b|;
  }
}
