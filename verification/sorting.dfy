/** Python's `sorted`: on a set of strings it yields the strictly increasing
    list of its elements; with a key it is a stable sort, modelled here as
    insertion sort under a total preorder. */
module Sorting {
  import opened Strings
  import opened Lists

  predicate StrictlySorted(xs: seq<string>) {
    forall i, j :: 0 <= i < j < |xs| ==> Less(xs[i], xs[j])
  }

  /** Inserts `x` into a strictly sorted list, unless it is already there. */
  function InsertSorted(xs: seq<string>, x: string): (r: seq<string>)
    requires StrictlySorted(xs)
    ensures StrictlySorted(r)
    ensures Elems(r) == Elems(xs) + {x}
  {
    if |xs| == 0 then [x]
    else if x == xs[0] then xs
    else if Less(x, xs[0]) then
      assert forall j :: 0 < j < |xs| ==> Less(x, xs[j]) by {
        forall j | 0 < j < |xs| ensures Less(x, xs[j]) {
          LessTransitive(x, xs[0], xs[j]);
        }
      }
      [x] + xs
    else
      var tail := InsertSorted(xs[1..], x);
      LessTotal(x, xs[0]);
      assert xs == [xs[0]] + xs[1..];
      assert forall y :: y in tail ==> Less(xs[0], y) by {
        forall y | y in tail ensures Less(xs[0], y) {
          assert y in Elems(tail);
        }
      }
      assert Elems([xs[0]] + tail) == {xs[0]} + Elems(tail);
      assert Elems(xs) == {xs[0]} + Elems(xs[1..]);
      [xs[0]] + tail
  }

  /** `sorted(s)` for a set of strings. */
  method SortedSet(s: set<string>) returns (r: seq<string>)
    ensures StrictlySorted(r)
    ensures Elems(r) == s
    ensures r == SortedElems(s)
  {
    r := [];
    var rest := s;
    while rest != {}
      invariant StrictlySorted(r)
      invariant Elems(r) + rest == s
      decreases rest
    {
      var x :| x in rest;
      r := InsertSorted(r, x);
      rest := rest - {x};
    }
    SortedUnique(r, SortedElems(s));
  }

  /** The strictly sorted listing of a set, as a value. */
  ghost function SortedElems(s: set<string>): (r: seq<string>)
    ensures StrictlySorted(r)
    ensures Elems(r) == s
    decreases s
  {
    if s == {} then []
    else
      var x :| x in s;
      InsertSorted(SortedElems(s - {x}), x)
  }

  /** A set has only one strictly sorted listing, so `sorted` of equal sets
      gives equal lists. */
  lemma {:induction false} SortedUnique(a: seq<string>, b: seq<string>)
    requires StrictlySorted(a) && StrictlySorted(b)
    requires Elems(a) == Elems(b)
    ensures a == b
  {
    assert |a| > 0 ==> a[0] in Elems(b);
    assert |b| > 0 ==> b[0] in Elems(a);
    if |a| > 0 && |b| > 0 {
      if a[0] != b[0] {
        var i :| 0 <= i < |a| && a[i] == b[0];
        var j :| 0 <= j < |b| && b[j] == a[0];
        assert Less(a[0], b[0]);
        assert Less(b[0], a[0]);
        LessAsymmetric(a[0], b[0]);
      }
      assert Elems(a[1..]) == Elems(b[1..]) by {
        SortedTailDrops(a);
        SortedTailDrops(b);
        assert Elems(a) == {a[0]} + Elems(a[1..]);
        assert Elems(b) == {b[0]} + Elems(b[1..]);
      }
      SortedUnique(a[1..], b[1..]);
      assert a == [a[0]] + a[1..] && b == [b[0]] + b[1..];
    }
  }

  lemma SortedTailDrops(a: seq<string>)
    requires StrictlySorted(a) && |a| > 0
    ensures a[0] !in a[1..]
    ensures StrictlySorted(a[1..])
  {
    if a[0] in a[1..] {
      var i :| 0 <= i < |a[1..]| && a[1..][i] == a[0];
      assert Less(a[0], a[i + 1]);
      LessIrreflexive(a[0]);
    }
  }

  /** A strictly sorted list has no duplicates. */
  lemma StrictlySortedDistinct(a: seq<string>)
    requires StrictlySorted(a)
    ensures NoDuplicates(a)
  {
    forall i, j | 0 <= i < j < |a| ensures a[i] != a[j] {
      LessIrreflexive(a[i]);
    }
  }

  // ---------------------------------------------------------------------------
  // Keyed sorts
  // ---------------------------------------------------------------------------

  ghost predicate TotalPreorder<T(!new)>(le: (T, T) -> bool) {
    && (forall a, b :: le(a, b) || le(b, a))
    && (forall a, b, c :: le(a, b) && le(b, c) ==> le(a, c))
  }

  predicate SortedBy<T>(s: seq<T>, le: (T, T) -> bool) {
    forall i, j :: 0 <= i < j < |s| ==> le(s[i], s[j])
  }

  /** Inserts `x` after every element it does not precede strictly, which
      keeps equal elements in their original order. */
  function InsertBy<T(!new)>(s: seq<T>, x: T, le: (T, T) -> bool): (r: seq<T>)
    requires TotalPreorder(le)
    requires SortedBy(s, le)
    ensures SortedBy(r, le)
    ensures multiset(r) == multiset(s) + multiset{x}
  {
    if |s| == 0 then [x]
    else if !le(s[0], x) then
      assert forall j :: 0 <= j < |s| ==> le(x, s[j]);
      [x] + s
    else
      var tail := InsertBy(s[1..], x, le);
      assert s == [s[0]] + s[1..];
      assert forall y :: y in tail ==> le(s[0], y) by {
        forall y | y in tail ensures le(s[0], y) {
          assert y in multiset(tail);
        }
      }
      [s[0]] + tail
  }

  /** `sorted(s, key=...)`: a sorted permutation of `s`. */
  function SortBy<T(!new)>(s: seq<T>, le: (T, T) -> bool): (r: seq<T>)
    requires TotalPreorder(le)
    ensures SortedBy(r, le)
    ensures multiset(r) == multiset(s)
  {
    if |s| == 0 then []
    else
      assert s == s[..|s| - 1] + [s[|s| - 1]];
      InsertBy(SortBy(s[..|s| - 1], le), s[|s| - 1], le)
  }
}
