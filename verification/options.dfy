/** A value that may be missing, and the list comprehension
    `[g(x) for x in s if cond(x)]` written with it. */
module Options {
  import opened Lists

  datatype Option<T> = None | Some(value: T)

  /** The values `f` produces over `s`, in order, skipping the `None`s. */
  function FilterMap<A, B>(s: seq<A>, f: A -> Option<B>): (r: seq<B>)
    ensures |r| <= |s|
    ensures forall y :: y in r ==> exists x :: x in s && f(x) == Some(y)
  {
    if |s| == 0 then []
    else
      var init := FilterMap(s[..|s| - 1], f);
      var x := s[|s| - 1];
      assert forall z :: z in s[..|s| - 1] ==> z in s;
      if f(x).Some? then init + [f(x).value] else init
  }

  /** `f` produces a value at `x`. */
  function Defined<A, B>(f: A -> Option<B>): A -> bool {
    x => f(x).Some?
  }

  /** `FilterMap` and `f` agree with `Filter` by `Defined(f)`. */
  ghost predicate AgreesWithFilter<A(!new), B>(s: seq<A>, f: A -> Option<B>) {
    var kept := Filter(s, Defined(f));
    && |FilterMap(s, f)| == |kept|
    && forall i :: 0 <= i < |kept| ==> f(kept[i]).Some? && FilterMap(s, f)[i] == f(kept[i]).value
  }

  /** The produced values are those of the elements where `f` is defined,
      in their order in `s`. */
  lemma {:induction false} FilterMapAsFilter<A(!new), B>(s: seq<A>, f: A -> Option<B>)
    ensures AgreesWithFilter(s, f)
  {
    if |s| > 0 {
      var init, x := s[..|s| - 1], s[|s| - 1];
      FilterMapAsFilter(init, f);
      assert s == init + [x];
      FilterSnoc(init, x, Defined(f));
      if f(x).Some? {
        AgreesDefined(init, x, f);
      } else {
        AgreesUndefined(init, x, f);
      }
    }
  }

  lemma AgreesDefined<A(!new), B>(init: seq<A>, x: A, f: A -> Option<B>)
    requires AgreesWithFilter(init, f) && f(x).Some?
    requires Filter(init + [x], Defined(f)) == Filter(init, Defined(f)) + [x]
    ensures AgreesWithFilter(init + [x], f)
  {
    var s := init + [x];
    assert s[..|s| - 1] == init;
    assert FilterMap(s, f) == FilterMap(init, f) + [f(x).value];
  }

  lemma AgreesUndefined<A(!new), B>(init: seq<A>, x: A, f: A -> Option<B>)
    requires AgreesWithFilter(init, f) && f(x).None?
    requires Filter(init + [x], Defined(f)) == Filter(init, Defined(f))
    ensures AgreesWithFilter(init + [x], f)
  {
    var s := init + [x];
    assert s[..|s| - 1] == init;
    assert FilterMap(s, f) == FilterMap(init, f);
  }

  /** One more element at the end. */
  lemma FilterMapSnoc<A, B>(s: seq<A>, i: nat, f: A -> Option<B>)
    requires i < |s|
    ensures FilterMap(s[..i + 1], f) == FilterMap(s[..i], f) + (if f(s[i]).Some? then [f(s[i]).value] else [])
  {
    assert s[..i + 1][..i] == s[..i];
  }
}
