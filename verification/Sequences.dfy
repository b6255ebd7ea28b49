/** Facts about finite sequences that several of the models share. */
module Sequences {

  datatype Option<+T> = None | Some(value: T)

  function Min(a: int, b: int): int { if a <= b then a else b }

  /** No element occurs twice. */
  ghost predicate Distinct<T>(xs: seq<T>) {
    forall i, j :: 0 <= i < j < |xs| ==> xs[i] != xs[j]
  }

  /** A list with no members is empty: names the member that a nonempty list would have. */
  lemma FirstMember<T>(xs: seq<T>)
    ensures xs == [] || xs[0] in xs
  {
  }

  lemma SameCounts<T>(a: multiset<T>, b: multiset<T>)
    requires forall x: T :: a[x] == b[x]
    ensures a == b
  {
  }

  /** The elements of xs that are not in gone, in order: what is left of a list after removals. */
  function Without<T(==)>(xs: seq<T>, gone: set<T>): (ys: seq<T>)
    ensures |ys| <= |xs|
  {
    if xs == [] then []
    else
      var x := xs[|xs| - 1];
      Without(xs[..|xs| - 1], gone) + if x in gone then [] else [x]
  }

  lemma WithoutLast<T>(xs: seq<T>, gone: set<T>)
    requires xs != []
    ensures Without(xs, gone) == Without(xs[..|xs| - 1], gone) + if xs[|xs| - 1] in gone then [] else [xs[|xs| - 1]]
  {
  }

  /** ys can be obtained from xs by deleting elements. */
  ghost predicate Subsequence<T>(ys: seq<T>, xs: seq<T>) {
    || ys == []
    || (xs != [] && Subsequence(ys, xs[..|xs| - 1]))
    || (xs != [] && xs[|xs| - 1] == ys[|ys| - 1] && Subsequence(ys[..|ys| - 1], xs[..|xs| - 1]))
  }

  lemma {:induction false} WithoutMembers<T>(xs: seq<T>, gone: set<T>)
    ensures forall y | y in Without(xs, gone) :: y in xs && y !in gone
    ensures forall y | y in xs && y !in gone :: y in Without(xs, gone)
  {
    if xs != [] {
      WithoutMembers(xs[..|xs| - 1], gone);
      assert xs == xs[..|xs| - 1] + [xs[|xs| - 1]];
    }
  }

  lemma {:induction false} WithoutConcat<T>(xs: seq<T>, ys: seq<T>, gone: set<T>)
    ensures Without(xs + ys, gone) == Without(xs, gone) + Without(ys, gone)
  {
    if ys == [] {
      assert xs + ys == xs;
    } else {
      assert (xs + ys)[..|xs + ys| - 1] == xs + ys[..|ys| - 1];
      WithoutConcat(xs, ys[..|ys| - 1], gone);
    }
  }

  lemma {:induction false} WithoutTwice<T>(xs: seq<T>, gone: set<T>, more: set<T>)
    ensures Without(Without(xs, gone), more) == Without(xs, gone + more)
  {
    if xs != [] {
      WithoutTwice(xs[..|xs| - 1], gone, more);
      var x := xs[|xs| - 1];
      WithoutConcat(Without(xs[..|xs| - 1], gone), if x in gone then [] else [x], more);
    }
  }

  lemma {:induction false} WithoutNothing<T>(xs: seq<T>, gone: set<T>)
    requires forall x :: x in xs ==> x !in gone
    ensures Without(xs, gone) == xs
  {
    if xs != [] {
      WithoutNothing(xs[..|xs| - 1], gone);
      assert xs == xs[..|xs| - 1] + [xs[|xs| - 1]];
    }
  }

  lemma {:induction false} WithoutDistinct<T>(xs: seq<T>, gone: set<T>)
    requires Distinct(xs)
    ensures Distinct(Without(xs, gone))
  {
    if xs != [] {
      WithoutDistinct(xs[..|xs| - 1], gone);
      WithoutMembers(xs[..|xs| - 1], gone);
    }
  }

  lemma {:induction false} WithoutIsSubsequence<T>(xs: seq<T>, gone: set<T>)
    ensures Subsequence(Without(xs, gone), xs)
  {
    if xs != [] {
      WithoutIsSubsequence(xs[..|xs| - 1], gone);
      var rest := Without(xs[..|xs| - 1], gone);
      if xs[|xs| - 1] in gone {
        assert rest + [] == rest;
      } else {
        assert (rest + [xs[|xs| - 1]])[..|rest|] == rest;
      }
    }
  }

  lemma NothingIsSubsequence<T>(xs: seq<T>)
    ensures Subsequence([], xs)
  {
  }

  lemma SubsequenceGrows<T>(ys: seq<T>, xs: seq<T>, x: T)
    requires Subsequence(ys, xs)
    ensures Subsequence(ys + [], xs + [x]) && Subsequence(ys + [x], xs + [x])
  {
    assert ys + [] == ys && (xs + [x])[..|xs|] == xs && (ys + [x])[..|ys|] == ys;
  }

  lemma SubsequenceStays<T>(ys: seq<T>, xs: seq<T>)
    requires Subsequence(ys, xs)
    ensures Subsequence(ys + [], xs + [])
  {
    assert ys + [] == ys && xs + [] == xs;
  }

  lemma CountAppend<T>(xs: seq<T>, y: T, x: T)
    ensures multiset(xs + [y])[x] == multiset(xs)[x] + if x == y then 1 else 0
    ensures multiset(xs + [])[x] == multiset(xs)[x]
  {
    assert xs + [] == xs;
  }

  lemma CountLast<T>(xs: seq<T>, x: T)
    requires xs != []
    ensures multiset(xs)[x] == multiset(xs[..|xs| - 1])[x] + if x == xs[|xs| - 1] then 1 else 0
  {
    assert xs == xs[..|xs| - 1] + [xs[|xs| - 1]];
    CountAppend(xs[..|xs| - 1], xs[|xs| - 1], x);
  }

  lemma CountKept<T>(xs: seq<T>, gone: set<T>, x: T)
    requires xs != []
    ensures multiset(Without(xs, gone))[x]
            == multiset(Without(xs[..|xs| - 1], gone))[x] + if x == xs[|xs| - 1] && x !in gone then 1 else 0
  {
    WithoutLast(xs, gone);
    hide *;
    CountAppend(Without(xs[..|xs| - 1], gone), xs[|xs| - 1], x);
  }

  lemma {:induction false} SplitCount<T>(xs: seq<T>, gone: set<T>, others: set<T>, x: T)
    requires forall y | y in xs :: y in others <==> y !in gone
    ensures multiset(xs)[x] == multiset(Without(xs, gone))[x] + multiset(Without(xs, others))[x]
  {
    if xs != [] {
      hide *;
      SplitCount(xs[..|xs| - 1], gone, others, x);
      CountLast(xs, x);
      CountKept(xs, gone, x);
      CountKept(xs, others, x);
    }
  }

  /** A list is what is kept of it and what is removed, each element as often as it is there. */
  lemma SplitByRemoval<T>(xs: seq<T>, gone: set<T>, others: set<T>)
    requires forall x | x in xs :: x in others <==> x !in gone
    ensures multiset(xs) == multiset(Without(xs, gone)) + multiset(Without(xs, others))
  {
    hide Without;
    var kept, lost := multiset(Without(xs, gone)), multiset(Without(xs, others));
    forall x: T ensures multiset(xs)[x] == (kept + lost)[x] {
      SplitCount(xs, gone, others, x);
    }
    SameCounts(multiset(xs), kept + lost);
  }
}
