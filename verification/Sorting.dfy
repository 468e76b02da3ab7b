/** Filtering and sorting under a total order: what `filter` and `sort` with a comparator return. */
module Sorting {

  function Filter<T>(xs: seq<T>, keep: T -> bool): seq<T> {
    if xs == [] then []
    else Filter(xs[..|xs| - 1], keep) + if keep(xs[|xs| - 1]) then [xs[|xs| - 1]] else []
  }

  ghost predicate TotalOrder<T(!new)>(leq: (T, T) -> bool) {
    && (forall x, y :: leq(x, y) || leq(y, x))
    && (forall x, y, z :: leq(x, y) && leq(y, z) ==> leq(x, z))
  }

  function Insert<T>(x: T, xs: seq<T>, leq: (T, T) -> bool): (r: seq<T>)
    ensures |r| == |xs| + 1
  {
    if xs == [] || leq(x, xs[0]) then [x] + xs else [xs[0]] + Insert(x, xs[1..], leq)
  }

  function SortBy<T>(xs: seq<T>, leq: (T, T) -> bool): (r: seq<T>)
    ensures |r| == |xs|
  {
    if xs == [] then [] else Insert(xs[0], SortBy(xs[1..], leq), leq)
  }

  ghost predicate Ascending<T>(xs: seq<T>, leq: (T, T) -> bool) {
    forall i, j :: 0 <= i < j < |xs| ==> leq(xs[i], xs[j])
  }

  ghost predicate StrictlyAscending<T>(xs: seq<T>, leq: (T, T) -> bool) {
    forall i, j :: 0 <= i < j < |xs| ==> leq(xs[i], xs[j]) && !leq(xs[j], xs[i])
  }

  lemma {:induction false} InsertPermutes<T>(x: T, xs: seq<T>, leq: (T, T) -> bool)
    ensures multiset(Insert(x, xs, leq)) == multiset{x} + multiset(xs)
  {
    if xs != [] && !leq(x, xs[0]) {
      assert xs == [xs[0]] + xs[1..];
      InsertPermutes(x, xs[1..], leq);
    }
  }

  lemma {:induction false} InsertAscends<T(!new)>(x: T, xs: seq<T>, leq: (T, T) -> bool)
    requires TotalOrder(leq) && Ascending(xs, leq)
    ensures Ascending(Insert(x, xs, leq), leq)
  {
    if xs != [] && !leq(x, xs[0]) {
      InsertAscends(x, xs[1..], leq);
      InsertPermutes(x, xs[1..], leq);
      var rest := Insert(x, xs[1..], leq);
      forall j | 0 <= j < |rest|
        ensures leq(xs[0], rest[j])
      {
        assert rest[j] in multiset(rest);
      }
    }
  }

  /** Sorting permutes its input into ascending order. */
  lemma {:induction false} SortBySpec<T(!new)>(xs: seq<T>, leq: (T, T) -> bool)
    requires TotalOrder(leq)
    ensures Ascending(SortBy(xs, leq), leq)
    ensures multiset(SortBy(xs, leq)) == multiset(xs)
  {
    if xs != [] {
      assert xs == [xs[0]] + xs[1..];
      SortBySpec(xs[1..], leq);
      InsertPermutes(xs[0], SortBy(xs[1..], leq), leq);
      InsertAscends(xs[0], SortBy(xs[1..], leq), leq);
    }
  }

  /** Without ties the sorted order is unique, whatever order the input came in. */
  lemma {:induction false} SortedUnique<T(!new)>(xs: seq<T>, ys: seq<T>, leq: (T, T) -> bool)
    requires TotalOrder(leq) && Ascending(xs, leq) && StrictlyAscending(ys, leq) && multiset(xs) == multiset(ys)
    ensures xs == ys
    decreases |xs|
  {
    assert |multiset(xs)| == |xs| && |multiset(ys)| == |ys|;
    if xs != [] {
      SameHead(xs, ys, leq);
      WithoutHead(xs);
      WithoutHead(ys);
      SortedUnique(xs[1..], ys[1..], leq);
    }
  }

  lemma WithoutHead<T>(xs: seq<T>)
    requires xs != []
    ensures xs == [xs[0]] + xs[1..]
    ensures multiset(xs[1..]) == multiset(xs) - multiset{xs[0]}
  {
    assert xs == [xs[0]] + xs[1..];
  }

  lemma SameHead<T(!new)>(xs: seq<T>, ys: seq<T>, leq: (T, T) -> bool)
    requires TotalOrder(leq) && Ascending(xs, leq) && StrictlyAscending(ys, leq) && multiset(xs) == multiset(ys)
    requires xs != [] && ys != []
    ensures xs[0] == ys[0]
  {
    assert xs[0] in multiset(ys) && ys[0] in multiset(xs);
    var i :| 0 <= i < |xs| && xs[i] == ys[0];
    assert leq(xs[0], xs[i]);
  }

  lemma HasMember<T>(xs: seq<T>)
    ensures xs != [] ==> exists x :: x in xs
  {
    if xs != [] { assert xs[0] in xs; }
  }

  /** Strictly ascending lists with the same members are the same list. */
  lemma {:induction false} SameMembers<T(!new)>(xs: seq<T>, ys: seq<T>, leq: (T, T) -> bool)
    requires TotalOrder(leq) && StrictlyAscending(xs, leq) && StrictlyAscending(ys, leq)
    requires (forall x :: x in xs ==> x in ys) && (forall y :: y in ys ==> y in xs)
    ensures xs == ys
  {
    HasMember(xs);
    HasMember(ys);
    if xs != [] {
      assert xs[0] in ys && ys[0] in xs;
      assert xs[0] == ys[0];
      forall x | x in xs[1..]
        ensures x in ys[1..]
      {
        assert x in xs;
        var i :| 1 <= i < |xs| && xs[i] == x;
        var j :| 0 <= j < |ys| && ys[j] == x;
        assert !leq(xs[i], xs[0]);
      }
      forall y | y in ys[1..]
        ensures y in xs[1..]
      {
        assert y in ys;
        var i :| 1 <= i < |ys| && ys[i] == y;
        var j :| 0 <= j < |xs| && xs[j] == y;
        assert !leq(ys[i], ys[0]);
      }
      SameMembers(xs[1..], ys[1..], leq);
    }
  }

  ghost predicate NoRepeats<T>(xs: seq<T>) {
    forall i, j :: 0 <= i < j < |xs| ==> xs[i] != xs[j]
  }

  lemma Once<T>(xs: seq<T>, x: T)
    requires NoRepeats(xs)
    ensures multiset(xs)[x] <= 1
    decreases |xs|
  {
    if xs != [] {
      WithoutHead(xs);
      Once(xs[1..], x);
      assert xs[0] !in xs[1..];
    }
  }

  lemma Twice<T>(xs: seq<T>, i: nat, j: nat)
    requires i < j < |xs|
    ensures xs[i] == xs[j] ==> multiset(xs)[xs[i]] >= 2
  {
    assert xs == xs[..j] + xs[j..];
    assert xs[..j][i] == xs[i] && xs[j..][0] == xs[j];
  }

  /** Reordering brings no repetition. */
  lemma PermutedNoRepeats<T>(xs: seq<T>, ys: seq<T>)
    requires NoRepeats(xs) && multiset(xs) == multiset(ys)
    ensures NoRepeats(ys)
  {
    forall i, j | 0 <= i < j < |ys|
      ensures ys[i] != ys[j]
    {
      Twice(ys, i, j);
      Once(xs, ys[i]);
    }
  }

  lemma {:induction false} FilterMembers<T>(xs: seq<T>, keep: T -> bool, x: T)
    ensures x in Filter(xs, keep) <==> x in xs && keep(x)
    decreases |xs|
  {
    if xs != [] {
      FilterMembers(xs[..|xs| - 1], keep, x);
      assert xs == xs[..|xs| - 1] + [xs[|xs| - 1]];
    }
  }

  /** Leaving elements out keeps the order of the others. */
  lemma {:induction false} FilterAscends<T(!new)>(xs: seq<T>, keep: T -> bool, leq: (T, T) -> bool)
    requires StrictlyAscending(xs, leq)
    ensures StrictlyAscending(Filter(xs, keep), leq)
    decreases |xs|
  {
    if xs != [] {
      var front, last := xs[..|xs| - 1], xs[|xs| - 1];
      FilterAscends(front, keep, leq);
      var kept := Filter(front, keep);
      forall i | 0 <= i < |kept|
        ensures leq(kept[i], last) && !leq(last, kept[i])
      {
        FilterMembers(front, keep, kept[i]);
        var j :| 0 <= j < |front| && front[j] == kept[i];
        assert xs[j] == kept[i];
      }
    }
  }

  lemma {:induction false} FilterConcat<T>(xs: seq<T>, ys: seq<T>, keep: T -> bool)
    ensures Filter(xs + ys, keep) == Filter(xs, keep) + Filter(ys, keep)
    decreases |ys|
  {
    if ys == [] {
      assert xs + ys == xs;
    } else {
      assert (xs + ys)[..|xs + ys| - 1] == xs + ys[..|ys| - 1];
      FilterConcat(xs, ys[..|ys| - 1], keep);
    }
  }

  lemma FilterAround<T>(before: seq<T>, x: T, after: seq<T>, keep: T -> bool)
    ensures multiset(Filter(before + [x] + after, keep))
         == multiset(Filter(before + after, keep)) + multiset(Filter([x], keep))
  {
    FilterConcat(before + [x], after, keep);
    FilterConcat(before, [x], keep);
    FilterConcat(before, after, keep);
  }

  lemma WithoutOne<T>(ys: seq<T>, x: T) returns (before: seq<T>, after: seq<T>)
    requires x in multiset(ys)
    ensures ys == before + [x] + after
    ensures multiset(before + after) == multiset(ys) - multiset{x}
  {
    var j :| 0 <= j < |ys| && ys[j] == x;
    before, after := ys[..j], ys[j + 1..];
    assert ys == before + [x] + after;
  }

  /** A filter keeps the same elements in whatever order they come. */
  lemma {:induction false} FilterPermuted<T>(xs: seq<T>, ys: seq<T>, keep: T -> bool)
    requires multiset(xs) == multiset(ys)
    ensures multiset(Filter(xs, keep)) == multiset(Filter(ys, keep))
    ensures |Filter(xs, keep)| == |Filter(ys, keep)|
    decreases |xs|
  {
    assert |multiset(xs)| == |xs| && |multiset(ys)| == |ys|;
    if xs != [] {
      var front, x := xs[..|xs| - 1], xs[|xs| - 1];
      assert xs == front + [x] + [];
      var before, after := WithoutOne(ys, x);
      assert multiset(front) == multiset(xs) - multiset{x};
      FilterPermuted(front, before + after, keep);
      FilterAround(before, x, after, keep);
      FilterAround(front, x, [], keep);
      assert front + [] == front;
    }
    assert |multiset(Filter(xs, keep))| == |Filter(xs, keep)|;
    assert |multiset(Filter(ys, keep))| == |Filter(ys, keep)|;
  }

  /* ---------- mapping ---------- */

  function Mapped<T, U>(xs: seq<T>, f: T -> U): (r: seq<U>)
    ensures |r| == |xs|
  {
    seq(|xs|, i requires 0 <= i < |xs| => f(xs[i]))
  }

  lemma MappedAround<T, U>(before: seq<T>, x: T, after: seq<T>, f: T -> U)
    ensures multiset(Mapped(before + [x] + after, f)) == multiset(Mapped(before + after, f)) + multiset{f(x)}
  {
    assert Mapped(before + [x] + after, f) == Mapped(before, f) + [f(x)] + Mapped(after, f);
    assert Mapped(before + after, f) == Mapped(before, f) + Mapped(after, f);
  }

  /** Reordered elements have reordered images. */
  lemma {:induction false} MappedPermuted<T, U>(xs: seq<T>, ys: seq<T>, f: T -> U)
    requires multiset(xs) == multiset(ys)
    ensures multiset(Mapped(xs, f)) == multiset(Mapped(ys, f))
    decreases |xs|
  {
    assert |multiset(xs)| == |xs| && |multiset(ys)| == |ys|;
    if xs == [] {
      assert Mapped(xs, f) == Mapped(ys, f);
    } else {
      WithoutHead(xs);
      assert xs[0] in multiset(ys);
      var before, after := WithoutOne(ys, xs[0]);
      MappedPermuted(xs[1..], before + after, f);
      MappedAround([], xs[0], xs[1..], f);
      MappedAround(before, xs[0], after, f);
      assert [] + [xs[0]] + xs[1..] == xs && [] + xs[1..] == xs[1..];
    }
  }
}
