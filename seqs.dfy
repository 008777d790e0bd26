/** Sequence helpers shared by the models: a list comprehension that keeps, for each input
    element in order, zero or more outputs. */
module Seqs {

  /** `[y for x in xs for y in f(x)]`. */
  function FlatMap<T, U>(xs: seq<T>, f: T -> seq<U>): seq<U>
    decreases |xs|
  {
    if xs == [] then [] else FlatMap(xs[..|xs| - 1], f) + f(xs[|xs| - 1])
  }

  /** The outputs for a concatenation are the outputs for each part, in order. */
  lemma {:induction false} FlatMapConcat<T, U>(a: seq<T>, b: seq<T>, f: T -> seq<U>)
    ensures FlatMap(a + b, f) == FlatMap(a, f) + FlatMap(b, f)
    decreases |b|
  {
    if b == [] {
      assert a + b == a;
    } else {
      var init, last := b[..|b| - 1], b[|b| - 1];
      assert (a + b)[..|a + b| - 1] == a + init && (a + b)[|a + b| - 1] == last;
      FlatMapConcat(a, init, f);
    }
  }

  /** One more input element appends its own outputs. */
  lemma FlatMapSnoc<T, U>(xs: seq<T>, x: T, f: T -> seq<U>)
    ensures FlatMap(xs + [x], f) == FlatMap(xs, f) + f(x)
  {
    assert (xs + [x])[..|xs + [x]| - 1] == xs;
  }

  /** The outputs of a prefix one element longer. */
  lemma FlatMapPrefix<T, U>(xs: seq<T>, i: int, f: T -> seq<U>)
    requires 0 <= i < |xs|
    ensures FlatMap(xs[..i + 1], f) == FlatMap(xs[..i], f) + f(xs[i])
  {
    assert xs[..i + 1] == xs[..i] + [xs[i]];
    FlatMapSnoc(xs[..i], xs[i], f);
  }

  /** The outputs of an element sit between those of the elements before and after it. */
  lemma FlatMapSplit<T, U>(xs: seq<T>, i: int, f: T -> seq<U>)
    requires 0 <= i < |xs|
    ensures FlatMap(xs, f) == FlatMap(xs[..i], f) + f(xs[i]) + FlatMap(xs[i + 1..], f)
  {
    assert xs == xs[..i + 1] + xs[i + 1..];
    FlatMapConcat(xs[..i + 1], xs[i + 1..], f);
    FlatMapPrefix(xs, i, f);
  }

  /** The middle part of a concatenation. */
  lemma ConcatMiddle<T>(h: seq<T>, a: seq<T>, m: seq<T>, b: seq<T>)
    ensures (h + (a + m + b))[..|h|] == h
    ensures (h + (a + m + b))[|h| + |a|..|h| + |a| + |m|] == m
  {
    assert h + (a + m + b) == (h + a) + m + b;
  }

  /** The outputs of element `i` start after those of the elements before it. */
  lemma FlatMapBlock<T, U>(xs: seq<T>, i: int, f: T -> seq<U>)
    requires 0 <= i < |xs|
    ensures var o := |FlatMap(xs[..i], f)|;
            && o + |f(xs[i])| <= |FlatMap(xs, f)|
            && FlatMap(xs, f)[o..o + |f(xs[i])|] == f(xs[i])
  {
    FlatMapSplit(xs, i, f);
    ConcatMiddle([], FlatMap(xs[..i], f), f(xs[i]), FlatMap(xs[i + 1..], f));
    assert [] + (FlatMap(xs[..i], f) + f(xs[i]) + FlatMap(xs[i + 1..], f)) == FlatMap(xs, f);
  }

  /** Appending the outputs of the next element to what came before. */
  lemma FlatMapAppendNext<T, U>(h: seq<U>, xs: seq<T>, i: int, f: T -> seq<U>)
    requires 0 <= i < |xs|
    ensures h + FlatMap(xs[..i], f) + f(xs[i]) == h + FlatMap(xs[..i + 1], f)
  {
    FlatMapPrefix(xs, i, f);
  }

  /** The whole of a sequence as its own prefix. */
  lemma FlatMapAll<T, U>(h: seq<U>, xs: seq<T>, f: T -> seq<U>)
    ensures h + FlatMap(xs[..|xs|], f) == h + FlatMap(xs, f)
  {
    assert xs[..|xs|] == xs;
  }

  /** A single element yields exactly its own outputs. */
  lemma FlatMapOne<T, U>(x: T, f: T -> seq<U>)
    ensures FlatMap([x], f) == f(x)
  {
    assert [x][..0] == [];
  }

  /** Every output comes from some element. */
  lemma {:induction false} FlatMapFrom<T, U>(xs: seq<T>, f: T -> seq<U>, y: U)
    requires y in FlatMap(xs, f)
    ensures exists i :: 0 <= i < |xs| && y in f(xs[i])
    decreases |xs|
  {
    var init := xs[..|xs| - 1];
    if y in FlatMap(init, f) {
      FlatMapFrom(init, f, y);
      var i :| 0 <= i < |init| && y in f(init[i]);
      assert xs[i] == init[i];
    } else {
      assert y in f(xs[|xs| - 1]);
    }
  }

  /** Outputs are at most `bound` per element. */
  lemma {:induction false} FlatMapLength<T, U>(xs: seq<T>, f: T -> seq<U>, bound: nat)
    requires forall x :: x in xs ==> |f(x)| <= bound
    ensures |FlatMap(xs, f)| <= bound * |xs|
    decreases |xs|
  {
    if xs != [] {
      var init := xs[..|xs| - 1];
      assert forall x :: x in init ==> x in xs;
      FlatMapLength(init, f, bound);
      assert xs[|xs| - 1] in xs;
      assert |xs| == |init| + 1;
      assert bound * |xs| == bound * |init| + bound;
    }
  }

  /** Every output of every element is kept. */
  lemma FlatMapHas<T, U>(xs: seq<T>, f: T -> seq<U>, i: int, y: U)
    requires 0 <= i < |xs| && y in f(xs[i])
    ensures y in FlatMap(xs, f)
  {
    assert xs == xs[..i] + [xs[i]] + xs[i + 1..];
    FlatMapConcat(xs[..i] + [xs[i]], xs[i + 1..], f);
    FlatMapSnoc(xs[..i], xs[i], f);
  }

  /** `[x for x in xs if keep(x)]`. */
  function Filter<T>(xs: seq<T>, keep: T -> bool): seq<T>
    decreases |xs|
  {
    if xs == [] then []
    else
      var init := Filter(xs[..|xs| - 1], keep);
      if keep(xs[|xs| - 1]) then init + [xs[|xs| - 1]] else init
  }

  /** The kept elements are exactly the elements that pass. */
  lemma {:induction false} FilterMembers<T>(xs: seq<T>, keep: T -> bool)
    ensures |Filter(xs, keep)| <= |xs|
    ensures forall x :: x in Filter(xs, keep) <==> x in xs && keep(x)
    decreases |xs|
  {
    if xs != [] {
      var init := xs[..|xs| - 1];
      FilterMembers(init, keep);
      assert xs == init + [xs[|xs| - 1]];
    }
  }

  /** A kept element comes from the input. */
  lemma FilterSource<T>(xs: seq<T>, keep: T -> bool, y: T)
    requires y in Filter(xs, keep)
    ensures y in xs && keep(y)
  {
    FilterMembers(xs, keep);
  }

  /** Filtering keeps the relative order: what was in ascending order under `less` stays so. */
  lemma {:induction false} FilterKeepsOrder<T>(xs: seq<T>, keep: T -> bool, less: (T, T) -> bool)
    requires forall i, j :: 0 <= i < j < |xs| ==> less(xs[i], xs[j])
    ensures forall i, j :: 0 <= i < j < |Filter(xs, keep)| ==> less(Filter(xs, keep)[i], Filter(xs, keep)[j])
    decreases |xs|
  {
    if xs != [] {
      var init, last := xs[..|xs| - 1], xs[|xs| - 1];
      FilterKeepsOrder(init, keep, less);
      var f := Filter(init, keep);
      forall i | 0 <= i < |f|
        ensures less(f[i], last)
      {
        var y := f[i];
        FilterSource(init, keep, y);
        var k :| 0 <= k < |init| && init[k] == y;
        assert xs[k] == y;
      }
    }
  }

  /** Filtering a concatenation filters each part. */
  lemma {:induction false} FilterConcat<T>(a: seq<T>, b: seq<T>, keep: T -> bool)
    ensures Filter(a + b, keep) == Filter(a, keep) + Filter(b, keep)
    decreases |b|
  {
    if b == [] {
      assert a + b == a;
    } else {
      var init, last := b[..|b| - 1], b[|b| - 1];
      assert (a + b)[..|a + b| - 1] == a + init && (a + b)[|a + b| - 1] == last;
      FilterConcat(a, init, keep);
    }
  }

  /** When nothing passes, nothing is kept. */
  lemma {:induction false} FilterNone<T>(xs: seq<T>, keep: T -> bool)
    requires forall i :: 0 <= i < |xs| ==> !keep(xs[i])
    ensures Filter(xs, keep) == []
    decreases |xs|
  {
    if xs != [] {
      FilterNone(xs[..|xs| - 1], keep);
    }
  }
  /** Two tests that agree on every element keep the same elements. */
  lemma {:induction false} FilterSame<T>(xs: seq<T>, p: T -> bool, q: T -> bool)
    requires forall x :: p(x) == q(x)
    ensures Filter(xs, p) == Filter(xs, q)
    decreases |xs|
  {
    if xs != [] {
      FilterSame(xs[..|xs| - 1], p, q);
    }
  }

  /** Filtering twice is filtering once by both tests. */
  lemma {:induction false} FilterFilter<T>(xs: seq<T>, p: T -> bool, q: T -> bool, both: T -> bool)
    requires forall x :: both(x) == (p(x) && q(x))
    ensures Filter(Filter(xs, p), q) == Filter(xs, both)
    decreases |xs|
  {
    if xs != [] {
      var init := xs[..|xs| - 1];
      FilterFilter(init, p, q, both);
      var f := Filter(init, p);
      if p(xs[|xs| - 1]) {
        assert (f + [xs[|xs| - 1]])[..|f|] == f;
      }
    }
  }

  /** The first kept element is the first element that passes. */
  lemma FilterFirstIs<T>(xs: seq<T>, keep: T -> bool, i: int)
    requires 0 <= i < |xs| && keep(xs[i])
    requires forall j :: 0 <= j < i ==> !keep(xs[j])
    ensures Filter(xs, keep) != [] && Filter(xs, keep)[0] == xs[i]
  {
    assert xs == xs[..i] + xs[i..];
    FilterConcat(xs[..i], xs[i..], keep);
    FilterNone(xs[..i], keep);
    assert xs[i..] == [xs[i]] + xs[i + 1..];
    FilterConcat([xs[i]], xs[i + 1..], keep);
    assert [xs[i]][..0] == [];
  }

  /** The last kept element is the last element that passes. */
  lemma FilterLastIs<T>(xs: seq<T>, keep: T -> bool, i: int)
    requires 0 <= i < |xs| && keep(xs[i])
    requires forall j :: i < j < |xs| ==> !keep(xs[j])
    ensures Filter(xs, keep) != [] && Filter(xs, keep)[|Filter(xs, keep)| - 1] == xs[i]
  {
    assert xs == xs[..i + 1] + xs[i + 1..];
    FilterConcat(xs[..i + 1], xs[i + 1..], keep);
    var rest := xs[i + 1..];
    assert forall j :: 0 <= j < |rest| ==> rest[j] == xs[i + 1 + j];
    FilterNone(rest, keep);
    assert xs[..i + 1][..i] == xs[..i];
  }
  /** No element occurs twice. */
  predicate Distinct<T(==)>(s: seq<T>)
  {
    forall i, j :: 0 <= i < j < |s| ==> s[i] != s[j]
  }

  /** `xs.index(x)`: the position of the first occurrence. */
  function IndexOf<T(==)>(xs: seq<T>, x: T): (i: nat)
    requires x in xs
    ensures i < |xs| && xs[i] == x
    ensures forall j :: 0 <= j < i ==> xs[j] != x
  {
    if xs[0] == x then 0 else 1 + IndexOf(xs[1..], x)
  }

  /** In a sequence without repeats, the element at `i` is found at `i`. */
  lemma IndexOfDistinct<T>(xs: seq<T>, i: int)
    requires Distinct(xs) && 0 <= i < |xs|
    ensures IndexOf(xs, xs[i]) == i
  {
  }

  /** A sequence without repeats has as many elements as its set. */
  lemma {:induction false} DistinctCard<T>(s: seq<T>)
    requires Distinct(s)
    ensures |set x | x in s| == |s|
    decreases |s|
  {
    if s != [] {
      var init, last := s[..|s| - 1], s[|s| - 1];
      DistinctCard(init);
      assert (set x | x in s) == (set x | x in init) + {last};
      assert last !in init;
    }
  }

  /** Two sequences without repeats and with the same elements have the same length. */
  lemma DistinctSameLength<T>(a: seq<T>, b: seq<T>)
    requires Distinct(a) && Distinct(b)
    requires forall x :: x in a <==> x in b
    ensures |a| == |b|
  {
    DistinctCard(a);
    DistinctCard(b);
    assert (set x | x in a) == (set x | x in b);
  }

  /** Filtering keeps a sequence free of repeats. */
  lemma FilterDistinct<T>(xs: seq<T>, keep: T -> bool)
    requires Distinct(xs)
    ensures Distinct(Filter(xs, keep))
  {
    FilterKeepsOrder(xs, keep, (a: T, b: T) => a != b);
  }
  /** Two sequences without repeats and without common elements concatenate without repeats. */
  lemma DistinctConcat<T>(a: seq<T>, b: seq<T>)
    requires Distinct(a) && Distinct(b)
    requires forall x :: x in a ==> x !in b
    ensures Distinct(a + b)
  {
    forall i, j | 0 <= i < j < |a + b|
      ensures (a + b)[i] != (a + b)[j]
    {
      if i < |a| && |a| <= j {
        assert (a + b)[i] in a && (a + b)[j] in b;
      }
    }
  }
}
