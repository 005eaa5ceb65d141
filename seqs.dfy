/**
 * Sequence operations that stand for the Python list idioms the program uses:
 * a list comprehension with an `if` clause (`Filter`), the built-in `sum`
 * over a generator (`Sum`) and a loop that appends the value it computes for
 * each element when there is one (`FilterMap`), with the facts about them
 * that the rest of the model relies on: each distributes over concatenation,
 * and neither `Filter` nor `Sum` depends on the order of its input.
 */
module Seqs {
  import opened Wrappers

  /** `[x for x in xs if p(x)]`: the elements of `xs` that satisfy `p`, in order. */
  function Filter<T(!new)>(xs: seq<T>, p: T -> bool): (r: seq<T>)
    ensures |r| <= |xs|
    ensures forall k :: 0 <= k < |r| ==> p(r[k])
    ensures forall x :: x in r <==> x in xs && p(x)
  {
    if xs == [] then []
    else (if p(xs[0]) then [xs[0]] else []) + Filter(xs[1..], p)
  }

  /** Filtering a concatenation filters each part and keeps their order. */
  lemma {:induction false} FilterConcat<T(!new)>(a: seq<T>, b: seq<T>, p: T -> bool)
    ensures Filter(a + b, p) == Filter(a, p) + Filter(b, p)
  {
    if a == [] {
      assert a + b == b;
    } else {
      assert (a + b)[0] == a[0];
      assert (a + b)[1..] == a[1..] + b;
      FilterConcat(a[1..], b, p);
    }
  }

  /** An element that fails the test can be dropped from the input without changing the result. */
  lemma FilterSkipsRejected<T(!new)>(xs: seq<T>, x: T, ys: seq<T>, p: T -> bool)
    requires !p(x)
    ensures Filter(xs + [x] + ys, p) == Filter(xs + ys, p)
  {
    assert Filter(xs + [x], p) == Filter(xs, p) by {
      FilterConcat(xs, [x], p);
      assert [x][1..] == [];
    }
    FilterConcat(xs + [x], ys, p);
    FilterConcat(xs, ys, p);
  }

  /** Filtering keeps every occurrence of an element that satisfies `p` and no occurrence of one that does not. */
  lemma {:induction false} FilterMultiplicity<T(!new)>(xs: seq<T>, p: T -> bool, x: T)
    ensures multiset(Filter(xs, p))[x] == if p(x) then multiset(xs)[x] else 0
  {
    if xs != [] {
      assert xs == [xs[0]] + xs[1..];
      FilterMultiplicity(xs[1..], p, x);
    }
  }

  /** Filtering two permutations of each other yields two permutations of each other. */
  lemma FilterPermutation<T(!new)>(a: seq<T>, b: seq<T>, p: T -> bool)
    requires multiset(a) == multiset(b)
    ensures multiset(Filter(a, p)) == multiset(Filter(b, p))
  {
    forall x
      ensures multiset(Filter(a, p))[x] == multiset(Filter(b, p))[x]
    {
      FilterMultiplicity(a, p, x);
      FilterMultiplicity(b, p, x);
    }
  }

  /** `sum(f(x) for x in xs)`. */
  function Sum<T>(xs: seq<T>, f: T -> real): real
  {
    if xs == [] then 0.0 else f(xs[0]) + Sum(xs[1..], f)
  }

  /** The sum over a concatenation is the sum of the sums over its parts. */
  lemma {:induction false} SumConcat<T>(a: seq<T>, b: seq<T>, f: T -> real)
    ensures Sum(a + b, f) == Sum(a, f) + Sum(b, f)
  {
    if a == [] {
      assert a + b == b;
    } else {
      assert (a + b)[0] == a[0];
      assert (a + b)[1..] == a[1..] + b;
      SumConcat(a[1..], b, f);
    }
  }

  /** Removing the first element of `a` and an equal element of `b` leaves two permutations of one another. */
  lemma RemoveMatching<T>(a: seq<T>, b: seq<T>, i: nat)
    requires multiset(a) == multiset(b)
    requires a != [] && i < |b| && b[i] == a[0]
    ensures multiset(a[1..]) == multiset(b[..i] + b[i + 1..])
  {
    var x := a[0];
    assert a == [x] + a[1..];
    assert b == b[..i] + [x] + b[i + 1..];
    forall y
      ensures multiset(a[1..])[y] == multiset(b[..i] + b[i + 1..])[y]
    {
      assert multiset(a)[y] == multiset{x}[y] + multiset(a[1..])[y];
      assert multiset(b)[y] == multiset(b[..i])[y] + multiset{x}[y] + multiset(b[i + 1..])[y];
    }
  }

  /** A sum does not depend on the order of the terms. */
  lemma {:induction false} SumPermutation<T>(a: seq<T>, b: seq<T>, f: T -> real)
    requires multiset(a) == multiset(b)
    ensures Sum(a, f) == Sum(b, f)
    decreases |a|
  {
    if a == [] {
      assert |b| == |multiset(b)| == 0;
    } else {
      var x := a[0];
      assert x in multiset(b);
      var i :| 0 <= i < |b| && b[i] == x;
      RemoveMatching(a, b, i);
      SumPermutation(a[1..], b[..i] + b[i + 1..], f);
      assert b == b[..i] + ([x] + b[i + 1..]);
      SumConcat(b[..i], [x] + b[i + 1..], f);
      SumConcat(b[..i], b[i + 1..], f);
      assert Sum([x] + b[i + 1..], f) == f(x) + Sum(b[i + 1..], f);
    }
  }

  /** A sum of non-negative terms is non-negative. */
  lemma {:induction false} SumNonNegative<T>(xs: seq<T>, f: T -> real)
    requires forall k :: 0 <= k < |xs| ==> f(xs[k]) >= 0.0
    ensures Sum(xs, f) >= 0.0
  {
    if xs != [] {
      SumNonNegative(xs[1..], f);
    }
  }

  /** A nonempty sum of positive terms is positive. */
  lemma {:induction false} SumPositive<T>(xs: seq<T>, f: T -> real)
    requires xs != []
    requires forall k :: 0 <= k < |xs| ==> f(xs[k]) > 0.0
    ensures Sum(xs, f) > 0.0
  {
    if |xs| > 1 {
      SumPositive(xs[1..], f);
    }
  }

  /** The value inside an option, as a sequence of zero or one elements. */
  function Elements<U>(o: Option<U>): (r: seq<U>)
    ensures |r| <= 1
    ensures o.Some? ==> r == [o.value]
    ensures o.None? <==> r == []
  {
    if o.Some? then [o.value] else []
  }

  /** The values `f` yields for the elements of `xs`, in order, skipping the elements it yields none for. */
  function FilterMap<T, U>(xs: seq<T>, f: T -> Option<U>): seq<U>
  {
    if xs == [] then [] else FilterMap(xs[..|xs| - 1], f) + Elements(f(xs[|xs| - 1]))
  }

  /** `FilterMap` over a concatenation concatenates the results over the parts. */
  lemma {:induction false} FilterMapConcat<T, U>(a: seq<T>, b: seq<T>, f: T -> Option<U>)
    ensures FilterMap(a + b, f) == FilterMap(a, f) + FilterMap(b, f)
    decreases |b|
  {
    if b == [] {
      assert a + b == a;
    } else {
      var init := b[..|b| - 1];
      assert (a + b)[..|a + b| - 1] == a + init;
      assert (a + b)[|a + b| - 1] == b[|b| - 1];
      FilterMapConcat(a, init, f);
    }
  }

  /** One more element of the input adds what `f` yields for it at the end. */
  lemma FilterMapStep<T, U>(xs: seq<T>, n: nat, f: T -> Option<U>)
    requires n < |xs|
    ensures FilterMap(xs[..n + 1], f) == FilterMap(xs[..n], f) + Elements(f(xs[n]))
  {
    assert xs[..n + 1][..n] == xs[..n];
  }

  /** Every value in the result is yielded by some element. */
  lemma {:induction false} FilterMapSound<T, U>(xs: seq<T>, f: T -> Option<U>, y: U)
    requires y in FilterMap(xs, f)
    ensures exists i :: 0 <= i < |xs| && f(xs[i]) == Some(y)
  {
    var init := xs[..|xs| - 1];
    if y in FilterMap(init, f) {
      FilterMapSound(init, f, y);
      var i :| 0 <= i < |init| && f(init[i]) == Some(y);
      assert xs[i] == init[i];
    } else {
      assert f(xs[|xs| - 1]) == Some(y);
    }
  }

  /** Every value an element yields is in the result. */
  lemma {:induction false} FilterMapComplete<T, U>(xs: seq<T>, f: T -> Option<U>, i: nat)
    requires i < |xs| && f(xs[i]).Some?
    ensures f(xs[i]).value in FilterMap(xs, f)
  {
    var init := xs[..|xs| - 1];
    if i < |init| {
      assert init[i] == xs[i];
      FilterMapComplete(init, f, i);
    }
  }

  /** At most one value per element. */
  lemma {:induction false} FilterMapLength<T, U>(xs: seq<T>, f: T -> Option<U>)
    ensures |FilterMap(xs, f)| <= |xs|
  {
    if xs != [] {
      FilterMapLength(xs[..|xs| - 1], f);
    }
  }

  /** `FilterMap` yields exactly one value for each element on which `f` yields one. */
  lemma {:induction false} FilterMapCount<T(!new), U>(xs: seq<T>, f: T -> Option<U>, p: T -> bool)
    requires forall x :: p(x) == f(x).Some?
    ensures |FilterMap(xs, f)| == |Filter(xs, p)|
    decreases |xs|
  {
    if xs != [] {
      var init, last := xs[..|xs| - 1], xs[|xs| - 1];
      assert xs == init + [last];
      FilterMapCount(init, f, p);
      FilterConcat(init, [last], p);
      assert [last][1..] == [];
    }
  }
}
