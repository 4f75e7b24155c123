/** Sequence operations the handlers are built from: `Array.prototype.filter`,
    `Array.prototype.map`, and removal of list entries. Each is specified
    independently of its body: the result of a filter is the subsequence of
    its input made of exactly the kept elements, with their multiplicity. */
module Seqs {

  /** `a` can be obtained from `b` by deleting elements: the order of what is
      kept is the order in `b`. */
  ghost predicate Subsequence<T>(a: seq<T>, b: seq<T>)
    decreases |b|
  {
    if |a| == 0 then true
    else if |b| == 0 then false
    else (a[0] == b[0] && Subsequence(a[1..], b[1..])) || Subsequence(a, b[1..])
  }

  lemma {:induction false} SubsequenceReflexive<T>(a: seq<T>)
    ensures Subsequence(a, a)
    decreases |a|
  {
    if |a| > 0 {
      SubsequenceReflexive(a[1..]);
    }
  }

  /** `xs.filter(p)`: keeps the elements satisfying `p`, in order. */
  function Filter<T(!new)>(p: T -> bool, xs: seq<T>): (r: seq<T>)
    ensures |r| <= |xs|
    ensures forall i | 0 <= i < |r| :: p(r[i])
    ensures forall x :: multiset(r)[x] == if p(x) then multiset(xs)[x] else 0
    ensures Subsequence(r, xs)
    decreases |xs|
  {
    if |xs| == 0 then []
    else
      assert xs == [xs[0]] + xs[1..];
      var rest := Filter(p, xs[1..]);
      if p(xs[0]) then
        var r := [xs[0]] + rest;
        assert r[1..] == rest;
        r
      else rest
  }

  /** Every element that satisfies the predicate survives the filter. */
  lemma FilterKeeps<T(!new)>(p: T -> bool, xs: seq<T>, i: nat)
    requires i < |xs| && p(xs[i])
    ensures xs[i] in Filter(p, xs)
  {
    assert multiset(Filter(p, xs))[xs[i]] == multiset(xs)[xs[i]];
  }

  /** Everything that survives the filter comes from its input. */
  lemma FilterFrom<T(!new)>(p: T -> bool, xs: seq<T>, k: nat)
    requires k < |Filter(p, xs)|
    ensures Filter(p, xs)[k] in xs
  {
    var r := Filter(p, xs);
    assert r[k] in multiset(r);
  }

  /** Filtering distributes over concatenation: it never moves an element
      across another. */
  lemma {:induction false} FilterConcat<T(!new)>(p: T -> bool, a: seq<T>, b: seq<T>)
    ensures Filter(p, a + b) == Filter(p, a) + Filter(p, b)
    decreases |a|
  {
    if |a| == 0 {
      assert a + b == b;
    } else {
      assert (a + b)[1..] == a[1..] + b;
      FilterConcat(p, a[1..], b);
    }
  }

  /** A filter only looks at the elements it is given: two predicates that
      agree on them select the same result. */
  lemma {:induction false} FilterCongruent<T(!new)>(p: T -> bool, q: T -> bool, xs: seq<T>)
    requires forall i | 0 <= i < |xs| :: p(xs[i]) == q(xs[i])
    ensures Filter(p, xs) == Filter(q, xs)
    decreases |xs|
  {
    if |xs| > 0 {
      FilterCongruent(p, q, xs[1..]);
    }
  }

  /** A filter that keeps every element is the identity. */
  lemma {:induction false} FilterKeepsAll<T(!new)>(p: T -> bool, xs: seq<T>)
    requires forall i | 0 <= i < |xs| :: p(xs[i])
    ensures Filter(p, xs) == xs
    decreases |xs|
  {
    if |xs| > 0 {
      FilterKeepsAll(p, xs[1..]);
      assert xs == [xs[0]] + xs[1..];
    }
  }

  /** `xs.map(f)`. */
  function Map<T, U>(f: T -> U, xs: seq<T>): (r: seq<U>)
    ensures |r| == |xs|
    ensures forall i | 0 <= i < |xs| :: r[i] == f(xs[i])
  {
    seq(|xs|, i requires 0 <= i < |xs| => f(xs[i]))
  }

  /** `xs` without `x`: every copy of `x` is dropped and the rest keep their order. */
  function Remove<T(==,!new)>(xs: seq<T>, x: T): (r: seq<T>)
    ensures x !in r
    ensures Subsequence(r, xs)
    ensures forall y :: multiset(r)[y] == if y == x then 0 else multiset(xs)[y]
  {
    Filter(y => y != x, xs)
  }

  /** `xs` without any element of `ys`, the rest in their order. */
  function RemoveAll<T(==,!new)>(xs: seq<T>, ys: seq<T>): (r: seq<T>)
    ensures forall y | y in ys :: y !in r
    ensures Subsequence(r, xs)
    ensures forall y :: multiset(r)[y] == if y in ys then 0 else multiset(xs)[y]
  {
    Filter(y => y !in ys, xs)
  }

  /** Appending an entry and then removing every copy of it gives back the
      list, provided the entry was not already there. */
  lemma {:induction false} RemoveAfterAppend<T(!new)>(xs: seq<T>, x: T)
    requires x !in xs
    ensures Remove(xs + [x], x) == xs
  {
    FilterConcat(y => y != x, xs, [x]);
    FilterKeepsAll(y => y != x, xs);
  }

  /** The list form of the same round trip, for a batch of entries. */
  lemma {:induction false} RemoveAllAfterAppend<T(!new)>(xs: seq<T>, ys: seq<T>)
    requires forall y | y in ys :: y !in xs
    ensures RemoveAll(xs + ys, ys) == xs
  {
    var p := y => y !in ys;
    FilterConcat(p, xs, ys);
    FilterKeepsAll(p, xs);
    assert Filter(p, ys) == [];
  }
}
