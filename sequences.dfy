/**
 * Sequence facts shared by the recursive definitions over paths, syntax
 * trees, specifier lists and file lists: taking a sequence apart at either
 * end, and `FlatMap`, the list built by appending what each element yields
 * (the imports a visitor appends per specifier, the edges a feed adds per file).
 */
module Sequences {

  /** `a + b` starts with `a`'s first element and goes on with the rest of `a`, then `b`. */
  lemma ConsSplit<T>(a: seq<T>, b: seq<T>)
    requires a != []
    ensures a == [a[0]] + a[1..]
    ensures a + b != [] && (a + b)[0] == a[0] && (a + b)[1..] == a[1..] + b
  {
  }

  /** `b` and `a + b` both end in `b`'s last element. */
  lemma SnocSplit<T>(a: seq<T>, b: seq<T>)
    requires b != []
    ensures b == b[..|b| - 1] + [b[|b| - 1]]
    ensures a + b == (a + b[..|b| - 1]) + [b[|b| - 1]]
  {
  }

  lemma AppendAssociative<T>(a: seq<T>, b: seq<T>, c: seq<T>)
    ensures (a + b) + c == a + (b + c)
  {
  }

  /** What `f` yields for each element of `xs`, appended in order. */
  function FlatMap<T, U>(f: T -> seq<U>, xs: seq<T>): seq<U>
  {
    if xs == [] then [] else FlatMap(f, xs[..|xs| - 1]) + f(xs[|xs| - 1])
  }

  lemma FlatMapSnoc<T, U>(f: T -> seq<U>, xs: seq<T>, x: T)
    ensures FlatMap(f, xs + [x]) == FlatMap(f, xs) + f(x)
  {
    assert (xs + [x])[..|xs|] == xs;
  }

  lemma FlatMapSingle<T, U>(f: T -> seq<U>, x: T)
    ensures FlatMap(f, [x]) == f(x)
  {
    FlatMapSnoc(f, [], x);
  }

  /** Taking one more element of `xs` appends what it yields. */
  lemma FlatMapStep<T, U>(f: T -> seq<U>, xs: seq<T>, i: nat)
    requires i < |xs|
    ensures FlatMap(f, xs[..i + 1]) == FlatMap(f, xs[..i]) + f(xs[i])
  {
    assert xs[..i + 1] == xs[..i] + [xs[i]];
    FlatMapSnoc(f, xs[..i], xs[i]);
  }

  /** Mapping two lists one after the other maps their concatenation. */
  lemma {:induction false} FlatMapAppend<T, U>(f: T -> seq<U>, a: seq<T>, b: seq<T>)
    ensures FlatMap(f, a + b) == FlatMap(f, a) + FlatMap(f, b)
    decreases |b|
  {
    if b == [] {
      assert a + b == a;
    } else {
      var init, last := b[..|b| - 1], b[|b| - 1];
      FlatMapAppend(f, a, init);
      SnocSplit(a, b);
      FlatMapSnoc(f, a + init, last);
      FlatMapSnoc(f, init, last);
      AppendAssociative(FlatMap(f, a), FlatMap(f, init), f(last));
    }
  }

  lemma FlatMapAppend3<T, U>(f: T -> seq<U>, a: seq<T>, b: seq<T>, c: seq<T>)
    ensures FlatMap(f, a + b + c) == FlatMap(f, a) + FlatMap(f, b) + FlatMap(f, c)
  {
    FlatMapAppend(f, a, b);
    FlatMapAppend(f, a + b, c);
  }

  /** Two functions that agree on every element of `xs` map it alike. */
  lemma {:induction false} FlatMapAgree<T, U>(f: T -> seq<U>, g: T -> seq<U>, xs: seq<T>)
    requires forall i :: 0 <= i < |xs| ==> f(xs[i]) == g(xs[i])
    ensures FlatMap(f, xs) == FlatMap(g, xs)
    decreases |xs|
  {
    if xs != [] {
      FlatMapAgree(f, g, xs[..|xs| - 1]);
    }
  }

  /** Everything in the result was yielded by some element. */
  lemma {:induction false} FlatMapFrom<T, U>(f: T -> seq<U>, xs: seq<T>, y: U) returns (i: nat)
    requires y in FlatMap(f, xs)
    ensures i < |xs| && y in f(xs[i])
    decreases |xs|
  {
    var init := xs[..|xs| - 1];
    if y in FlatMap(f, init) {
      i := FlatMapFrom(f, init, y);
      assert init[i] == xs[i];
    } else {
      i := |xs| - 1;
    }
  }

  /** Everything an element yields is in the result. */
  lemma {:induction false} FlatMapOf<T, U>(f: T -> seq<U>, xs: seq<T>, i: nat, y: U)
    requires i < |xs| && y in f(xs[i])
    ensures y in FlatMap(f, xs)
    decreases |xs|
  {
    var init := xs[..|xs| - 1];
    if i < |init| {
      assert init[i] == xs[i];
      FlatMapOf(f, init, i, y);
    }
  }
}
