/** What several of the models share. */
module Basics {

  datatype Option<T> = None | Some(value: T)

  /** A sequence without its element i. */
  function Without<T>(xs: seq<T>, i: nat): (rest: seq<T>)
    requires i < |xs|
    ensures |rest| == |xs| - 1
  {
    xs[..i] + xs[i + 1..]
  }

  lemma {:induction false} WithoutLosesOne<T>(xs: seq<T>, i: nat)
    requires i < |xs|
    ensures multiset(Without(xs, i)) == multiset(xs) - multiset{xs[i]}
  {
    assert xs == xs[..i] + [xs[i]] + xs[i + 1..];
  }

  /** Two orders of the same elements stay so when the same element is taken out of both. */
  lemma {:induction false} SameWithout<T>(xs: seq<T>, ys: seq<T>, i: nat, j: nat)
    requires i < |xs| && j < |ys| && xs[i] == ys[j] && multiset(xs) == multiset(ys)
    ensures multiset(Without(xs, i)) == multiset(Without(ys, j))
  {
    WithoutLosesOne(xs, i);
    WithoutLosesOne(ys, j);
  }

  lemma {:induction false} LessTimes(x: real, y: real, t: real)
    requires t > 0.0
    ensures x < y <==> x * t < y * t
  {
    if x < y {
      assert (y - x) * t > 0.0;
    } else {
      assert (x - y) * t >= 0.0;
    }
  }

  lemma {:induction false} SameQuotient(x: real, y: real, q: real)
    requires q != 0.0 && x * q == y * q
    ensures x == y
  {
    assert (x - y) * q == 0.0;
  }
}
