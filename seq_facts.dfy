/**
 * Plain facts about sequences, slices and concatenation, stated once for
 * any element type so that the proofs over strings and lines can cite them.
 */
module SeqFacts {

  /** Splitting a concatenation at its first element. */
  lemma ConsAppend<T>(a: seq<T>, b: seq<T>)
    ensures a == [] ==> a + b == b
    ensures a != [] ==> a + b != [] && (a + b)[0] == a[0] && (a + b)[1..] == a[1..] + b
  {
  }

  /** A suffix cut in two at `j`. */
  lemma SplitAt<T>(xs: seq<T>, i: nat, j: nat)
    requires i <= j <= |xs|
    ensures xs[i..] == xs[i..j] + xs[j..]
  {
  }

  /** The slice of `n + 1` elements from `start`, read through the suffix from `start`. */
  lemma SliceOfRest<T>(xs: seq<T>, start: nat, n: nat)
    requires start + n < |xs|
    ensures |xs[start..start + n + 1]| == n + 1
    ensures xs[start..start + n + 1][..n] == xs[start..][..n]
    ensures xs[start..start + n + 1][n] == xs[start + n]
  {
  }

  /** A prefix made of a prefix `a`, one element `m` and the next `|b|` elements `b`. */
  lemma ThreePieces<T>(s: seq<T>, a: seq<T>, m: T, b: seq<T>)
    requires |a| < |s| && s[..|a|] == a && s[|a|] == m
    requires |b| <= |s[|a| + 1..]| && s[|a| + 1..][..|b|] == b
    ensures s[..|a| + 1 + |b|] == a + [m] + b
  {
  }

  /** The first `1 + k` elements are the head followed by the first `k` of the tail. */
  lemma SliceFacts<T>(xs: seq<T>, k: nat)
    requires k < |xs|
    ensures xs[..1 + k][0] == xs[0] && xs[..1 + k][1..] == xs[1..][..k] && xs[1..][k..] == xs[1 + k..]
  {
  }

  /** `xs.map(f)`. */
  function Map<A, B>(xs: seq<A>, f: A -> B): (ys: seq<B>)
    ensures |ys| == |xs|
    ensures forall j :: 0 <= j < |xs| ==> ys[j] == f(xs[j])
  {
    if xs == [] then [] else [f(xs[0])] + Map(xs[1..], f)
  }

  lemma MapCons<A, B>(x: A, xs: seq<A>, f: A -> B)
    ensures Map([x] + xs, f) == [f(x)] + Map(xs, f)
  {
    assert ([x] + xs)[1..] == xs;
  }
}
