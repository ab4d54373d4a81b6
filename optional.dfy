/** An optional value: stands for JavaScript's `undefined`/`null` next to a present value. */
module Optional {

  datatype Option<+T> = None | Some(value: T) {

    /** The value, or `default` when absent (JavaScript's `x ?? default`). */
    function GetOr(default: T): T {
      match this
      case Some(v) => v
      case None => default
    }
  }

  /** The present results of `f` over `xs`, in order: `map(f)` followed by `filter(Boolean)`. */
  function Present<X, Y>(xs: seq<X>, f: X -> Option<Y>): seq<Y>
    decreases |xs|
  {
    if xs == [] then []
    else Present(xs[..|xs| - 1], f) + (if f(xs[|xs| - 1]).Some? then [f(xs[|xs| - 1]).value] else [])
  }

  /**
   * `idx` lists, in increasing order, exactly the positions of `xs` where `f`
   * is present, and `ys[k]` is the result of `f` at position `idx[k]`.
   */
  ghost predicate PresentAt<X, Y>(xs: seq<X>, f: X -> Option<Y>, ys: seq<Y>, idx: seq<nat>) {
    && |idx| == |ys|
    && (forall k :: 0 <= k < |idx| ==> idx[k] < |xs| && f(xs[idx[k]]) == Some(ys[k]))
    && (forall k, l :: 0 <= k < l < |idx| ==> idx[k] < idx[l])
    && (forall i :: 0 <= i < |xs| && f(xs[i]).Some? ==> i in idx)
  }

  /** `Present` keeps each present result once, at the position of its element. */
  lemma {:induction false} PresentIndexed<X, Y>(xs: seq<X>, f: X -> Option<Y>) returns (idx: seq<nat>)
    ensures PresentAt(xs, f, Present(xs, f), idx)
    decreases |xs|
  {
    if xs == [] {
      idx := [];
    } else {
      var init := xs[..|xs| - 1];
      var prev := PresentIndexed(init, f);
      var last := f(xs[|xs| - 1]);
      idx := prev + (if last.Some? then [|xs| - 1] else []);
      var ys := Present(xs, f);
      assert ys == Present(init, f) + (if last.Some? then [last.value] else []);
      forall k | 0 <= k < |idx|
        ensures idx[k] < |xs| && f(xs[idx[k]]) == Some(ys[k])
      {
        if k < |prev| {
          assert xs[prev[k]] == init[prev[k]];
        }
      }
      forall i | 0 <= i < |xs| && f(xs[i]).Some? ensures i in idx {
        if i < |init| {
          assert xs[i] == init[i];
          assert i in prev;
        }
      }
    }
  }
}
