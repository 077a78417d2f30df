/**
  Splitting a sequence into consecutive batches of bounded size, as
  `itertools.islice` in a loop does, and putting the batches back together.
 */
module Batching {

  /** The batches laid end to end. */
  function Flatten<T>(xss: seq<seq<T>>): seq<T> {
    if |xss| == 0 then [] else xss[0] + Flatten(xss[1..])
  }

  lemma {:induction false} FlattenAppend<T>(a: seq<seq<T>>, b: seq<seq<T>>)
    ensures Flatten(a + b) == Flatten(a) + Flatten(b)
  {
    if |a| == 0 {
      assert a + b == b;
    } else {
      assert (a + b)[1..] == a[1..] + b;
      FlattenAppend(a[1..], b);
    }
  }

  function Min(a: nat, b: nat): nat {
    if a < b then a else b
  }

  /** Consecutive batches of `size` elements, the last one possibly shorter. */
  function Chunked<T>(xs: seq<T>, size: nat): seq<seq<T>>
    requires size > 0
    decreases |xs|
  {
    if |xs| == 0 then []
    else
      var m := Min(size, |xs|);
      [xs[..m]] + Chunked(xs[m..], size)
  }

  /** The batches, laid end to end, are the input in its order. */
  lemma {:induction false} ChunkedFlatten<T>(xs: seq<T>, size: nat)
    requires size > 0
    ensures Flatten(Chunked(xs, size)) == xs
    decreases |xs|
  {
    if |xs| > 0 {
      var m := Min(size, |xs|);
      ChunkedFlatten(xs[m..], size);
      assert ([xs[..m]] + Chunked(xs[m..], size))[1..] == Chunked(xs[m..], size);
      assert xs == xs[..m] + xs[m..];
    }
  }

  /** Every batch is non-empty and at most `size` long; all but the last are exactly `size`. */
  lemma {:induction false} ChunkedSizes<T>(xs: seq<T>, size: nat)
    requires size > 0
    ensures var c := Chunked(xs, size);
      && (forall k :: 0 <= k < |c| ==> 0 < |c[k]| <= size)
      && (forall k :: 0 <= k < |c| - 1 ==> |c[k]| == size)
    decreases |xs|
  {
    if |xs| > 0 {
      var m := Min(size, |xs|);
      ChunkedSizes(xs[m..], size);
      var c := Chunked(xs, size);
      assert c[1..] == Chunked(xs[m..], size);
      assert |c| > 1 ==> m == size;
    }
  }

  /** There are `ceil(|xs| / size)` batches: the fewest that hold `|xs|` elements. */
  lemma {:induction false} ChunkedCount<T>(xs: seq<T>, size: nat)
    requires size > 0
    ensures var n := |Chunked(xs, size)|;
      |xs| <= n * size && (n == 0 || (n - 1) * size < |xs|)
    decreases |xs|
  {
    if |xs| > 0 {
      var m := Min(size, |xs|);
      var n' := |Chunked(xs[m..], size)|;
      ChunkedCount(xs[m..], size);
      assert (n' + 1) * size == n' * size + size;
      if n' > 0 {
        assert n' * size == (n' - 1) * size + size;
      }
    }
  }
}
