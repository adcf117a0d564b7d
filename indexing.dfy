/** Sequence operations that stand for the tensor and data-loader operations of
    the training script: counting and selecting by a boolean mask, `arange`,
    Python's slice bounds, cutting into batches and concatenating batches. */
module Indexing {

  /** Number of set flags, as `mask.sum()` on a boolean array. */
  function Count(mask: seq<bool>): (n: nat)
    ensures n <= |mask|
  {
    if mask == [] then 0
    else Count(mask[..|mask| - 1]) + (if mask[|mask| - 1] then 1 else 0)
  }

  /** The rank of a set flag is smaller than the number of set flags. */
  lemma {:induction false} RankBelowCount(mask: seq<bool>, i: nat)
    requires i < |mask| && mask[i]
    ensures Count(mask[..i]) < Count(mask)
  {
    var n := |mask| - 1;
    if i == n {
      assert mask[..n] == mask[..i];
    } else {
      RankBelowCount(mask[..n], i);
      assert mask[..n][..i] == mask[..i];
    }
  }

  /** Boolean-mask selection `xs[mask]`: the entries whose flag is set, in index order. */
  function Select<T>(xs: seq<T>, mask: seq<bool>): (r: seq<T>)
    requires |xs| == |mask|
    ensures |r| == Count(mask)
  {
    if mask == [] then []
    else
      var n := |mask| - 1;
      Select(xs[..n], mask[..n]) + (if mask[n] then [xs[n]] else [])
  }

  /** A flagged entry lands in the selection at its rank among the flagged entries. */
  lemma {:induction false} SelectAt<T>(xs: seq<T>, mask: seq<bool>, i: nat)
    requires |xs| == |mask| && i < |mask| && mask[i]
    ensures Count(mask[..i]) < Count(mask)
    ensures Select(xs, mask)[Count(mask[..i])] == xs[i]
  {
    RankBelowCount(mask, i);
    var n := |mask| - 1;
    if i == n {
      assert mask[..n] == mask[..i];
    } else {
      SelectAt(xs[..n], mask[..n], i);
      assert mask[..n][..i] == mask[..i];
    }
  }

  /** `arange(lo, hi)`: the integers lo, lo+1, ..., hi-1. */
  function Arange(lo: int, hi: int): (r: seq<int>)
    ensures |r| == if lo < hi then hi - lo else 0
  {
    seq(if lo < hi then hi - lo else 0, k => lo + k)
  }

  lemma ArangeMembership(lo: int, hi: int, x: int)
    ensures x in Arange(lo, hi) <==> lo <= x < hi
  {
    if lo <= x < hi {
      assert Arange(lo, hi)[x - lo] == x;
    }
  }

  /** Every integer occurs in `arange(lo, hi)` at most once, and exactly once inside the range. */
  lemma {:induction false} ArangeMultiplicity(lo: int, hi: int, x: int)
    decreases hi - lo
    ensures multiset(Arange(lo, hi))[x] == if lo <= x < hi then 1 else 0
  {
    if lo < hi {
      ArangeMultiplicity(lo + 1, hi, x);
      assert Arange(lo, hi) == [lo] + Arange(lo + 1, hi);
    }
  }

  /** Python's normalisation of a slice bound `i` against a length `n`: a negative
      bound counts from the end, and the result is clamped into [0, n]. In particular
      `-0` is `0`, the start of the sequence. */
  function SliceBound(i: int, n: nat): (b: nat)
    ensures b <= n
    ensures 0 <= i <= n ==> b == i
    ensures i < 0 && 0 <= n + i ==> b == n + i
    ensures i > n ==> b == n
    ensures i + n < 0 ==> b == 0
  {
    if i < 0 then (if i + n < 0 then 0 else i + n)
    else if i > n then n
    else i
  }

  /** `xs[:stop]` */
  function SliceTo<T>(xs: seq<T>, stop: int): seq<T>
  {
    xs[..SliceBound(stop, |xs|)]
  }

  /** `xs[start:]` */
  function SliceFrom<T>(xs: seq<T>, start: int): seq<T>
  {
    xs[SliceBound(start, |xs|)..]
  }

  /** Concatenation of a list of batches, as `torch.cat(list, axis=0)`: the batches'
      rows in batch order, so the first batch's rows come first. */
  function Concat<T>(xss: seq<seq<T>>): (r: seq<T>)
    ensures xss != [] ==> xss[0] <= r
  {
    if xss == [] then [] else xss[0] + Concat(xss[1..])
  }

  lemma {:induction false} ConcatSnoc<T>(xss: seq<seq<T>>, ys: seq<T>)
    ensures Concat(xss + [ys]) == Concat(xss) + ys
  {
    if xss == [] {
      assert [] + [ys] == [ys];
    } else {
      assert (xss + [ys])[1..] == xss[1..] + [ys];
      ConcatSnoc(xss[1..], ys);
    }
  }

  /** The batches a `DataLoader` without `drop_last` cuts a sequence into: every batch
      holds `size` entries except possibly the last, none is empty, and the batches
      concatenate back to the sequence. */
  function Chunks<T>(xs: seq<T>, size: nat): (r: seq<seq<T>>)
    requires size > 0
    decreases |xs|
    ensures Concat(r) == xs
    ensures forall k :: 0 <= k < |r| ==> 0 < |r[k]| <= size
    ensures forall k :: 0 <= k < |r| - 1 ==> |r[k]| == size
  {
    if xs == [] then []
    else if |xs| <= size then [xs]
    else
      var rest := Chunks(xs[size..], size);
      assert ([xs[..size]] + rest)[1..] == rest;
      [xs[..size]] + rest
  }
}
