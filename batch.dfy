/**
 * The batched bulk insert both package stores use: the packages are cut
 * into consecutive batches of at most 1000, one multi-row INSERT each,
 * inside one transaction; the first batch the database refuses ends the
 * loop.
 */
module Batch {
  import opened Wrappers

  const BatchSize: nat := 1000

  /** Number of INSERT statements for `n` rows. */
  function Batches(n: nat): nat {
    if n == 0 then 0 else if n <= BatchSize then 1 else 1 + Batches(n - BatchSize)
  }

  /** One more batch: a non-empty remainder takes one INSERT plus those of what is left after it. */
  lemma BatchStep(n: nat, i: nat)
    requires i < n
    ensures i + BatchSize <= n ==> Batches(n - i) == 1 + Batches(n - i - BatchSize)
    ensures i + BatchSize >= n ==> Batches(n - i) == 1
  {
  }

  /** `f` applied to every element, in order. */
  function MapSeq<A, B>(xs: seq<A>, f: A -> B): (ys: seq<B>)
    ensures |ys| == |xs| && forall i :: 0 <= i < |xs| ==> ys[i] == f(xs[i])
  {
    seq(|xs|, i requires 0 <= i < |xs| => f(xs[i]))
  }

  lemma MapSeqAppend<A, B>(a: seq<A>, b: seq<A>, f: A -> B)
    ensures MapSeq(a + b, f) == MapSeq(a, f) + MapSeq(b, f)
  {
  }

  function Sum(xs: seq<nat>): nat {
    if xs == [] then 0 else Sum(xs[..|xs| - 1]) + xs[|xs| - 1]
  }

  lemma SumAppend(xs: seq<nat>, x: nat)
    ensures Sum(xs + [x]) == Sum(xs) + x
  {
    assert (xs + [x])[..|xs|] == xs;
  }

  /**
   * The INSERT statements of a bulk replace, collected in the open
   * transaction. `refused` is the batch the database refuses, if any: the
   * loop stops there and reports it. Otherwise every item is staged, in
   * order, in `Batches(|items|)` statements of 1 to 1000 rows each.
   */
  method InsertBatches<P, R>(items: seq<P>, encode: P -> R, refused: Option<nat>)
    returns (failed: Option<nat>, staged: seq<R>, ghost inserts: seq<nat>)
    ensures failed.Some? <==> refused.Some? && refused.value < Batches(|items|)
    ensures failed.Some? ==> failed == refused
    ensures forall k :: 0 <= k < |inserts| ==> 0 < inserts[k] <= BatchSize
    ensures failed.None? ==> staged == MapSeq(items, encode) && |inserts| == Batches(|items|) && Sum(inserts) == |items|
  {
    staged, inserts := [], [];
    var n := |items|;
    var i, b := 0, 0;
    while i < n
      invariant i == b * BatchSize && i < n + BatchSize
      invariant i <= n ==> staged == MapSeq(items[..i], encode) && b + Batches(n - i) == Batches(n)
      invariant i > n ==> staged == MapSeq(items, encode) && b == Batches(n)
      invariant refused.Some? ==> refused.value >= b
      invariant |inserts| == b
      invariant forall k :: 0 <= k < |inserts| ==> 0 < inserts[k] <= BatchSize
      invariant Sum(inserts) == |staged|
    {
      var end := if i + BatchSize > n then n else i + BatchSize;
      var batch := items[i..end];
      if refused == Some(b) {
        return Some(b), staged, inserts;
      }
      assert items[..end] == items[..i] + batch;
      MapSeqAppend(items[..i], batch, encode);
      BatchStep(n, i);
      SumAppend(inserts, |batch|);
      staged := staged + MapSeq(batch, encode);
      inserts := inserts + [|batch|];
      i, b := i + BatchSize, b + 1;
    }
    if i == n {
      assert b == Batches(n);
      assert items[..n] == items;
    }
    failed := None;
  }
}
