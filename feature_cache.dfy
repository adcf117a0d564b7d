/** The per-node embedding cache (`cls_feats`) and its refresh, `update_feature`:
    the token rows of the document nodes are encoded in batches of 1024, the batch
    outputs are concatenated, and the result is written in place into the cache rows
    selected by the document mask. The encoder is an opaque function from a token row
    to a feature vector. */
module FeatureCache {
  import opened Indexing
  import Layout

  /** One node's token row: input ids and attention mask, padded to the maximum length. */
  datatype Tokens = Tokens(inputIds: seq<int>, attentionMask: seq<int>)

  type Feature = seq<real>

  /** The encoder's first-position output for one token row. */
  type Encoder = Tokens -> Feature

  /** The refresh batch size. */
  const RefreshBatch: nat := 1024

  function ZeroTokens(width: nat): Tokens
  {
    Tokens(Layout.Zeros(width, 0), Layout.Zeros(width, 0))
  }

  function ZeroFeature(dim: nat): Feature
  {
    Layout.Zeros(dim, 0.0)
  }

  /** Reference definition: every row encoded on its own. */
  function EncodeEach(encode: Encoder, rows: seq<Tokens>): (r: seq<Feature>)
    ensures |r| == |rows|
  {
    seq(|rows|, k requires 0 <= k < |rows| => encode(rows[k]))
  }

  lemma EncodeEachAppend(encode: Encoder, a: seq<Tokens>, b: seq<Tokens>)
    ensures EncodeEach(encode, a + b) == EncodeEach(encode, a) + EncodeEach(encode, b)
  {
  }

  /** The encoding loop of `update_feature`: one encoder call per batch of the data
      loader, outputs appended to `cls_list`, then concatenated. Batching does not
      change the result: row `k` of the output is the encoding of input row `k`.
      With no rows at all the loop appends nothing, and concatenating an empty
      `cls_list` is an error, so the rows must not be empty. */
  method EncodeInBatches(encode: Encoder, rows: seq<Tokens>, batchSize: nat) returns (feats: seq<Feature>)
    requires |rows| > 0 && batchSize > 0
    ensures |feats| == |rows|
    ensures forall k :: 0 <= k < |rows| ==> feats[k] == encode(rows[k])
  {
    var batches := Chunks(rows, batchSize);
    var clsList: seq<seq<Feature>> := [];
    for i := 0 to |batches|
      invariant Concat(clsList) == EncodeEach(encode, Concat(batches[..i]))
    {
      ConcatSnoc(clsList, EncodeEach(encode, batches[i]));
      ConcatSnoc(batches[..i], batches[i]);
      assert batches[..i + 1] == batches[..i] + [batches[i]];
      EncodeEachAppend(encode, Concat(batches[..i]), batches[i]);
      clsList := clsList + [EncodeEach(encode, batches[i])];
    }
    assert batches[..|batches|] == batches;
    feats := Concat(clsList);
  }

  /** Masked assignment `cache[mask] = vals`, read as a function: the k-th flagged row,
      in index order, receives `vals[k]`; unflagged rows keep their value. */
  function Scatter(cache: seq<Feature>, mask: seq<bool>, vals: seq<Feature>): (r: seq<Feature>)
    requires |cache| == |mask| && |vals| == Count(mask)
    ensures |r| == |cache|
  {
    if mask == [] then []
    else
      var n := |mask| - 1;
      var head := Scatter(cache[..n], mask[..n], vals[..Count(mask[..n])]);
      head + [if mask[n] then vals[Count(mask[..n])] else cache[n]]
  }

  lemma {:induction false} ScatterAt(cache: seq<Feature>, mask: seq<bool>, vals: seq<Feature>, i: nat)
    requires |cache| == |mask| && |vals| == Count(mask) && i < |mask|
    ensures mask[i] ==> Count(mask[..i]) < |vals|
    ensures Scatter(cache, mask, vals)[i] == if mask[i] then vals[Count(mask[..i])] else cache[i]
  {
    if mask[i] {
      RankBelowCount(mask, i);
    }
    var n := |mask| - 1;
    if i < n {
      ScatterAt(cache[..n], mask[..n], vals[..Count(mask[..n])], i);
      assert mask[..n][..i] == mask[..i];
      if mask[i] {
        RankBelowCount(mask[..n], i);
      }
    } else {
      assert mask[..n] == mask[..i];
    }
  }

  /** Refreshing twice with the same values gives what refreshing once gives: the
      result does not depend on the old contents of the flagged rows. */
  lemma ScatterIdempotent(cache: seq<Feature>, mask: seq<bool>, vals: seq<Feature>)
    requires |cache| == |mask| && |vals| == Count(mask)
    ensures Scatter(Scatter(cache, mask, vals), mask, vals) == Scatter(cache, mask, vals)
  {
    var once := Scatter(cache, mask, vals);
    forall i | 0 <= i < |mask|
      ensures Scatter(once, mask, vals)[i] == once[i]
    {
      ScatterAt(cache, mask, vals, i);
      ScatterAt(once, mask, vals, i);
    }
  }

  /** The in-place masked write of `update_feature`: all flagged rows are written at once. */
  method WriteMasked(a: array<Feature>, mask: seq<bool>, vals: seq<Feature>)
    requires a.Length == |mask| && |vals| == Count(mask)
    modifies a
    ensures a[..] == Scatter(old(a[..]), mask, vals)
  {
    forall i | 0 <= i < a.Length
      ensures mask[i] ==> Count(mask[..i]) < |vals|
    {
      if mask[i] {
        RankBelowCount(mask, i);
      }
    }
    forall i | 0 <= i < a.Length && mask[i] {
      a[i] := vals[Count(mask[..i])];
    }
    forall i | 0 <= i < a.Length
      ensures a[..][i] == Scatter(old(a[..]), mask, vals)[i]
    {
      ScatterAt(old(a[..]), mask, vals, i);
    }
  }

  /** The graph's node data: token rows and the document mask, both fixed, and the
      embedding cache, which refreshes overwrite in place. */
  class Graph {
    const tokens: seq<Tokens>
    const docMask: seq<bool>
    const dim: nat
    const clsFeats: array<Feature>

    /** One cache row per node, at least one document node, and the rows of word nodes
        are never written. */
    ghost predicate Valid()
      reads clsFeats
    {
      clsFeats.Length == |tokens| == |docMask| && Count(docMask) > 0 &&
      forall i :: 0 <= i < clsFeats.Length && !docMask[i] ==> clsFeats[i] == ZeroFeature(dim)
    }

    /** The cache as refreshed with `encode`: each document row holds the encoding of
        that node's tokens and each word row is zero. */
    ghost predicate RefreshedWith(encode: Encoder)
      reads clsFeats
      requires Valid()
    {
      forall i :: 0 <= i < clsFeats.Length ==>
        clsFeats[i] == if docMask[i] then encode(tokens[i]) else ZeroFeature(dim)
    }

    /** The graph of a corpus laid out by `counts`: spliced token rows, the document
        mask as the OR of the split masks, and a zero-initialised cache. The splice as
        written places the rows at their nodes only when there is a test document. */
    constructor (counts: Layout.Counts, docs: seq<Tokens>, width: nat, dim: nat)
      requires Layout.Consistent(counts) && counts.nbTest > 0
      requires |docs| == counts.nbTrain + counts.nbVal + counts.nbTest
      ensures Valid() && fresh(clsFeats)
      ensures tokens == Layout.Splice(counts, docs, ZeroTokens(width))
      ensures tokens == Layout.SpliceAsWritten(docs, ZeroTokens(width), Layout.NbWord(counts) as nat, counts.nbTest)
      ensures docMask == Layout.DocMask(Layout.TrainMask(counts), Layout.ValMask(counts), Layout.TestMask(counts))
      ensures this.dim == dim
      ensures clsFeats[..] == Layout.Zeros(counts.nbNode, ZeroFeature(dim))
    {
      tokens := Layout.Splice(counts, docs, ZeroTokens(width));
      docMask := Layout.DocMask(Layout.TrainMask(counts), Layout.ValMask(counts), Layout.TestMask(counts));
      this.dim := dim;
      clsFeats := new Feature[counts.nbNode](_ => ZeroFeature(dim));
      Layout.SpliceAsWrittenAgrees(counts, docs, ZeroTokens(width));
      Layout.LaidOutMasks(counts);
      Layout.CountDocMask(Layout.TrainMask(counts), Layout.ValMask(counts), Layout.TestMask(counts));
    }

    /** `update_feature`: encode the document rows (selected by the document mask, in
        index order) in batches of 1024 and write the results back at the same rows. */
    method Refresh(encode: Encoder)
      requires Valid()
      modifies clsFeats
      ensures Valid()
      ensures clsFeats[..] == Scatter(old(clsFeats[..]), docMask, EncodeEach(encode, Select(tokens, docMask)))
      ensures RefreshedWith(encode)
    {
      var selected := Select(tokens, docMask);
      var clsFeat := EncodeInBatches(encode, selected, RefreshBatch);
      assert clsFeat == EncodeEach(encode, selected);
      WriteMasked(clsFeats, docMask, clsFeat);
      forall i | 0 <= i < clsFeats.Length
        ensures clsFeats[i] == if docMask[i] then encode(tokens[i]) else ZeroFeature(dim)
      {
        ScatterAt(old(clsFeats[..]), docMask, clsFeat, i);
        if docMask[i] {
          SelectAt(tokens, docMask, i);
        }
      }
    }

    /** The write the forward pass makes in training mode: each queried row of the
        cache gets the encoding of its tokens under the current encoder, and every
        other row keeps its value. Queried document rows keep the word rows zero. */
    method WriteRows(idx: seq<int>, encode: Encoder)
      requires Valid()
      requires forall k :: 0 <= k < |idx| ==> 0 <= idx[k] < clsFeats.Length
      modifies clsFeats
      ensures forall i :: 0 <= i < clsFeats.Length ==>
                clsFeats[i] == if i in idx then encode(tokens[i]) else old(clsFeats[i])
      ensures (forall k :: 0 <= k < |idx| ==> docMask[idx[k]]) ==> Valid()
    {
      forall i | 0 <= i < clsFeats.Length && i in idx {
        clsFeats[i] := encode(tokens[i]);
      }
    }
  }
}
