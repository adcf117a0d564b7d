/** Node layout of the document/word graph: the node counts derived from the
    split masks, the index ranges of the train, validation, word and test nodes,
    the document mask, and the splice that places token rows in node order
    `[train and validation documents | zero rows for word nodes | test documents]`. */
module Layout {
  import opened Indexing

  /** Node counts: all nodes, and the train, validation and test documents. */
  datatype Counts = Counts(nbNode: nat, nbTrain: nat, nbVal: nat, nbTest: nat)

  /** Word nodes are the nodes that are not documents. */
  function NbWord(c: Counts): int
  {
    c.nbNode - c.nbTrain - c.nbVal - c.nbTest
  }

  /** Counts that can describe a graph: there are at least as many nodes as documents. */
  predicate Consistent(c: Counts)
  {
    NbWord(c) >= 0
  }

  /** Counts taken from the split masks: the number of rows and the sum of each mask. */
  function CountsOf(train: seq<bool>, val: seq<bool>, test: seq<bool>): Counts
    requires |train| == |val| == |test|
  {
    Counts(|train|, Count(train), Count(val), Count(test))
  }

  /** The document mask: the sum of three boolean masks, i.e. their pointwise OR. */
  function DocMask(train: seq<bool>, val: seq<bool>, test: seq<bool>): (m: seq<bool>)
    requires |train| == |val| == |test|
    ensures |m| == |train|
  {
    seq(|train|, i requires 0 <= i < |train| => train[i] || val[i] || test[i])
  }

  function Indicator(b: bool): nat { if b then 1 else 0 }

  /** No node carries two split flags. */
  predicate Disjoint(train: seq<bool>, val: seq<bool>, test: seq<bool>)
    requires |train| == |val| == |test|
  {
    forall i :: 0 <= i < |train| ==> !(train[i] && val[i]) && !(train[i] && test[i]) && !(val[i] && test[i])
  }

  /** For disjoint masks the document mask counts every document exactly once. */
  lemma {:induction false} CountDocMask(train: seq<bool>, val: seq<bool>, test: seq<bool>)
    requires |train| == |val| == |test|
    requires Disjoint(train, val, test)
    ensures Count(DocMask(train, val, test)) == Count(train) + Count(val) + Count(test)
  {
    if |train| > 0 {
      var n := |train| - 1;
      var d := DocMask(train, val, test);
      var dn := DocMask(train[..n], val[..n], test[..n]);
      assert d[..n] == dn;
      assert Disjoint(train[..n], val[..n], test[..n]);
      CountDocMask(train[..n], val[..n], test[..n]);
      assert Count(d) == Count(dn) + Indicator(d[n]);
      assert Count(train) == Count(train[..n]) + Indicator(train[n]);
      assert Count(val) == Count(val[..n]) + Indicator(val[n]);
      assert Count(test) == Count(test[..n]) + Indicator(test[n]);
    }
  }

  /** So the word count derived from the mask sums is the number of nodes that carry no
      split flag, and is never negative. */
  lemma WordCountFromMasks(train: seq<bool>, val: seq<bool>, test: seq<bool>)
    requires |train| == |val| == |test|
    requires Disjoint(train, val, test)
    ensures NbWord(CountsOf(train, val, test)) == |train| - Count(DocMask(train, val, test))
    ensures Consistent(CountsOf(train, val, test))
  {
    CountDocMask(train, val, test);
  }

  /** `train_idx`, `val_idx`, `test_idx` and their concatenation `doc_idx`; the word
      nodes are the nodes between the validation and the test documents. */
  function TrainIdx(c: Counts): (r: seq<int>)
    ensures |r| == c.nbTrain
  {
    Arange(0, c.nbTrain)
  }

  function ValIdx(c: Counts): (r: seq<int>)
    ensures |r| == c.nbVal
  {
    Arange(c.nbTrain, c.nbTrain + c.nbVal)
  }

  function WordIdx(c: Counts): seq<int> { Arange(c.nbTrain + c.nbVal, c.nbNode - c.nbTest) }

  function TestIdx(c: Counts): (r: seq<int>)
    ensures c.nbTest <= c.nbNode ==> |r| == c.nbTest
  {
    Arange(c.nbNode - c.nbTest, c.nbNode)
  }

  function DocIdx(c: Counts): (r: seq<int>)
    ensures Consistent(c) ==> |r| == c.nbTrain + c.nbVal + c.nbTest
  {
    TrainIdx(c) + ValIdx(c) + TestIdx(c)
  }

  /** The four index ranges are pairwise disjoint and cover every node exactly once. */
  lemma RangesPartition(c: Counts, i: int)
    requires Consistent(c)
    ensures Indicator(i in TrainIdx(c)) + Indicator(i in ValIdx(c)) + Indicator(i in WordIdx(c))
            + Indicator(i in TestIdx(c)) == if 0 <= i < c.nbNode then 1 else 0
  {
    ArangeMembership(0, c.nbTrain, i);
    ArangeMembership(c.nbTrain, c.nbTrain + c.nbVal, i);
    ArangeMembership(c.nbTrain + c.nbVal, c.nbNode - c.nbTest, i);
    ArangeMembership(c.nbNode - c.nbTest, c.nbNode, i);
  }

  /** `doc_idx` lists every train, validation and test node exactly once and no other
      index: no word node and nothing outside the graph. */
  lemma DocIdxOnce(c: Counts, i: int)
    requires Consistent(c)
    ensures multiset(DocIdx(c))[i] ==
              if 0 <= i < c.nbTrain + c.nbVal || c.nbNode - c.nbTest <= i < c.nbNode then 1 else 0
  {
    var t, v, s := TrainIdx(c), ValIdx(c), TestIdx(c);
    assert multiset(t + v + s) == multiset(t) + multiset(v) + multiset(s);
    ArangeMultiplicity(0, c.nbTrain, i);
    ArangeMultiplicity(c.nbTrain, c.nbTrain + c.nbVal, i);
    ArangeMultiplicity(c.nbNode - c.nbTest, c.nbNode, i);
  }

  /** The mask that is set exactly on the nodes in [lo, hi). */
  function RangeMask(n: nat, lo: int, hi: int): seq<bool>
  {
    seq(n, i => lo <= i < hi)
  }

  lemma {:induction false} CountRangeMask(n: nat, lo: nat, hi: nat)
    requires lo <= hi <= n
    ensures Count(RangeMask(n, lo, hi)) == hi - lo
  {
    if n > 0 {
      var m := RangeMask(n, lo, hi);
      assert Count(m) == Count(m[..n - 1]) + Indicator(m[n - 1]);
      assert m[..n - 1] == RangeMask(n - 1, lo, hi);
      if hi < n {
        CountRangeMask(n - 1, lo, hi);
      } else if lo < n {
        assert RangeMask(n - 1, lo, hi) == RangeMask(n - 1, lo, n - 1);
        CountRangeMask(n - 1, lo, n - 1);
      } else {
        assert RangeMask(n - 1, lo, hi) == RangeMask(n - 1, n - 1, n - 1);
        CountRangeMask(n - 1, n - 1, n - 1);
      }
    }
  }

  /** The split masks of a graph laid out by `Counts`: documents first, test documents last. */
  function TrainMask(c: Counts): seq<bool> { RangeMask(c.nbNode, 0, c.nbTrain) }
  function ValMask(c: Counts): seq<bool> { RangeMask(c.nbNode, c.nbTrain, c.nbTrain + c.nbVal) }
  function TestMask(c: Counts): seq<bool> { RangeMask(c.nbNode, c.nbNode - c.nbTest, c.nbNode) }

  /** On a graph laid out this way, counting the mask entries gives back the counts
      the ranges were built from, the masks are disjoint, and the document mask is set
      exactly on the document ranges. */
  lemma LaidOutMasks(c: Counts)
    requires Consistent(c)
    ensures CountsOf(TrainMask(c), ValMask(c), TestMask(c)) == c
    ensures Disjoint(TrainMask(c), ValMask(c), TestMask(c))
    ensures forall i :: 0 <= i < c.nbNode ==>
              (DocMask(TrainMask(c), ValMask(c), TestMask(c))[i] <==> i !in WordIdx(c))
  {
    CountRangeMask(c.nbNode, 0, c.nbTrain);
    CountRangeMask(c.nbNode, c.nbTrain, c.nbTrain + c.nbVal);
    CountRangeMask(c.nbNode, c.nbNode - c.nbTest, c.nbNode);
    forall i | 0 <= i < c.nbNode
      ensures DocMask(TrainMask(c), ValMask(c), TestMask(c))[i] <==> i !in WordIdx(c)
    {
      ArangeMembership(c.nbTrain + c.nbVal, c.nbNode - c.nbTest, i);
    }
  }

  /** `n` copies of the all-zero row. */
  function Zeros<T>(n: nat, zero: T): seq<T>
  {
    seq(n, _ => zero)
  }

  /** The token splice as written: `cat([rows[:-nb_test], zeros(nb_word), rows[-nb_test:]])`,
      with Python's slice bounds (so `-0` selects from the start). */
  function SpliceAsWritten<T>(docs: seq<T>, zero: T, nbWord: nat, nbTest: nat): (r: seq<T>)
    ensures nbTest <= |docs| ==> |r| == |docs| + nbWord
    ensures nbTest <= |docs| ==> r[|r| - nbTest..] == docs[|docs| - nbTest..]
  {
    SliceTo(docs, -(nbTest as int)) + Zeros(nbWord, zero) + SliceFrom(docs, -(nbTest as int))
  }

  /** The splice as intended: the leading documents, a zero row per word node, then
      the last `nbTest` documents, so that row `i` belongs to node `i`. */
  function Splice<T>(c: Counts, docs: seq<T>, zero: T): (r: seq<T>)
    requires Consistent(c) && |docs| == c.nbTrain + c.nbVal + c.nbTest
    ensures |r| == c.nbNode
    ensures forall i :: 0 <= i < c.nbTrain + c.nbVal ==> r[i] == docs[i]
    ensures forall i :: c.nbTrain + c.nbVal <= i < c.nbNode - c.nbTest ==> r[i] == zero
    ensures forall i :: c.nbNode - c.nbTest <= i < c.nbNode ==> r[i] == docs[i - NbWord(c)]
  {
    var split := |docs| - c.nbTest;
    docs[..split] + Zeros(NbWord(c), zero) + docs[split..]
  }

  /** With at least one test document the splice as written is the intended one. */
  lemma SpliceAsWrittenAgrees<T>(c: Counts, docs: seq<T>, zero: T)
    requires Consistent(c) && |docs| == c.nbTrain + c.nbVal + c.nbTest
    requires c.nbTest > 0
    ensures SpliceAsWritten(docs, zero, NbWord(c), c.nbTest) == Splice(c, docs, zero)
  {
  }

  /** Without test documents, `[:-0]` is empty and `[-0:]` is everything: every document
      lands after the zero block, so a train or validation node whose document is not
      a zero row is given the zero row instead. */
  lemma SpliceAsWrittenWithoutTest<T>(c: Counts, docs: seq<T>, zero: T)
    requires Consistent(c) && |docs| == c.nbTrain + c.nbVal + c.nbTest
    requires c.nbTest == 0
    ensures SpliceAsWritten(docs, zero, NbWord(c), c.nbTest) == Zeros(NbWord(c), zero) + docs
    ensures NbWord(c) > 0 && |docs| > 0 && docs[0] != zero ==>
              0 in TrainIdx(c) + ValIdx(c) && SpliceAsWritten(docs, zero, NbWord(c), c.nbTest)[0] != docs[0]
  {
    if NbWord(c) > 0 && |docs| > 0 {
      ArangeMembership(0, c.nbTrain, 0);
      ArangeMembership(c.nbTrain, c.nbTrain + c.nbVal, 0);
    }
  }
}
