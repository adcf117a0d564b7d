/** The train accuracy that one training step reports for its batch of node
    indices: only the train-flagged rows of the batch are scored, and a batch
    without train-flagged rows reports an accuracy of exactly 1. */
module Accuracy {
  import opened Indexing
  import opened Labels

  /** `xs[idx]`: the entries at the batch's node indices, in batch order. */
  function Gather<T>(xs: seq<T>, idx: seq<nat>): (r: seq<T>)
    requires forall k :: 0 <= k < |idx| ==> idx[k] < |xs|
    ensures |r| == |idx|
  {
    seq(|idx|, k requires 0 <= k < |idx| => xs[idx[k]])
  }

  /** Number of positions where two label sequences agree. */
  function Matches(yTrue: seq<nat>, yPred: seq<nat>): (n: nat)
    requires |yTrue| == |yPred|
    ensures n <= |yTrue|
  {
    if yTrue == [] then 0
    else
      var n := |yTrue| - 1;
      Matches(yTrue[..n], yPred[..n]) + (if yTrue[n] == yPred[n] then 1 else 0)
  }

  /** `accuracy_score(y_true, y_pred)`: the fraction of agreeing positions. */
  function AccuracyScore(yTrue: seq<nat>, yPred: seq<nat>): (acc: real)
    requires |yTrue| == |yPred| > 0
    ensures 0.0 <= acc <= 1.0
  {
    Matches(yTrue, yPred) as real / |yTrue| as real
  }

  /** Reference count: the flagged positions whose prediction equals the label. */
  function FlaggedHits(flags: seq<bool>, yTrue: seq<nat>, yPred: seq<nat>): nat
    requires |flags| == |yTrue| == |yPred|
  {
    if flags == [] then 0
    else
      var n := |flags| - 1;
      FlaggedHits(flags[..n], yTrue[..n], yPred[..n]) + (if flags[n] && yTrue[n] == yPred[n] then 1 else 0)
  }

  /** Selecting the flagged rows first and then counting agreements counts exactly the
      flagged agreements. */
  lemma {:induction false} SelectMatches(flags: seq<bool>, yTrue: seq<nat>, yPred: seq<nat>)
    requires |flags| == |yTrue| == |yPred|
    ensures Matches(Select(yTrue, flags), Select(yPred, flags)) == FlaggedHits(flags, yTrue, yPred)
    ensures FlaggedHits(flags, yTrue, yPred) <= Count(flags)
  {
    if flags != [] {
      var n := |flags| - 1;
      SelectMatches(flags[..n], yTrue[..n], yPred[..n]);
      var a, b := Select(yTrue[..n], flags[..n]), Select(yPred[..n], flags[..n]);
      if flags[n] {
        assert Select(yTrue, flags) == a + [yTrue[n]];
        assert Select(yPred, flags) == b + [yPred[n]];
        assert (a + [yTrue[n]])[..|a|] == a;
        assert (b + [yPred[n]])[..|b|] == b;
      } else {
        assert Select(yTrue, flags) == a;
        assert Select(yPred, flags) == b;
      }
    }
  }

  /** Taking the argmax of each row commutes with selecting rows by a mask. */
  lemma {:induction false} ArgMaxRowsSelect(rows: seq<Row>, flags: seq<bool>)
    requires |rows| == |flags| && forall i :: 0 <= i < |rows| ==> |rows[i]| > 0
    ensures forall i :: 0 <= i < |Select(rows, flags)| ==> |Select(rows, flags)[i]| > 0
    ensures ArgMaxRows(Select(rows, flags)) == Select(ArgMaxRows(rows), flags)
  {
    if flags != [] {
      var n := |flags| - 1;
      ArgMaxRowsSelect(rows[..n], flags[..n]);
      assert ArgMaxRows(rows)[..n] == ArgMaxRows(rows[..n]);
      var s := Select(rows[..n], flags[..n]);
      if flags[n] {
        assert Select(rows, flags) == s + [rows[n]];
        assert ArgMaxRows(s + [rows[n]]) == ArgMaxRows(s) + [ArgMax(rows[n])];
      } else {
        assert Select(rows, flags) == s;
      }
    }
  }

  /** The accuracy part of a training step on batch `idx` (node indices), given the
      model's log-probability rows for the batch: the train flags of the batch select
      the rows that are scored. */
  function TrainAccuracy(trainFlag: seq<bool>, labelTrain: seq<nat>, idx: seq<nat>, logProbs: seq<Row>): (acc: real)
    requires |trainFlag| == |labelTrain|
    requires forall k :: 0 <= k < |idx| ==> idx[k] < |trainFlag|
    requires |logProbs| == |idx| && forall k :: 0 <= k < |logProbs| ==> |logProbs[k]| > 0
    ensures 0.0 <= acc <= 1.0
    ensures var flags := Gather(trainFlag, idx);
            Count(flags) == 0 ==> acc == 1.0
    ensures var flags := Gather(trainFlag, idx);
            var hits := FlaggedHits(flags, Gather(labelTrain, idx), ArgMaxRows(logProbs));
            Count(flags) > 0 ==> acc == hits as real / Count(flags) as real
  {
    var flags := Gather(trainFlag, idx);
    var labels := Gather(labelTrain, idx);
    var yTrue := Select(labels, flags);
    var yPred := Select(logProbs, flags);
    if Count(flags) == 0 then 1.0
    else
      ArgMaxRowsSelect(logProbs, flags);
      SelectMatches(flags, labels, ArgMaxRows(logProbs));
      assert ArgMaxRows(yPred) == Select(ArgMaxRows(logProbs), flags);
      var hits := FlaggedHits(flags, labels, ArgMaxRows(logProbs));
      assert Matches(yTrue, ArgMaxRows(yPred)) == hits;
      AccuracyScore(yTrue, ArgMaxRows(yPred))
  }
}
