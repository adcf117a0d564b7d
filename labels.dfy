/** Class labels: the row-wise `argmax` of score rows (one-hot label rows or
    predicted log-probabilities), and the labels the graph stores, taken from the
    sum of the three split-wise one-hot label matrices. */
module Labels {
  type Row = seq<real>

  /** `row.argmax()`: the index of the first largest entry. */
  function ArgMax(row: Row): (r: nat)
    requires |row| > 0
    ensures r < |row|
    ensures forall j :: 0 <= j < |row| ==> row[j] <= row[r]
    ensures forall j :: 0 <= j < r ==> row[j] < row[r]
  {
    if |row| == 1 then 0
    else
      var k := ArgMax(row[..|row| - 1]);
      if row[|row| - 1] > row[k] then |row| - 1 else k
  }

  /** `m.argmax(axis=1)` */
  function ArgMaxRows(m: seq<Row>): (r: seq<nat>)
    requires forall i :: 0 <= i < |m| ==> |m[i]| > 0
    ensures |r| == |m|
  {
    seq(|m|, i requires 0 <= i < |m| => ArgMax(m[i]))
  }

  /** Element-wise sum of two matrices of the same shape. */
  function AddRows(a: seq<Row>, b: seq<Row>): (r: seq<Row>)
    requires |a| == |b| && forall i :: 0 <= i < |a| ==> |a[i]| == |b[i]|
    ensures |r| == |a| && forall i :: 0 <= i < |a| ==> |r[i]| == |a[i]|
  {
    seq(|a|, i requires 0 <= i < |a| => seq(|a[i]|, j requires 0 <= j < |a[i]| => a[i][j] + b[i][j]))
  }

  predicate IsZeroRow(row: Row)
  {
    forall j :: 0 <= j < |row| ==> row[j] == 0.0
  }

  /** The one-hot row of class `k` among `nbClass` classes. */
  predicate IsOneHot(row: Row, k: nat)
  {
    k < |row| && row[k] == 1.0 && forall j :: 0 <= j < |row| && j != k ==> row[j] == 0.0
  }

  /** A label matrix of shape nodes x classes with at least one class. */
  predicate Shaped(y: seq<Row>, nbNode: nat, nbClass: nat)
  {
    nbClass > 0 && |y| == nbNode && forall i :: 0 <= i < |y| ==> |y[i]| == nbClass
  }

  /** The per-split label matrix is zero on every node outside its split. */
  predicate ZeroOutside(y: seq<Row>, mask: seq<bool>)
    requires |y| == |mask|
  {
    forall i :: 0 <= i < |y| && !mask[i] ==> IsZeroRow(y[i])
  }

  /** `y = y_train + y_test + y_val`, then `y.argmax(axis=1)`. */
  function NodeLabels(yTrain: seq<Row>, yVal: seq<Row>, yTest: seq<Row>, nbClass: nat): (r: seq<nat>)
    requires Shaped(yTrain, |yTrain|, nbClass) && Shaped(yVal, |yTrain|, nbClass) && Shaped(yTest, |yTrain|, nbClass)
    ensures |r| == |yTrain| && forall i :: 0 <= i < |r| ==> r[i] < nbClass
  {
    ArgMaxRows(AddRows(AddRows(yTrain, yTest), yVal))
  }

  /** The argmax of a one-hot row is its class; of an all-zero row it is class 0. */
  lemma ArgMaxOfOneHot(row: Row, k: nat)
    requires IsOneHot(row, k)
    ensures ArgMax(row) == k
  {
  }

  lemma ArgMaxOfZeroRow(row: Row)
    requires |row| > 0 && IsZeroRow(row)
    ensures ArgMax(row) == 0
  {
  }

  /** On a train node (no validation or test flag) `label_train` and `label` agree; on a
      node with no flag at all, a word node, both are class 0. */
  lemma LabelTrainAgrees(yTrain: seq<Row>, yVal: seq<Row>, yTest: seq<Row>, nbClass: nat,
                         val: seq<bool>, test: seq<bool>, i: nat)
    requires Shaped(yTrain, |yTrain|, nbClass) && Shaped(yVal, |yTrain|, nbClass) && Shaped(yTest, |yTrain|, nbClass)
    requires |val| == |test| == |yTrain|
    requires ZeroOutside(yVal, val) && ZeroOutside(yTest, test)
    requires i < |yTrain| && !val[i] && !test[i]
    ensures NodeLabels(yTrain, yVal, yTest, nbClass)[i] == ArgMaxRows(yTrain)[i]
    ensures IsZeroRow(yTrain[i]) ==> NodeLabels(yTrain, yVal, yTest, nbClass)[i] == 0
  {
    var y := AddRows(AddRows(yTrain, yTest), yVal);
    assert y[i] == yTrain[i];
    if IsZeroRow(yTrain[i]) {
      ArgMaxOfZeroRow(yTrain[i]);
    }
  }
}
