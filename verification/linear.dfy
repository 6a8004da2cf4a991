/** Linear scoring and per-classifier prediction: `get_scores`, `predict` and
    `predict_linearly` (main.cpp:184-228, main.cpp:269-282).

    A weight matrix (`betha`) holds one row per class; the row's columns are addressed
    by the constants below, as the source's `Classifier` enum does. A dataset row holds
    the two features, addressed as the `Feature` enum does. */
module Linear {
  import opened ArgMax

  /** Column positions in a weight row (main.cpp:32-37). */
  const BETHA_0: nat := 0
  const BETHA_1: nat := 1
  const BIAS: nat := 2

  /** Column positions in a dataset row (main.cpp:39-43). */
  const LENGTH: nat := 0
  const WIDTH: nat := 1

  /** Every dataset row has both features the scorer reads. */
  predicate ValidDataset(dataset: seq<seq<real>>)
  {
    forall i :: 0 <= i < |dataset| ==> |dataset[i]| > WIDTH
  }

  /** The weight matrix has a row for each of the `n` classes, each with all three coefficients. */
  predicate ValidWeights(betha: seq<seq<real>>, n: nat)
  {
    n <= |betha| && forall c :: 0 <= c < n ==> |betha[c]| > BIAS
  }

  /** The linear score of one class for one instance. */
  function ClassScore(coefficients: seq<real>, features: seq<real>): real
    requires |coefficients| > BIAS && |features| > WIDTH
  {
    coefficients[BIAS]
      + coefficients[BETHA_0] * features[LENGTH]
      + coefficients[BETHA_1] * features[WIDTH]
  }

  /** One score per class for instance `instance`, appended in class order. */
  function GetScores(dataset: seq<seq<real>>, betha: seq<seq<real>>, instance: nat, n: nat): (scores: seq<real>)
    requires instance < |dataset| && |dataset[instance]| > WIDTH
    requires ValidWeights(betha, n)
    ensures |scores| == n
    ensures forall c :: 0 <= c < n ==> scores[c] == ClassScore(betha[c], dataset[instance])
    decreases n
  {
    if n == 0 then []
    else GetScores(dataset, betha, instance, n - 1) + [ClassScore(betha[n - 1], dataset[instance])]
  }

  /** The class one classifier predicts for each instance, in row order. The arg-max reads
      the first score, so a non-empty dataset needs at least one class. */
  function Predict(dataset: seq<seq<real>>, betha: seq<seq<real>>, n: nat): (prediction: seq<int>)
    requires ValidDataset(dataset) && ValidWeights(betha, n)
    requires |dataset| == 0 || n >= 1
    ensures |prediction| == |dataset|
    ensures forall i :: 0 <= i < |dataset| ==> 0 <= prediction[i] < n
    ensures forall i, c :: 0 <= i < |dataset| && 0 <= c < n ==>
      ClassScore(betha[c], dataset[i]) <= ClassScore(betha[prediction[i]], dataset[i])
    ensures forall i, c :: 0 <= i < |dataset| && 0 <= c < prediction[i] ==>
      ClassScore(betha[c], dataset[i]) < ClassScore(betha[prediction[i]], dataset[i])
  {
    seq(|dataset|, i requires 0 <= i < |dataset| => MaxIndex(GetScores(dataset, betha, i, n)))
  }

  /** One prediction vector per weight matrix, appended in weight-matrix order. The caller's
      vector is empty at the only call site (main.cpp:301), so the result is returned fresh. */
  function PredictLinearly(weightVectors: seq<seq<seq<real>>>, dataset: seq<seq<real>>, n: nat): (predictions: seq<seq<int>>)
    requires ValidDataset(dataset)
    requires forall k :: 0 <= k < |weightVectors| ==> ValidWeights(weightVectors[k], n)
    requires |dataset| == 0 || n >= 1
    ensures |predictions| == |weightVectors|
    ensures forall k :: 0 <= k < |weightVectors| ==> predictions[k] == Predict(dataset, weightVectors[k], n)
    ensures forall k :: 0 <= k < |predictions| ==> |predictions[k]| == |dataset|
    ensures forall k, i :: 0 <= k < |predictions| && 0 <= i < |dataset| ==> 0 <= predictions[k][i] < n
    decreases |weightVectors|
  {
    if |weightVectors| == 0 then []
    else
      var last := |weightVectors| - 1;
      PredictLinearly(weightVectors[..last], dataset, n) + [Predict(dataset, weightVectors[last], n)]
  }
}
