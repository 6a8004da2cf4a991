/** The composition `predict(string, string)` performs once the data is loaded
    (main.cpp:296-314, main.cpp:284-294): predict with every weight matrix, vote, and score
    the vote against the labels. */
module Pipeline {
  import opened Seqs
  import opened Linear
  import opened Voting
  import opened Accuracy

  /** What the composition reads without checking: at least one weight matrix (the class
      count is the first one's row count), every matrix covering that many classes, two
      features per instance, a class for the arg-max whenever there is an instance, and label
      rows that fit the ensemble prediction. */
  predicate Runnable(dataset: seq<seq<real>>, labels: seq<seq<int>>, weightVectors: seq<seq<seq<real>>>)
  {
    && |weightVectors| >= 1
    && ValidDataset(dataset)
    && (forall k :: 0 <= k < |weightVectors| ==> ValidWeights(weightVectors[k], |weightVectors[0]|))
    && (|dataset| == 0 || |weightVectors[0]| >= 1)
    && LabelsFit(labels, |dataset|)
  }

  /** The ensemble's accuracy on the validation data. */
  function Evaluate(dataset: seq<seq<real>>, labels: seq<seq<int>>, weightVectors: seq<seq<seq<real>>>): (score: Score)
    requires Runnable(dataset, labels, weightVectors)
    ensures score.total == |dataset|
    ensures score.matches <= |labels|
  {
    var classifiers := |weightVectors|;
    var classes := |weightVectors[0]|;
    var predictions := PredictLinearly(weightVectors, dataset, classes);
    var final := Voter(dataset, predictions, classes, classifiers);
    GetScore(labels, final)
  }

  /** An ensemble of identical classifiers scores exactly as one of them does: every instance
      is a unanimous vote. */
  lemma EvaluateIdenticalClassifiers(dataset: seq<seq<real>>, labels: seq<seq<int>>, weightVectors: seq<seq<seq<real>>>)
    requires Runnable(dataset, labels, weightVectors)
    requires forall k :: 0 <= k < |weightVectors| ==> weightVectors[k] == weightVectors[0]
    ensures Evaluate(dataset, labels, weightVectors) ==
      GetScore(labels, Predict(dataset, weightVectors[0], |weightVectors[0]|))
  {
    var classes := |weightVectors[0]|;
    var predictions := PredictLinearly(weightVectors, dataset, classes);
    var single := Predict(dataset, weightVectors[0], classes);
    var final := Voter(dataset, predictions, classes, |weightVectors|);
    forall i | 0 <= i < |dataset|
      ensures final[i] == single[i]
    {
      Unanimity(predictions, i, classes, |weightVectors|, single[i]);
    }
    assert final == single;
  }

  /** The prediction of one weight matrix, or nothing for a matrix that cannot be used. */
  function PredictWith(dataset: seq<seq<real>>, n: nat): seq<seq<real>> -> seq<int>
  {
    (betha: seq<seq<real>>) =>
      if ValidDataset(dataset) && ValidWeights(betha, n) && (|dataset| == 0 || n >= 1)
      then Predict(dataset, betha, n) else []
  }

  /** Predicting with every matrix is mapping the per-matrix prediction over them. */
  lemma PredictLinearlyIsMap(weightVectors: seq<seq<seq<real>>>, dataset: seq<seq<real>>, n: nat)
    requires ValidDataset(dataset)
    requires forall k :: 0 <= k < |weightVectors| ==> ValidWeights(weightVectors[k], n)
    requires |dataset| == 0 || n >= 1
    ensures PredictLinearly(weightVectors, dataset, n) == Map(PredictWith(dataset, n), weightVectors)
  {
  }

  /** A permutation of weight matrices sharing one class count is as runnable as the original. */
  lemma PermutationRunnable(dataset: seq<seq<real>>, labels: seq<seq<int>>,
                            weightVectors: seq<seq<seq<real>>>, permuted: seq<seq<seq<real>>>)
    requires Runnable(dataset, labels, weightVectors)
    requires forall k :: 0 <= k < |weightVectors| ==> |weightVectors[k]| == |weightVectors[0]|
    requires multiset(weightVectors) == multiset(permuted)
    ensures |permuted| == |weightVectors|
    ensures forall k :: 0 <= k < |permuted| ==> |permuted[k]| == |weightVectors[0]|
    ensures Runnable(dataset, labels, permuted)
  {
    var classes := |weightVectors[0]|;
    assert |weightVectors| == |multiset(weightVectors)| == |multiset(permuted)| == |permuted|;
    forall k | 0 <= k < |permuted|
      ensures |permuted[k]| == classes && ValidWeights(permuted[k], classes)
    {
      assert permuted[k] in multiset(weightVectors);
      var j :| 0 <= j < |weightVectors| && weightVectors[j] == permuted[k];
    }
  }

  /** Permuting the weight matrices permutes their prediction vectors. */
  lemma PredictionsPermuted(dataset: seq<seq<real>>, weightVectors: seq<seq<seq<real>>>,
                            permuted: seq<seq<seq<real>>>, n: nat)
    requires ValidDataset(dataset) && (|dataset| == 0 || n >= 1)
    requires forall k :: 0 <= k < |weightVectors| ==> ValidWeights(weightVectors[k], n)
    requires forall k :: 0 <= k < |permuted| ==> ValidWeights(permuted[k], n)
    requires multiset(weightVectors) == multiset(permuted)
    ensures multiset(PredictLinearly(weightVectors, dataset, n)) == multiset(PredictLinearly(permuted, dataset, n))
  {
    PredictLinearlyIsMap(weightVectors, dataset, n);
    PredictLinearlyIsMap(permuted, dataset, n);
    MapPermutation(PredictWith(dataset, n), weightVectors, permuted);
  }

  /** The classifier order does not matter: permuting weight matrices that share one class
      count leaves the ensemble's accuracy unchanged. */
  lemma EvaluateIgnoresClassifierOrder(dataset: seq<seq<real>>, labels: seq<seq<int>>,
                                       weightVectors: seq<seq<seq<real>>>, permuted: seq<seq<seq<real>>>)
    requires Runnable(dataset, labels, weightVectors)
    requires forall k :: 0 <= k < |weightVectors| ==> |weightVectors[k]| == |weightVectors[0]|
    requires multiset(weightVectors) == multiset(permuted)
    ensures Runnable(dataset, labels, permuted)
    ensures Evaluate(dataset, labels, permuted) == Evaluate(dataset, labels, weightVectors)
  {
    PermutationRunnable(dataset, labels, weightVectors, permuted);
    var classes := |weightVectors[0]|;
    assert |permuted[0]| == classes;
    PredictionsPermuted(dataset, weightVectors, permuted, classes);
    var p := PredictLinearly(weightVectors, dataset, classes);
    var q := PredictLinearly(permuted, dataset, classes);
    VoterIgnoresClassifierOrder(dataset, p, q, classes);
    var vp := Voter(dataset, p, classes, |p|);
    assert Evaluate(dataset, labels, weightVectors) == GetScore(labels, vp);
    assert Evaluate(dataset, labels, permuted) == GetScore(labels, vp);
  }

  /** The validation set of the worked example: instances (1, 1) and (5, 5). */
  const ExampleDataset: seq<seq<real>> := [[1.0, 1.0], [5.0, 5.0]]

  /** The worked example's labels: the small instance is class 0, the large one class 1. */
  const ExampleLabels: seq<seq<int>> := [[0], [1]]

  /** The worked example's weights: the class-0 score falls and the class-1 score rises with size. */
  const ExampleWeights: seq<seq<real>> := [[-1.0, -1.0, 6.0], [1.0, 1.0, 0.0]]

  /** The worked example's classifier predicts both instances correctly. */
  lemma ExamplePrediction()
    ensures Predict(ExampleDataset, ExampleWeights, 2) == [0, 1]
  {
    var dataset, betha := ExampleDataset, ExampleWeights;
    var single := Predict(dataset, betha, 2);
    assert single[0] == 0 by {
      assert ClassScore(betha[0], dataset[0]) == 4.0;
      assert ClassScore(betha[1], dataset[0]) == 2.0;
    }
    assert single[1] == 1 by {
      assert ClassScore(betha[0], dataset[1]) == -4.0;
      assert ClassScore(betha[1], dataset[1]) == 10.0;
    }
  }

  /** Two identical classifiers on the worked example give an accuracy of 100%. */
  lemma EndToEndExample()
    ensures Runnable(ExampleDataset, ExampleLabels, [ExampleWeights, ExampleWeights])
    ensures Evaluate(ExampleDataset, ExampleLabels, [ExampleWeights, ExampleWeights]) == Score(2, 2)
  {
    var weightVectors := [ExampleWeights, ExampleWeights];
    assert Runnable(ExampleDataset, ExampleLabels, weightVectors);
    EvaluateIdenticalClassifiers(ExampleDataset, ExampleLabels, weightVectors);
    ExamplePrediction();
    assert Hit(ExampleLabels, [0, 1], 0) && Hit(ExampleLabels, [0, 1], 1);
  }
}
