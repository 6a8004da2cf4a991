/** Accuracy counting: `get_score` (main.cpp:230-241).

    The source loops over the labels, counts the rows whose first column equals the
    prediction at the same index, and divides by the prediction's length. The model keeps
    the count and the length apart; the division is `Ratio`. */
module Accuracy {

  /** The column of a label row that holds the class id (main.cpp:11). */
  const CLASS_NUMBER: nat := 0

  /** `matches` correct predictions out of `total`. */
  datatype Score = Score(matches: nat, total: nat)

  /** The labels can be compared against a prediction of length `len`: every label row has a
      class column and no label lies past the end of the prediction (both read unchecked). */
  predicate LabelsFit(labels: seq<seq<int>>, len: nat)
  {
    |labels| <= len && forall i :: 0 <= i < |labels| ==> |labels[i]| > CLASS_NUMBER
  }

  /** Instance `i` is predicted correctly. */
  predicate Hit(labels: seq<seq<int>>, prediction: seq<int>, i: nat)
    requires LabelsFit(labels, |prediction|) && i < |labels|
  {
    labels[i][CLASS_NUMBER] == prediction[i]
  }

  /** The number of correctly predicted labels, counted in label order. */
  function MatchCount(labels: seq<seq<int>>, prediction: seq<int>): (count: nat)
    requires LabelsFit(labels, |prediction|)
    ensures count <= |labels|
    ensures count == |labels| <==> forall i :: 0 <= i < |labels| ==> Hit(labels, prediction, i)
    ensures count == 0 <==> forall i :: 0 <= i < |labels| ==> !Hit(labels, prediction, i)
    decreases |labels|
  {
    if |labels| == 0 then 0
    else
      var last := |labels| - 1;
      assert forall i :: 0 <= i < last ==> Hit(labels[..last], prediction, i) == Hit(labels, prediction, i);
      MatchCount(labels[..last], prediction) + (if Hit(labels, prediction, last) then 1 else 0)
  }

  /** The indices of the correctly predicted labels. */
  function HitSet(labels: seq<seq<int>>, prediction: seq<int>, upTo: nat): set<nat>
    requires LabelsFit(labels, |prediction|) && upTo <= |labels|
  {
    set i: nat | i < upTo && Hit(labels, prediction, i)
  }

  /** The count is the size of the set of correctly predicted indices. */
  lemma {:induction false} MatchCountIsHitSetSize(labels: seq<seq<int>>, prediction: seq<int>)
    requires LabelsFit(labels, |prediction|)
    ensures MatchCount(labels, prediction) == |HitSet(labels, prediction, |labels|)|
    decreases |labels|
  {
    if |labels| > 0 {
      var last := |labels| - 1;
      var front := labels[..last];
      MatchCountIsHitSetSize(front, prediction);
      assert HitSet(front, prediction, last) == HitSet(labels, prediction, last);
      if Hit(labels, prediction, last) {
        assert HitSet(labels, prediction, |labels|) == HitSet(labels, prediction, last) + {last};
      } else {
        assert HitSet(labels, prediction, |labels|) == HitSet(labels, prediction, last);
      }
    }
  }

  /** The accuracy of a prediction against the labels. */
  function GetScore(labels: seq<seq<int>>, prediction: seq<int>): (score: Score)
    requires LabelsFit(labels, |prediction|)
    ensures score.total == |prediction|
    ensures score.matches <= |labels| <= score.total
    ensures score.matches == score.total <==>
      |labels| == |prediction| && forall i :: 0 <= i < |labels| ==> Hit(labels, prediction, i)
    ensures score.matches == 0 <==> forall i :: 0 <= i < |labels| ==> !Hit(labels, prediction, i)
  {
    Score(MatchCount(labels, prediction), |prediction|)
  }

  /** The fraction correct, `matches / total`: in [0, 1] when the count does not exceed the
      total, 1 exactly when all are correct and 0 exactly when none is. */
  function Ratio(score: Score): (r: real)
    requires score.total > 0
    ensures score.matches <= score.total ==> 0.0 <= r <= 1.0
    ensures r == 1.0 <==> score.matches == score.total
    ensures r == 0.0 <==> score.matches == 0
  {
    FractionBounds(score.matches, score.total);
    score.matches as real / score.total as real
  }

  /** A count out of a positive total, as a fraction: never negative, at most 1 when the count
      does not exceed the total, 1 only for all, 0 only for none. */
  lemma FractionBounds(matches: nat, total: nat)
    requires total > 0
    ensures 0.0 <= matches as real / total as real
    ensures matches <= total ==> matches as real / total as real <= 1.0
    ensures matches as real / total as real == 1.0 <==> matches == total
    ensures matches as real / total as real == 0.0 <==> matches == 0
  {
    var m, t := matches as real, total as real;
    var r := m / t;
    assert r * t == m;
    assert (1.0 - r) * t == t - m;
    DivideBySelf(t);
  }

  /** A positive number divided by itself is one. */
  lemma DivideBySelf(t: real)
    requires t > 0.0
    ensures t / t == 1.0
  {
  }

  /** For labels aligned with a non-empty prediction the fraction lies in [0, 1]; it is 1
      exactly when every label is predicted and 0 exactly when none is. */
  lemma RatioBounds(labels: seq<seq<int>>, prediction: seq<int>)
    requires LabelsFit(labels, |prediction|) && |labels| == |prediction| > 0
    ensures 0.0 <= Ratio(GetScore(labels, prediction)) <= 1.0
    ensures Ratio(GetScore(labels, prediction)) == 1.0 <==> forall i :: 0 <= i < |labels| ==> Hit(labels, prediction, i)
    ensures Ratio(GetScore(labels, prediction)) == 0.0 <==> forall i :: 0 <= i < |labels| ==> !Hit(labels, prediction, i)
  {
    var score := GetScore(labels, prediction);
    FractionBounds(score.matches, score.total);
  }
}
