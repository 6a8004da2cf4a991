/** Hard majority voting: `get_final_class` and `voter` (main.cpp:243-267).

    At each instance the votes of the first `m` classifiers are tallied per class and
    the tally goes through the same arg-max as the scores, so the class with the most
    votes wins and, among equally voted classes, the lowest class id. */
module Voting {
  import opened Seqs
  import opened ArgMax

  /** Each of the first `m` prediction vectors covers `len` instances with class ids in `[0, n)`;
      the source indexes the tally with these ids unchecked. */
  predicate ValidVotes(predictions: seq<seq<int>>, m: nat, len: nat, n: nat)
  {
    && m <= |predictions|
    && (forall k :: 0 <= k < m ==> |predictions[k]| >= len)
    && (forall k, i :: 0 <= k < m && 0 <= i < len ==> 0 <= predictions[k][i] < n)
  }

  /** What `get_final_class` reads at one instance: each of the first `m` prediction vectors
      has a class id in `[0, n)` at position `instance`. */
  predicate ValidColumn(predictions: seq<seq<int>>, m: nat, instance: nat, n: nat)
  {
    && m <= |predictions|
    && (forall k :: 0 <= k < m ==> instance < |predictions[k]|)
    && (forall k :: 0 <= k < m ==> 0 <= predictions[k][instance] < n)
  }

  /** Reads position `instance` of a prediction vector. */
  function Entry(instance: nat): seq<int> -> int
  {
    (row: seq<int>) => if instance < |row| then row[instance] else -1
  }

  /** The class each classifier predicts at one instance, in classifier order. */
  function Column(predictions: seq<seq<int>>, instance: nat): (votes: seq<int>)
    ensures |votes| == |predictions|
    ensures forall k :: 0 <= k < |predictions| && instance < |predictions[k]| ==>
      votes[k] == predictions[k][instance]
  {
    Map(Entry(instance), predictions)
  }

  /** The per-class tally, built one vote at a time in classifier order. */
  function Tally(votes: seq<int>, n: nat): (tally: seq<nat>)
    requires forall k :: 0 <= k < |votes| ==> 0 <= votes[k] < n
    ensures |tally| == n
    ensures forall c :: 0 <= c < n ==> tally[c] == multiset(votes)[c]
    decreases |votes|
  {
    if |votes| == 0 then seq(n, _ => 0)
    else
      var last := votes[|votes| - 1];
      var before := Tally(votes[..|votes| - 1], n);
      assert votes == votes[..|votes| - 1] + [last];
      before[last := before[last] + 1]
  }

  /** Every in-range vote lands in exactly one entry, so the tally sums to the number of votes. */
  lemma {:induction false} TallySum(votes: seq<int>, n: nat)
    requires forall k :: 0 <= k < |votes| ==> 0 <= votes[k] < n
    ensures Sum(Tally(votes, n)) == |votes|
    decreases |votes|
  {
    if |votes| == 0 {
      SumZeros(n);
    } else {
      var last := votes[|votes| - 1];
      TallySum(votes[..|votes| - 1], n);
      SumIncrement(Tally(votes[..|votes| - 1], n), last);
    }
  }

  /** The tally as the floating-point vector the source keeps it in. */
  function AsReals(tally: seq<nat>): (values: seq<real>)
    ensures |values| == |tally|
    ensures forall c :: 0 <= c < |tally| ==> values[c] == tally[c] as real
  {
    seq(|tally|, c requires 0 <= c < |tally| => tally[c] as real)
  }

  /** How many of the first `m` classifiers predict class `c` at `instance`. */
  function Votes(predictions: seq<seq<int>>, instance: nat, m: nat, c: int): nat
    requires m <= |predictions|
  {
    multiset(Column(predictions[..m], instance))[c]
  }

  /** The ensemble's class at one instance: the most voted class, the lowest id among ties. */
  function FinalClass(predictions: seq<seq<int>>, instance: nat, n: nat, m: nat): (winner: nat)
    requires n >= 1
    requires ValidColumn(predictions, m, instance, n)
    ensures winner < n
    ensures forall c :: 0 <= c < n ==> Votes(predictions, instance, m, c) <= Votes(predictions, instance, m, winner)
    ensures forall c :: 0 <= c < winner ==> Votes(predictions, instance, m, c) < Votes(predictions, instance, m, winner)
  {
    MaxIndex(AsReals(Tally(Column(predictions[..m], instance), n)))
  }

  /** The tally of one instance has `n` entries that add up to the number of classifiers. */
  lemma FinalClassTally(predictions: seq<seq<int>>, instance: nat, n: nat, m: nat)
    requires ValidColumn(predictions, m, instance, n)
    ensures |Tally(Column(predictions[..m], instance), n)| == n
    ensures Sum(Tally(Column(predictions[..m], instance), n)) == m
  {
    TallySum(Column(predictions[..m], instance), n);
  }

  /** The ensemble prediction: one final class per dataset row, in row order. */
  function Voter(dataset: seq<seq<real>>, predictions: seq<seq<int>>, n: nat, m: nat): (final: seq<int>)
    requires |dataset| == 0 || n >= 1
    requires ValidVotes(predictions, m, |dataset|, n)
    ensures |final| == |dataset|
    ensures forall i :: 0 <= i < |dataset| ==> 0 <= final[i] < n && final[i] == FinalClass(predictions, i, n, m)
  {
    seq(|dataset|, i requires 0 <= i < |dataset| => FinalClass(predictions, i, n, m) as int)
  }

  /** A column in which every vote is `c` holds `c` once per vote and nothing else. */
  lemma {:induction false} ConstantColumn(votes: seq<int>, c: int)
    requires forall k :: 0 <= k < |votes| ==> votes[k] == c
    ensures multiset(votes)[c] == |votes|
    ensures forall d :: d != c ==> multiset(votes)[d] == 0
    decreases |votes|
  {
    if |votes| > 0 {
      assert votes == [votes[0]] + votes[1..];
      ConstantColumn(votes[1..], c);
    }
  }

  /** Unanimity: when every classifier predicts `c` at an instance, the ensemble does too. */
  lemma Unanimity(predictions: seq<seq<int>>, instance: nat, n: nat, m: nat, c: nat)
    requires n >= 1 && m >= 1 && c < n
    requires ValidColumn(predictions, m, instance, n)
    requires forall k :: 0 <= k < m ==> predictions[k][instance] == c
    ensures FinalClass(predictions, instance, n, m) == c
  {
    var column := Column(predictions[..m], instance);
    ConstantColumn(column, c);
  }

  /** A one-one split between classes `a < b` of two classifiers goes to `a`; in particular a
      split between classes 0 and 1 goes to class 0. */
  lemma SplitGoesToLowerClass(predictions: seq<seq<int>>, instance: nat, n: nat, a: nat, b: nat)
    requires a < b < n
    requires ValidColumn(predictions, 2, instance, n)
    requires || (predictions[0][instance] == a && predictions[1][instance] == b)
             || (predictions[0][instance] == b && predictions[1][instance] == a)
    ensures FinalClass(predictions, instance, n, 2) == a
  {
    var column := Column(predictions[..2], instance);
    assert multiset(column) == multiset{a, b} by {
      assert column == [predictions[0][instance], predictions[1][instance]];
    }
    var w := FinalClass(predictions, instance, n, 2);
    assert Votes(predictions, instance, 2, a) == 1;
    assert Votes(predictions, instance, 2, b) == 1;
    assert w == a || w == b by {
      assert Votes(predictions, instance, 2, w) >= 1;
    }
  }

  /** Permuting the classifiers' prediction vectors permutes each instance's column. */
  lemma ColumnPermutation(p: seq<seq<int>>, q: seq<seq<int>>, instance: nat)
    requires multiset(p) == multiset(q)
    ensures multiset(Column(p, instance)) == multiset(Column(q, instance))
  {
    MapPermutation(Entry(instance), p, q);
  }

  /** Only the vote counts matter: permuting the classifiers' prediction vectors leaves the
      ensemble prediction unchanged. */
  lemma {:induction false} VoterIgnoresClassifierOrder(dataset: seq<seq<real>>, p: seq<seq<int>>, q: seq<seq<int>>, n: nat)
    requires |dataset| == 0 || n >= 1
    requires multiset(p) == multiset(q)
    requires ValidVotes(p, |p|, |dataset|, n)
    ensures ValidVotes(q, |q|, |dataset|, n)
    ensures Voter(dataset, p, n, |p|) == Voter(dataset, q, n, |q|)
  {
    assert |p| == |multiset(p)| == |multiset(q)| == |q|;
    forall k | 0 <= k < |q|
      ensures |q[k]| >= |dataset| && forall i :: 0 <= i < |dataset| ==> 0 <= q[k][i] < n
    {
      assert q[k] in multiset(p);
      var j :| 0 <= j < |p| && p[j] == q[k];
    }
    assert p[..|p|] == p;
    assert q[..|q|] == q;
    forall i | 0 <= i < |dataset|
      ensures FinalClass(p, i, n, |p|) == FinalClass(q, i, n, |q|)
    {
      ColumnPermutation(p, q, i);
      var tp := Tally(Column(p, i), n);
      var tq := Tally(Column(q, i), n);
      assert tp == tq;
    }
  }
}
