/** Sequence helpers shared by the reader, the predictor and the voter. */
module Seqs {

  /** Applies `f` to every element, keeping the order. */
  function Map<A, B>(f: A -> B, s: seq<A>): (r: seq<B>)
    ensures |r| == |s|
    ensures forall i :: 0 <= i < |s| ==> r[i] == f(s[i])
  {
    if |s| == 0 then [] else [f(s[0])] + Map(f, s[1..])
  }

  /** Mapping distributes over concatenation. */
  lemma MapAppend<A, B>(f: A -> B, a: seq<A>, b: seq<A>)
    ensures Map(f, a + b) == Map(f, a) + Map(f, b)
  {
    assert forall i :: 0 <= i < |a + b| ==> Map(f, a + b)[i] == (Map(f, a) + Map(f, b))[i];
  }

  /** Reordering the input reorders the output alike: mapping preserves permutations. */
  lemma {:induction false} MapPermutation<A, B>(f: A -> B, p: seq<A>, q: seq<A>)
    requires multiset(p) == multiset(q)
    ensures multiset(Map(f, p)) == multiset(Map(f, q))
    decreases |p|
  {
    if |p| == 0 {
      assert |q| == |multiset(q)| == 0;
    } else {
      var x := p[0];
      assert x in multiset(q);
      assert x in q;
      var j :| 0 <= j < |q| && q[j] == x;
      var q' := q[..j] + q[j + 1..];
      assert q == q[..j] + [x] + q[j + 1..];
      assert p == [x] + p[1..];
      assert multiset(q) == multiset(q[..j]) + multiset{x} + multiset(q[j + 1..]);
      assert multiset(p) == multiset{x} + multiset(p[1..]);
      assert multiset(q') == multiset(q[..j]) + multiset(q[j + 1..]);
      assert multiset(p[1..]) == multiset(p) - multiset{x};
      assert multiset(q') == multiset(q) - multiset{x};
      MapPermutation(f, p[1..], q');
      MapAppend(f, q[..j] + [x], q[j + 1..]);
      MapAppend(f, q[..j], [x]);
      MapAppend(f, q[..j], q[j + 1..]);
      MapAppend(f, [x], p[1..]);
    }
  }

  /** The sum of a sequence of counts. */
  function Sum(s: seq<nat>): nat
  {
    if |s| == 0 then 0 else s[0] + Sum(s[1..])
  }

  /** Incrementing one entry increments the sum by one. */
  lemma {:induction false} SumIncrement(s: seq<nat>, c: nat)
    requires c < |s|
    ensures Sum(s[c := s[c] + 1]) == Sum(s) + 1
    decreases |s|
  {
    if c > 0 {
      assert s[c := s[c] + 1][1..] == s[1..][c - 1 := s[c] + 1];
      SumIncrement(s[1..], c - 1);
    } else {
      assert s[c := s[c] + 1][1..] == s[1..];
    }
  }

  /** A sequence of zeros sums to zero. */
  lemma {:induction false} SumZeros(n: nat)
    ensures Sum(seq(n, _ => 0)) == 0
  {
    if n > 0 {
      assert seq(n, _ => 0)[1..] == seq(n - 1, _ => 0);
      SumZeros(n - 1);
    }
  }
}
