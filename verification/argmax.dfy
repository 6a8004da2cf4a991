/** The arg-max selector `get_max_index` (main.cpp:200-213): a left-to-right scan that
    moves to a new index only on a strictly greater value, so the first maximum wins. */
module ArgMax {

  /** `k` is where the maximum of `list` first occurs: no element exceeds `list[k]`,
      and every element before position `k` is strictly smaller. */
  predicate IsFirstMax(list: seq<real>, k: int)
  {
    && 0 <= k < |list|
    && (forall j :: 0 <= j < |list| ==> list[j] <= list[k])
    && (forall j :: 0 <= j < k ==> list[j] < list[k])
  }

  /** The index the scan settles on. The source reads `list[0]` unconditionally,
      so the list must not be empty. */
  function MaxIndex(list: seq<real>): (k: nat)
    requires |list| > 0
    ensures k < |list|
    ensures IsFirstMax(list, k)
  {
    assert list[..1] == [list[0]];
    MaxIndexFrom(list, 1, 0)
  }

  /** The scan from position `i` on, with `best` the index chosen among `list[..i]`. */
  function MaxIndexFrom(list: seq<real>, i: nat, best: nat): (k: nat)
    requires best < i <= |list|
    requires IsFirstMax(list[..i], best)
    ensures IsFirstMax(list, k)
    decreases |list| - i
  {
    if i == |list| then
      assert list[..i] == list;
      best
    else
      var next := if list[i] > list[best] then i else best;
      assert list[..i + 1] == list[..i] + [list[i]];
      MaxIndexFrom(list, i + 1, next)
  }

  /** An index is the scan's result exactly when it is the first maximum. */
  lemma MaxIndexExactly(list: seq<real>, k: int)
    requires |list| > 0
    ensures k == MaxIndex(list) <==> IsFirstMax(list, k)
  {
  }

  /** Ties go to the lowest index: of two positions holding the maximum, the later one is never chosen. */
  lemma TieGoesToLowerIndex(list: seq<real>, a: nat, b: nat)
    requires a < b < |list|
    requires list[a] == list[b]
    ensures MaxIndex(list) != b
  {
  }
}
