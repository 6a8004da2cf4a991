/** The suffix test `ends_with` (main.cpp:135-148), which picks out the weight files by
    their ".csv" extension (main.cpp:20, main.cpp:172).

    The source compares `first.substr(first_LENGTH - second_LENGTH, first_LENGTH - 1)` with
    `second`. The count argument is one short of the tail whenever the two strings have
    the same non-empty length, so a string never "ends with" itself. `EndsWithAsWritten`
    models that code; `EndsWith` is the suffix test the code evidently means. */
module Strings {

  /** The file-name extension of a weight-vector file. */
  const SUFFIX: string := ".csv"

  /** The number of values of a 64-bit `size_t`. */
  const SIZE_RANGE: int := 0x1_0000_0000_0000_0000

  /** The conversion of a signed `int` argument to `size_t`: a negative value wraps around. */
  function ToSize(n: int): nat
    requires -SIZE_RANGE <= n < SIZE_RANGE
  {
    if n < 0 then n + SIZE_RANGE else n
  }

  /** `s.substr(pos, count)`: the characters from `pos` on, at most `count` of them. */
  function Substr(s: string, pos: nat, count: nat): string
    requires pos <= |s|
  {
    s[pos..if count < |s| - pos then pos + count else |s|]
  }

  /** `suffix` is a tail of `s`. */
  predicate IsSuffix(suffix: string, s: string)
  {
    |suffix| <= |s| && s[|s| - |suffix|..] == suffix
  }

  /** `ends_with` as written: a proper suffix, or both strings empty. */
  function EndsWithAsWritten(first: string, second: string): (b: bool)
    requires |first| <= SIZE_RANGE
    ensures b <==> IsSuffix(second, first) && (|second| < |first| || |first| == 0)
  {
    if |first| < |second| then false
    else Substr(first, |first| - |second|, ToSize(|first| - 1)) == second
  }

  /** The discrepancy: every non-empty string fails the as-written test against itself,
      ".csv" included. */
  lemma EndsWithAsWrittenRejectsItself(s: string)
    requires 0 < |s| <= SIZE_RANGE
    ensures !EndsWithAsWritten(s, s)
    ensures !EndsWithAsWritten(SUFFIX, SUFFIX)
  {
  }

  /** The intended suffix test: the tail of `first` as long as `second` equals `second`. */
  function EndsWith(first: string, second: string): (b: bool)
    ensures b <==> IsSuffix(second, first)
  {
    if |first| < |second| then false
    else Substr(first, |first| - |second|, |second|) == second
  }

  /** The intended test agrees with an independent reading: `first` ends with `second` exactly
      when `first` is some prefix followed by `second`. The empty suffix always matches. */
  lemma EndsWithIsConcatenation(prefix: string, first: string, second: string)
    ensures EndsWith(prefix + second, second)
    ensures EndsWith(first, second) ==> first == first[..|first| - |second|] + second
    ensures EndsWith(first, [])
  {
    assert (prefix + second)[|prefix|..] == second;
  }

  /** The two tests differ only when the strings have the same non-empty length. */
  lemma EndsWithAsWrittenDiffers(first: string, second: string)
    requires |first| <= SIZE_RANGE
    ensures EndsWithAsWritten(first, second) != EndsWith(first, second) <==>
      0 < |first| && first == second
  {
  }
}
