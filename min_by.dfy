/**
 * Kotlin's `minByOrNull` over an insertion-ordered map, as used by the
 * completion cache and the mode-provider table: it walks the entries in
 * order and keeps the first one whose selected value is strictly smaller
 * than every value seen before, so among equal minima the earliest wins.
 */
module MinBy {

  /** `i` is the index `minByOrNull` selects among `values`. */
  ghost predicate IsFirstMin(values: seq<int>, i: int)
  {
    && 0 <= i < |values|
    && (forall j :: 0 <= j < |values| ==> values[i] <= values[j])
    && (forall j :: 0 <= j < i ==> values[j] > values[i])
  }

  /** The index of the first minimal value, computed as the iteration does. */
  function FirstMinIndex(values: seq<int>): (i: nat)
    requires |values| > 0
    ensures IsFirstMin(values, i)
    decreases |values|
  {
    if |values| == 1 then 0
    else
      var rest := FirstMinIndex(values[..|values| - 1]);
      if values[|values| - 1] < values[rest] then |values| - 1 else rest
  }
}
