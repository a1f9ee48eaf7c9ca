/**
 * The bar chart that animates a change of five numbers
 * (app/visual/array-changing-all-number.tsx): the search for the first
 * position where two arrays differ, and the condition that starts the
 * animation.
 */
module ArrayDifference {
  import opened Wrappers

  /** The first position where two arrays of the same length differ, if any. */
  function FirstDifference(a: seq<real>, b: seq<real>): (r: Option<nat>)
    requires |a| == |b|
    ensures r.None? <==> a == b
    ensures r.Some? ==> r.value < |a| && a[r.value] != b[r.value] && a[..r.value] == b[..r.value]
    decreases |a|
  {
    if a == [] then None
    else if a[0] != b[0] then Some(0)
    else
      match FirstDifference(a[1..], b[1..])
      case None =>
        assert a == [a[0]] + a[1..] && b == [b[0]] + b[1..];
        None
      case Some(i) =>
        assert a[..i + 1] == [a[0]] + a[1..][..i] && b[..i + 1] == [b[0]] + b[1..][..i];
        Some(i + 1)
  }

  /**
   * `findArrayDifference`: `None` (null) for a missing array, different
   * lengths, or equal arrays; otherwise `[i, i + 1]` for the first `i` where
   * they differ.
   */
  method FindArrayDifference(arr1: Option<seq<real>>, arr2: Option<seq<real>>) returns (r: Option<(nat, nat)>)
    ensures arr1.None? || arr2.None? ==> r.None?
    ensures arr1.Some? && arr2.Some? && |arr1.value| != |arr2.value| ==> r.None?
    ensures arr1.Some? && arr2.Some? && |arr1.value| == |arr2.value| ==>
      r == match FirstDifference(arr1.value, arr2.value) case None => None case Some(i) => Some((i, i + 1))
  {
    if arr1.None? || arr2.None? || |arr1.value| != |arr2.value| {
      return None;
    }
    var a := arr1.value;
    var b := arr2.value;
    for i := 0 to |a|
      invariant a[..i] == b[..i]
    {
      if a[i] != b[i] {
        FirstDifferenceAt(a, b, i);
        return Some((i, i + 1));
      }
      assert a[..i + 1] == a[..i] + [a[i]];
      assert b[..i + 1] == b[..i] + [b[i]];
    }
    assert a == a[..|a|] && b == b[..|b|];
    return None;
  }

  /** A difference at `i` after an equal prefix is the first difference. */
  lemma FirstDifferenceAt(a: seq<real>, b: seq<real>, i: nat)
    requires |a| == |b| && i < |a| && a[..i] == b[..i] && a[i] != b[i]
    ensures FirstDifference(a, b) == Some(i)
  {
  }

  /**
   * The animation trigger: both arrays present, some element of the old
   * array not strictly equal to the new array's element at its index (an
   * index past the new array's end counts as different), and five new
   * numbers.
   */
  predicate StartsAnimation(data: Option<seq<real>>, newData: Option<seq<real>>) {
    && data.Some? && newData.Some?
    && (exists i :: 0 <= i < |data.value| && (i >= |newData.value| || data.value[i] != newData.value[i]))
    && |newData.value| == 5
  }

  /** With five numbers on each side, the animation starts exactly when there is a first difference to show. */
  lemma AnimationHasDifference(data: seq<real>, newData: seq<real>)
    requires |data| == 5 && |newData| == 5
    ensures StartsAnimation(Some(data), Some(newData)) <==> FirstDifference(data, newData).Some?
  {
    var r := FirstDifference(data, newData);
    if r.Some? {
      assert data[r.value] != newData[r.value];
    }
  }

  /** An old array shorter than five still starts the animation when it differs, but then no position is found. */
  lemma ShorterOldArray()
    ensures StartsAnimation(Some([1.0]), Some([2.0, 0.0, 0.0, 0.0, 0.0]))
    ensures !StartsAnimation(Some([]), Some([2.0, 0.0, 0.0, 0.0, 0.0]))
  {
    assert [1.0][0] != [2.0, 0.0, 0.0, 0.0, 0.0][0];
  }
}
