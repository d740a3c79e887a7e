/**
 * The two PHP / WordPress built-ins whose arithmetic the block depends on:
 * absint (WordPress) and array_slice (PHP), restricted to the argument shapes
 * the block uses.
 */
module Php {

  /** absint($n): the absolute value of the integer $n, never negative. */
  function Absint(n: int): (r: nat)
    ensures r == n || r == -n
  {
    if n < 0 then -n else n
  }

  /**
   * array_slice($a, $offset, $length) for a non-negative offset and length:
   * the at most `length` elements of `a` that start at index `offset`,
   * fewer when `a` runs out first.
   */
  function ArraySlice<T>(a: seq<T>, offset: nat, length: nat): (r: seq<T>)
    ensures |r| <= length
    ensures offset + length <= |a| ==> |r| == length
    ensures offset <= |a| < offset + length ==> |r| == |a| - offset
    ensures |a| < offset ==> r == []
    ensures forall i :: 0 <= i < |r| ==> r[i] == a[offset + i]
  {
    if |a| <= offset then []
    else if |a| <= offset + length then a[offset..]
    else a[offset..offset + length]
  }
}
