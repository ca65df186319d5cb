/**
 * The Fisher–Yates shuffle each card generator applies to a copy of its list. The swap
 * partner `Math.floor(Math.random() * (i + 1))` is left open: the method may pick any
 * index from 0 to i, so what it promises holds for every sequence of draws.
 */
module Shuffle {

  /** `shuffleArray`: a reordering of a copy of the input; the input is a value and stays as it was. */
  method ShuffleArray<T>(input: seq<T>) returns (shuffled: seq<T>)
    ensures |shuffled| == |input|
    ensures multiset(shuffled) == multiset(input)
    ensures |input| <= 1 ==> shuffled == input
  {
    var a := new T[|input|](k requires 0 <= k < |input| => input[k]);
    assert a[..] == input;
    var i := a.Length - 1;
    while i > 0
      invariant i < a.Length
      invariant multiset(a[..]) == multiset(input)
      invariant |input| <= 1 ==> a[..] == input
    {
      var j :| 0 <= j <= i;
      a[i], a[j] := a[j], a[i];
      i := i - 1;
    }
    shuffled := a[..];
  }
}
