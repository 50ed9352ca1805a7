/** Python's random.shuffle, with its random draws made inputs. */
module Shuffling {

  /**
   * The draws CPython's random.shuffle makes on a list of length n: for i = n-1 down
   * to 1 it draws j with 0 <= j <= i and swaps the items at i and j.
   */
  predicate ValidDraws(draws: seq<nat>, n: nat)
  {
    |draws| == (if n == 0 then 0 else n - 1)
    && forall k :: 0 <= k < |draws| ==> draws[k] <= n - 1 - k
  }

  function Swap<T>(s: seq<T>, i: nat, j: nat): (r: seq<T>)
    requires i < |s| && j < |s|
    ensures |r| == |s| && multiset(r) == multiset(s)
  {
    s[i := s[j]][j := s[i]]
  }

  function ShuffleFrom<T>(s: seq<T>, draws: seq<nat>, k: nat): (r: seq<T>)
    requires ValidDraws(draws, |s|) && k <= |draws|
    ensures |r| == |s| && multiset(r) == multiset(s)
    decreases |draws| - k
  {
    if k == |draws| then s else ShuffleFrom(Swap(s, |s| - 1 - k, draws[k]), draws, k + 1)
  }

  /** random.shuffle(s) for the given draws: a rearrangement of s. */
  function Shuffle<T>(s: seq<T>, draws: seq<nat>): (r: seq<T>)
    requires ValidDraws(draws, |s|)
    ensures |r| == |s| && multiset(r) == multiset(s)
  {
    ShuffleFrom(s, draws, 0)
  }
}
