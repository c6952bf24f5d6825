/**
 The in-place Fisher-Yates shuffle of `shuffleArray`. The random indices it
 draws are a parameter: `draws[k]` is the `j` chosen on the k-th pass of the
 loop, the pass with `i == n - 1 - k`, and must satisfy `0 <= j <= i`.
 */
module Shuffle {

  /** `draws` supplies one admissible `j` for every pass of the loop over `n` cells. */
  predicate ValidDraws(n: nat, draws: seq<nat>)
  {
    |draws| == (if n == 0 then 0 else n - 1) &&
    forall k :: 0 <= k < |draws| ==> draws[k] <= n - 1 - k
  }

  /** `s` with the cells at `i` and `j` exchanged. */
  function Swap<T>(s: seq<T>, i: nat, j: nat): (r: seq<T>)
    requires i < |s| && j < |s|
    ensures |r| == |s| && r[i] == s[j] && r[j] == s[i]
    ensures forall k :: 0 <= k < |s| && k != i && k != j ==> r[k] == s[k]
  {
    s[i := s[j]][j := s[i]]
  }

  /** An exchange of two cells keeps the multiset. */
  lemma SwapPermutes<T>(s: seq<T>, i: nat, j: nat)
    requires i < |s| && j < |s|
    ensures multiset(Swap(s, i, j)) == multiset(s)
  {
  }

  /** The result of the loop's passes `i`, `i - 1`, ..., `1` on `s`. */
  function ShuffleFrom<T>(s: seq<T>, draws: seq<nat>, i: int): (r: seq<T>)
    requires -1 <= i < |s| && ValidDraws(|s|, draws)
    ensures |r| == |s|
    decreases i
  {
    if i <= 0 then s
    else ShuffleFrom(Swap(s, i, draws[|s| - 1 - i]), draws, i - 1)
  }

  /** Every pass only exchanges two cells, so the passes keep the multiset. */
  lemma {:induction false} ShuffleFromPermutes<T>(s: seq<T>, draws: seq<nat>, i: int)
    requires -1 <= i < |s| && ValidDraws(|s|, draws)
    ensures multiset(ShuffleFrom(s, draws, i)) == multiset(s)
    decreases i
  {
    if i > 0 {
      var j := draws[|s| - 1 - i];
      SwapPermutes(s, i, j);
      ShuffleFromPermutes(Swap(s, i, j), draws, i - 1);
    }
  }

  /** The whole shuffle of `s` under `draws`: a permutation of `s`. */
  function Shuffled<T>(s: seq<T>, draws: seq<nat>): (r: seq<T>)
    requires ValidDraws(|s|, draws)
    ensures |r| == |s| && multiset(r) == multiset(s)
  {
    ShuffleFromPermutes(s, draws, |s| - 1);
    ShuffleFrom(s, draws, |s| - 1)
  }

  /** Cells above `i` are never touched again once the loop has passed them. */
  lemma {:induction false} ShuffleFromKeepsUpper<T>(s: seq<T>, draws: seq<nat>, i: int, k: int)
    requires -1 <= i < |s| && ValidDraws(|s|, draws)
    requires i < k < |s|
    ensures |ShuffleFrom(s, draws, i)| == |s| && ShuffleFrom(s, draws, i)[k] == s[k]
    decreases i
  {
    if i > 0 {
      ShuffleFromKeepsUpper(Swap(s, i, draws[|s| - 1 - i]), draws, i - 1, k);
    }
  }

  /** When every draw picks `j == i`, no two cells are exchanged. */
  lemma {:induction false} IdentityDrawsKeepOrder<T>(s: seq<T>, draws: seq<nat>, i: int)
    requires -1 <= i < |s| && ValidDraws(|s|, draws)
    requires forall k :: 0 <= k < |draws| ==> draws[k] == |s| - 1 - k
    ensures ShuffleFrom(s, draws, i) == s
    decreases i
  {
    if i > 0 {
      assert Swap(s, i, draws[|s| - 1 - i]) == s;
      IdentityDrawsKeepOrder(s, draws, i - 1);
    }
  }

  /** `shuffleArray(array)`: the descending loop of swaps, in place. */
  method ShuffleArray<T>(a: array<T>, draws: seq<nat>)
    requires ValidDraws(a.Length, draws)
    modifies a
    ensures a[..] == Shuffled(old(a[..]), draws)
    ensures multiset(a[..]) == multiset(old(a[..]))
  {
    ghost var original := a[..];
    var i := a.Length - 1;
    while i > 0
      invariant -1 <= i < a.Length
      invariant ShuffleFrom(a[..], draws, i) == Shuffled(original, draws)
    {
      var j := draws[a.Length - 1 - i];
      ghost var before := a[..];
      assert ShuffleFrom(before, draws, i) == ShuffleFrom(Swap(before, i, j), draws, i - 1);
      a[i], a[j] := a[j], a[i];
      assert a[..] == Swap(before, i, j);
      assert ShuffleFrom(a[..], draws, i - 1) == Shuffled(original, draws);
      i := i - 1;
    }
    assert ShuffleFrom(a[..], draws, i) == a[..];
  }
}
