/**
 * The in-place Fisher-Yates shuffle at the end of createPassword
 * (index.js:146-149). Each random draw `Math.floor(Math.random() * (i + 1))`
 * is an index `j` with `0 <= j <= i`; the sequence of draws is recorded so
 * that the shuffled array is a function of the original array and the draws.
 */
module FisherYates {

  /** Exchange the elements at positions i and j. */
  function Swap(s: seq<char>, i: nat, j: nat): (r: seq<char>)
    requires i < |s| && j < |s|
    ensures |r| == |s|
  {
    seq(|s|, k requires 0 <= k < |s| => if k == i then s[j] else if k == j then s[i] else s[k])
  }

  /** A swap only rearranges. */
  lemma SwapPermutes(s: seq<char>, i: nat, j: nat)
    requires i < |s| && j < |s|
    ensures multiset(Swap(s, i, j)) == multiset(s)
  {
    assert Swap(s, i, j) == s[i := s[j]][j := s[i]];
  }

  /**
   * Draws that the shuffle loop can make on an array of length n: step t
   * (counting from 0) works on position n - 1 - t, which stays above 0, and
   * draws an index no larger than that position.
   */
  predicate SwapDraws(js: seq<nat>, n: nat) {
    (js == [] || |js| < n) && forall t :: 0 <= t < |js| ==> js[t] <= n - 1 - t
  }

  /** The sequence after the loop has made the first k steps, whose draws are js[..k]. */
  function Shuffled(s: seq<char>, js: seq<nat>, k: nat): (r: seq<char>)
    requires SwapDraws(js, |s|) && k <= |js|
    ensures |r| == |s|
  {
    if k == 0 then s
    else Swap(Shuffled(s, js, k - 1), |s| - k, js[k - 1])
  }

  /** Whatever the draws, the shuffle only rearranges: it is a permutation. */
  lemma {:induction false} ShuffledPermutes(s: seq<char>, js: seq<nat>, k: nat)
    requires SwapDraws(js, |s|) && k <= |js|
    ensures multiset(Shuffled(s, js, k)) == multiset(s)
  {
    if k > 0 {
      ShuffledPermutes(s, js, k - 1);
      SwapPermutes(Shuffled(s, js, k - 1), |s| - k, js[k - 1]);
    }
  }

  /** A later draw does not change the effect of the earlier steps. */
  lemma {:induction false} ShuffledExtend(s: seq<char>, js: seq<nat>, j: nat, k: nat)
    requires SwapDraws(js + [j], |s|) && k <= |js|
    ensures SwapDraws(js, |s|)
    ensures Shuffled(s, js + [j], k) == Shuffled(s, js, k)
  {
    assert forall t :: 0 <= t < |js| ==> (js + [j])[t] == js[t];
    if k > 0 {
      ShuffledExtend(s, js, j, k - 1);
    }
  }

  /** One more step of the loop, at position |s| - 1 - |js|, with draw j. */
  lemma ShuffledStep(s: seq<char>, js: seq<nat>, j: nat)
    requires SwapDraws(js, |s|) && |js| + 1 < |s| && j <= |s| - 1 - |js|
    ensures SwapDraws(js + [j], |s|)
    ensures Shuffled(s, js + [j], |js| + 1) == Swap(Shuffled(s, js, |js|), |s| - 1 - |js|, j)
  {
    assert SwapDraws(js + [j], |s|);
    ShuffledExtend(s, js, j, |js|);
  }

  /**
   * The shuffle loop, in place. Returns the draws it made; by
   * ShuffledPermutes the result is a permutation of the original.
   */
  method Shuffle(a: array<char>) returns (ghost draws: seq<nat>)
    modifies a
    ensures SwapDraws(draws, a.Length)
    ensures |draws| == if a.Length == 0 then 0 else a.Length - 1
    ensures a[..] == Shuffled(old(a[..]), draws, |draws|)
  {
    ghost var original := a[..];
    draws := [];
    var i := a.Length - 1;
    while i > 0
      invariant -1 <= i < a.Length
      invariant a.Length == 0 ==> i == -1
      invariant |draws| == a.Length - 1 - i
      invariant SwapDraws(draws, a.Length)
      invariant a[..] == Shuffled(original, draws, |draws|)
    {
      var j :| 0 <= j <= i;
      ghost var before := a[..];
      a[i], a[j] := a[j], a[i];
      assert a[..] == Swap(before, i, j);
      ShuffledStep(original, draws, j);
      draws := draws + [j];
      i := i - 1;
    }
  }
}
