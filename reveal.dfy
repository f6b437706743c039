/**
 * The frames of animatePasswordDisplay (index.js:78-98), with the timing
 * taken out. Step i, for i from 0 to len - 1, shows i + 1 mask characters
 * followed by decoys drawn from the decoy alphabet; after the loop the
 * display is the mask repeated len times. Each decoy draw is an index chosen
 * with `0 <= k < |DECOY_CHARS|`.
 */
module Reveal {
  import opened Alphabets

  /** `c.repeat(n)`: the string of n copies of c. */
  function Repeat(c: char, n: nat): (r: string)
    ensures |r| == n
    ensures forall k :: 0 <= k < n ==> r[k] == c
  {
    if n == 0 then "" else Repeat(c, n - 1) + [c]
  }

  /** The shape of the frame of step i for a password of length n. */
  predicate IsFrame(f: string, i: nat, n: nat, mask: char) {
    i < n && |f| == n
    && (forall k :: 0 <= k <= i ==> f[k] == mask)
    && (forall k :: i < k < n ==> f[k] in DECOY_CHARS)
  }

  /** The body of the outer loop: the two inner loops that build `displayed`. */
  method BuildFrame(i: nat, n: nat, maskChar: char) returns (displayed: string)
    requires i < n
    ensures IsFrame(displayed, i, n, maskChar)
  {
    displayed := "";
    var j := 0;
    while j <= i
      invariant j <= i + 1
      invariant |displayed| == j
      invariant forall k :: 0 <= k < j ==> displayed[k] == maskChar
    {
      displayed := displayed + [maskChar];
      j := j + 1;
    }
    var k := i + 1;
    while k < n
      invariant i + 1 <= k <= n
      invariant |displayed| == k
      invariant forall m :: 0 <= m <= i ==> displayed[m] == maskChar
      invariant forall m :: i < m < k ==> displayed[m] in DECOY_CHARS
    {
      var r :| 0 <= r < |DECOY_CHARS|;
      displayed := displayed + [DECOY_CHARS[r]];
      k := k + 1;
    }
  }

  /**
   * The texts the display shows, in order: one frame per step of the loop,
   * then the fully masked text. The clearing at the start (index.js:79) is
   * overwritten before the first pause and so never shown on its own.
   */
  method RevealFrames(password: string, maskChar: char) returns (frames: seq<string>)
    ensures |frames| == |password| + 1
    ensures forall i :: 0 <= i < |password| ==> IsFrame(frames[i], i, |password|, maskChar)
    ensures frames[|password|] == Repeat(maskChar, |password|)
  {
    frames := [];
    var i := 0;
    while i < |password|
      invariant i <= |password|
      invariant |frames| == i
      invariant forall m :: 0 <= m < i ==> IsFrame(frames[m], m, |password|, maskChar)
    {
      var displayed := BuildFrame(i, |password|, maskChar);
      frames := frames + [displayed];
      i := i + 1;
    }
    frames := frames + [Repeat(maskChar, |password|)];
  }

  /** The last frame of the loop already equals the final, fully masked text. */
  lemma LastStepFullyMasked(f: string, n: nat, mask: char)
    requires n > 0 && IsFrame(f, n - 1, n, mask)
    ensures f == Repeat(mask, n)
  {
  }

  /** The number of copies of c in c.repeat(n) is n. */
  lemma {:induction false} RepeatCount(c: char, n: nat)
    ensures multiset(Repeat(c, n))[c] == n
  {
    if n > 0 {
      RepeatCount(c, n - 1);
      assert Repeat(c, n) == Repeat(c, n - 1) + [c];
    }
  }

  /**
   * With a mask character that is not a decoy, frame i shows exactly i + 1
   * mask characters: one more at every step. The mask "*" used by the page
   * is itself a decoy character (see MaskIsDecoy), so there a decoy can look
   * masked.
   */
  lemma MaskedCount(f: string, i: nat, n: nat, mask: char)
    requires IsFrame(f, i, n, mask) && mask !in DECOY_CHARS
    ensures multiset(f)[mask] == i + 1
  {
    assert f == Repeat(mask, i + 1) + f[i + 1..];
    RepeatCount(mask, i + 1);
    assert mask !in f[i + 1..];
  }

  /** The page's mask "*" is also one of the decoy characters. */
  lemma MaskIsDecoy()
    ensures '*' in DECOY_CHARS
  {
    assert DECOY_CHARS[69] == '*';
  }
}
