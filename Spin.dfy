/**
 * The arithmetic of one spin: the number of laps, the end value handed to
 * the animator, and the cell each animated value highlights.
 */
module Spin {
  import JavaInt

  /** Full laps before stopping (`repeatCount`), and the number of ring cells. */
  const RepeatCount := 3
  const RingSize := 8

  /** `position` before any spin: no cell highlighted. */
  const NoHighlight := -1

  /** The ring cell highlighted by animated value `v` (`v % 8` in Java). */
  function Highlight(v: int): (c: int)
    ensures 0 <= v ==> 0 <= c < RingSize
    ensures 0 <= v ==> exists laps: nat :: v == laps * RingSize + c
  {
    var c := JavaInt.Rem(v, RingSize);
    assert 0 <= v ==> v == JavaInt.Div(v, RingSize) * RingSize + c;
    c
  }

  /**
   * The animator's end value for lucky number `luck`: `RepeatCount` laps
   * plus `luck`, independent of where the spin starts. It lies past every
   * ring index and highlights `luck`.
   */
  function Target(luck: int): (t: int)
    requires 0 <= luck < RingSize
    ensures RepeatCount * RingSize <= t < (RepeatCount + 1) * RingSize
    ensures Highlight(t) == luck
  {
    RepeatCount * RingSize + luck
  }

  /** A spin from any ring index moves forward, and by more than `RepeatCount` - 1 laps. */
  lemma SpinMovesForward(start: int, luck: int)
    requires 0 <= start < RingSize && 0 <= luck < RingSize
    ensures start < Target(luck)
    ensures Target(luck) - start > (RepeatCount - 1) * RingSize
  {
  }

  /**
   * The integer values an animator run from `from` to `to` delivers: at
   * least one, each between the two ends, the last one `to`.
   */
  predicate IsAnimation(frames: seq<int>, from: int, to: int) {
    |frames| > 0 && frames[|frames| - 1] == to &&
    forall k :: 0 <= k < |frames| ==> from <= frames[k] <= to
  }

  /** Every value of a run that starts at a ring index highlights a ring cell, the last one `luck`. */
  lemma AnimationHighlights(frames: seq<int>, start: int, luck: int)
    requires 0 <= start < RingSize && 0 <= luck < RingSize
    requires IsAnimation(frames, start, Target(luck))
    ensures forall k :: 0 <= k < |frames| ==> 0 <= Highlight(frames[k]) < RingSize
    ensures Highlight(frames[|frames| - 1]) == luck
  {
  }

  /** A request to the animator: nothing, or run from `from` to `to`. */
  datatype Request = NoRequest | Animate(from: int, to: int)
}
