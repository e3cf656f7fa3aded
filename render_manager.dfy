// The cyclic frame counter of the render managers: the index of the frame
// in flight, advanced once per frame and wrapping at the number of frames
// in flight.

module RenderManager {

  /** One call of `next` from a valid index `i`: the successor, wrapping to 0 at `frames`. */
  function Step(i: nat, frames: nat): (r: nat)
    requires i < frames
    ensures r < frames
  {
    if i + 1 == frames then 0 else i + 1
  }

  /** `next` computes its step as `(i + 1) % frames`. */
  lemma StepIsSuccessorMod(i: nat, frames: nat)
    requires i < frames
    ensures (i + 1) % frames == Step(i, frames)
  {
    if i + 1 == frames {
      assert (i + 1) % frames == 0;
    } else {
      assert (i + 1) % frames == i + 1;
    }
  }

  /** The index after `n` calls of `next` starting from `i`. */
  function Advanced(i: nat, n: nat, frames: nat): (r: nat)
    requires i < frames
    ensures r < frames
    decreases n
  {
    if n == 0 then i else Step(Advanced(i, n - 1, frames), frames)
  }

  /** Up to a full cycle, `n` calls of `next` add n and wrap once past `frames`. */
  lemma {:induction false} AdvancedWithinCycle(i: nat, n: nat, frames: nat)
    requires i < frames && n <= frames
    ensures Advanced(i, n, frames) == if i + n < frames then i + n else i + n - frames
    decreases n
  {
    if n > 0 {
      AdvancedWithinCycle(i, n - 1, frames);
    }
  }

  /** `frames` consecutive calls of `next` bring a valid index back to itself. */
  lemma FullCycleRestores(i: nat, frames: nat)
    requires i < frames
    ensures Advanced(i, frames, frames) == i
  {
    AdvancedWithinCycle(i, frames, frames);
  }

  /**
   * `FrameIndex` of both render managers.  The crate constant
   * `FRAMES_IN_FLIGHT` it wraps at is not part of this model and is passed
   * to the constructor.
   */
  class FrameIndex {
    const framesInFlight: nat
    var index: nat

    ghost predicate Valid()
      reads this
    {
      framesInFlight > 0 && index < framesInFlight
    }

    /** `new()`: index 0. */
    constructor (framesInFlight: nat)
      requires framesInFlight > 0
      ensures Valid() && this.framesInFlight == framesInFlight && index == 0
    {
      this.framesInFlight := framesInFlight;
      index := 0;
    }

    /** `next()`: one step round the cycle. */
    method Next()
      requires Valid()
      modifies this
      ensures Valid()
      ensures index == (old(index) + 1) % framesInFlight
      ensures index == Step(old(index), framesInFlight)
    {
      StepIsSuccessorMod(index, framesInFlight);
      index := (index + 1) % framesInFlight;
    }

    /** `index()`: reads the index and changes nothing. */
    method Index() returns (i: nat)
      requires Valid()
      ensures i == index && i < framesInFlight
    {
      i := index;
    }
  }
}
