/** The frame cursor of FrameCreator.kt: it hands out the frame indices of a composition one at
    a time, from 0 up to and including the composition's duration in frames. */
module Frames {
  import opened Media

  /** The frames generateFrame hands out, in order, when it is called from `current` until
      hasEnded: from `current` up to and including `durationInFrames`. */
  function FramesUntilEnded(current: int, durationInFrames: int): (frames: seq<int>)
    decreases durationInFrames - current + 1
    ensures |frames| == if current > durationInFrames then 0 else durationInFrames - current + 1
  {
    if current > durationInFrames then [] else [current] + FramesUntilEnded(current + 1, durationInFrames)
  }

  /** The frames are consecutive: the i-th one is current + i. */
  lemma {:induction false} FramesAreConsecutive(current: int, durationInFrames: int)
    decreases durationInFrames - current + 1
    ensures var frames := FramesUntilEnded(current, durationInFrames);
      forall i :: 0 <= i < |frames| ==> frames[i] == current + i
  {
    if current <= durationInFrames {
      FramesAreConsecutive(current + 1, durationInFrames);
      var frames := FramesUntilEnded(current, durationInFrames);
      forall i | 0 < i < |frames|
        ensures frames[i] == current + i
      {
        assert frames[i] == FramesUntilEnded(current + 1, durationInFrames)[i - 1];
      }
    }
  }

  /** One more frame of duration adds one frame at the end. */
  lemma {:induction false} FramesUntilEndedSnoc(current: int, durationInFrames: int)
    requires current <= durationInFrames + 1
    decreases durationInFrames - current + 1
    ensures FramesUntilEnded(current, durationInFrames) + [durationInFrames + 1]
         == FramesUntilEnded(current, durationInFrames + 1)
  {
    if current <= durationInFrames {
      FramesUntilEndedSnoc(current + 1, durationInFrames);
      Associative([current], FramesUntilEnded(current + 1, durationInFrames), [durationInFrames + 1]);
    }
  }

  /** A fresh cursor over a composition of N >= 0 frames yields N + 1 frames, 0 to N. */
  lemma FreshCursorYieldsOneMoreThanDuration(durationInFrames: int)
    requires durationInFrames >= 0
    ensures |FramesUntilEnded(0, durationInFrames)| == durationInFrames + 1
    ensures FramesUntilEnded(0, durationInFrames)[0] == 0
    ensures FramesUntilEnded(0, durationInFrames)[durationInFrames] == durationInFrames
  {
    FramesAreConsecutive(0, durationInFrames);
  }

  class FrameCreator {
    /** The composition's length in frames (its float duration, already truncated). */
    const durationInFrames: int
    var currentFrame: int
    /** The frame the Lottie drawable was last set to. */
    var drawableFrame: int
    /** The frames handed out so far, in order. */
    ghost var generated: seq<int>

    ghost predicate Valid()
      reads this
    {
      currentFrame >= 0 && generated == FramesUntilEnded(0, currentFrame - 1)
    }

    constructor (durationInFrames: int)
      ensures Valid() && this.durationInFrames == durationInFrames
      ensures currentFrame == 0 && generated == []
    {
      this.durationInFrames := durationInFrames;
      currentFrame := 0;
      drawableFrame := 0;
      generated := [];
    }

    /** generateFrame: set the drawable to the current frame, then move on by one. */
    method GenerateFrame() returns (frame: int)
      requires Valid()
      modifies this
      ensures Valid()
      ensures frame == old(currentFrame) && drawableFrame == frame
      ensures currentFrame == old(currentFrame) + 1
      ensures generated == old(generated) + [frame]
      ensures old(HasEnded()) ==> HasEnded()
    {
      drawableFrame := currentFrame;
      frame := drawableFrame;
      currentFrame := currentFrame + 1;
      generated := generated + [frame];
      FramesUntilEndedSnoc(0, currentFrame - 2);
    }

    /** hasEnded: the cursor is past the last frame, so no frame is left to hand out. */
    function HasEnded(): (ended: bool)
      reads this
      ensures ended <==> FramesUntilEnded(currentFrame, durationInFrames) == []
    {
      currentFrame > durationInFrames
    }
  }
}
