/** The recording loop of RecordingOperation.kt: while the frame cursor has frames left, hand
    the next one to the recorder; then end the recording. */
module Driver {
  import opened Media
  import opened Encoder
  import opened Frames

  /** The calls the operation makes on the recorder. */
  datatype Call = NextFrameCall(frame: int) | EndCall

  /** One nextFrame call per frame, in the frames' order. */
  function NextFrameCalls(frames: seq<int>): (calls: seq<Call>)
    ensures |calls| == |frames|
  {
    if frames == [] then [] else [NextFrameCall(frames[0])] + NextFrameCalls(frames[1..])
  }

  /** Where feeding frames to nextFrame leaves the recorder: its session, the encoder results
      still to come, the effects of the nextFrame calls, the frames handed and, if a call
      faulted, its fault. */
  datatype Fed = Fed(session: Session, polls: seq<Poll>, effects: seq<Effect>, handed: seq<int>, fault: Option<Fault>)

  /** nextFrame on each frame in turn: drain the encoder (not in end-of-stream mode), then clear
      the canvas and draw the frame; the first fault ends the run, its frame handed but not
      drawn. */
  function Feed(s: Session, polls: seq<Poll>, frames: seq<int>, framesPerSecond: int): Fed
    requires framesPerSecond >= 0
    decreases |frames|
  {
    if frames == [] then Fed(s, polls, [], [], None)
    else
      var r := Drain(s, polls, false, framesPerSecond);
      if r.outcome.Fatal? then
        Fed(r.session, polls[r.consumed..], r.effects, [frames[0]], Some(r.outcome.fault))
      else
        var f := Feed(r.session, polls[r.consumed..], frames[1..], framesPerSecond);
        Fed(f.session, f.polls, r.effects + [ClearCanvas, DrawFrame(frames[0])] + f.effects,
            [frames[0]] + f.handed, f.fault)
  }

  /** Every frame is handed until the first fault: the frames handed are a prefix of the frames
      given, all of them when nothing faulted, and a fault comes with the frame that caused it. */
  lemma {:induction false} FeedHandsPrefix(s: Session, polls: seq<Poll>, frames: seq<int>, framesPerSecond: int)
    requires framesPerSecond >= 0
    decreases |frames|
    ensures var f := Feed(s, polls, frames, framesPerSecond);
      f.handed <= frames &&
      (f.fault == None ==> f.handed == frames) &&
      (f.fault.Some? ==> f.handed != [])
  {
    if frames != [] {
      var r := Drain(s, polls, false, framesPerSecond);
      if !r.outcome.Fatal? {
        FeedHandsPrefix(r.session, polls[r.consumed..], frames[1..], framesPerSecond);
        var f := Feed(r.session, polls[r.consumed..], frames[1..], framesPerSecond);
        assert frames == [frames[0]] + frames[1..];
      }
    }
  }

  /** Bookkeeping of the frame loop: `done` effects and `handed` frames behind it, the run `f`
      ahead of it. */
  function Ahead(done: seq<Effect>, handed: seq<int>, f: Fed): Fed {
    Fed(f.session, f.polls, done + f.effects, handed + f.handed, f.fault)
  }

  /** One nextFrame call of the loop: a fault completes the run, otherwise the call's effects
      and frame move behind the loop. */
  lemma FeedAdvances(goal: Fed, done: seq<Effect>, handed: seq<int>, s: Session, polls: seq<Poll>,
                     frame: int, rest: seq<int>, framesPerSecond: int, r: Drained)
    requires framesPerSecond >= 0
    requires goal == Ahead(done, handed, Feed(s, polls, [frame] + rest, framesPerSecond))
    requires r == Drain(s, polls, false, framesPerSecond)
    ensures r.outcome.Fatal? ==>
      goal == Fed(r.session, polls[r.consumed..], done + r.effects, handed + [frame], Some(r.outcome.fault))
    ensures !r.outcome.Fatal? ==>
      goal == Ahead(done + r.effects + [ClearCanvas, DrawFrame(frame)], handed + [frame],
                    Feed(r.session, polls[r.consumed..], rest, framesPerSecond))
  {
    assert ([frame] + rest)[0] == frame && ([frame] + rest)[1..] == rest;
    if !r.outcome.Fatal? {
      var f := Feed(r.session, polls[r.consumed..], rest, framesPerSecond);
      Associative(done, r.effects + [ClearCanvas, DrawFrame(frame)], f.effects);
      Associative(handed, [frame], f.handed);
    }
  }

  /** ... and with no frame left the loop has completed the run. */
  lemma FeedAtEnd(goal: Fed, done: seq<Effect>, handed: seq<int>, s: Session, polls: seq<Poll>, framesPerSecond: int)
    requires framesPerSecond >= 0
    requires goal == Ahead(done, handed, Feed(s, polls, [], framesPerSecond))
    ensures goal == Fed(s, polls, done, handed, None)
  {
    AppendEmpty(done);
    AppendEmpty(handed);
  }

  class RecordingOperation {
    const recorder: Recorder
    const frameCreator: FrameCreator
    /** The calls made on the recorder so far. */
    ghost var calls: seq<Call>

    constructor (recorder: Recorder, frameCreator: FrameCreator)
      ensures this.recorder == recorder && this.frameCreator == frameCreator && calls == []
    {
      this.recorder := recorder;
      this.frameCreator := frameCreator;
      calls := [];
    }

    /** isRecording: frames are left to hand out. */
    function IsRecording(): (recording: bool)
      reads this, frameCreator
      ensures recording <==> FramesUntilEnded(frameCreator.currentFrame, frameCreator.durationInFrames) != []
    {
      !frameCreator.HasEnded()
    }

    /** start: one nextFrame per remaining frame, in order, then end.  `handed` are the frames
        handed to the recorder, `made` the calls made on it, and `ended` whether end was among
        them.  A fault of nextFrame aborts the loop (the source lets the exception propagate),
        so end is then not called. */
    method Start() returns (outcome: Outcome, ghost handed: seq<int>, ghost made: seq<Call>, ghost ended: bool)
      requires recorder.Valid() && !recorder.closed && frameCreator.Valid()
      modifies this, recorder, frameCreator
      ensures recorder.Valid() && frameCreator.Valid()
      ensures outcome != Continue
      ensures calls == old(calls) + made && frameCreator.generated == old(frameCreator.generated) + handed
      ensures made == NextFrameCalls(handed) + (if ended then [EndCall] else [])
      ensures var frames := FramesUntilEnded(old(frameCreator.currentFrame), frameCreator.durationInFrames);
        handed <= frames &&
        (!ended ==> outcome.Fatal? && handed != []) &&
        (ended ==> handed == frames && frameCreator.HasEnded())
      // a creator that has already ended still gets end, after no nextFrame
      ensures old(frameCreator.HasEnded()) ==> ended && handed == []
      ensures recorder.closed <==> outcome == Exit(EndOfStreamFlag)
      // the recorder runs the nextFrame calls of Feed and then, unless one faulted, end
      ensures var f := Feed(old(recorder.State()), old(recorder.encoderOutput),
                            FramesUntilEnded(old(frameCreator.currentFrame), frameCreator.durationInFrames),
                            recorder.framesPerSecond);
        handed == f.handed && (ended <==> f.fault == None) &&
        (!ended ==> outcome == Fatal(f.fault.value) && recorder.State() == f.session &&
                    recorder.encoderOutput == f.polls && recorder.log == old(recorder.log) + f.effects) &&
        (ended ==> var r := Drain(f.session, f.polls, true, recorder.framesPerSecond);
                   outcome == r.outcome && recorder.State() == r.session &&
                   recorder.encoderOutput == f.polls[r.consumed..] &&
                   recorder.log == old(recorder.log) + f.effects + [SignalEndOfInput] + r.effects +
                                   (if outcome == Exit(EndOfStreamFlag) then CloseEffects else []))
    {
      FeedHandsPrefix(recorder.State(), recorder.encoderOutput,
                      FramesUntilEnded(frameCreator.currentFrame, frameCreator.durationInFrames), recorder.framesPerSecond);
      outcome, handed := HandFrames();
      made, ended := NextFrameCalls(handed), false;
      if outcome.Fatal? {
        AppendEmpty(made);
        return;
      }
      calls := calls + [EndCall];
      Associative(old(calls), made, [EndCall]);
      made, ended := made + [EndCall], true;
      outcome := recorder.End();
    }

    /** The loop of start: while isRecording, hand the next frame to nextFrame.  It stops at the
        first fault, or with every frame handed and the recorder still open. */
    method HandFrames() returns (outcome: Outcome, ghost handed: seq<int>)
      requires recorder.Valid() && !recorder.closed && frameCreator.Valid()
      modifies this, recorder, frameCreator
      ensures recorder.Valid() && frameCreator.Valid()
      ensures calls == old(calls) + NextFrameCalls(handed)
      ensures frameCreator.generated == old(frameCreator.generated) + handed
      ensures !outcome.Fatal? ==> frameCreator.HasEnded()
      ensures !recorder.closed
      // the recorder's new state, its calls and the loop's fault are those of Feed
      ensures var f := Feed(old(recorder.State()), old(recorder.encoderOutput),
                            FramesUntilEnded(old(frameCreator.currentFrame), frameCreator.durationInFrames),
                            recorder.framesPerSecond);
        handed == f.handed && recorder.State() == f.session && recorder.encoderOutput == f.polls &&
        recorder.log == old(recorder.log) + f.effects &&
        (outcome.Fatal? ==> f.fault == Some(outcome.fault)) && (!outcome.Fatal? ==> f.fault == None)
    {
      ghost var frames := FramesUntilEnded(frameCreator.currentFrame, frameCreator.durationInFrames);
      ghost var goal := Feed(recorder.State(), recorder.encoderOutput, frames, recorder.framesPerSecond);
      ghost var done: seq<Effect> := [];
      outcome, handed := Continue, [];
      EmptyAppend(goal.effects);
      EmptyAppend(goal.handed);
      AppendEmpty(recorder.log);
      // a fault propagates out of the loop
      while IsRecording() && !outcome.Fatal?
        invariant recorder.Valid() && !recorder.closed && frameCreator.Valid()
        invariant calls == old(calls) + NextFrameCalls(handed)
        invariant frameCreator.generated == old(frameCreator.generated) + handed
        invariant recorder.log == old(recorder.log) + done
        invariant !outcome.Fatal? ==>
          goal == Ahead(done, handed, Feed(recorder.State(), recorder.encoderOutput,
                                           FramesUntilEnded(frameCreator.currentFrame, frameCreator.durationInFrames),
                                           recorder.framesPerSecond))
        invariant outcome.Fatal? ==>
          goal == Fed(recorder.State(), recorder.encoderOutput, done, handed, Some(outcome.fault))
        decreases frameCreator.durationInFrames - frameCreator.currentFrame + 1
      {
        assert FramesUntilEnded(frameCreator.currentFrame, frameCreator.durationInFrames) ==
          [frameCreator.currentFrame] + FramesUntilEnded(frameCreator.currentFrame + 1, frameCreator.durationInFrames);
        ghost var r := Drain(recorder.State(), recorder.encoderOutput, false, recorder.framesPerSecond);
        FeedAdvances(goal, done, handed, recorder.State(), recorder.encoderOutput, frameCreator.currentFrame,
                     FramesUntilEnded(frameCreator.currentFrame + 1, frameCreator.durationInFrames),
                     recorder.framesPerSecond, r);
        var frame;
        outcome, frame := HandNextFrame();
        Associative(old(recorder.log), done, r.effects);
        if outcome.Fatal? {
          done := done + r.effects;
        } else {
          Associative(old(recorder.log), done + r.effects, [ClearCanvas, DrawFrame(frame)]);
          done := done + r.effects + [ClearCanvas, DrawFrame(frame)];
        }
        NextFrameCallsAppend(handed, frame);
        Associative(old(calls), NextFrameCalls(handed), [NextFrameCall(frame)]);
        Associative(old(frameCreator.generated), handed, [frame]);
        handed := handed + [frame];
      }
      if !outcome.Fatal? {
        FeedAtEnd(goal, done, handed, recorder.State(), recorder.encoderOutput, recorder.framesPerSecond);
      }
    }

    /** The loop body of start: generate the next frame and hand it to nextFrame. */
    method HandNextFrame() returns (outcome: Outcome, frame: int)
      requires recorder.Valid() && !recorder.closed && frameCreator.Valid() && !frameCreator.HasEnded()
      modifies this, recorder, frameCreator
      ensures recorder.Valid() && !recorder.closed && frameCreator.Valid()
      ensures frame == old(frameCreator.currentFrame) && frameCreator.currentFrame == frame + 1
      ensures frameCreator.generated == old(frameCreator.generated) + [frame]
      ensures calls == old(calls) + [NextFrameCall(frame)]
      // the recorder does what nextFrame does
      ensures var r := Drain(old(recorder.State()), old(recorder.encoderOutput), false, recorder.framesPerSecond);
        recorder.State() == r.session && recorder.encoderOutput == old(recorder.encoderOutput)[r.consumed..] &&
        outcome == r.outcome &&
        (outcome.Fatal? ==> recorder.log == old(recorder.log) + r.effects) &&
        (!outcome.Fatal? ==> recorder.log == old(recorder.log) + r.effects + [ClearCanvas, DrawFrame(frame)])
    {
      frame := frameCreator.GenerateFrame();
      calls := calls + [NextFrameCall(frame)];
      outcome := recorder.NextFrame(frame);
    }
  }

  lemma {:induction false} NextFrameCallsAppend(frames: seq<int>, frame: int)
    ensures NextFrameCalls(frames + [frame]) == NextFrameCalls(frames) + [NextFrameCall(frame)]
  {
    if frames != [] {
      assert (frames + [frame])[1..] == frames[1..] + [frame];
      NextFrameCallsAppend(frames[1..], frame);
      Associative([NextFrameCall(frames[0])], NextFrameCalls(frames[1..]), [NextFrameCall(frame)]);
    } else {
      assert frames + [frame] == [frame];
    }
  }

  /** The i-th call hands the i-th frame. */
  lemma {:induction false} NextFrameCallsInOrder(frames: seq<int>)
    ensures forall i :: 0 <= i < |frames| ==> NextFrameCalls(frames)[i] == NextFrameCall(frames[i])
  {
    if frames != [] {
      NextFrameCallsInOrder(frames[1..]);
      forall i | 0 < i < |frames|
        ensures NextFrameCalls(frames)[i] == NextFrameCall(frames[i])
      {
        assert NextFrameCalls(frames)[i] == NextFrameCalls(frames[1..])[i - 1];
      }
    }
  }
}
