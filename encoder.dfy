/** The recorder of Recorder.kt: one encoder session that drains a (modelled) MediaCodec into a
    (modelled) MediaMuxer, registering the video track on the first format change and stamping
    every written sample with a synthetic presentation time.

    The first half states each step of the drain loop as a function of the session's fields
    (`Session`), the whole drain as `Drain`, and proves what a recording keeps true
    (`SessionInvariant`).  The second half is the class `Recorder`, whose methods change the
    fields in place and are proved to do what those functions say. */
module Encoder {
  import opened Media

  const MICROS_PER_SECOND: int := 1000000

  /** MediaMuxer.addTrack numbers tracks from 0; the recorder only ever adds one track to an
      empty muxer (a second attempt faults first), so the index it gets back is this one. */
  const FIRST_TRACK: int := 0

  /** The constructor's default arguments. */
  const DEFAULT_FPS: int := 30
  const DEFAULT_WIDTH: int := 720
  const DEFAULT_HEIGHT: int := 720

  // ---------------------------------------------------------------------------------------
  // Argument validation of the constructor

  datatype ArgumentError = NegativeWidth | NegativeHeight | NegativeFramesPerSecond

  /** The checks of the constructor's `init` block, in their order.  Only negative values are
      refused: zero passes. */
  function CheckArguments(width: int, height: int, framesPerSecond: int): (r: Option<ArgumentError>)
    ensures r == None <==> width >= 0 && height >= 0 && framesPerSecond >= 0
    ensures r == Some(NegativeWidth) <==> width < 0
    ensures r == Some(NegativeHeight) <==> width >= 0 && height < 0
    ensures r == Some(NegativeFramesPerSecond) <==> width >= 0 && height >= 0 && framesPerSecond < 0
  {
    if width < 0 then Some(NegativeWidth)
    else if height < 0 then Some(NegativeHeight)
    else if framesPerSecond < 0 then Some(NegativeFramesPerSecond)
    else None
  }

  /** The growth of the synthetic timestamp per written sample, `1000000L / framesPerSecond`
      (truncating division; both operands are non-negative).  With no frame rate the division
      faults instead, so no step exists; 0 stands in for it. */
  function PtsStep(framesPerSecond: int): (step: int)
    requires framesPerSecond >= 0
    ensures step >= 0
    ensures 0 < framesPerSecond <= MICROS_PER_SECOND ==> step >= 1
    ensures framesPerSecond > MICROS_PER_SECOND ==> step == 0
  {
    if framesPerSecond == 0 then 0 else MICROS_PER_SECOND / framesPerSecond
  }

  /** A recorder built with the default arguments passes the checks, and its samples are
      33333 microseconds apart. */
  lemma DefaultArgumentsAccepted()
    ensures CheckArguments(DEFAULT_WIDTH, DEFAULT_HEIGHT, DEFAULT_FPS) == None
    ensures PtsStep(DEFAULT_FPS) == 33333
  {
  }

  /** The step is the whole number of microseconds in one frame, rounded down. */
  lemma PtsStepRoundsDown(framesPerSecond: int)
    requires framesPerSecond > 0
    ensures PtsStep(framesPerSecond) * framesPerSecond <= MICROS_PER_SECOND
    ensures MICROS_PER_SECOND < (PtsStep(framesPerSecond) + 1) * framesPerSecond
  {
    var q, r := MICROS_PER_SECOND / framesPerSecond, MICROS_PER_SECOND % framesPerSecond;
    assert MICROS_PER_SECOND == q * framesPerSecond + r;
    assert (q + 1) * framesPerSecond == q * framesPerSecond + framesPerSecond;
  }

  // ---------------------------------------------------------------------------------------
  // One session, one poll at a time

  /** The recorder's mutable fields. */
  datatype Session = Session(trackIndex: int, muxerStarted: bool, fakePts: int, videoLengthInMs: int)

  /** Why a drain stopped polling: "try again later" outside end-of-stream mode, a buffer with
      the end-of-stream flag, or (end-of-stream mode on an encoder with nothing more to say) a
      loop that would poll forever. */
  datatype DrainExit = NoOutputReady | EndOfStreamFlag | PollsForever

  /** The RuntimeExceptions of the drain, and the ArithmeticException of a zero frame rate. */
  datatype Fault = FormatChangedTwice | MuxerNotStarted | DivideByZero

  datatype Outcome = Continue | Exit(exit: DrainExit) | Fatal(fault: Fault)

  /** The session after one step, the calls the step made, and whether polling goes on. */
  datatype Step = Step(session: Session, effects: seq<Effect>, outcome: Outcome)

  /** startMuxer: on the first format change, add the track, keep its index and start the muxer. */
  function StartMuxerStep(s: Session): (t: Step)
    ensures t.outcome != Continue <==> s.muxerStarted
    ensures s.muxerStarted ==> t == Step(s, [], Fatal(FormatChangedTwice))
    ensures !s.muxerStarted ==>
      TrackCount(t.effects) == 1 && Samples(t.effects) == [] && Releases(t.effects) == [] &&
      t.effects == [AddTrack(t.session.trackIndex), StartMuxer] &&
      t.session == s.(trackIndex := FIRST_TRACK, muxerStarted := true)
  {
    if s.muxerStarted then Step(s, [], Fatal(FormatChangedTwice))
    else Step(s.(trackIndex := FIRST_TRACK, muxerStarted := true), [AddTrack(FIRST_TRACK), StartMuxer], Continue)
  }

  /** The number of bytes a buffer contributes: codec-config data counts as none. */
  function PayloadSize(info: BufferInfo): int {
    if HasFlag(info.flags, BUFFER_FLAG_CODEC_CONFIG) then 0 else info.size
  }

  /** encodeVideoData: write the buffer's bytes (unless they are codec config) at the next
      synthetic time, release the buffer, and stop on the end-of-stream flag. */
  function EncodeStep(s: Session, info: BufferInfo, index: int, endOfStream: bool, framesPerSecond: int): (t: Step)
    requires framesPerSecond >= 0
  {
    var size := PayloadSize(info);
    if size != 0 && !s.muxerStarted then
      Step(s, [], Fatal(MuxerNotStarted))
    else
      var length := if size != 0 && endOfStream then s.fakePts else s.videoLengthInMs;
      if size != 0 && framesPerSecond == 0 then
        Step(s.(videoLengthInMs := length), [], Fatal(DivideByZero))
      else
        var written := if size != 0 then [WriteSample(Sample(s.trackIndex, s.fakePts, info.offset, size))] else [];
        var pts := if size != 0 then s.fakePts + PtsStep(framesPerSecond) else s.fakePts;
        var done := if HasFlag(info.flags, BUFFER_FLAG_END_OF_STREAM) then Exit(EndOfStreamFlag) else Continue;
        Step(s.(fakePts := pts, videoLengthInMs := length), written + [ReleaseBuffer(index)], done)
  }

  /** A result that can make a pass of the `when` fault: a format change (if the muxer was already
      started), or a buffer with bytes to write (if the muxer was not started or there is no
      frame rate). */
  predicate FaultingPoll(p: Poll) {
    p.status == INFO_OUTPUT_FORMAT_CHANGED || (p.status > 0 && PayloadSize(p.info) != 0)
  }

  /** One iteration of the `when` in drainEncoderPostLollipop. */
  function PollStep(s: Session, p: Poll, endOfStream: bool, framesPerSecond: int): (t: Step)
    requires framesPerSecond >= 0
  {
    if p.status == INFO_TRY_AGAIN_LATER then
      Step(s, [], if endOfStream then Continue else Exit(NoOutputReady))
    else if p.status == INFO_OUTPUT_FORMAT_CHANGED then
      StartMuxerStep(s)
    else if p.status > 0 then
      EncodeStep(s, p.info, p.status, endOfStream, framesPerSecond)
    else
      Step(s, [], Continue)
  }

  /** What one encodeVideoData does. */
  lemma EncodeStepMeaning(s: Session, info: BufferInfo, index: int, endOfStream: bool, framesPerSecond: int, t: Step)
    requires framesPerSecond >= 0 && t == EncodeStep(s, info, index, endOfStream, framesPerSecond)
    ensures TrackCount(t.effects) == 0
    // codec-config data is never written
    ensures HasFlag(info.flags, BUFFER_FLAG_CODEC_CONFIG) ==> Samples(t.effects) == []
    // the faults: bytes to write with no started muxer, or with no frame rate
    ensures t.outcome.Fatal? <==> PayloadSize(info) != 0 && (!s.muxerStarted || framesPerSecond == 0)
    ensures t.outcome == Fatal(MuxerNotStarted) <==> PayloadSize(info) != 0 && !s.muxerStarted
    ensures t.outcome.Fatal? ==> t.effects == [] && t.session.fakePts == s.fakePts
    // otherwise: at most one sample, stamped with the current synthetic time, then the release
    ensures !t.outcome.Fatal? ==>
      Releases(t.effects) == [index] &&
      Samples(t.effects) == (if PayloadSize(info) != 0
                             then [Sample(s.trackIndex, s.fakePts, info.offset, PayloadSize(info))]
                             else []) &&
      t.session.fakePts == (if Samples(t.effects) == [] then s.fakePts else s.fakePts + PtsStep(framesPerSecond)) &&
      (t.outcome == Exit(EndOfStreamFlag) <==> HasFlag(info.flags, BUFFER_FLAG_END_OF_STREAM)) &&
      (t.outcome == Continue <==> !HasFlag(info.flags, BUFFER_FLAG_END_OF_STREAM))
    // the video length follows the timestamp only while draining for end of stream
    ensures t.session.videoLengthInMs ==
      if endOfStream && PayloadSize(info) != 0 && s.muxerStarted then s.fakePts else s.videoLengthInMs
    ensures t.session.trackIndex == s.trackIndex && t.session.muxerStarted == s.muxerStarted
  {
  }

  /** What one pass of the `when` does. */
  lemma PollStepMeaning(s: Session, p: Poll, endOfStream: bool, framesPerSecond: int, t: Step)
    requires framesPerSecond >= 0 && t == PollStep(s, p, endOfStream, framesPerSecond)
    ensures t.outcome != Exit(PollsForever)
    // "try again later" ends the drain only outside end-of-stream mode
    ensures p.status == INFO_TRY_AGAIN_LATER ==>
      t == Step(s, [], if endOfStream then Continue else Exit(NoOutputReady))
    ensures t.outcome == Exit(NoOutputReady) ==> p.status == INFO_TRY_AGAIN_LATER && !endOfStream
    // a format change never ends the drain normally
    ensures p.status == INFO_OUTPUT_FORMAT_CHANGED ==> !t.outcome.Exit?
    // an end-of-stream buffer always ends it, and only such a buffer ends it that way
    ensures IsEndOfStreamBuffer(p) ==> t.outcome != Continue
    ensures t.outcome == Exit(EndOfStreamFlag) <==> IsEndOfStreamBuffer(p) && !t.outcome.Fatal?
    // only positive statuses name buffers; the others (0 among them) are skipped untouched
    ensures Releases(t.effects) == if p.status > 0 && !t.outcome.Fatal? then [p.status] else []
    ensures p.status !in {INFO_TRY_AGAIN_LATER, INFO_OUTPUT_FORMAT_CHANGED} && p.status <= 0 ==>
      t == Step(s, [], Continue)
    // only a second format change or a buffer with bytes to write can fault, and a fault makes no call
    ensures t.outcome.Fatal? ==> t.effects == [] && FaultingPoll(p)
    // otherwise exactly the bytes of a buffer are written, at the current time on the current track
    ensures !t.outcome.Fatal? ==>
      Samples(t.effects) == if p.status > 0 && PayloadSize(p.info) != 0
                            then [Sample(s.trackIndex, s.fakePts, p.info.offset, PayloadSize(p.info))]
                            else []
  {
    if p.status > 0 {
      EncodeStepMeaning(s, p.info, p.status, endOfStream, framesPerSecond, t);
    }
  }

  // ---------------------------------------------------------------------------------------
  // A whole drain

  /** The session after a drain, the calls it made, how many polls it consumed, and why it
      stopped. */
  datatype Drained = Drained(session: Session, effects: seq<Effect>, consumed: nat, outcome: Outcome)

  /** drainEncoderPostLollipop over the encoder's remaining results `polls`.  An encoder with no
      more results answers "try again later" to every poll. */
  function Drain(s: Session, polls: seq<Poll>, endOfStream: bool, framesPerSecond: int): (r: Drained)
    requires framesPerSecond >= 0
    decreases |polls|
    ensures r.outcome != Continue
    ensures r.consumed <= |polls|
    ensures r.outcome.Fatal? || r.outcome == Exit(EndOfStreamFlag) ==> r.consumed >= 1
    ensures r.outcome == Exit(PollsForever) ==> endOfStream && r.consumed == |polls|
  {
    if polls == [] then
      Drained(s, [], 0, Exit(if endOfStream then PollsForever else NoOutputReady))
    else
      var t := PollStep(s, polls[0], endOfStream, framesPerSecond);
      if t.outcome == Continue then
        var r := Drain(t.session, polls[1..], endOfStream, framesPerSecond);
        Drained(r.session, t.effects + r.effects, r.consumed + 1, r.outcome)
      else
        Drained(t.session, t.effects, 1, t.outcome)
  }

  /** Where a drain that consumed `r.consumed` of `polls` stopped: "try again later" (or an
      exhausted encoder) stops it only outside end-of-stream mode, an end-of-stream buffer always
      stops it (with the flag, unless its bytes fault), a fault comes from a format change or a buffer with bytes to write, and every
      poll before the last one it consumed let polling go on. */
  ghost predicate StopsWhere(polls: seq<Poll>, endOfStream: bool, r: Drained) {
    r.consumed <= |polls| &&
    (r.outcome == Exit(NoOutputReady) ==> !endOfStream) &&
    (r.outcome == Exit(NoOutputReady) ==>
      r.consumed == |polls| || (r.consumed >= 1 && polls[r.consumed - 1].status == INFO_TRY_AGAIN_LATER)) &&
    (r.outcome.Fatal? ==> r.consumed >= 1 && FaultingPoll(polls[r.consumed - 1])) &&
    (r.outcome == Exit(EndOfStreamFlag) ==> r.consumed >= 1 && IsEndOfStreamBuffer(polls[r.consumed - 1])) &&
    (r.consumed >= 1 && IsEndOfStreamBuffer(polls[r.consumed - 1]) ==>
      r.outcome == Exit(EndOfStreamFlag) || r.outcome.Fatal?) &&
    (forall i :: 0 <= i < r.consumed - 1 ==>
      !IsEndOfStreamBuffer(polls[i]) && (!endOfStream ==> polls[i].status != INFO_TRY_AGAIN_LATER))
  }

  lemma {:induction false} DrainStops(s: Session, polls: seq<Poll>, endOfStream: bool, framesPerSecond: int)
    requires framesPerSecond >= 0
    decreases |polls|
    ensures StopsWhere(polls, endOfStream, Drain(s, polls, endOfStream, framesPerSecond))
  {
    if polls != [] {
      var t := PollStep(s, polls[0], endOfStream, framesPerSecond);
      PollStepMeaning(s, polls[0], endOfStream, framesPerSecond, t);
      if t.outcome == Continue {
        DrainStops(t.session, polls[1..], endOfStream, framesPerSecond);
        StopsAfterContinue(polls, endOfStream, Drain(t.session, polls[1..], endOfStream, framesPerSecond),
                           Drain(s, polls, endOfStream, framesPerSecond));
      }
    }
  }

  /** The step case: a first poll that let polling go on, then the drain of the rest. */
  lemma StopsAfterContinue(polls: seq<Poll>, endOfStream: bool, rest: Drained, r: Drained)
    requires polls != [] && StopsWhere(polls[1..], endOfStream, rest)
    requires !IsEndOfStreamBuffer(polls[0]) && (!endOfStream ==> polls[0].status != INFO_TRY_AGAIN_LATER)
    requires r.consumed == rest.consumed + 1 && r.outcome == rest.outcome
    ensures StopsWhere(polls, endOfStream, r)
  {
    forall i | 1 <= i < r.consumed - 1
      ensures !IsEndOfStreamBuffer(polls[i]) && (!endOfStream ==> polls[i].status != INFO_TRY_AGAIN_LATER)
    {
      assert polls[i] == polls[1..][i - 1];
    }
    if rest.consumed >= 1 {
      assert polls[r.consumed - 1] == polls[1..][rest.consumed - 1];
    }
  }

  /** The buffer indices a sequence of polls hands out. */
  function BufferIndices(polls: seq<Poll>): (indices: seq<int>)
    ensures |indices| <= |polls|
  {
    if polls == [] then []
    else (if polls[0].status > 0 then [polls[0].status] else []) + BufferIndices(polls[1..])
  }

  /** The buffers among the first n polls: those of the first poll, then those of the next n - 1. */
  lemma TakeSplit(polls: seq<Poll>, n: nat)
    requires 1 <= n <= |polls|
    ensures BufferIndices(polls[..n])
         == (if polls[0].status > 0 then [polls[0].status] else []) + BufferIndices(polls[1..][..n - 1])
  {
    assert polls[..n][0] == polls[0];
    assert polls[..n][1..] == polls[1..][..n - 1];
  }

  /** The buffers among the first n polls a drain handled, n being what it consumed less a
      faulting last poll. */
  function Handled(polls: seq<Poll>, r: Drained): seq<int>
    requires r.consumed <= |polls| && (r.outcome.Fatal? ==> r.consumed >= 1)
  {
    BufferIndices(polls[..if r.outcome.Fatal? then r.consumed - 1 else r.consumed])
  }

  /** The polls a drain handled: those it consumed, less a faulting last one. */
  function HandledPolls(polls: seq<Poll>, r: Drained): (handled: seq<Poll>)
    requires r.consumed <= |polls| && (r.outcome.Fatal? ==> r.consumed >= 1)
    ensures handled <= polls
  {
    polls[..if r.outcome.Fatal? then r.consumed - 1 else r.consumed]
  }

  /** The byte ranges (offset, size) of some samples. */
  function Extents(samples: seq<Sample>): (extents: seq<(int, int)>)
    ensures |extents| == |samples|
  {
    if samples == [] then [] else [(samples[0].offset, samples[0].size)] + Extents(samples[1..])
  }

  lemma {:induction false} ExtentsAppend(a: seq<Sample>, b: seq<Sample>)
    ensures Extents(a + b) == Extents(a) + Extents(b)
  {
    if a == [] {
      assert a + b == b;
    } else {
      assert (a + b)[1..] == a[1..] + b;
      ExtentsAppend(a[1..], b);
      Associative([(a[0].offset, a[0].size)], Extents(a[1..]), Extents(b));
    }
  }

  /** The byte ranges a sequence of polls has to write: those of the buffers, codec config
      excluded, with bytes in them. */
  function Payloads(polls: seq<Poll>): (extents: seq<(int, int)>)
    ensures |extents| <= |polls|
  {
    if polls == [] then []
    else PayloadOf(polls[0]) + Payloads(polls[1..])
  }

  function PayloadOf(p: Poll): seq<(int, int)> {
    if p.status > 0 && PayloadSize(p.info) != 0 then [(p.info.offset, PayloadSize(p.info))] else []
  }

  /** The payloads among the first n polls: those of the first poll, then those of the next n - 1. */
  lemma PayloadsTakeSplit(polls: seq<Poll>, n: nat)
    requires 1 <= n <= |polls|
    ensures Payloads(polls[..n]) == PayloadOf(polls[0]) + Payloads(polls[1..][..n - 1])
  {
    assert polls[..n][0] == polls[0];
    assert polls[..n][1..] == polls[1..][..n - 1];
  }

  /** Every byte range the drain handled is written to the muxer exactly once, in the order the
      buffers were handed out; codec-config data and empty buffers are not written, and neither
      is the buffer of a fault. */
  lemma {:induction false} DrainWritesHandledPayloads(s: Session, polls: seq<Poll>, endOfStream: bool, framesPerSecond: int)
    requires framesPerSecond >= 0
    decreases |polls|
    ensures var r := Drain(s, polls, endOfStream, framesPerSecond);
      Extents(Samples(r.effects)) == Payloads(HandledPolls(polls, r))
  {
    if polls != [] {
      var t := PollStep(s, polls[0], endOfStream, framesPerSecond);
      var r := Drain(s, polls, endOfStream, framesPerSecond);
      PollStepMeaning(s, polls[0], endOfStream, framesPerSecond, t);
      if t.outcome == Continue {
        var r' := Drain(t.session, polls[1..], endOfStream, framesPerSecond);
        DrainWritesHandledPayloads(t.session, polls[1..], endOfStream, framesPerSecond);
        WritesAfterContinue(polls, t.effects, r', r);
      } else if t.outcome.Fatal? {
        assert polls[..0] == [];
      } else {
        assert polls[..1] == [polls[0]];
      }
    }
  }

  /** The step case: the first poll wrote its bytes (if it had any) and let the drain go on. */
  lemma WritesAfterContinue(polls: seq<Poll>, first: seq<Effect>, rest: Drained, r: Drained)
    requires polls != [] && rest.consumed <= |polls| - 1 && (rest.outcome.Fatal? ==> rest.consumed >= 1)
    requires Extents(Samples(first)) == PayloadOf(polls[0])
    requires Extents(Samples(rest.effects)) == Payloads(HandledPolls(polls[1..], rest))
    requires r == Drained(rest.session, first + rest.effects, rest.consumed + 1, rest.outcome)
    ensures Extents(Samples(r.effects)) == Payloads(HandledPolls(polls, r))
  {
    SamplesAppend(first, rest.effects);
    ExtentsAppend(Samples(first), Samples(rest.effects));
    PayloadsTakeSplit(polls, if r.outcome.Fatal? then r.consumed - 1 else r.consumed);
  }

  /** One turn of the drain loop: the first poll's step, then (if it lets the drain go on) the
      drain of the rest. */
  lemma DrainUnfolds(s: Session, polls: seq<Poll>, endOfStream: bool, framesPerSecond: int)
    requires framesPerSecond >= 0 && polls != []
    ensures var t := PollStep(s, polls[0], endOfStream, framesPerSecond);
      var r := Drain(s, polls, endOfStream, framesPerSecond);
      var r' := Drain(t.session, polls[1..], endOfStream, framesPerSecond);
      (t.outcome == Continue ==> r == Drained(r'.session, t.effects + r'.effects, r'.consumed + 1, r'.outcome)) &&
      (t.outcome != Continue ==> r == Drained(t.session, t.effects, 1, t.outcome))
  {
  }

  /** Bookkeeping of the drain loop: with `done` effects and `taken` polls behind it and the
      drain `r` ahead, the whole drain is `goal`; one more step that goes on keeps this so. */
  lemma GoalAdvances(goal: Drained, done: seq<Effect>, taken: nat, r: Drained, first: seq<Effect>, rest: Drained)
    requires goal == Drained(r.session, done + r.effects, taken + r.consumed, r.outcome)
    requires r == Drained(rest.session, first + rest.effects, rest.consumed + 1, rest.outcome)
    ensures goal == Drained(rest.session, (done + first) + rest.effects, (taken + 1) + rest.consumed, rest.outcome)
  {
    Associative(done, first, rest.effects);
  }

  /** ... and a step that stops the drain completes it. */
  lemma GoalAtStop(goal: Drained, done: seq<Effect>, taken: nat, r: Drained, t: Step)
    requires goal == Drained(r.session, done + r.effects, taken + r.consumed, r.outcome)
    requires r == Drained(t.session, t.effects, 1, t.outcome)
    ensures goal == Drained(t.session, done + t.effects, taken + 1, t.outcome)
  {
  }

  /** Every buffer the drain handled is released exactly once, in the order it was handed out,
      whether or not its bytes were written; a fault leaves the faulting buffer unreleased. */
  lemma {:induction false} DrainReleasesHandledBuffers(s: Session, polls: seq<Poll>, endOfStream: bool, framesPerSecond: int)
    requires framesPerSecond >= 0
    decreases |polls|
    ensures var r := Drain(s, polls, endOfStream, framesPerSecond);
      Releases(r.effects) == Handled(polls, r)
  {
    if polls != [] {
      var t := PollStep(s, polls[0], endOfStream, framesPerSecond);
      var r := Drain(s, polls, endOfStream, framesPerSecond);
      PollStepMeaning(s, polls[0], endOfStream, framesPerSecond, t);
      if t.outcome == Continue {
        var r' := Drain(t.session, polls[1..], endOfStream, framesPerSecond);
        DrainReleasesHandledBuffers(t.session, polls[1..], endOfStream, framesPerSecond);
        ReleasesAfterContinue(polls, t.effects, r', r);
      } else if t.outcome.Fatal? {
        assert polls[..0] == [];
      } else {
        assert polls[..1] == [polls[0]];
      }
    }
  }

  /** The step case: the first poll released its buffer (if it named one) and let the drain go
      on to the rest. */
  lemma ReleasesAfterContinue(polls: seq<Poll>, first: seq<Effect>, rest: Drained, r: Drained)
    requires polls != [] && rest.consumed <= |polls| - 1 && (rest.outcome.Fatal? ==> rest.consumed >= 1)
    requires Releases(first) == if polls[0].status > 0 then [polls[0].status] else []
    requires Releases(rest.effects) == Handled(polls[1..], rest)
    requires r == Drained(rest.session, first + rest.effects, rest.consumed + 1, rest.outcome)
    ensures Releases(r.effects) == Handled(polls, r)
  {
    ReleasesAppend(first, rest.effects);
    TakeSplit(polls, if r.outcome.Fatal? then r.consumed - 1 else r.consumed);
  }

  /** videoLengthInMs, from `before` to `after` over the calls `effects`: outside end-of-stream
      mode it is left alone; in end-of-stream mode, unless a fault cut the work short, it ends at
      the time of the last sample written (or is left alone, if none was). */
  ghost predicate RecordsLength(before: int, endOfStream: bool, effects: seq<Effect>, fatal: bool, after: int) {
    var written := Samples(effects);
    (!endOfStream ==> after == before) &&
    (endOfStream && !fatal ==> after == if written == [] then before else written[|written| - 1].pts)
  }

  /** Every drain records the video length so. */
  lemma {:induction false} DrainRecordsVideoLength(s: Session, polls: seq<Poll>, endOfStream: bool, framesPerSecond: int)
    requires framesPerSecond >= 0
    decreases |polls|
    ensures var r := Drain(s, polls, endOfStream, framesPerSecond);
      RecordsLength(s.videoLengthInMs, endOfStream, r.effects, r.outcome.Fatal?, r.session.videoLengthInMs)
  {
    if polls != [] {
      var t := PollStep(s, polls[0], endOfStream, framesPerSecond);
      PollStepRecordsVideoLength(s, polls[0], endOfStream, framesPerSecond);
      if t.outcome == Continue {
        var r' := Drain(t.session, polls[1..], endOfStream, framesPerSecond);
        DrainRecordsVideoLength(t.session, polls[1..], endOfStream, framesPerSecond);
        LengthAfterContinue(s.videoLengthInMs, endOfStream, t, r', Drain(s, polls, endOfStream, framesPerSecond));
      }
    }
  }

  /** One poll records the video length so. */
  lemma PollStepRecordsVideoLength(s: Session, p: Poll, endOfStream: bool, framesPerSecond: int)
    requires framesPerSecond >= 0
    ensures var t := PollStep(s, p, endOfStream, framesPerSecond);
      RecordsLength(s.videoLengthInMs, endOfStream, t.effects, t.outcome.Fatal?, t.session.videoLengthInMs)
  {
    if p.status > 0 {
      var t := EncodeStep(s, p.info, p.status, endOfStream, framesPerSecond);
      assert PayloadSize(p.info) != 0 && !t.outcome.Fatal? ==> Samples(t.effects)[0].pts == s.fakePts;
    }
  }

  /** The step case: a first step that went on, then the drain of the rest. */
  lemma LengthAfterContinue(before: int, endOfStream: bool, first: Step, rest: Drained, r: Drained)
    requires !first.outcome.Fatal?
    requires RecordsLength(before, endOfStream, first.effects, false, first.session.videoLengthInMs)
    requires RecordsLength(first.session.videoLengthInMs, endOfStream, rest.effects, rest.outcome.Fatal?, rest.session.videoLengthInMs)
    requires r == Drained(rest.session, first.effects + rest.effects, rest.consumed + 1, rest.outcome)
    ensures RecordsLength(before, endOfStream, r.effects, r.outcome.Fatal?, r.session.videoLengthInMs)
  {
    SamplesAppend(first.effects, rest.effects);
  }

  // ---------------------------------------------------------------------------------------
  // What a recording keeps true

  /** The relation between the fields and everything the session has done so far: the track is
      added at most once, only when the muxer is started, and before any sample; every sample is
      on that track; the first sample is at time 0 and each next one a step later; fakePts is
      the time the next sample will get. */
  ghost predicate SessionInvariant(s: Session, log: seq<Effect>, framesPerSecond: int) {
    Consistent(s, Samples(log), TrackCount(log), SamplesBeforeTrack(log), framesPerSecond)
  }

  /** The invariant in terms of the samples written, the number of tracks added and the number
      of samples written before the first track. */
  ghost predicate Consistent(s: Session, samples: seq<Sample>, tracks: nat, early: nat, framesPerSecond: int) {
    framesPerSecond >= 0 &&
    tracks == (if s.muxerStarted then 1 else 0) &&
    early == 0 &&
    (if s.muxerStarted then s.trackIndex == FIRST_TRACK else s.trackIndex == -1 && samples == []) &&
    s.fakePts == NextPts(samples, framesPerSecond) &&
    (forall k :: 0 <= k < |samples| ==> samples[k].track == s.trackIndex) &&
    (samples != [] ==> samples[0].pts == 0) &&
    forall k :: 0 < k < |samples| ==> samples[k].pts == samples[k - 1].pts + PtsStep(framesPerSecond)
  }

  /** The time the sample after `samples` gets: 0 for the first one, one step after the last. */
  function NextPts(samples: seq<Sample>, framesPerSecond: int): int
    requires framesPerSecond >= 0
  {
    if samples == [] then 0 else samples[|samples| - 1].pts + PtsStep(framesPerSecond)
  }

  /** Writing one sample at the current time, on the current track, keeps the invariant. */
  lemma SampleKeepsConsistent(s: Session, samples: seq<Sample>, tracks: nat, early: nat, framesPerSecond: int, x: Sample)
    requires Consistent(s, samples, tracks, early, framesPerSecond) && s.muxerStarted
    requires x.track == s.trackIndex && x.pts == s.fakePts
    ensures Consistent(s.(fakePts := s.fakePts + PtsStep(framesPerSecond)), samples + [x], tracks, early, framesPerSecond)
  {
    var samples' := samples + [x];
    forall k | 0 < k < |samples'|
      ensures samples'[k].pts == samples'[k - 1].pts + PtsStep(framesPerSecond)
    {
      if k < |samples| {
        assert samples'[k] == samples[k] && samples'[k - 1] == samples[k - 1];
      }
    }
  }

  /** Effects that neither add a track nor write a sample keep the invariant, whatever happens to
      videoLengthInMs. */
  lemma QuietEffectsKeepInvariant(s: Session, log: seq<Effect>, extra: seq<Effect>, length: int, framesPerSecond: int)
    requires SessionInvariant(s, log, framesPerSecond)
    requires TrackCount(extra) == 0 && Samples(extra) == []
    ensures SessionInvariant(s.(videoLengthInMs := length), log + extra, framesPerSecond)
  {
    SamplesAppend(log, extra);
    TrackCountAppend(log, extra);
    SamplesBeforeTrackAppend(log, extra);
    SamplesBeforeTrackBound(extra);
    AppendEmpty(Samples(log));
  }

  /** Adding the track and starting the muxer, when it was not started, keeps the invariant. */
  lemma TrackAddedKeepsInvariant(s: Session, log: seq<Effect>, framesPerSecond: int)
    requires SessionInvariant(s, log, framesPerSecond) && !s.muxerStarted
    ensures SessionInvariant(s.(trackIndex := FIRST_TRACK, muxerStarted := true),
                             log + [AddTrack(FIRST_TRACK), StartMuxer], framesPerSecond)
  {
    var added := [AddTrack(FIRST_TRACK), StartMuxer];
    SamplesAppend(log, added);
    TrackCountAppend(log, added);
    SamplesBeforeTrackAppend(log, added);
    assert Samples(added) == [] && TrackCount(added) == 1 && SamplesBeforeTrack(added) == 0;
  }

  /** Writing a sample at the current time on the current track, then releasing its buffer,
      keeps the invariant. */
  lemma SampleWrittenKeepsInvariant(s: Session, log: seq<Effect>, x: Sample, index: int, length: int, framesPerSecond: int)
    requires SessionInvariant(s, log, framesPerSecond) && s.muxerStarted
    requires x.track == s.trackIndex && x.pts == s.fakePts
    ensures SessionInvariant(s.(fakePts := s.fakePts + PtsStep(framesPerSecond), videoLengthInMs := length),
                             log + [WriteSample(x), ReleaseBuffer(index)], framesPerSecond)
  {
    var written := [WriteSample(x), ReleaseBuffer(index)];
    SamplesAppend(log, written);
    TrackCountAppend(log, written);
    SamplesBeforeTrackAppend(log, written);
    assert Samples(written) == [x] && TrackCount(written) == 0;
    SampleKeepsConsistent(s, Samples(log), TrackCount(log), SamplesBeforeTrack(log), framesPerSecond, x);
  }

  /** Every pass of the `when` keeps the invariant. */
  lemma PollStepKeepsInvariant(s: Session, log: seq<Effect>, p: Poll, endOfStream: bool, framesPerSecond: int)
    requires SessionInvariant(s, log, framesPerSecond)
    ensures var t := PollStep(s, p, endOfStream, framesPerSecond);
      SessionInvariant(t.session, log + t.effects, framesPerSecond)
  {
    var t := PollStep(s, p, endOfStream, framesPerSecond);
    if p.status == INFO_OUTPUT_FORMAT_CHANGED && !s.muxerStarted {
      TrackAddedKeepsInvariant(s, log, framesPerSecond);
    } else if p.status > 0 && !t.outcome.Fatal? && PayloadSize(p.info) != 0 {
      var x := Sample(s.trackIndex, s.fakePts, p.info.offset, PayloadSize(p.info));
      assert t.effects == [WriteSample(x), ReleaseBuffer(p.status)];
      assert t.session == s.(fakePts := s.fakePts + PtsStep(framesPerSecond), videoLengthInMs := t.session.videoLengthInMs);
      SampleWrittenKeepsInvariant(s, log, x, p.status, t.session.videoLengthInMs, framesPerSecond);
    } else {
      QuietEffectsKeepInvariant(s, log, t.effects, t.session.videoLengthInMs, framesPerSecond);
    }
  }

  /** Every drain keeps the invariant. */
  lemma {:induction false} DrainKeepsInvariant(s: Session, log: seq<Effect>, polls: seq<Poll>, endOfStream: bool, framesPerSecond: int)
    requires SessionInvariant(s, log, framesPerSecond)
    decreases |polls|
    ensures var r := Drain(s, polls, endOfStream, framesPerSecond);
      SessionInvariant(r.session, log + r.effects, framesPerSecond)
  {
    if polls != [] {
      var t := PollStep(s, polls[0], endOfStream, framesPerSecond);
      PollStepKeepsInvariant(s, log, polls[0], endOfStream, framesPerSecond);
      if t.outcome == Continue {
        var r' := Drain(t.session, polls[1..], endOfStream, framesPerSecond);
        DrainKeepsInvariant(t.session, log + t.effects, polls[1..], endOfStream, framesPerSecond);
        Associative(log, t.effects, r'.effects);
      }
    } else {
      assert log + [] == log;
    }
  }

  /** The track is registered once, before any sample is written. */
  lemma TrackAddedOnceBeforeSamples(s: Session, log: seq<Effect>, framesPerSecond: int)
    requires SessionInvariant(s, log, framesPerSecond)
    ensures TrackCount(log) <= 1
    ensures Samples(log) != [] ==> TrackCount(log) == 1 && s.muxerStarted
    ensures SamplesBeforeTrack(log) == 0
  {
  }

  /** The written timestamps are k * (1000000 / framesPerSecond): equally spaced, strictly
      increasing up to 1000000 frames per second, all zero beyond. */
  lemma TimestampsEquallySpaced(s: Session, log: seq<Effect>, framesPerSecond: int)
    requires SessionInvariant(s, log, framesPerSecond) && framesPerSecond > 0
    ensures var samples := Samples(log);
      (forall k :: 0 <= k < |samples| ==> samples[k].pts == k * (MICROS_PER_SECOND / framesPerSecond)) &&
      s.fakePts == |samples| * (MICROS_PER_SECOND / framesPerSecond) &&
      (framesPerSecond <= MICROS_PER_SECOND ==>
        forall i, j :: 0 <= i < j < |samples| ==> samples[i].pts < samples[j].pts) &&
      (framesPerSecond > MICROS_PER_SECOND ==> forall k :: 0 <= k < |samples| ==> samples[k].pts == 0)
  {
    var samples := Samples(log);
    var step := PtsStep(framesPerSecond);
    assert Consistent(s, samples, TrackCount(log), SamplesBeforeTrack(log), framesPerSecond);
    var k := 0;
    while k < |samples|
      invariant 0 <= k <= |samples|
      invariant forall i :: 0 <= i < k ==> samples[i].pts == i * step
    {
      if k > 0 {
        assert samples[k].pts == samples[k - 1].pts + step;
        NextMultiple(k, step);
      } else {
        assert samples[0].pts == 0;
      }
      k := k + 1;
    }
    if samples != [] {
      NextMultiple(|samples|, step);
    }
    if framesPerSecond <= MICROS_PER_SECOND {
      forall i, j | 0 <= i < j < |samples|
        ensures samples[i].pts < samples[j].pts
      {
        MultiplesIncrease(i, j, step);
      }
    }
  }

  lemma NextMultiple(k: int, step: int)
    ensures k * step == (k - 1) * step + step
  {
  }

  lemma MultiplesIncrease(i: int, j: int, step: int)
    requires i < j && step > 0
    ensures i * step < j * step
  {
    assert j * step == i * step + (j - i) * step;
  }

  // ---------------------------------------------------------------------------------------
  // The recorder object

  /** The calls close() makes, in order. */
  const CloseEffects: seq<Effect> := [StopEncoder, ReleaseEncoder, ReleaseSurface, StopMuxer, ReleaseMuxer]

  class Recorder {
    const framesPerSecond: int
    var trackIndex: int
    var muxerStarted: bool
    var fakePts: int
    var videoLengthInMs: int
    /** The shared MediaCodec.BufferInfo that each dequeue of a buffer fills in. */
    var videoBufferInfo: BufferInfo
    /** What the encoder's dequeueOutputBuffer will still report, in order. */
    var encoderOutput: seq<Poll>
    /** The calls made on the encoder, the muxer and the input surface since construction, other
        than dequeueing, buffer and format lookups and locking the canvas. */
    ghost var log: seq<Effect>
    /** Whether close() has released the encoder, the surface and the muxer. */
    ghost var closed: bool

    function State(): Session
      reads this
    {
      Session(trackIndex, muxerStarted, fakePts, videoLengthInMs)
    }

    ghost predicate Valid()
      reads this
    {
      SessionInvariant(State(), log, framesPerSecond)
    }

    /** The `init` block after its checks passed (a failing check throws
        IllegalArgumentException, see CheckArguments); the encoder has been started and the
        muxer created with no track. */
    constructor (width: int, height: int, framesPerSecond: int, encoderOutput: seq<Poll>)
      requires CheckArguments(width, height, framesPerSecond) == None
      ensures Valid() && !closed
      ensures State() == Session(-1, false, 0, 0) && log == []
      ensures this.framesPerSecond == framesPerSecond && this.encoderOutput == encoderOutput
    {
      this.framesPerSecond := framesPerSecond;
      this.encoderOutput := encoderOutput;
      videoBufferInfo := BufferInfo(0, 0, 0, 0);
      fakePts := 0;
      videoLengthInMs := 0;
      log := [];
      closed := false;
      // createMediaMuxer
      trackIndex := -1;
      muxerStarted := false;
    }

    /** nextFrame: drain what is ready, then clear the input surface and draw the frame on it. */
    method NextFrame(frame: int) returns (outcome: Outcome)
      requires Valid() && !closed
      modifies this
      ensures Valid() && !closed
      ensures var r := Drain(old(State()), old(encoderOutput), false, framesPerSecond);
        State() == r.session && encoderOutput == old(encoderOutput)[r.consumed..] &&
        outcome == r.outcome &&
        (outcome.Fatal? ==> log == old(log) + r.effects) &&
        (!outcome.Fatal? ==> log == old(log) + r.effects + [ClearCanvas, DrawFrame(frame)])
    {
      outcome := DrainEncoder(false);
      if outcome.Fatal? {
        return;
      }
      QuietEffectsKeepInvariant(State(), log, [ClearCanvas, DrawFrame(frame)], videoLengthInMs, framesPerSecond);
      log := log + [ClearCanvas, DrawFrame(frame)];
    }

    /** end: signal end of input, drain until the end-of-stream buffer, then close.  A drain that
        would poll forever never returns in the source; here it returns PollsForever without
        closing. */
    method End() returns (outcome: Outcome)
      requires Valid() && !closed
      modifies this
      ensures Valid()
      ensures var r := Drain(old(State()), old(encoderOutput), true, framesPerSecond);
        State() == r.session && encoderOutput == old(encoderOutput)[r.consumed..] &&
        outcome == r.outcome &&
        log == old(log) + [SignalEndOfInput] + r.effects +
               (if outcome == Exit(EndOfStreamFlag) then CloseEffects else [])
      ensures closed <==> outcome == Exit(EndOfStreamFlag)
    {
      outcome := DrainEncoder(true);
      if outcome == Exit(EndOfStreamFlag) {
        Close();
      }
    }

    /** close: stop and release the encoder, the input surface and the muxer. */
    method Close()
      requires Valid()
      modifies this
      ensures Valid() && closed
      ensures State() == old(State()) && encoderOutput == old(encoderOutput)
      ensures videoBufferInfo == old(videoBufferInfo)
      ensures log == old(log) + CloseEffects
    {
      QuietEffectsKeepInvariant(State(), log, CloseEffects, videoLengthInMs, framesPerSecond);
      log := log + CloseEffects;
      closed := true;
    }

    /** drainEncoder: in end-of-stream mode, first signal the end of input to the encoder. */
    method DrainEncoder(endOfStream: bool) returns (outcome: Outcome)
      requires Valid()
      modifies this
      ensures Valid() && closed == old(closed)
      ensures var r := Drain(old(State()), old(encoderOutput), endOfStream, framesPerSecond);
        State() == r.session && encoderOutput == old(encoderOutput)[r.consumed..] &&
        outcome == r.outcome &&
        (endOfStream ==> log == old(log) + [SignalEndOfInput] + r.effects) &&
        (!endOfStream ==> log == old(log) + r.effects)
    {
      if endOfStream {
        QuietEffectsKeepInvariant(State(), log, [SignalEndOfInput], videoLengthInMs, framesPerSecond);
        log := log + [SignalEndOfInput];
      }
      DrainKeepsInvariant(State(), log, encoderOutput, endOfStream, framesPerSecond);
      outcome := DrainEncoderPostLollipop(endOfStream);
    }

    /** drainEncoderPostLollipop: poll one result at a time until a result ends the drain.  An
        encoder with no more results answers "try again later" to every poll: the drain returns,
        or in end-of-stream mode it would go on polling forever. */
    method DrainEncoderPostLollipop(endOfStream: bool) returns (outcome: Outcome)
      requires framesPerSecond >= 0
      modifies this
      ensures closed == old(closed)
      ensures var r := Drain(old(State()), old(encoderOutput), endOfStream, framesPerSecond);
        State() == r.session && encoderOutput == old(encoderOutput)[r.consumed..] &&
        outcome == r.outcome && log == old(log) + r.effects
    {
      ghost var polls, log0 := encoderOutput, log;
      ghost var goal := Drain(State(), polls, endOfStream, framesPerSecond);
      EmptyAppend(goal.effects);
      ghost var done: seq<Effect>, taken: nat := [], 0;
      while true
        invariant framesPerSecond >= 0 && closed == old(closed)
        invariant taken <= |polls| && encoderOutput == polls[taken..]
        invariant log == log0 + done
        invariant var r := Drain(State(), encoderOutput, endOfStream, framesPerSecond);
          goal == Drained(r.session, done + r.effects, taken + r.consumed, r.outcome)
        decreases |encoderOutput|
      {
        if encoderOutput == [] {
          outcome := Exit(if endOfStream then PollsForever else NoOutputReady);
          AppendEmpty(done);
          break;
        }
        ghost var r := Drain(State(), encoderOutput, endOfStream, framesPerSecond);
        ghost var t := PollStep(State(), encoderOutput[0], endOfStream, framesPerSecond);
        DrainUnfolds(State(), encoderOutput, endOfStream, framesPerSecond);
        outcome := HandleNextOutput(endOfStream);
        Associative(log0, done, t.effects);
        DropOne(polls, taken);
        if outcome != Continue {
          GoalAtStop(goal, done, taken, r, t);
          done, taken := done + t.effects, taken + 1;
          break;
        }
        GoalAdvances(goal, done, taken, r, t.effects, Drain(State(), encoderOutput, endOfStream, framesPerSecond));
        done, taken := done + t.effects, taken + 1;
      }
    }

    /** One pass of the loop body of drainEncoderPostLollipop: dequeue one result and act on it
        (the `when`). */
    method HandleNextOutput(endOfStream: bool) returns (outcome: Outcome)
      requires encoderOutput != [] && framesPerSecond >= 0
      modifies this
      ensures var t := PollStep(old(State()), old(encoderOutput[0]), endOfStream, framesPerSecond);
        State() == t.session && log == old(log) + t.effects && outcome == t.outcome
      ensures encoderOutput == old(encoderOutput[1..]) && closed == old(closed)
    {
      var outputBufferIndex := DequeueOutputBuffer();
      if outputBufferIndex == INFO_TRY_AGAIN_LATER {
        outcome := if endOfStream then Continue else Exit(NoOutputReady);
        AppendEmpty(log);
      } else if outputBufferIndex == INFO_OUTPUT_FORMAT_CHANGED {
        outcome := StartMuxer();
      } else if outputBufferIndex > 0 {
        outcome := EncodeVideoData(outputBufferIndex, endOfStream);
      } else {
        // an unexpected status (0 among them) is only logged
        outcome := Continue;
        AppendEmpty(log);
      }
    }

    /** dequeueOutputBuffer: take the encoder's next result; a buffer fills in videoBufferInfo. */
    method DequeueOutputBuffer() returns (status: int)
      requires encoderOutput != []
      modifies this
      ensures status == old(encoderOutput[0].status) && encoderOutput == old(encoderOutput[1..])
      ensures videoBufferInfo == if status >= 0 then old(encoderOutput[0].info) else old(videoBufferInfo)
      ensures State() == old(State()) && log == old(log) && closed == old(closed)
    {
      var p := encoderOutput[0];
      encoderOutput := encoderOutput[1..];
      status := p.status;
      if status >= 0 {
        videoBufferInfo := p.info;
      }
    }

    /** startMuxer */
    method StartMuxer() returns (outcome: Outcome)
      modifies this
      ensures var t := StartMuxerStep(old(State()));
        State() == t.session && log == old(log) + t.effects && outcome == t.outcome
      ensures encoderOutput == old(encoderOutput) && closed == old(closed)
      ensures videoBufferInfo == old(videoBufferInfo)
    {
      if muxerStarted {
        return Fatal(FormatChangedTwice);
      }
      trackIndex := FIRST_TRACK;
      log := log + [AddTrack(trackIndex), Effect.StartMuxer];
      muxerStarted := true;
      outcome := Continue;
    }

    /** encodeVideoData, on the buffer videoBufferInfo describes. */
    method EncodeVideoData(outputBufferIndex: int, endOfStream: bool) returns (outcome: Outcome)
      requires framesPerSecond >= 0
      modifies this
      ensures var t := EncodeStep(old(State()), old(videoBufferInfo), outputBufferIndex, endOfStream, framesPerSecond);
        State() == t.session && log == old(log) + t.effects && outcome == t.outcome
      // the shared BufferInfo: a codec-config buffer's size is cleared, and a buffer with bytes to
      // write on a started muxer gets the synthetic time
      ensures var info := old(videoBufferInfo);
        var sized := if HasFlag(info.flags, BUFFER_FLAG_CODEC_CONFIG) then info.(size := 0) else info;
        videoBufferInfo == if sized.size != 0 && old(muxerStarted) then sized.(presentationTimeUs := old(fakePts)) else sized
      ensures encoderOutput == old(encoderOutput) && closed == old(closed)
    {
      if HasFlag(videoBufferInfo.flags, BUFFER_FLAG_CODEC_CONFIG) {
        // the codec config data already reached the muxer with the format change
        videoBufferInfo := videoBufferInfo.(size := 0);
      }
      if videoBufferInfo.size != 0 {
        if !muxerStarted {
          return Fatal(MuxerNotStarted);
        }
        videoBufferInfo := videoBufferInfo.(presentationTimeUs := fakePts);
        if endOfStream {
          videoLengthInMs := videoBufferInfo.presentationTimeUs;
        }
        if framesPerSecond == 0 {
          return Fatal(DivideByZero);
        }
        fakePts := fakePts + MICROS_PER_SECOND / framesPerSecond;
        log := log + [WriteSample(Sample(trackIndex, videoBufferInfo.presentationTimeUs,
                                         videoBufferInfo.offset, videoBufferInfo.size))];
      }
      log := log + [ReleaseBuffer(outputBufferIndex)];
      if HasFlag(videoBufferInfo.flags, BUFFER_FLAG_END_OF_STREAM) {
        return Exit(EndOfStreamFlag);
      }
      outcome := Continue;
    }
  }
}
