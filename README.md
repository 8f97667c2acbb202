# LottieRecorderTest recording pipeline, in Dafny

A model of the frame-to-MP4 pipeline of LottieRecorderTest, with proofs about it. The pipeline has three parts:

- **`Recorder`** is one encoder session. It drains a hardware video encoder (Android's
  `MediaCodec`) into an MP4 muxer (`MediaMuxer`). On the first format change it registers the
  muxer track. It drops codec-config buffers, stamps every written sample with a synthetic
  presentation time `fakePts`, releases every buffer it handles, and closes everything at the
  end.
- **`FrameCreator`** is the frame cursor over a Lottie composition.
- **`RecordingOperation`** is the driver loop. It feeds every frame to the recorder, then ends
  the recording.

The files:

- `media.dfy` (module `Media`): the vocabulary.
  - The encoder is reduced to the results of its `dequeueOutputBuffer` calls. A `Poll` is a
    status code plus the `BufferInfo` filled in with it.
  - The Android constants used are `INFO_TRY_AGAIN_LATER = -1`,
    `INFO_OUTPUT_FORMAT_CHANGED = -2`, `BUFFER_FLAG_CODEC_CONFIG = 2` and
    `BUFFER_FLAG_END_OF_STREAM = 4`.
  - The calls the recorder makes after construction on the encoder, the muxer or the input
    surface are `Effect`s in a log, except `dequeueOutputBuffer` (its results are the list
    above), `getOutputBuffer`, `outputFormat`, `lockCanvas` and `unlockCanvasAndPost`.
    Functions read the log back: the samples written, the buffers released, the tracks added.
- `encoder.dfy` (module `Encoder`): `Recorder.kt`, in two halves.
  - Each step of the drain loop is a function of the session's fields (`Session`):
    `StartMuxerStep`, `EncodeStep` and `PollStep`. A whole drain is `Drain`. The session
    invariant (`SessionInvariant`) states what a recording keeps true, and lemmas prove it is
    kept.
  - The class `Recorder` has the source's mutable fields (`trackIndex`, `muxerStarted`,
    `fakePts`, `videoLengthInMs`, `videoBufferInfo`), the encoder results still to come, and a
    ghost log of effects. Each method is proved to change the session fields (`trackIndex`,
    `muxerStarted`, `fakePts`, `videoLengthInMs`) exactly as the functions say.
    `DequeueOutputBuffer` and `EncodeVideoData` also state what they write into the shared
    `videoBufferInfo`. `DrainEncoderPostLollipop` keeps the source's `while (true)` loop.
- `frames.dfy` (module `Frames`): `FrameCreator.kt`, as a class with a ghost record of the
  frames handed out.
- `driver.dfy` (module `Driver`): `RecordingOperation.kt`, as a class with a ghost record of
  the calls made on the recorder. The function `Feed` states what the recorder goes through
  when the frames are handed to `nextFrame` one by one.

The exceptions of the drain are outcomes of the model, not aborts:

| source | outcome |
|---|---|
| "format changed twice" | `Fatal(FormatChangedTwice)` |
| "muxer hasn't started" | `Fatal(MuxerNotStarted)` |
| `1000000L / framesPerSecond` with a zero frame rate | `Fatal(DivideByZero)` |

A fault ends every loop it passes through, as the propagating exception does.

The constructor's `IllegalArgumentException`s are stated by the function `CheckArguments`. The
constructor requires that it passes.

Points where the model follows the code:

- **Frame rate 0 is accepted.** The checks of `init` refuse only negative values, although
  the messages ask for a "positive" value. A recorder built with 0 frames per second faults
  on its first written sample. If that sample is written during an end-of-stream drain, it
  has already set `videoLengthInMs` at that point, because line 202 comes before line 203;
  in a drain of `nextFrame` line 202 does not run and `videoLengthInMs` is left alone. The
  model does the same.
- **Buffer index 0 is treated as an unexpected result.** The source tests
  `outputBufferIndex > 0`, although `MediaCodec` buffer indices start at 0. A buffer handed out
  at index 0 falls into the "unexpected result" branch: it is neither written nor released, and
  polling goes on. The model does the same.
- **`videoLengthInMs` holds microseconds.** It is set from a presentation time, so its value
  is in microseconds despite the name.
- **An exhausted encoder answers "try again later" forever.**
  - Outside end-of-stream mode, the drain then returns: `Exit(NoOutputReady)`.
  - In end-of-stream mode the source would poll forever. The model returns
    `Exit(PollsForever)` instead, and `End` then does not close.

## Model

| member | source | states |
|---|---|---|
| Encoder.CheckArguments | app/src/main/java/com/rogererill/lottierecordertest/Recorder.kt:47-55 | The arguments are accepted iff width, height and frame rate are all non-negative (zero passes). Otherwise the first failing check, in the source's order, is the error. |
| Encoder.PtsStep | app/src/main/java/com/rogererill/lottierecordertest/Recorder.kt:203 | The timestamp step is non-negative. It is at least 1 for 0 < fps <= 1000000, and 0 (the integer division truncates) above 1000000. |
| Encoder.DefaultArgumentsAccepted | app/src/main/java/com/rogererill/lottierecordertest/Recorder.kt:18-23 | The default arguments (30 frames per second, 720 by 720) pass the checks, and give a timestamp step of 33333 microseconds. |
| Encoder.PtsStepRoundsDown | app/src/main/java/com/rogererill/lottierecordertest/Recorder.kt:203 | The step is 1000000 / fps rounded down: step * fps <= 1000000 < (step + 1) * fps. |
| Encoder.StartMuxerStep | app/src/main/java/com/rogererill/lottierecordertest/Recorder.kt:171-182 | A format change on a started muxer is the "format changed twice" fault and changes nothing. Otherwise exactly one track is added (and no sample, no release), its index is kept, and the muxer is started. |
| Encoder.EncodeStep | app/src/main/java/com/rogererill/lottierecordertest/Recorder.kt:184-220 | encodeVideoData as a function of the session and the buffer's info; what it states is proved in `EncodeStepMeaning`. |
| Encoder.EncodeStepMeaning | app/src/main/java/com/rogererill/lottierecordertest/Recorder.kt:184-220 | encodeVideoData never writes codec-config data and never adds a track. It faults iff there are bytes to write and the muxer is not started ("muxer hasn't started") or the frame rate is 0. A fault writes and releases nothing and leaves fakePts alone. Otherwise it writes at most one sample, on the current track, at the current fakePts, with the buffer's offset and size. It then releases exactly that buffer. fakePts grows by one step iff a sample was written. The drain stops iff the end-of-stream flag is set. videoLengthInMs takes the sample's time only in end-of-stream mode. |
| Encoder.PollStep | app/src/main/java/com/rogererill/lottierecordertest/Recorder.kt:146-167 | One pass of the `when` as a function of the session and one result; what it states is proved in `PollStepMeaning`. |
| Encoder.PollStepMeaning | app/src/main/java/com/rogererill/lottierecordertest/Recorder.kt:144-167 | One pass of the `when`. "Try again later" changes nothing: it ends the drain outside end-of-stream mode and is skipped in it. A format change never ends it normally. A buffer with the end-of-stream flag always ends it, and only such a buffer ends it that way. Exactly the positive statuses that did not fault are released. Any other non-positive status (0 included) changes nothing and polling goes on. Only a format change or a buffer with bytes to write can fault, and a fault makes no call. Otherwise exactly a buffer's bytes are written, once, at the current fakePts on the current track. |
| Encoder.Drain | app/src/main/java/com/rogererill/lottierecordertest/Recorder.kt:143-169 | The whole drain over the encoder's remaining results. It always ends with an exit or a fault and consumes at most the results there are, at least one when a buffer ended it. It polls "forever" only in end-of-stream mode, and then only after consuming every result. |
| Encoder.DrainStops | app/src/main/java/com/rogererill/lottierecordertest/Recorder.kt:144-168 | Where a drain stops. No-output-ready happens only outside end-of-stream mode, and is caused by a "try again later" as the last result consumed or by running out of results. An end-of-stream exit is caused by the last result consumed, which is a buffer carrying the flag. A fault is caused by the last result consumed, which is a format change or a buffer with bytes to write. Every result before the last was neither an end-of-stream buffer nor, outside end-of-stream mode, "try again later". |
| Encoder.DrainReleasesHandledBuffers | app/src/main/java/com/rogererill/lottierecordertest/Recorder.kt:158-166 | The buffers released are exactly the positive statuses among the results the drain handled, in order, each once, whether or not its bytes were written. A faulting buffer is not released. |
| Encoder.DrainRecordsVideoLength | app/src/main/java/com/rogererill/lottierecordertest/Recorder.kt:200-202 | Outside end-of-stream mode a drain leaves videoLengthInMs alone. An end-of-stream drain that does not fault leaves it at the time of the last sample it wrote, or alone if it wrote none. |
| Encoder.PollStepRecordsVideoLength | app/src/main/java/com/rogererill/lottierecordertest/Recorder.kt:200-202 | The same for one pass of the `when`. |
| Encoder.DrainWritesHandledPayloads | app/src/main/java/com/rogererill/lottierecordertest/Recorder.kt:185-205 | The byte ranges (offset, size) written to the muxer are exactly those of the handled buffers with bytes left after codec-config data is dropped, in the order the buffers were handed out, each once. Empty buffers, codec-config buffers and a faulting buffer are not written. |
| Encoder.SampleKeepsConsistent | app/src/main/java/com/rogererill/lottierecordertest/Recorder.kt:200-205 | Writing a sample at fakePts on the current track, then advancing fakePts by one step, keeps the timestamps equally spaced from 0 and fakePts the time of the next sample. |
| Encoder.QuietEffectsKeepInvariant | app/src/main/java/com/rogererill/lottierecordertest/Recorder.kt:72-86 | Calls that neither add a track nor write a sample keep the session invariant, whatever videoLengthInMs becomes: releases, the end-of-input signal, the canvas work, the close calls. |
| Encoder.TrackAddedKeepsInvariant | app/src/main/java/com/rogererill/lottierecordertest/Recorder.kt:179-181 | Adding the track to an unstarted muxer and starting it keeps the invariant: one track, added before any sample. |
| Encoder.SampleWrittenKeepsInvariant | app/src/main/java/com/rogererill/lottierecordertest/Recorder.kt:200-209 | Writing a sample at the current time on the current track, then releasing its buffer, keeps the invariant. |
| Encoder.PollStepKeepsInvariant | app/src/main/java/com/rogererill/lottierecordertest/Recorder.kt:146-167 | Every pass of the `when` keeps the invariant. |
| Encoder.DrainKeepsInvariant | app/src/main/java/com/rogererill/lottierecordertest/Recorder.kt:143-169 | Every drain keeps the invariant. |
| Encoder.TrackAddedOnceBeforeSamples | app/src/main/java/com/rogererill/lottierecordertest/Recorder.kt:171-195 | Under the invariant, at most one track is ever added. If any sample was written, the track was added and the muxer started. No sample was written before the track. |
| Encoder.TimestampsEquallySpaced | app/src/main/java/com/rogererill/lottierecordertest/Recorder.kt:200-205 | Under the invariant, the k-th written sample has time k * (1000000 / fps), and fakePts is (number of samples) * (1000000 / fps). The times are strictly increasing for fps <= 1000000 and all 0 above. |
| Encoder.Recorder.constructor | app/src/main/java/com/rogererill/lottierecordertest/Recorder.kt:46-70 | After checks that pass, the recorder starts with no track (trackIndex = -1), a muxer that is not started, fakePts 0 and videoLengthInMs 0, and keeps the invariant. The log starts empty: the set-up calls of `init` (creating, configuring and starting the encoder, creating its input surface and the muxer) are not effects of the model. |
| Encoder.Recorder.NextFrame | app/src/main/java/com/rogererill/lottierecordertest/Recorder.kt:72-81 | nextFrame drains outside end-of-stream mode, exactly as `Drain` says. Unless the drain faulted, it then clears the canvas and draws the frame, in that order. The invariant is kept and the recorder stays open. |
| Encoder.Recorder.End | app/src/main/java/com/rogererill/lottierecordertest/Recorder.kt:83-86 | end signals end of input once, then drains in end-of-stream mode as `Drain` says. It closes exactly when that drain reached the end-of-stream flag. |
| Encoder.Recorder.Close | app/src/main/java/com/rogererill/lottierecordertest/Recorder.kt:225-232 | close stops and releases the encoder, releases the input surface, then stops and releases the muxer, in that order. It leaves the session alone. |
| Encoder.Recorder.DrainEncoder | app/src/main/java/com/rogererill/lottierecordertest/Recorder.kt:132-141 | drainEncoder signals end of input only in end-of-stream mode, before draining. The new fields, the remaining results, the outcome and the calls are those of `Drain`. The invariant is kept. |
| Encoder.Recorder.DrainEncoderPostLollipop | app/src/main/java/com/rogererill/lottierecordertest/Recorder.kt:143-169 | The loop leaves the fields, the remaining encoder results, the outcome and the log exactly as `Drain` describes. |
| Encoder.Recorder.HandleNextOutput | app/src/main/java/com/rogererill/lottierecordertest/Recorder.kt:145-167 | One dequeue and one pass of the `when` change the fields and the log as `PollStep` says. |
| Encoder.Recorder.DequeueOutputBuffer | app/src/main/java/com/rogererill/lottierecordertest/Recorder.kt:145 | Takes the next result. The shared BufferInfo is filled in only for a buffer, and nothing else changes. |
| Encoder.Recorder.StartMuxer | app/src/main/java/com/rogererill/lottierecordertest/Recorder.kt:171-182 | Changes the fields and the log as `StartMuxerStep` says. |
| Encoder.Recorder.EncodeVideoData | app/src/main/java/com/rogererill/lottierecordertest/Recorder.kt:184-220 | Changes the fields and the log as `EncodeStep` says. In the shared BufferInfo it clears the size of a codec-config buffer, and on a started muxer stamps a buffer with bytes to write with the old fakePts; nothing else in it changes. |
| Frames.FramesUntilEnded | app/src/main/java/com/rogererill/lottierecordertest/FrameCreator.kt:15-21 | The frames handed out from a cursor until hasEnded: durationInFrames - current + 1 of them, or none past the end. |
| Frames.FramesAreConsecutive | app/src/main/java/com/rogererill/lottierecordertest/FrameCreator.kt:15-21 | The i-th frame handed out is current + i. |
| Frames.FreshCursorYieldsOneMoreThanDuration | app/src/main/java/com/rogererill/lottierecordertest/FrameCreator.kt:12-21 | A fresh cursor over N >= 0 frames hands out exactly N + 1 frames, the first 0 and the last N. |
| Frames.FrameCreator.constructor | app/src/main/java/com/rogererill/lottierecordertest/FrameCreator.kt:12-13 | The cursor starts at frame 0, with nothing handed out. |
| Frames.FrameCreator.GenerateFrame | app/src/main/java/com/rogererill/lottierecordertest/FrameCreator.kt:15-19 | Sets the drawable to the current frame, returns it and advances the cursor by exactly 1. The frames handed out are always 0, 1, … in order. Once ended, the cursor stays ended. |
| Frames.FrameCreator.HasEnded | app/src/main/java/com/rogererill/lottierecordertest/FrameCreator.kt:21 | The cursor has ended iff no frame is left to hand out. |
| Driver.NextFrameCalls | app/src/main/java/com/rogererill/lottierecordertest/RecordingOperation.kt:9-10 | One nextFrame call per frame. |
| Driver.NextFrameCallsInOrder | app/src/main/java/com/rogererill/lottierecordertest/RecordingOperation.kt:9-10 | The i-th nextFrame call hands the i-th frame. |
| Driver.RecordingOperation.constructor | app/src/main/java/com/rogererill/lottierecordertest/RecordingOperation.kt:3-6 | Keeps the recorder and the frame creator. No call has been made. |
| Driver.RecordingOperation.IsRecording | app/src/main/java/com/rogererill/lottierecordertest/RecordingOperation.kt:15 | Recording iff frames are left, i.e. iff the creator has not ended. |
| Driver.Feed | app/src/main/java/com/rogererill/lottierecordertest/RecordingOperation.kt:9-11 | The recorder's run over frames handed to nextFrame one by one: a drain outside end-of-stream mode, then the clear and the draw, per frame, stopping at the first fault with that frame handed. `HandFrames` is proved equal to it and `FeedHandsPrefix` states what it hands. |
| Driver.FeedHandsPrefix | app/src/main/java/com/rogererill/lottierecordertest/RecordingOperation.kt:9-11 | Handing frames to nextFrame one by one hands a prefix of them, all of them when no call faults, and at least one when a call faults (the frame of the fault). |
| Driver.RecordingOperation.Start | app/src/main/java/com/rogererill/lottierecordertest/RecordingOperation.kt:8-13 | start makes one nextFrame call per remaining frame, in order, and then end exactly once, after the last of them. The frames handed, the recorder's fields, its remaining encoder results and its log are those of `Feed`. end is called iff no nextFrame faulted; a fault is then start's outcome. After end, the outcome, fields and log are those of an end-of-stream `Drain` from where `Feed` left the recorder, plus the close calls iff it reached the end-of-stream flag. Without a fault every remaining frame is handed and the creator has ended; an already-ended creator gets end after no nextFrame. |
| Driver.RecordingOperation.HandFrames | app/src/main/java/com/rogererill/lottierecordertest/RecordingOperation.kt:9-11 | The `while (isRecording())` loop: the frames handed to nextFrame, the recorder's new fields, remaining results and log, and whether it stopped on a fault (and which) are exactly those of `Feed` over the remaining frames. Without a fault the creator has ended. The recorder stays open. |
| Driver.RecordingOperation.HandNextFrame | app/src/main/java/com/rogererill/lottierecordertest/RecordingOperation.kt:10 | One loop body: generate the current frame, then hand it to nextFrame, which drains outside end-of-stream mode as `Drain` says and then, unless that faulted, clears the canvas and draws the frame. |

## Left out

- The Android encoder, muxer and surface are abstracted:
  - The set-up calls of `init` (`createEncoderByType`, `configure`, `createInputSurface`,
    the encoder's `start` and the `MediaMuxer` constructor) are not modelled: the log starts
    after construction.
  - The later calls (`signalEndOfInputStream`, `addTrack`, the muxer's `start`,
    `writeSampleData`, `releaseOutputBuffer`, `stop` and `release`) are effects in a ghost
    log, and `dequeueOutputBuffer` results are a list. Their own behaviour is outside the
    model.
  - `muxer.addTrack` is taken to return 0 (`FIRST_TRACK`). It is only ever called on a muxer
    with no track.
- `getOutputBuffer(index)!!` is taken to return the buffer. The `NullPointerException`
  it throws on a null buffer is not modelled, and the buffer's bytes are not modelled.
- `videoEncoder.outputFormat` is only passed to `addTrack`; the format is not modelled.
- The constructor's `videoOutput` file only names the muxer's output and is left out. The
  Kotlin default arguments are not modelled as such: the defaults of `framesPerSecond`,
  `width` and `height` are the constants `DEFAULT_FPS`, `DEFAULT_WIDTH` and
  `DEFAULT_HEIGHT`, which `DefaultArgumentsAccepted` shows pass the checks.
- The 10 ms poll timeout (`TIMEOUT_USEC`) and the blocking it causes are wall-clock details.
  - The encoder is a finite list of results.
  - An end-of-stream drain against an exhausted encoder, which never returns in the source,
    ends in `Exit(PollsForever)`.
- Canvas work in `nextFrame` (`lockCanvas`, the transparent clear, `draw`,
  `unlockCanvasAndPost`) is graphics I/O. It is logged as the pair `ClearCanvas`,
  `DrawFrame(frame)`.
- `createMediaFormat` and the `mimeType`, `bitRate` and `iFrameInterval` parameters are
  key/value settings on a library object, with no logic of the recorder in them.
- `ByteBuffer.position`/`limit` on the output buffer are not modelled. The written sample
  records the byte range as its offset and size.
- The float scale `720f / intrinsicWidth` of `FrameCreator` and the float-to-int
  `durationFrames.toInt()` are floating point. `durationInFrames` is a given integer.
- Logging and the `VERBOSE` flag are left out.
- Kotlin's 32-bit `Int` (`currentFrame`) and 64-bit `Long` (`fakePts`) are not modelled.
  Integers in the model are unbounded, so wrap-around after 2^31 frames or 2^63 microseconds
  is not captured.
- `MainActivity.kt` (user interface, resource loading, file sharing) and its completion
  callback are not part of this model.
- Encoder.Recorder.constructor: a negative argument throws in the source. Here it is a
  precondition, and `CheckArguments` states which error each argument gives.
- Encoder.Recorder.End: on a drain that would poll forever it returns `Exit(PollsForever)`
  without closing, where the source never returns.
