/** The part of Android's MediaCodec and MediaMuxer that the recorder observes, as plain values.

    The hardware encoder is reduced to the results of its `dequeueOutputBuffer` calls (a status
    code plus the BufferInfo it fills in).  The calls the recorder makes after construction on
    the encoder, the muxer and the input surface, other than dequeueing, buffer and format
    lookups and locking the canvas, become entries of an effect log.  The functions below read that
    log back: the samples written, the buffers released, the tracks added. */
module Media {

  datatype Option<T> = None | Some(value: T)

  // Status codes of MediaCodec.dequeueOutputBuffer (values of the Android API).
  const INFO_TRY_AGAIN_LATER: int := -1
  const INFO_OUTPUT_FORMAT_CHANGED: int := -2

  // Flag bits of MediaCodec.BufferInfo.flags (values of the Android API).
  const BUFFER_FLAG_CODEC_CONFIG: bv32 := 2
  const BUFFER_FLAG_END_OF_STREAM: bv32 := 4

  /** Kotlin's `flags and flag != 0`. */
  predicate HasFlag(flags: bv32, flag: bv32) {
    flags & flag != 0
  }

  /** MediaCodec.BufferInfo: where the encoded bytes lie in the output buffer, its flags and a
      presentation time that the recorder overwrites. */
  datatype BufferInfo = BufferInfo(offset: int, size: int, presentationTimeUs: int, flags: bv32)

  /** One result of dequeueOutputBuffer: the status (a buffer index when it is positive) and the
      BufferInfo the encoder filled in with it. */
  datatype Poll = Poll(status: int, info: BufferInfo)

  /** A positive status that names a buffer carrying the end-of-stream flag. */
  predicate IsEndOfStreamBuffer(p: Poll) {
    p.status > 0 && HasFlag(p.info.flags, BUFFER_FLAG_END_OF_STREAM)
  }

  /** One muxer.writeSampleData call: the track, the presentation time, and the byte range
      [offset, offset + size) of the output buffer. */
  datatype Sample = Sample(track: int, pts: int, offset: int, size: int)

  /** Calls the recorder makes on the encoder, the muxer and the input surface after
      construction, in order (dequeueing, buffer and format lookups and canvas locking are not
      entries; the clear and draw stand for the canvas work between lock and post). */
  datatype Effect =
    | SignalEndOfInput
    | AddTrack(track: int)
    | StartMuxer
    | WriteSample(sample: Sample)
    | ReleaseBuffer(index: int)
    | ClearCanvas
    | DrawFrame(frame: int)
    | StopEncoder
    | ReleaseEncoder
    | ReleaseSurface
    | StopMuxer
    | ReleaseMuxer

  /** The samples written to the muxer, in the order they were written. */
  function Samples(log: seq<Effect>): (samples: seq<Sample>)
    ensures |samples| <= |log|
  {
    if log == [] then []
    else (if log[0].WriteSample? then [log[0].sample] else []) + Samples(log[1..])
  }

  /** The output-buffer indices handed back to the encoder, in order. */
  function Releases(log: seq<Effect>): (indices: seq<int>)
    ensures |indices| <= |log|
  {
    if log == [] then []
    else (if log[0].ReleaseBuffer? then [log[0].index] else []) + Releases(log[1..])
  }

  /** How many tracks were added to the muxer. */
  function TrackCount(log: seq<Effect>): (n: nat)
    ensures n <= |log|
  {
    if log == [] then 0
    else (if log[0].AddTrack? then 1 else 0) + TrackCount(log[1..])
  }

  /** How many samples were written before the first track was added. */
  function SamplesBeforeTrack(log: seq<Effect>): (n: nat)
    ensures n <= |log|
  {
    if log == [] then 0
    else if log[0].AddTrack? then 0
    else (if log[0].WriteSample? then 1 else 0) + SamplesBeforeTrack(log[1..])
  }

  lemma Associative<T>(a: seq<T>, b: seq<T>, c: seq<T>)
    ensures (a + b) + c == a + (b + c)
  {
  }

  lemma DropOne<T>(a: seq<T>, n: nat)
    requires n < |a|
    ensures a[n..][1..] == a[n + 1..]
  {
  }

  lemma AppendEmpty<T>(a: seq<T>)
    ensures a + [] == a
  {
  }

  lemma EmptyAppend<T>(a: seq<T>)
    ensures [] + a == a
  {
  }

  /** No more samples come before the first track than there are samples. */
  lemma {:induction false} SamplesBeforeTrackBound(log: seq<Effect>)
    ensures SamplesBeforeTrack(log) <= |Samples(log)|
  {
    if log != [] {
      SamplesBeforeTrackBound(log[1..]);
    }
  }

  lemma {:induction false} SamplesAppend(a: seq<Effect>, b: seq<Effect>)
    ensures Samples(a + b) == Samples(a) + Samples(b)
  {
    if a == [] {
      assert a + b == b;
    } else {
      assert (a + b)[1..] == a[1..] + b;
      SamplesAppend(a[1..], b);
      var head := if a[0].WriteSample? then [a[0].sample] else [];
      Associative(head, Samples(a[1..]), Samples(b));
    }
  }

  lemma {:induction false} ReleasesAppend(a: seq<Effect>, b: seq<Effect>)
    ensures Releases(a + b) == Releases(a) + Releases(b)
  {
    if a == [] {
      assert a + b == b;
    } else {
      assert (a + b)[1..] == a[1..] + b;
      ReleasesAppend(a[1..], b);
      var head := if a[0].ReleaseBuffer? then [a[0].index] else [];
      Associative(head, Releases(a[1..]), Releases(b));
    }
  }

  lemma {:induction false} TrackCountAppend(a: seq<Effect>, b: seq<Effect>)
    ensures TrackCount(a + b) == TrackCount(a) + TrackCount(b)
  {
    if a == [] {
      assert a + b == b;
    } else {
      assert (a + b)[1..] == a[1..] + b;
      TrackCountAppend(a[1..], b);
    }
  }

  /** Samples written after a track exists are never "before the track". */
  lemma {:induction false} SamplesBeforeTrackAppend(a: seq<Effect>, b: seq<Effect>)
    ensures SamplesBeforeTrack(a + b)
         == SamplesBeforeTrack(a) + (if TrackCount(a) == 0 then SamplesBeforeTrack(b) else 0)
  {
    if a == [] {
      assert a + b == b;
    } else {
      assert (a + b)[1..] == a[1..] + b;
      SamplesBeforeTrackAppend(a[1..], b);
    }
  }
}
