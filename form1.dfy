/**
 * The loopback demo: captured audio is cut into fixed-size segments, each segment is
 * encoded, counted, decoded and appended to the play buffer, and the bytes that do not
 * fill a segment wait for the next capture event.
 */
module OpusDemo {
  import opened Primitives
  import opened Segmenter
  import opened Codecs

  /** The encoder as the demo uses it: a segment in, an encoded payload out. */
  type Encoder = seq<byte> -> seq<byte>

  /** Samples per channel in one segment: 20 ms at 48 kHz. */
  const SegmentFrames: int := 960

  /** The demo decodes 48 kHz mono. */
  const DemoSampleRate: int := 48000
  const DemoChannels: int := 1

  /**
   * The exception `StopEncoding` throws outside a session: the timer was never created,
   * or a previous stop released the capture device, and the stop dereferences it.
   */
  datatype StopError = NullReference

  /** The effect of a run of segments: encoded bytes counted, audio played, and the exception that ended it, if any. */
  datatype RoundTrip = RoundTrip(sent: nat, played: seq<byte>, failure: Option<DecodeError>)

  /** The encoded bytes of every segment: what a run without failure adds to the counter. */
  function EncodedBytes(segments: seq<seq<byte>>, encode: Encoder): (total: nat)
    ensures forall i :: 0 <= i < |segments| ==> |encode(segments[i])| <= total
    decreases |segments|
  {
    if segments == [] then 0 else |encode(segments[0])| + EncodedBytes(segments[1..], encode)
  }

  lemma {:induction false} EncodedBytesAppend(a: seq<seq<byte>>, b: seq<seq<byte>>, encode: Encoder)
    ensures EncodedBytes(a + b, encode) == EncodedBytes(a, encode) + EncodedBytes(b, encode)
    decreases |a|
  {
    if a == [] {
      assert a + b == b;
    } else {
      assert (a + b)[1..] == a[1..] + b;
      EncodedBytesAppend(a[1..], b, encode);
    }
  }

  /**
   * The bytes decoding one payload adds to the play buffer: none when the decode throws,
   * otherwise the start of the decode buffer. On the demo's one-channel decoder their
   * number is the source's `decodedLength`, two bytes per decoded frame.
   */
  function DecodedAudio(payload: seq<byte>, decoder: DecoderState, native: NativeDecoder): (audio: seq<byte>)
    requires IsSupportedChannelCount(decoder.outputChannels)
    requires HonoursFrameSize(native)
    ensures DecodeFailure(payload, decoder, native).Some? ==> audio == []
    ensures audio != [] ==> |audio| <= decoder.maxDataBytes
    ensures var result := native(DecodeRequest(decoder, Some(payload), |payload|));
      DecodeFailure(payload, decoder, native).None? ==>
        && |audio| == PcmByteCount(result.status, decoder.outputChannels)
        && (decoder.outputChannels == DemoChannels ==> |audio| == DecodedLengthAsWritten(result.status))
  {
    match DecodeOutcome(decoder, Some(payload), |payload|, native)
    case Failure(_) => []
    case Success(d) => d.pcm[..d.decodedLength]
  }

  /**
   * The appended bytes are what the native decoder wrote into the decode buffer, read as
   * zeroes where it wrote nothing.
   */
  lemma DecodedAudioIsNativeOutput(payload: seq<byte>, decoder: DecoderState, native: NativeDecoder)
    requires IsSupportedChannelCount(decoder.outputChannels)
    requires HonoursFrameSize(native)
    ensures var audio, result := DecodedAudio(payload, decoder, native),
                                 native(DecodeRequest(decoder, Some(payload), |payload|));
      DecodeFailure(payload, decoder, native).None? ==>
        forall i :: 0 <= i < |audio| ==> audio[i] == if i < |result.pcm| then result.pcm[i] else 0
  {
  }

  /** The exception decoding one payload throws, if any. */
  function DecodeFailure(payload: seq<byte>, decoder: DecoderState, native: NativeDecoder): (failure: Option<DecodeError>)
    requires IsSupportedChannelCount(decoder.outputChannels)
    ensures var status := native(DecodeRequest(decoder, Some(payload), |payload|)).status;
      && (failure.None? <==> !decoder.disposed && 0 <= decoder.maxDataBytes && 0 <= status)
      && (decoder.disposed ==> failure == Some(ObjectDisposed))
      && (!decoder.disposed && decoder.maxDataBytes < 0 ==> failure == Some(Overflow))
      && (!decoder.disposed && 0 <= decoder.maxDataBytes && status < 0 ==> failure == Some(DecodingFailed(status)))
  {
    match DecodeOutcome(decoder, Some(payload), |payload|, native)
    case Failure(e) => Some(e)
    case Success(_) => None
  }

  /**
   * One segment's round trip after the run `done`: the payload's length is counted, the
   * payload is decoded, and the decoded bytes are appended, or the exception is recorded.
   */
  function RoundTripStep(done: RoundTrip, payload: seq<byte>, decoder: DecoderState, native: NativeDecoder)
    : (next: RoundTrip)
    requires IsSupportedChannelCount(decoder.outputChannels)
    requires HonoursFrameSize(native)
    ensures done.sent <= next.sent && done.played <= next.played
  {
    RoundTrip(done.sent + |payload|, done.played + DecodedAudio(payload, decoder, native),
              DecodeFailure(payload, decoder, native))
  }

  /** The run `done` followed by one more segment's payload, unless a decode already threw. */
  function Continue(done: RoundTrip, payload: seq<byte>, decoder: DecoderState, native: NativeDecoder)
    : (next: RoundTrip)
    requires IsSupportedChannelCount(decoder.outputChannels)
    requires HonoursFrameSize(native)
    ensures done.sent <= next.sent && done.played <= next.played
    ensures done.failure.Some? ==> next == done
  {
    if done.failure.Some? then done else RoundTripStep(done, payload, decoder, native)
  }

  /**
   * The segments in order: each is encoded, its payload length is counted, the payload is
   * decoded and the decoded bytes are appended to the play buffer. A decode that throws
   * ends the run after its payload was counted and before anything was appended.
   */
  function RunSegments(segments: seq<seq<byte>>, encode: Encoder, decoder: DecoderState, native: NativeDecoder)
    : (r: RoundTrip)
    requires IsSupportedChannelCount(decoder.outputChannels)
    requires HonoursFrameSize(native)
    ensures r.failure.Some? ==> segments != []
    decreases |segments|
  {
    if segments == [] then RoundTrip(0, [], None)
    else
      Continue(RunSegments(segments[..|segments| - 1], encode, decoder, native), encode(segments[|segments| - 1]),
               decoder, native)
  }

  /** A run fails only with the exception that decoding one of its segments' payloads throws. */
  lemma {:induction false} RunSegmentsFailureIsADecode(segments: seq<seq<byte>>, encode: Encoder,
                                                       decoder: DecoderState, native: NativeDecoder)
    requires IsSupportedChannelCount(decoder.outputChannels)
    requires HonoursFrameSize(native)
    ensures var r := RunSegments(segments, encode, decoder, native);
      r.failure.Some? ==>
        exists i :: 0 <= i < |segments| && r.failure == DecodeFailure(encode(segments[i]), decoder, native)
    decreases |segments|
  {
    if segments != [] {
      var previous := segments[..|segments| - 1];
      RunSegmentsFailureIsADecode(previous, encode, decoder, native);
      var r := RunSegments(previous, encode, decoder, native);
      if r.failure.Some? {
        var i :| 0 <= i < |previous| && r.failure == DecodeFailure(encode(previous[i]), decoder, native);
        assert previous[i] == segments[i];
      }
    }
  }

  /**
   * The counter never runs ahead of the encoded bytes, and a run without a failure
   * counts the payload of every segment.
   */
  lemma {:induction false} RunSegmentsCounts(segments: seq<seq<byte>>, encode: Encoder, decoder: DecoderState,
                                             native: NativeDecoder)
    requires IsSupportedChannelCount(decoder.outputChannels)
    requires HonoursFrameSize(native)
    ensures var r := RunSegments(segments, encode, decoder, native);
      && r.sent <= EncodedBytes(segments, encode)
      && (r.failure.None? ==> r.sent == EncodedBytes(segments, encode))
    decreases |segments|
  {
    if segments != [] {
      var previous, last := segments[..|segments| - 1], segments[|segments| - 1];
      RunSegmentsCounts(previous, encode, decoder, native);
      EncodedBytesSnoc(segments, encode);
    }
  }

  /** The encoded bytes of a non-empty run are those of all but its last segment, plus the last payload. */
  lemma EncodedBytesSnoc(segments: seq<seq<byte>>, encode: Encoder)
    requires segments != []
    ensures EncodedBytes(segments, encode)
         == EncodedBytes(segments[..|segments| - 1], encode) + |encode(segments[|segments| - 1])|
  {
    var previous, last := segments[..|segments| - 1], segments[|segments| - 1];
    assert previous + [last] == segments;
    EncodedBytesAppend(previous, [last], encode);
  }

  /** Running the first `i + 1` segments is running the first `i`, then segment `i`. */
  lemma RunSegmentsSnoc(segments: seq<seq<byte>>, i: nat, encode: Encoder, decoder: DecoderState, native: NativeDecoder)
    requires IsSupportedChannelCount(decoder.outputChannels)
    requires HonoursFrameSize(native)
    requires i < |segments|
    ensures RunSegments(segments[..i + 1], encode, decoder, native) ==
      Continue(RunSegments(segments[..i], encode, decoder, native), encode(segments[i]), decoder, native)
  {
    assert segments[..i + 1][..i] == segments[..i];
  }

  /**
   * Running two batches of segments one after the other is running their concatenation:
   * counts add up, the first batch's audio is played before the second's, and a failure
   * in the first batch stops everything after it.
   */
  lemma {:induction false} RunSegmentsAppend(a: seq<seq<byte>>, b: seq<seq<byte>>, encode: Encoder,
                                             decoder: DecoderState, native: NativeDecoder)
    requires IsSupportedChannelCount(decoder.outputChannels)
    requires HonoursFrameSize(native)
    ensures var ra, rb := RunSegments(a, encode, decoder, native), RunSegments(b, encode, decoder, native);
      RunSegments(a + b, encode, decoder, native) == Joined(ra, rb)
    decreases |b|
  {
    if b == [] {
      assert a + b == a;
    } else {
      var previous, last := b[..|b| - 1], b[|b| - 1];
      RunSegmentsAppend(a, previous, encode, decoder, native);
      var front := RunSegments(a + previous, encode, decoder, native);
      assert RunSegments(a + b, encode, decoder, native) == Continue(front, encode(last), decoder, native) by {
        assert (a + b)[..|a + b| - 1] == a + previous;
        assert (a + b)[|a + b| - 1] == last;
      }
      ContinueJoined(RunSegments(a, encode, decoder, native), RunSegments(previous, encode, decoder, native),
                     encode(last), decoder, native);
    }
  }

  /** Two runs one after the other: the second does not happen when the first ended in a failure. */
  function Joined(first: RoundTrip, second: RoundTrip): RoundTrip {
    if first.failure.Some? then first
    else RoundTrip(first.sent + second.sent, first.played + second.played, second.failure)
  }

  lemma ContinueJoined(first: RoundTrip, second: RoundTrip, payload: seq<byte>, decoder: DecoderState,
                       native: NativeDecoder)
    requires IsSupportedChannelCount(decoder.outputChannels)
    requires HonoursFrameSize(native)
    ensures Continue(Joined(first, second), payload, decoder, native)
         == Joined(first, Continue(second, payload, decoder, native))
  {
    if first.failure.None? && second.failure.None? {
      var audio := DecodedAudio(payload, decoder, native);
      assert (first.played + second.played) + audio == first.played + (second.played + audio);
    }
  }

  /** Once a decode has thrown, later segments are neither counted nor played. */
  lemma {:induction false} RunSegmentsStopsAtFailure(segments: seq<seq<byte>>, k: nat, encode: Encoder,
                                                     decoder: DecoderState, native: NativeDecoder)
    requires IsSupportedChannelCount(decoder.outputChannels)
    requires HonoursFrameSize(native)
    requires k <= |segments|
    requires RunSegments(segments[..k], encode, decoder, native).failure.Some?
    ensures RunSegments(segments, encode, decoder, native) == RunSegments(segments[..k], encode, decoder, native)
    decreases |segments|
  {
    if k < |segments| {
      var previous := segments[..|segments| - 1];
      assert previous[..k] == segments[..k];
      RunSegmentsStopsAtFailure(previous, k, encode, decoder, native);
    } else {
      assert segments[..k] == segments;
    }
  }

  /** A non-negative number as a C# `ulong`: its low 64 bits. */
  function ULongWrap(n: nat): (w: nat)
    ensures w < ULongModulus
    ensures n < ULongModulus ==> w == n
    decreases n
  {
    if n < ULongModulus then n else ULongWrap(n - ULongModulus)
  }

  lemma {:induction false} ULongWrapIsMod(n: nat)
    ensures ULongWrap(n) == n % ULongModulus
    decreases n
  {
    if n >= ULongModulus {
      ULongWrapIsMod(n - ULongModulus);
      var q, r := (n - ULongModulus) / ULongModulus, (n - ULongModulus) % ULongModulus;
      DivModUnique(n, ULongModulus, q + 1, r);
    } else {
      DivModUnique(n, ULongModulus, 0, n);
    }
  }

  /** Wrapping after every addition is wrapping once at the end. */
  lemma {:induction false} ULongWrapAdd(x: nat, y: nat)
    ensures ULongWrap(ULongWrap(x) + y) == ULongWrap(x + y)
    decreases x
  {
    if x >= ULongModulus {
      ULongWrapAdd(x - ULongModulus, y);
    }
  }

  /** C#'s unchecked `x + y` on `ulong` operands. */
  function ULongAdd(x: nat, y: nat): (sum: nat)
    ensures sum < ULongModulus
    ensures x + y < ULongModulus ==> sum == x + y
  {
    ULongWrap(x + y)
  }

  /** Adding to the counter piece by piece is adding the total once. */
  lemma ULongAddAssociates(x: nat, y: nat, z: nat)
    ensures ULongAdd(ULongAdd(x, y), z) == ULongAdd(x, y + z)
  {
    ULongWrapAdd(x + y, z);
  }

  /**
   * Passing one more segment after the run `done`: the counter and the play buffer that
   * were `done`'s, offset by what came before the run, become the next step's.
   */
  lemma SegmentStep(done: RoundTrip, payload: seq<byte>, decoder: DecoderState, native: NativeDecoder,
                    sentBefore: nat, counted: nat, sent: nat,
                    playedBefore: seq<byte>, played: seq<byte>, playedAfter: seq<byte>)
    requires IsSupportedChannelCount(decoder.outputChannels)
    requires HonoursFrameSize(native)
    requires counted == ULongAdd(sentBefore, done.sent)
    requires played == playedBefore + done.played
    requires sent == ULongAdd(counted, |payload|)
    requires playedAfter == played + DecodedAudio(payload, decoder, native)
    ensures var next := RoundTripStep(done, payload, decoder, native);
      && sent == ULongAdd(sentBefore, next.sent)
      && playedAfter == playedBefore + next.played
  {
    ULongAddAssociates(sentBefore, done.sent, |payload|);
    var audio := DecodedAudio(payload, decoder, native);
    assert (playedBefore + done.played) + audio == playedBefore + (done.played + audio);
  }

  /**
   * Segment `i` passed after the first `i` segments ran without a failure: the counter,
   * the play buffer and the failure are those of the run over the first `i + 1` segments,
   * and a failure there is the outcome of the whole run.
   */
  lemma RunStep(segments: seq<seq<byte>>, i: nat, encode: Encoder, decoder: DecoderState, native: NativeDecoder,
                sentBefore: nat, counted: nat, sent: nat,
                playedBefore: seq<byte>, played: seq<byte>, playedAfter: seq<byte>, failure: Option<DecodeError>)
    requires IsSupportedChannelCount(decoder.outputChannels)
    requires HonoursFrameSize(native)
    requires i < |segments|
    requires RunSegments(segments[..i], encode, decoder, native).failure.None?
    requires counted == ULongAdd(sentBefore, RunSegments(segments[..i], encode, decoder, native).sent)
    requires played == playedBefore + RunSegments(segments[..i], encode, decoder, native).played
    requires sent == ULongAdd(counted, |encode(segments[i])|)
    requires playedAfter == played + DecodedAudio(encode(segments[i]), decoder, native)
    requires failure == DecodeFailure(encode(segments[i]), decoder, native)
    ensures var run := RunSegments(segments[..i + 1], encode, decoder, native);
      && sent == ULongAdd(sentBefore, run.sent)
      && playedAfter == playedBefore + run.played
      && failure == run.failure
    ensures failure.Some? ==>
      RunSegments(segments, encode, decoder, native) == RunSegments(segments[..i + 1], encode, decoder, native)
  {
    RunSegmentsSnoc(segments, i, encode, decoder, native);
    SegmentStep(RunSegments(segments[..i], encode, decoder, native), encode(segments[i]), decoder, native,
                sentBefore, counted, sent, playedBefore, played, playedAfter);
    if failure.Some? {
      RunSegmentsStopsAtFailure(segments, i + 1, encode, decoder, native);
    }
  }

  /** The demo window's capture and playback state. */
  class Form1 {
    var segmentFrames: int
    var bytesPerSegment: int
    var bytesSent: nat                  // a ulong in the source
    var startTime: int
    var notEncodedBuffer: array<byte>   // captured bytes not yet encoded
    var playBuffer: seq<byte>           // the bytes handed to the playback device
    var decoder: OpusDecoder?
    var recording: bool                 // between StartEncoding and StopEncoding

    ghost predicate Valid()
      reads this, decoder
    {
      && bytesSent < ULongModulus
      && (recording ==> bytesPerSegment > 0 && decoder != null && decoder.Valid() && !decoder.disposed
                        && decoder.outputChannels == DemoChannels)
    }

    /** The carried-over bytes. */
    ghost function NotEncoded(): seq<byte>
      reads this, notEncodedBuffer
    {
      notEncodedBuffer[..]
    }

    constructor ()
      ensures Valid() && !recording
      ensures NotEncoded() == [] && bytesSent == 0 && playBuffer == [] && decoder == null
    {
      notEncodedBuffer := new byte[0];
      bytesSent := 0;
      playBuffer := [];
      decoder := null;
      recording := false;
    }

    /**
     * Starts a session: the counter is reset, the segment length is 960 frames, a 48 kHz
     * mono decoder is created, and recording and playback start. The carried-over bytes
     * are kept. The encoder is not part of this model: the segment size it reports,
     * `frameByteCount`, is a parameter.
     */
    method StartEncoding(now: int, frameByteCount: int, nativeCreate: NativeCreator)
      returns (r: Outcome<CreateError>)
      requires Valid() && !recording
      requires frameByteCount > 0
      modifies this
      ensures Valid()
      ensures startTime == now && bytesSent == 0 && segmentFrames == SegmentFrames
      ensures notEncodedBuffer == old(notEncodedBuffer)
      ensures var created := nativeCreate(DemoSampleRate, DemoChannels);
        && (r.Pass? <==> created.error == OpusOk)
        && (r.Fail? ==> r.error == NativeCreateFailed(created.error))
        && (r.Pass? ==>
              && recording && fresh(decoder) && decoder.destroyed == []
              && decoder.State() == DecoderState(created.handle, DemoSampleRate, DemoChannels,
                                                 DefaultMaxDataBytes, false, false)
              && bytesPerSegment == frameByteCount && playBuffer == [])
      ensures r.Fail? ==> !recording && decoder == old(decoder) && bytesPerSegment == old(bytesPerSegment)
                          && playBuffer == old(playBuffer)
    {
      startTime := now;
      bytesSent := 0;
      segmentFrames := SegmentFrames;
      var created := OpusDecoder.Create(DemoSampleRate, DemoChannels, nativeCreate);
      if created.Failure? {
        return Fail(created.error);
      }
      decoder := created.value;
      bytesPerSegment := frameByteCount;
      playBuffer := [];
      recording := true;
      r := Pass;
    }

    /**
     * One capture event: `bytesRecorded` bytes of `buffer` arrived. The carried-over bytes
     * and the new ones are cut into segments; the tail is kept; every segment makes the
     * round trip, in order. A decode exception ends the event early.
     */
    method DataAvailable(buffer: seq<byte>, bytesRecorded: int, encode: Encoder, native: NativeDecoder)
      returns (failure: Option<DecodeError>)
      requires Valid() && recording
      requires 0 <= bytesRecorded <= |buffer|
      requires HonoursFrameSize(native)
      modifies this
      ensures Valid() && recording && decoder == old(decoder)
      ensures bytesPerSegment == old(bytesPerSegment) && segmentFrames == old(segmentFrames)
      ensures startTime == old(startTime)
      ensures var sound := old(NotEncoded()) + buffer[..bytesRecorded];
        var run := RunSegments(Segments(sound, bytesPerSegment), encode, decoder.State(), native);
        && NotEncoded() == Remainder(sound, bytesPerSegment)
        && Cut(old(NotEncoded()), buffer[..bytesRecorded], bytesPerSegment)
           == Split(Segments(sound, bytesPerSegment), NotEncoded())
        && bytesSent == ULongAdd(old(bytesSent), run.sent)
        && playBuffer == old(playBuffer) + run.played
        && failure == run.failure
      ensures |NotEncoded()| < bytesPerSegment
    {
      var soundBuffer := Join(notEncodedBuffer, buffer, bytesRecorded);
      ghost var sound := soundBuffer[..];

      var byteCap := bytesPerSegment;
      // Math.Floor of the decimal quotient of two non-negative numbers is integer division.
      var segmentCount := soundBuffer.Length / byteCap;
      var segmentsEnd := segmentCount * byteCap;
      var notEncodedCount := soundBuffer.Length - segmentsEnd;
      RemainderStartsAtSegmentsEnd(sound, byteCap);
      notEncodedBuffer := CopyRange(soundBuffer, segmentsEnd, notEncodedCount);
      assert NotEncoded() == Remainder(sound, byteCap);

      failure := RoundTripSegments(soundBuffer, segmentCount, encode, native);
      assert soundBuffer[..] == sound;
    }

    /** The carried-over bytes followed by the first `bytesRecorded` bytes of `buffer`, in a new array. */
    static method Join(previous: array<byte>, buffer: seq<byte>, bytesRecorded: int) returns (soundBuffer: array<byte>)
      requires 0 <= bytesRecorded <= |buffer|
      ensures fresh(soundBuffer)
      ensures soundBuffer[..] == previous[..] + buffer[..bytesRecorded]
    {
      soundBuffer := new byte[bytesRecorded + previous.Length];
      for i := 0 to previous.Length
        modifies soundBuffer
        invariant soundBuffer[..i] == previous[..i]
      {
        soundBuffer[i] := previous[i];
      }
      for i := 0 to bytesRecorded
        modifies soundBuffer
        invariant soundBuffer[..previous.Length] == previous[..]
        invariant soundBuffer[previous.Length..previous.Length + i] == buffer[..i]
      {
        soundBuffer[i + previous.Length] := buffer[i];
      }
      assert soundBuffer[..] == soundBuffer[..previous.Length] + soundBuffer[previous.Length..];
    }

    /** The `count` bytes of `source` from index `from` on, in a new array. */
    static method CopyRange(source: array<byte>, from: int, count: int) returns (copy: array<byte>)
      requires 0 <= from && 0 <= count && from + count <= source.Length
      ensures fresh(copy)
      ensures copy[..] == source[from..from + count]
    {
      copy := new byte[count];
      for i := 0 to count
        modifies copy
        invariant copy[..i] == source[from..from + i]
      {
        copy[i] := source[from + i];
      }
    }

    /**
     * The segment loop of a capture event: segment `i` is bytes `[i * bytesPerSegment,
     * (i + 1) * bytesPerSegment)` of `soundBuffer`; it is encoded, its payload length is
     * added to the ulong counter, the payload is decoded and the decoded bytes are appended
     * to the play buffer.
     */
    method RoundTripSegments(soundBuffer: array<byte>, segmentCount: int, encode: Encoder, native: NativeDecoder)
      returns (failure: Option<DecodeError>)
      requires Valid() && recording
      requires segmentCount == soundBuffer.Length / bytesPerSegment
      requires HonoursFrameSize(native)
      modifies this`bytesSent, this`playBuffer
      ensures Valid()
      ensures var run := RunSegments(Segments(soundBuffer[..], bytesPerSegment), encode, decoder.State(), native);
        && bytesSent == ULongAdd(old(bytesSent), run.sent)
        && playBuffer == old(playBuffer) + run.played
        && failure == run.failure
    {
      ghost var segments := Segments(soundBuffer[..], bytesPerSegment);
      SegmentsCount(soundBuffer[..], bytesPerSegment);
      ghost var state := decoder.State();
      ghost var sentBefore, playedBefore := bytesSent, playBuffer;
      assert segments[..0] == [];
      for i := 0 to segmentCount
        invariant Valid() && decoder.State() == state
        invariant RunSegments(segments[..i], encode, state, native).failure.None?
        invariant bytesSent == ULongAdd(sentBefore, RunSegments(segments[..i], encode, state, native).sent)
        invariant playBuffer == playedBefore + RunSegments(segments[..i], encode, state, native).played
      {
        ghost var counted, played := bytesSent, playBuffer;
        failure := PassSegment(soundBuffer, i, encode, native);
        RunStep(segments, i, encode, state, native,
                sentBefore, counted, bytesSent, playedBefore, played, playBuffer, failure);
        if failure.Some? {
          return;
        }
      }
      assert segments[..segmentCount] == segments;
      failure := None;
    }

    /**
     * The round trip of segment `i` of `soundBuffer`, bytes `[i * bytesPerSegment,
     * (i + 1) * bytesPerSegment)`: it is encoded, the payload length is added to the ulong
     * counter, the payload is decoded and the decoded bytes are appended to the play buffer.
     */
    method PassSegment(soundBuffer: array<byte>, i: nat, encode: Encoder, native: NativeDecoder)
      returns (failure: Option<DecodeError>)
      requires Valid() && recording
      requires i < |Segments(soundBuffer[..], bytesPerSegment)|
      requires HonoursFrameSize(native)
      modifies this`bytesSent, this`playBuffer
      ensures Valid()
      ensures var payload := encode(Segments(soundBuffer[..], bytesPerSegment)[i]);
        && bytesSent == ULongAdd(old(bytesSent), |payload|)
        && playBuffer == old(playBuffer) + DecodedAudio(payload, decoder.State(), native)
        && failure == DecodeFailure(payload, decoder.State(), native)
    {
      var byteCap := bytesPerSegment;
      SegmentsCount(soundBuffer[..], byteCap);
      SegmentAt(soundBuffer[..], byteCap, i);
      var segment := CopyRange(soundBuffer, i * byteCap, byteCap);
      var payload := encode(segment[..]);
      bytesSent := ULongAdd(bytesSent, |payload|);
      var decoded := decoder.Decode(Some(payload), |payload|, native);
      if decoded.Failure? {
        return Some(decoded.error);
      }
      playBuffer := playBuffer + decoded.value.pcm[..decoded.value.decodedLength];
      failure := None;
    }

    /**
     * Ends the session: recording and playback stop, the play buffer is released and the
     * decoder is disposed. The counter and the carried-over bytes are left as they are.
     * Outside a session the stop throws before it changes anything.
     */
    method StopEncoding() returns (r: Outcome<StopError>)
      requires Valid()
      modifies this, decoder
      ensures Valid() && !recording
      ensures !old(recording) ==> r == Fail(NullReference) && unchanged(this)
      ensures !old(recording) && old(decoder) != null ==> unchanged(old(decoder))
      ensures old(recording) ==>
        && r == Pass && decoder == null
        && old(decoder).disposed && old(decoder).handle == 0
        && (old(decoder.handle) != 0 ==> old(decoder).destroyed == old(decoder.destroyed) + [old(decoder.handle)])
        && (old(decoder.handle) == 0 ==> old(decoder).destroyed == old(decoder.destroyed))
        && playBuffer == []
      ensures bytesSent == old(bytesSent) && notEncodedBuffer == old(notEncodedBuffer)
      ensures startTime == old(startTime)
      ensures bytesPerSegment == old(bytesPerSegment) && segmentFrames == old(segmentFrames)
    {
      if !recording {
        return Fail(NullReference);
      }
      recording := false;
      playBuffer := [];
      decoder.Dispose();
      decoder := null;
      r := Pass;
    }
  }
}
