/**
 * The Opus decoder wrapper: argument validation on creation, the buffer arithmetic that
 * turns a byte budget into a frame budget, the post-processing of the native decoder's
 * result, and the dispose state machine. The native library is a parameter: its decode
 * and create entry points are functions handed in by the caller.
 */
module Codecs {
  import opened Primitives

  /** libopus's `OPUS_OK`, the error code of a successful call. */
  const OpusOk: int := 0

  /** The size of the buffer a new decoder decodes into, in bytes. */
  const DefaultMaxDataBytes: int := 4000

  /** The decoder always produces 16-bit samples. */
  const BitsPerSample: int := 16

  predicate IsSupportedSampleRate(rate: int) {
    rate == 8000 || rate == 12000 || rate == 16000 || rate == 24000 || rate == 48000
  }

  predicate IsSupportedChannelCount(channels: int) {
    channels == 1 || channels == 2
  }

  /** The exceptions `Create` throws. */
  datatype CreateError =
    | SampleRateOutOfRange          // ArgumentOutOfRangeException(outputSampleRate)
    | ChannelsOutOfRange            // ArgumentOutOfRangeException(outputChannels)
    | NativeCreateFailed(code: int) // the native create reported an error

  /**
   * The argument checks of `Create`: the sample rate is checked first, then the channel
   * count, and only arguments passing both reach the native library.
   */
  function CheckCreateArguments(outputSampleRate: int, outputChannels: int): (r: Outcome<CreateError>)
    ensures r == Pass <==> outputSampleRate in {8000, 12000, 16000, 24000, 48000} && outputChannels in {1, 2}
    ensures outputSampleRate !in {8000, 12000, 16000, 24000, 48000} ==> r == Fail(SampleRateOutOfRange)
    ensures outputSampleRate in {8000, 12000, 16000, 24000, 48000} && outputChannels !in {1, 2} ==>
      r == Fail(ChannelsOutOfRange)
  {
    if !IsSupportedSampleRate(outputSampleRate) then Fail(SampleRateOutOfRange)
    else if !IsSupportedChannelCount(outputChannels) then Fail(ChannelsOutOfRange)
    else Pass
  }

  /**
   * The number of whole frames (one 16-bit sample per channel) a buffer of `bufferSize`
   * bytes holds. The division is C#'s, which truncates toward zero.
   */
  function FrameCount(bufferSize: int, outputChannels: int): (frames: int)
    requires IsSupportedChannelCount(outputChannels)
    ensures var width := 2 * outputChannels;
      && (bufferSize >= 0 ==> 0 <= frames && frames * width <= bufferSize < frames * width + width)
      && (bufferSize < 0 ==> frames <= 0 && frames * width - width < bufferSize <= frames * width)
  {
    var bytesPerSample := (BitsPerSample / 8) * outputChannels;
    if bufferSize >= 0 then bufferSize / bytesPerSample else -((-bufferSize) / bytesPerSample)
  }

  lemma FrameCountExamples()
    ensures FrameCount(DefaultMaxDataBytes, 1) == 2000
    ensures FrameCount(DefaultMaxDataBytes, 2) == 1000
  {
  }

  /**
   * The bytes that `frames` decoded frames occupy: 16-bit samples, interleaved per channel.
   * That is the source's two-bytes-per-frame count once per channel.
   */
  function PcmByteCount(frames: int, outputChannels: int): (bytes: int)
    requires IsSupportedChannelCount(outputChannels)
    ensures bytes == DecodedLengthAsWritten(frames) * outputChannels
    ensures 0 <= frames ==> 0 <= bytes
  {
    frames * 2 * outputChannels
  }

  /** The byte count of `frames` frames reads back as `frames` frames. */
  lemma FrameCountOfPcmByteCount(frames: int, outputChannels: int)
    requires frames >= 0 && IsSupportedChannelCount(outputChannels)
    ensures PcmByteCount(frames, outputChannels) >= 0
    ensures FrameCount(PcmByteCount(frames, outputChannels), outputChannels) == frames
  {
    var n := PcmByteCount(frames, outputChannels);
    var f := FrameCount(n, outputChannels);
    if outputChannels == 1 {
      assert f * 2 <= frames * 2 < f * 2 + 2;
    } else {
      assert f * 4 <= frames * 4 < f * 4 + 4;
    }
  }

  /** Whole frames never need more bytes than the buffer they were counted in. */
  lemma PcmByteCountFits(frames: int, bufferSize: int, outputChannels: int)
    requires IsSupportedChannelCount(outputChannels) && 0 <= bufferSize
    requires frames <= FrameCount(bufferSize, outputChannels)
    ensures PcmByteCount(frames, outputChannels) <= bufferSize
  {
    var f := FrameCount(bufferSize, outputChannels);
    if outputChannels == 1 {
      assert frames * 2 <= f * 2;
    } else {
      assert frames * 4 <= f * 4;
    }
  }

  /**
   * `decodedLength` as the source computes it from the native result: two bytes per frame,
   * which reads back as `length` frames only on a one-channel decoder.
   */
  function DecodedLengthAsWritten(length: int): (decodedLength: int)
    ensures FrameCount(decodedLength, 1) == length
    ensures decodedLength % 2 == 0
  {
    length * 2
  }

  /** For one channel the source's decoded length is the byte count of the decoded frames. */
  lemma DecodedLengthAsWrittenMono(length: int)
    ensures DecodedLengthAsWritten(length) == PcmByteCount(length, 1)
  {
  }

  /** For two channels it is half of it. */
  lemma DecodedLengthAsWrittenStereo(length: int)
    ensures DecodedLengthAsWritten(length) * 2 == PcmByteCount(length, 2)
  {
  }

  /**
   * One decoded stereo frame occupies 4 bytes but is reported as 2, and those 2 bytes hold
   * no whole frame instead of the one decoded.
   */
  lemma DecodedLengthAsWrittenStereoOneFrame()
    ensures PcmByteCount(1, 2) == 4 && DecodedLengthAsWritten(1) == 2
    ensures FrameCount(DecodedLengthAsWritten(1), 2) == 0
  {
  }

  /** A call of the native `opus_decode(st, data, len, pcm, frame_size, decode_fec)`. */
  datatype NativeDecodeCall = NativeDecodeCall(
    handle: int, data: Option<seq<byte>>, len: int, frameSize: int, decodeFec: int)

  /** What the native decode returns (frames per channel, or a negative error code) and the PCM bytes it writes. */
  datatype NativeDecodeResult = NativeDecodeResult(status: int, pcm: seq<byte>)

  type NativeDecoder = NativeDecodeCall -> NativeDecodeResult

  /** libopus decodes at most `frame_size` frames per call. */
  ghost predicate HonoursFrameSize(native: NativeDecoder) {
    forall call: NativeDecodeCall :: native(call).status <= call.frameSize
  }

  /** What the native create returns: the decoder handle and an error code. */
  datatype NativeCreateResult = NativeCreateResult(handle: int, error: int)

  type NativeCreator = (int, int) -> NativeCreateResult

  /** The exceptions `Decode` throws. */
  datatype DecodeError =
    | ObjectDisposed           // ObjectDisposedException: the decoder was disposed
    | Overflow                 // OverflowException: the buffer size `MaxDataBytes` is negative
    | DecodingFailed(code: int) // the native decode returned a negative error code

  /** The decoded buffer and the number of its bytes that hold decoded audio. */
  datatype Decoded = Decoded(pcm: seq<byte>, decodedLength: int)

  /** The fields of a decoder, as a value. `handle` 0 is the null pointer. */
  datatype DecoderState = DecoderState(
    handle: int, outputSamplingRate: int, outputChannels: int,
    maxDataBytes: int, forwardErrorCorrection: bool, disposed: bool)

  /**
   * The native call `Decode` makes: it asks for as many frames as fit in `MaxDataBytes`;
   * a missing packet is decoded from nothing, using in-band forward error correction when
   * it is switched on.
   */
  function DecodeRequest(s: DecoderState, input: Option<seq<byte>>, dataLength: int): (call: NativeDecodeCall)
    requires IsSupportedChannelCount(s.outputChannels)
    ensures call.handle == s.handle && call.data == input
    ensures call.frameSize == FrameCount(s.maxDataBytes, s.outputChannels)
    ensures input.Some? ==> call.len == dataLength && call.decodeFec == 0
    ensures input.None? ==> call.len == 0 && (call.decodeFec == 1 <==> s.forwardErrorCorrection)
    ensures input.None? ==> (call.decodeFec == 0 <==> !s.forwardErrorCorrection)
  {
    var frameCount := FrameCount(s.maxDataBytes, s.outputChannels);
    match input
    case Some(_) => NativeDecodeCall(s.handle, input, dataLength, frameCount, 0)
    case None => NativeDecodeCall(s.handle, None, 0, frameCount, if s.forwardErrorCorrection then 1 else 0)
  }

  /** The zero-filled buffer of `size` bytes after the native decoder wrote `pcm` into it. */
  function PcmBuffer(pcm: seq<byte>, size: nat): (buffer: seq<byte>)
    ensures |buffer| == size
    ensures forall i :: 0 <= i < size ==> buffer[i] == if i < |pcm| then pcm[i] else 0
  {
    seq(size, i requires 0 <= i < size => if i < |pcm| then pcm[i] else 0)
  }

  /**
   * What `Decode` returns or throws, given the decoder's fields. The decoded length is the
   * byte count of the frames the native decoder reports, for every channel count (see
   * DecodedLengthAsWritten for the source's two-bytes-per-frame count).
   */
  function DecodeOutcome(s: DecoderState, input: Option<seq<byte>>, dataLength: int, native: NativeDecoder)
    : (r: Result<Decoded, DecodeError>)
    requires IsSupportedChannelCount(s.outputChannels)
    ensures s.disposed ==> r == Failure(ObjectDisposed)
    ensures !s.disposed && s.maxDataBytes < 0 ==> r == Failure(Overflow)
    ensures var status := native(DecodeRequest(s, input, dataLength)).status;
      && (r.Success? <==> !s.disposed && 0 <= s.maxDataBytes && 0 <= status)
      && (!s.disposed && 0 <= s.maxDataBytes && status < 0 ==> r == Failure(DecodingFailed(status)))
      && (r.Success? ==> |r.value.pcm| == s.maxDataBytes && 0 <= r.value.decodedLength
                         && FrameCount(r.value.decodedLength, s.outputChannels) == status)
    ensures HonoursFrameSize(native) && r.Success? ==> r.value.decodedLength <= |r.value.pcm|
    ensures var result := native(DecodeRequest(s, input, dataLength));
      r.Success? ==>
        && r.value.pcm == PcmBuffer(result.pcm, s.maxDataBytes)
        && r.value.decodedLength == result.status * 2 * s.outputChannels
  {
    if s.disposed then Failure(ObjectDisposed)
    else if s.maxDataBytes < 0 then Failure(Overflow)
    else
      var call := DecodeRequest(s, input, dataLength);
      var result := native(call);
      if result.status < 0 then Failure(DecodingFailed(result.status))
      else
        FrameCountOfPcmByteCount(result.status, s.outputChannels);
        assert HonoursFrameSize(native) ==> PcmByteCount(result.status, s.outputChannels) <= s.maxDataBytes by {
          if HonoursFrameSize(native) {
            PcmByteCountFits(result.status, s.maxDataBytes, s.outputChannels);
          }
        }
        Success(Decoded(PcmBuffer(result.pcm, s.maxDataBytes), PcmByteCount(result.status, s.outputChannels)))
  }

  /** An Opus decoder bound to one sample rate and channel count. */
  class OpusDecoder {
    var handle: int                    // the native decoder; 0 once released
    var outputSamplingRate: int
    var outputChannels: int
    var maxDataBytes: int              // settable by clients
    var forwardErrorCorrection: bool   // settable by clients
    var disposed: bool
    ghost var destroyed: seq<int>      // the handles this decoder passed to the native destroy

    ghost predicate Valid()
      reads this
    {
      && IsSupportedSampleRate(outputSamplingRate)
      && IsSupportedChannelCount(outputChannels)
      && (disposed ==> handle == 0)
      && |destroyed| <= 1
      && (destroyed != [] ==> disposed && destroyed[0] != 0)
    }

    function State(): DecoderState
      reads this
    {
      DecoderState(handle, outputSamplingRate, outputChannels, maxDataBytes, forwardErrorCorrection, disposed)
    }

    /** Validates the arguments, then asks the native library for a decoder. */
    static method Create(outputSampleRate: int, outputChannels: int, nativeCreate: NativeCreator)
      returns (r: Result<OpusDecoder, CreateError>)
      ensures CheckCreateArguments(outputSampleRate, outputChannels).Fail? ==>
        r == Failure(CheckCreateArguments(outputSampleRate, outputChannels).error)
      ensures CheckCreateArguments(outputSampleRate, outputChannels).Pass? ==>
        var created := nativeCreate(outputSampleRate, outputChannels);
        && (created.error != OpusOk ==> r == Failure(NativeCreateFailed(created.error)))
        && (created.error == OpusOk ==>
              && r.Success? && fresh(r.value) && r.value.Valid()
              && r.value.destroyed == []
              && r.value.State() == DecoderState(created.handle, outputSampleRate, outputChannels,
                                                 DefaultMaxDataBytes, false, false))
    {
      var check := CheckCreateArguments(outputSampleRate, outputChannels);
      if check.Fail? {
        return Failure(check.error);
      }
      var created := nativeCreate(outputSampleRate, outputChannels);
      if created.error != OpusOk {
        return Failure(NativeCreateFailed(created.error));
      }
      var decoder := new OpusDecoder(created.handle, outputSampleRate, outputChannels);
      return Success(decoder);
    }

    /** Private in the source: only `Create` calls it, with validated arguments. */
    constructor (decoder: int, outputSamplingRate: int, outputChannels: int)
      requires IsSupportedSampleRate(outputSamplingRate) && IsSupportedChannelCount(outputChannels)
      ensures Valid() && destroyed == []
      ensures State() == DecoderState(decoder, outputSamplingRate, outputChannels, DefaultMaxDataBytes, false, false)
    {
      handle := decoder;
      this.outputSamplingRate := outputSamplingRate;
      this.outputChannels := outputChannels;
      maxDataBytes := DefaultMaxDataBytes;
      forwardErrorCorrection := false;
      disposed := false;
      destroyed := [];
    }

    /**
     * Decodes one packet, or a lost packet when `inputOpusData` is None, into a fresh
     * buffer of `maxDataBytes` bytes. Nothing of the decoder changes.
     */
    method Decode(inputOpusData: Option<seq<byte>>, dataLength: int, native: NativeDecoder)
      returns (r: Result<Decoded, DecodeError>)
      requires Valid()
      ensures r == DecodeOutcome(State(), inputOpusData, dataLength, native)
    {
      if disposed {
        return Failure(ObjectDisposed);
      }
      if maxDataBytes < 0 {
        return Failure(Overflow);
      }
      var frameCount := FrameCount(maxDataBytes, outputChannels);
      var call := if inputOpusData.Some?
        then NativeDecodeCall(handle, inputOpusData, dataLength, frameCount, 0)
        else NativeDecodeCall(handle, None, 0, frameCount, if forwardErrorCorrection then 1 else 0);
      var length := native(call);
      var decodedLength := PcmByteCount(length.status, outputChannels);
      if length.status < 0 {
        return Failure(DecodingFailed(length.status));
      }
      r := Success(Decoded(PcmBuffer(length.pcm, maxDataBytes), decodedLength));
    }

    /**
     * Releases the native decoder once: a live, non-null handle is destroyed and zeroed;
     * a second call does nothing.
     */
    method Dispose()
      requires Valid()
      modifies this
      ensures Valid() && disposed && handle == 0
      ensures old(disposed) ==> unchanged(this)
      ensures !old(disposed) ==>
        destroyed == old(destroyed) + (if old(handle) != 0 then [old(handle)] else [])
      ensures outputSamplingRate == old(outputSamplingRate) && outputChannels == old(outputChannels)
      ensures maxDataBytes == old(maxDataBytes) && forwardErrorCorrection == old(forwardErrorCorrection)
    {
      if disposed {
        return;
      }
      if handle != 0 {
        destroyed := destroyed + [handle];
        handle := 0;
      }
      disposed := true;
    }
  }
}
