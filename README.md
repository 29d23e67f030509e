# Opus.NET loopback demo and decoder wrapper, in Dafny

This project models two parts of Opus.NET:

- **The loopback demo's capture handler** (`Form1._waveIn_DataAvailable`) and its session lifecycle (`StartEncoding`, `StopEncoding`).
  - Each capture event prepends the bytes carried over from the previous event to the newly recorded ones.
  - It cuts the result into whole segments of `_bytesPerSegment` bytes and keeps the tail for the next event.
  - It passes every segment, in order, through: encode, add the payload length to the `ulong` counter `_bytesSent`, decode, append the decoded bytes to the play buffer.
- **The decoder wrapper `OpusDecoder`:**
  - the argument checks of `Create`;
  - the defaults set by the private constructor;
  - the frame arithmetic of `FrameCount`;
  - the post-processing around the native `opus_decode` call in `Decode`;
  - the idempotent `Dispose`.

The files:

- `common.dfy`, module `Primitives`: bytes, the `ulong` modulus, `Option`, `Result` and `Outcome`.
- `segmenter.dfy`, module `Segmenter`: the slicing of a buffer into whole segments and a remainder, as pure functions, with conservation lemmas.
- `opus_decoder.dfy`, module `Codecs`:
  - `Create` validation, `FrameCount` and the decode outcome, as functions;
  - the class `OpusDecoder`, whose methods are proved against those functions.
- `form1.dfy`, module `OpusDemo`:
  - `RunSegments`, a specification of the ordered segment round trip;
  - the class `Form1`. Its `DataAvailable` fills new arrays element by element, as the handler does. Its segment loop updates the counter and the play buffer in place, and is proved against `RunSegments`.

Things outside the model become parameters:

- the native library's decode and create entry points;
- the encoder (`seq<byte> -> seq<byte>`);
- the segment size the encoder reports;
- the clock.

A run of segments stops at the first decode exception. The exception is returned as a value: the counter already includes that segment's payload, and nothing more is appended.

`StartEncoding` resets the counter but not the carried-over bytes. So bytes left over from one session are encoded at the start of the next, as `Form1.cs` does (lines 21 and 65-73).

## Model

| member | source | states |
|---|---|---|
| Segmenter.Segments | OpusDemo/Form1.cs:125-129 | every segment the handler emits holds exactly `bytesPerSegment` bytes |
| Segmenter.Remainder | OpusDemo/Form1.cs:117-123 | the bytes kept for the next event are fewer than one segment |
| Segmenter.SegmentsCount | OpusDemo/Form1.cs:115-116 | the number of segments is the buffer length divided by the segment size, in integer division |
| Segmenter.RemainderLength | OpusDemo/Form1.cs:118 | the kept bytes number the buffer length modulo the segment size |
| Segmenter.RemainderStartsAtSegmentsEnd | OpusDemo/Form1.cs:116-123 | the kept bytes are exactly the buffer from `segmentCount * byteCap` on, and that offset lies within the buffer |
| Segmenter.SegmentAt | OpusDemo/Form1.cs:125-129 | segment `i` is bytes `[i * byteCap, (i + 1) * byteCap)` of the buffer, which lie within it |
| Segmenter.SegmentsConserve | OpusDemo/Form1.cs:109-129 | the segments concatenated, followed by the kept bytes, are the whole buffer: no byte is dropped or duplicated |
| Segmenter.ShortBufferIsKept | OpusDemo/Form1.cs:115-123 | a buffer shorter than one segment emits nothing and is kept whole |
| Segmenter.Cut | OpusDemo/Form1.cs:109-129 | one event emits full-size segments; they and the new remainder are the old remainder followed by the chunk; an empty chunk after a short remainder emits nothing and keeps the remainder |
| Segmenter.Feed | OpusDemo/Form1.cs:107-136 | over a stream of events, every emitted segment is full size and the final remainder is shorter than a segment |
| Segmenter.FeedConserves | OpusDemo/Form1.cs:107-136 | over any stream of events, all segments emitted followed by the final remainder are the initial remainder followed by every chunk, in order |
| Segmenter.CutExample | OpusDemo/Form1.cs:115-123 | 30 carried bytes plus 250 new ones with 100-byte segments emit two segments and keep the last 80 bytes |
| Segmenter.StreamExample | OpusDemo/Form1.cs:107-136 | with 1920-byte segments (960 mono 16-bit frames), chunks of 1000, 500 and 460 bytes emit nothing, nothing, then one segment made of all of the first two chunks and the start of the third |
| OpusDemo.EncodedBytes | OpusDemo/Form1.cs:130-132 | the sum of the payload lengths counts every segment's payload |
| OpusDemo.EncodedBytesAppend | OpusDemo/Form1.cs:130-132 | the payload bytes of two groups of segments add up |
| OpusDemo.EncodedBytesSnoc | OpusDemo/Form1.cs:130-132 | the payload bytes of a run are those of all but its last segment plus the last payload's length |
| OpusDemo.DecodedAudio | OpusDemo/Form1.cs:133-134 | a decode that throws appends nothing; otherwise the bytes appended are the decoded frames' byte count, at most `MaxDataBytes`, and on the demo's one-channel decoder exactly line 75's `decodedLength`, two bytes per frame |
| OpusDemo.DecodedAudioIsNativeOutput | OpusDemo/Form1.cs:133-134 | the appended bytes are those the native decoder wrote into the decode buffer, zeroes where it wrote nothing |
| OpusDemo.DecodeFailure | OpusDemo/Form1.cs:133 | decoding a payload throws exactly when the decoder is disposed, its buffer size is negative, or the native result is negative; the exception is ObjectDisposed, Overflow or DecodingFailed with the native code, checked in that order |
| OpusDemo.RoundTripStep | OpusDemo/Form1.cs:130-134 | one segment's round trip never lowers the count and only appends to the play buffer |
| OpusDemo.Continue | OpusDemo/Form1.cs:125-135 | a further segment never lowers the count and only appends; after a thrown decode it changes nothing |
| OpusDemo.RunSegments | OpusDemo/Form1.cs:125-135 | a run over no segments cannot fail |
| OpusDemo.RunSegmentsFailureIsADecode | OpusDemo/Form1.cs:133 | a run fails only with the exception thrown by decoding one of its segments' payloads |
| OpusDemo.RunSegmentsCounts | OpusDemo/Form1.cs:130-132 | the counted bytes never exceed the encoded payload bytes, and equal their sum when no decode throws |
| OpusDemo.RunSegmentsSnoc | OpusDemo/Form1.cs:125-135 | the run over the first `i + 1` segments is the run over the first `i` followed by segment `i` |
| OpusDemo.RunSegmentsAppend | OpusDemo/Form1.cs:125-135 | running two groups of segments in turn is running them together: counts add, audio concatenates in order, and a failure in the first group ends the run |
| OpusDemo.RunSegmentsStopsAtFailure | OpusDemo/Form1.cs:133-135 | once a decode throws, later segments change nothing: no encoding, counting or appending |
| OpusDemo.ULongWrap | OpusDemo/Form1.cs:18 | a `ulong` value is below 2^64 and leaves smaller numbers unchanged |
| OpusDemo.ULongWrapIsMod | OpusDemo/Form1.cs:18 | `ulong` wrap-around is reduction modulo 2^64 |
| OpusDemo.ULongAdd | OpusDemo/Form1.cs:132 | the unchecked `ulong` addition stays below 2^64, and is the exact sum when that sum is below 2^64 |
| OpusDemo.ULongAddAssociates | OpusDemo/Form1.cs:132 | adding payload lengths to the counter one at a time is adding their total once |
| OpusDemo.RunStep | OpusDemo/Form1.cs:125-135 | after one more segment the counter, the play buffer and the failure are those of the run over one more segment, and a failure there is the whole run's |
| OpusDemo.Form1.constructor | OpusDemo/Form1.cs:21 | a new window has no carried-over bytes, a zero counter and no decoder |
| OpusDemo.Form1.StartEncoding | OpusDemo/Form1.cs:65-73 | the start time is set, the counter is zeroed and the segment length is 960 frames; a 48 kHz mono decoder is created with its defaults, or the creation error is returned; the carried-over bytes are kept |
| OpusDemo.Form1.DataAvailable | OpusDemo/Form1.cs:107-136 | the event is `Cut` of the old remainder and the recorded bytes: its segments are the ones passed on and its remainder is the bytes kept; the counter advances, with `ulong` wrap, and the play buffer grows exactly as the ordered run of all segments prescribes; the decode exception, if any, is the run's |
| OpusDemo.Form1.Join | OpusDemo/Form1.cs:109-113 | the working buffer is the carried-over bytes followed by the first `BytesRecorded` recorded bytes |
| OpusDemo.Form1.CopyRange | OpusDemo/Form1.cs:119-123 | the copy is the requested slice of the source array |
| OpusDemo.Form1.RoundTripSegments | OpusDemo/Form1.cs:125-135 | the segment loop leaves the counter, the play buffer and the failure as `RunSegments` over the buffer's segments prescribes |
| OpusDemo.Form1.PassSegment | OpusDemo/Form1.cs:126-134 | segment `i` is encoded, its payload length is added to the counter, and the first `decodedLength` decoded bytes are appended, or the decode exception is returned |
| OpusDemo.Form1.StopEncoding | OpusDemo/Form1.cs:138-154 | outside a session the stop throws NullReferenceException (a null `_timer` or `_waveIn`, lines 140 and 143) and changes nothing; in a session the play buffer is released and the decoder disposed; a non-null native handle is destroyed once and a null one is not destroyed; the counter, the start time and the carried-over bytes are left as they are |
| Codecs.CheckCreateArguments | OpusWrapper/OpusDecoder.cs:21-33 | the arguments pass exactly when the rate is 8000, 12000, 16000, 24000 or 48000 and the channel count is 1 or 2; a bad rate is reported before a bad channel count |
| Codecs.FrameCount | OpusWrapper/OpusDecoder.cs:87-93 | the result is the buffer size divided by `2 * channels`, truncated toward zero |
| Codecs.FrameCountExamples | OpusWrapper/OpusDecoder.cs:87-93 | 4000 bytes hold 2000 mono or 1000 stereo frames |
| Codecs.FrameCountOfPcmByteCount | OpusWrapper/OpusDecoder.cs:87-93 | the byte count of `n` frames reads back as `n` frames |
| Codecs.PcmByteCountFits | OpusWrapper/OpusDecoder.cs:64-65 | at most `FrameCount(MaxDataBytes)` decoded frames fit in the `MaxDataBytes` buffer |
| Codecs.PcmByteCount | OpusWrapper/OpusDecoder.cs:87-93 | the bytes of `frames` decoded frames are the source's two-bytes-per-frame count once per channel, and are not negative for a non-negative count |
| Codecs.DecodedLengthAsWritten | OpusWrapper/OpusDecoder.cs:75 | the source's `length * 2` is even and reads back as `length` frames on a one-channel decoder |
| Codecs.DecodedLengthAsWrittenMono | OpusWrapper/OpusDecoder.cs:75 | for mono, the source's `length * 2` is the byte count of the decoded frames |
| Codecs.DecodedLengthAsWrittenStereo | OpusWrapper/OpusDecoder.cs:75 | for stereo, `length * 2` is half the byte count of the decoded frames, for every `length` |
| Codecs.DecodedLengthAsWrittenStereoOneFrame | OpusWrapper/OpusDecoder.cs:75 | one decoded stereo frame fills 4 bytes but is reported as 2, which hold no whole frame |
| Codecs.DecodeRequest | OpusWrapper/OpusDecoder.cs:64-73 | the native call asks for `FrameCount(MaxDataBytes)` frames; a packet is passed with its length and FEC off; a missing packet passes length 0 and FEC exactly when forward error correction is on |
| Codecs.PcmBuffer | OpusWrapper/OpusDecoder.cs:64 | the result buffer has `MaxDataBytes` bytes: what the native decoder wrote, then zeroes |
| Codecs.DecodeOutcome | OpusWrapper/OpusDecoder.cs:59-80 | a disposed decoder throws ObjectDisposedException; a negative `MaxDataBytes` overflows; a negative native result throws with its code; otherwise the `MaxDataBytes` buffer holding what the native decoder wrote, zeroes after it, and a decoded length of `frames * 2 * channels` bytes, which reads back as the native frame count and, when the native decoder honours `frame_size`, fits the buffer |
| Codecs.OpusDecoder.Create | OpusWrapper/OpusDecoder.cs:19-41 | invalid arguments throw without a native call; a native error code throws; otherwise a fresh decoder with the given rate and channels and the constructor's defaults |
| Codecs.OpusDecoder.constructor | OpusWrapper/OpusDecoder.cs:44-50 | the handle, rate and channels are stored; `MaxDataBytes` is 4000, forward error correction is off and the decoder is not disposed |
| Codecs.OpusDecoder.Decode | OpusWrapper/OpusDecoder.cs:59-80 | decoding returns or throws what `DecodeOutcome` prescribes for the decoder's fields, and changes no field |
| Codecs.OpusDecoder.Dispose | OpusWrapper/OpusDecoder.cs:121-135 | the first call destroys a non-null handle once, zeroes it and marks the decoder disposed; later calls change nothing |

## Left out

- The rate reporter `_timer_Tick` (`Form1.cs` lines 100-105) is left out. It divides by wall-clock time in floating point and writes to the console.
- The timer, the device enumeration and the button handlers are left out. They are UI glue.
- The NAudio capture and playback devices are left out. The play buffer is the sequence of bytes handed to `AddSamples`. `StopEncoding` setting it to null is modelled as clearing it.
- The encoder is left out, as `OpusEncoder` is not part of this model.
  - It is a function parameter.
  - The `len` it reports is the payload's length.
  - Its bitrate setting (8192) and its `Dispose` are not modelled.
  - It is a pure function: the codec state an Opus encoder carries from one frame to the next is not modelled, so two equal segments always encode to the same payload.
  - It is total: the exceptions `OpusEncoder.Encode` can throw at `Form1.cs` line 131 are not modelled.
  - `_bytesPerSegment`, the encoder's `FrameByteCount(960)`, is a positive parameter of `StartEncoding`.
- The native `opus_decode` and `opus_decoder_create` calls are function parameters. The codec state the native decoder carries from call to call is not modelled: the same packet always decodes the same way.
- OpusDemo.Form1.DataAvailable: assumes that the native decoder never reports more frames than the `frame_size` it was given (libopus's contract). Without that, `AddSamples` could be handed a length beyond the buffer.
- OpusDemo.Form1.DataAvailable: requires an active session. In the source an event can arrive only after `StartEncoding` has set up the decoder.
- OpusDemo.Form1.StartEncoding: requires a positive segment size from the encoder. `FrameByteCount` is not part of this model.
- Concurrency between the capture callback, the timer and the UI thread is left out. One event is handled at a time.
- The finalizer, `GC.SuppressFinalize` and the pinning of the decode buffer in `OpusDecoder.cs` are left out. They are memory management, not behaviour.
- 32-bit `int` overflow of the buffer lengths in `Form1.cs` is not modelled: lengths are unbounded. The `ulong` counter's wrap-around is modelled.
- OpusDemo.Form1.DataAvailable: states that the counter never decreases only while it stays below 2^64 (through `ULongAdd`). Past that it wraps, as the source's unchecked `ulong` does.

## Findings

| source | as written | input that shows it | evidently intended | confidence | as-written member | corrected member |
|---|---|---|---|---|---|---|
| OpusWrapper/OpusDecoder.cs:75 | `decodedLength = length * 2`: two bytes per decoded frame, whatever the channel count | a stereo decoder (`OutputChannels == 2`) whose native decode returns 1 frame: `decodedLength` is 2, but the frame fills 4 bytes, as `FrameCount` (line 91) counts them | `decodedLength = length * 2 * OutputChannels`, the bytes the decoded frames occupy | not executed | Codecs.DecodedLengthAsWrittenStereoOneFrame | Codecs.DecodeOutcome |
