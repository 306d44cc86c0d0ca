# AudioAfade in Dafny

A model of the processing core of `AudioAfade` (audio_afade.cc). This class
decodes AAC, pushes the frames through an FFmpeg `afade` filter graph,
re-encodes them, and frames the result as raw ADTS. The model covers:

- **Adts** (adts.dfy): `WriteAdtsHeader`, the 7-byte ADTS header of ISO/IEC
  14496-3, subclause 1.A.2.2, including its 13-entry samplingFrequencyIndex
  table. The writer is read back by `ParseHeader`, a reader of the same bit
  layout as the standard defines it, and by `Deframe`, which cuts one ADTS
  frame out of a byte stream.
- **Bits** (bits.dfy): the C operators the writer uses, on unbounded integers.
  Bytes are integers in [0, 256), and `|` is `Or`, proved to be bitwise.
- **Timeline** (timeline.dfy): the `pts_counter_` allocator of `Process`, with
  its stamps as prefix sums.
- **Session** (session.dfy): the members of the object, the constructor (with
  FFmpeg's answers given as a `Setup`), `InitFilterGraph`'s effect on the
  handles, and `Cleanup`.
- **Pipeline** (pipeline.dfy): `ReceiveFromFilter`, `Process`, `ProcessRaw` and
  `FlushEncoder`. Everything FFmpeg answers during these calls is given as data:
  - whether the decoder takes the packet;
  - the decoded frames' sample counts;
  - for each filtered frame, whether the encoder takes it and which packets it
    returns;
  - how the sink's pull loop ends.
- **Hex** (hex.dfy): `PrintHexPreview`, with `ParsePreview`, which reads a
  preview back.

C arithmetic is modelled on unbounded integers:
- `>>` is floor division, which is an arithmetic shift.
- `& (2^k - 1)` is `% 2^k`.
- A store into `uint8_t` keeps `x % 256`.

Every header bit depends only on low-order bits of the intermediates, so the
bytes are those of 32-bit two's complement arithmetic for every argument.

The model keeps these behaviours of the code:
- Construction does not fail closed. The result of `InitFilterGraph` is ignored
  (audio_afade.cc:67), and the object records no failure
  (`Session.ConfigFailureUndetectable`). An early return leaves some pointers
  null, and `Process`, `ProcessRaw` and `FlushEncoder` dereference them
  unchecked (audio_afade.cc:185, 287, 307, 221). The model makes those pointers
  preconditions (`Pipeline.HandlesPresent`), and
  `Pipeline.ConstructedHandlesPresent` says which constructor outcomes meet
  them.
- `Process` does not return a sequence of packets. `ReceiveFromFilter`
  overwrites `out_pkt` with every packet (audio_afade.cc:354-355, 375-376), and
  `Process` clears `dst_pkt` before each frame. Only the last packet of the
  last frame reaches the caller.
- The channel field is 3 bits wide, and `channels >> 2` is not masked.
  Channel counts of 8 or more do not round-trip. For 8..15, bit 3 of the count
  lands in the private bit (`Adts.ChannelOverflowLeaks`). From 16 on, the count
  also overwrites samplingFrequencyIndex bits (`Adts.WideChannelsOverwriteRate`).
- `FlushEncoder` writes the drained packets as they are, without an ADTS
  header.

One behaviour of the code is not kept. `ProcessRaw` reads the size of a
`dst_pkt` it never initialised (see "Findings"). `Pipeline.ProcessRaw` models
the evidently intended "no output yet" for that case. The code as written is
`Pipeline.ProcessRawAsWritten`.

## Model

| member | source | states |
|---|---|---|
| Adts.FindFrequency | audio_afade.cc:411-417 | The linear search from position i returns the first position whose rate matches. With no match it returns index 4, and it never fails. |
| Adts.FrequencyIndex | audio_afade.cc:408-417 | The index is always below 13. It is the table position of the sample rate when the rate is listed, and 4 (44100 Hz) otherwise. |
| Adts.FrequencyIndexIsPosition | audio_afade.cc:408-410 | Each of the 13 listed rates maps to its own position, because the table entries are distinct. |
| Adts.WriteAdtsHeader | audio_afade.cc:405-428 | The header is always exactly 7 bytes; what each byte holds is stated by the rows that follow. |
| Bits.OrIsBitwise | audio_afade.cc:423-426 | Each bit of the OR of a and b is set exactly when that bit is set in a or in b. |
| Bits.Or8Disjoint | audio_afade.cc:424-426 | OR of two bytes whose set bits lie on opposite sides of bit j equals their sum. |
| Adts.Byte2Value | audio_afade.cc:423 | Byte 2 equals `(profile - 1) mod 4` shifted to bits 7-6, plus the frequency index in bits 5-2, plus `channels >> 2`, when those parts do not overlap. |
| Adts.Byte3Value | audio_afade.cc:424 | Byte 3 is the two low channel bits above bits 12-11 of the frame length. |
| Adts.Byte5Value | audio_afade.cc:426 | Byte 5 is the low three frame-length bits above five set bits. |
| Adts.FixedFields | audio_afade.cc:421-427 | For any arguments, bytes 0, 1 and 6 are 0xFF, 0xF1 and 0xFC, and the low 5 bits of byte 5 are set. A reader sees syncword 0xFFF, ID 0, layer 0, no CRC, buffer fullness 0x7FF, one raw data block and clear original/home/copyright bits. |
| Adts.FrameLengthRoundTrip | audio_afade.cc:419-426 | aac_frame_length reads back as the payload length plus 7, modulo 8192. |
| Adts.FrameLengthExact | audio_afade.cc:419-426 | When the payload length plus 7 is below 8192, aac_frame_length reads back exactly. |
| Adts.FieldRoundTrip | audio_afade.cc:423-424 | For profile 1..4 and 0..7 channels, the reader gets back profile minus one, the frequency index and the channel count, and the private bit is clear. |
| Adts.ChannelOverflowLeaks | audio_afade.cc:423-424 | For 8..15 channels, channel_configuration reads as the count minus 8 and the private bit is set. |
| Adts.SampleRateRoundTrip | audio_afade.cc:408-423 | For 0..15 channels, a listed sample rate reads back as itself and an unlisted one as 44100 Hz. |
| Adts.WideChannelsOverwriteRate | audio_afade.cc:423 | For 16..31 channels, an even frequency index reads back one higher. That is a different rate, or the reserved index 13 for 7350 Hz. |
| Adts.FramingRoundTrip | audio_afade.cc:419-427 | A header followed by its payload is an acceptable ADTS frame exactly when it is shorter than 8192 bytes. The reader then gets the payload back unchanged. |
| Hex.Shown | audio_afade.cc:435 | The number of bytes shown is at most the buffer size and at most max_bytes, and it equals one of them. |
| Hex.Preview | audio_afade.cc:430-445 | The preview is 3 characters per shown byte, plus 3 more when the buffer is longer than max_bytes. |
| Hex.PrintHexPreview | audio_afade.cc:430-445 | Streaming byte by byte builds exactly `Preview`: the groups of the shown bytes, then "..." exactly when the buffer was cut short. |
| Hex.GroupAt | audio_afade.cc:436-440 | Characters 3i..3i+2 of the groups are byte i as two hex digits and a space. |
| Hex.PreviewRoundTrip | audio_afade.cc:430-445 | Reading a preview back yields exactly the shown bytes and whether the buffer was cut short. |
| Timeline.Stamps | audio_afade.cc:196-197 | There is one stamp per frame, and the first stamp is the starting counter. |
| Timeline.Advance | audio_afade.cc:196-197 | After the frames, the counter equals its start plus the total number of samples. |
| Timeline.StampIsPrefixSum | audio_afade.cc:196-197 | Stamp i is the start plus the samples of frames 0..i-1. |
| Timeline.StampStep | audio_afade.cc:196-197 | Consecutive stamps differ by exactly the earlier frame's sample count. |
| Timeline.StampsIncrease | audio_afade.cc:196-197 | When every frame has a positive sample count, the stamps strictly increase. |
| Timeline.StampsCompose | audio_afade.cc:196-197 | Stamping two batches in turn equals stamping their concatenation. |
| Session.Construct | audio_afade.cc:8-68 | The parameters are stored and the counter is 0. The decoder context exists when the decoder was found, and the encoder context when the decoder opened. The graph exists when the encoder opened. The endpoints exist only inside the graph. |
| Session.ConfigFailureUndetectable | audio_afade.cc:67 | An object whose graph failed to configure equals one whose graph works. Construction does not fail closed. |
| Session.ConstructEndpoints | audio_afade.cc:8-178 | Both filter endpoints exist exactly when both codecs opened and the graph got past creating the sink. No endpoint exists without an encoder context. |
| Session.GraphFailureKeepsCodecs | audio_afade.cc:104-178 | Whichever graph step fails, both codec contexts and the graph stay allocated. |
| Session.Freed | audio_afade.cc:72-94 | Cleanup frees a handle exactly when that handle is tested in the source and its pointer is non-null. The endpoints are freed only under a non-null graph. |
| Session.CleanupNullsAll | audio_afade.cc:72-101 | After Cleanup no handle is owned. The counter, total frames, sample rate and channels are 0, the format is NONE and the fade type is FADE_NONE. |
| Session.CleanupFreesOwned | audio_afade.cc:72-94 | Cleanup frees exactly the handles the object owns, each once. |
| Session.CleanupOrder | audio_afade.cc:72-94 | Cleanup frees source, sink, graph, decoder and encoder, in that order. |
| Session.CleanupIdempotent | audio_afade.cc:72-102 | A second Cleanup frees nothing and leaves the state unchanged. |
| Session.ConstructThenCleanup | audio_afade.cc:70-102 | The destructor's Cleanup frees every handle the constructor left, and leaves none owned. |
| Pipeline.ConstructedHandlesPresent | audio_afade.cc:181-217 | A freshly constructed object has every pointer Process dereferences exactly when the decoder was found. If a frame comes out, both codecs must also have opened and the graph must have got past creating the sink. |
| Pipeline.ReceiveFromFilter | audio_afade.cc:299-390 | Needs a sink, and an encoder once the sink yields. The result is true exactly when the encoder returned at least one packet. `out_pkt` holds the last packet returned, whether in band or after end of stream. |
| Pipeline.DecodeLoop | audio_afade.cc:190-213 | The loop advances the counter by the total number of samples and stamps the frames as the allocator does. `dst_pkt` holds what the last frame's round produced. |
| Pipeline.Process | audio_afade.cc:181-217 | Needs the pointers it dereferences (`HandlesPresent`). If the decoder refuses the packet, the call returns false and nothing changes. Otherwise it returns true, only the counter changes, the stamps are the allocator's, and dst is the last round's packet. |
| Pipeline.ProcessStamps | audio_afade.cc:196-197 | Frame i is stamped with the counter plus the samples before it. Stamps increase when frames are non-empty. |
| Pipeline.ProcessCallsContinue | audio_afade.cc:196-197 | Two Process calls stamp their frames as one allocator run over both, with no gap and no overlap. |
| Pipeline.ProcessKeepsLastRoundOnly | audio_afade.cc:201-208 | If the last frame's round produces no packet, dst is empty, whatever earlier rounds produced. |
| Pipeline.RawPayloadIsProcessOutput | audio_afade.cc:255-259 | Process on a cleared `dst_pkt` leaves a packet exactly when the decoder took the input, some frame came out, and the last round produced a packet. That packet is the last one of the last round. |
| Pipeline.ProcessRaw | audio_afade.cc:243-279 | A null buffer or a non-positive length returns false and changes nothing, on any object. Otherwise it needs what Process needs, and the counter advances as in Process. The call succeeds exactly when a non-empty packet came out. Then the output is the header for (packet length, profile 2, sample rate, channels) followed by the packet, and its length is 7 plus the packet length. On failure `out_buf` is untouched. |
| Pipeline.RawOutputDeframes | audio_afade.cc:265-272 | A successful output shorter than 8192 bytes deframes to the packet. For 0..7 channels, it reads as AAC LC with the object's channel count. |
| Pipeline.ProcessRawAsWritten | audio_afade.cc:255-263 | As the source is written, when no frame is decoded and the stale `dst_pkt` size is positive, the call returns true and frames the stale bytes. |
| Pipeline.StaleSizeReported | audio_afade.cc:255-263 | For a concrete input, the source as written reports an 8-byte output where the model reports no output. |
| Pipeline.FlushEncoder | audio_afade.cc:219-241 | Needs an encoder context. A refused null frame writes nothing and keeps next_pts. Otherwise packet i of n is written on stream 0 with pts = dts = next_pts + 1024·i, and next_pts grows by 1024·n. |
| Pipeline.FlushIsAllocator | audio_afade.cc:231-234 | The flushed timestamps are the allocator's stamps for frames of 1024 samples each, and next_pts ends where the allocator's counter would. |

## Left out

- FFmpeg is not modelled. This covers codec lookup and open, send and receive, the filter graph, and the muxer. Its answers are parameters (`Setup`, `Decoded`, `FilterDrain`, the flush arguments).
- Allocation failures (`av_frame_alloc`, `avcodec_alloc_context3`, `avfilter_graph_alloc` returning null) are left out: the model assumes allocation succeeds.
- `InitFilterGraph` builds its argument strings with `snprintf` and computes the fade duration in `double` (audio_afade.cc:110-114, 143-146). The model keeps only which handles exist afterwards. The float duration and the strings are left out.
- Logging is left out. This covers every `LOG_*` call, including the decoder/encoder format-mismatch message (audio_afade.cc:58-64) and the hex dump that `ProcessRaw` logs.
- `PrintPacketHex` (audio_afade.cc:392-403) only logs, so it is left out.
- The logger, the metrics exposer and main.cpp are not part of this model.
- Timeline.Stamps: does not model the 64-bit wrap-around of `pts_counter_`, because the counter is an unbounded integer here.
- Pipeline.FlushEncoder: does not model the 64-bit wrap-around of `next_pts`.
- Pipeline.ReceiveFromFilter: `total_packets` is an unbounded integer, so its 32-bit overflow is not modelled.
- Adts.WriteAdtsHeader: a left shift of a negative `profile - 1` is undefined in C++ before C++20. It is modelled as the two's complement result.
- Pipeline.Process: the model does not return `SendToFilter`'s result, because `Process` ignores it. A filter that refuses a frame is represented by what the sink then hands out.
- Pipeline.Process: a call on an object with a null `dec_ctx_`, or with a null `src_ctx_` or `sink_ctx_` once a frame is decoded, dereferences null in the source (audio_afade.cc:185, 287, 307). The model does not describe that crash. It is excluded by the precondition `HandlesPresent`, which an object can fail after construction (`Pipeline.ConstructedHandlesPresent`).
- Pipeline.ProcessRaw: inherits the same precondition once the input is valid, so the crash on such objects is not described.
- Pipeline.FlushEncoder: a call with a null `enc_ctx_` dereferences null at audio_afade.cc:221. It is excluded by `requires s.encoder`.
- Pipeline.ReceiveFromFilter: a null `sink_ctx_`, or a null `enc_ctx_` once a frame reaches the encoder, dereferences null. Both are excluded by its preconditions.
- Adts.SampleRateRoundTrip: stated for 0..15 channels. From 16 channels on the index bits are overwritten. `Adts.WideChannelsOverwriteRate` states this for 16..31 channels and an even index. Larger counts, and odd indices there, are not stated.
- Pipeline.ProcessRaw: the input bytes are never looked at, because only the decoder reads them. They matter only through the decoder's answers.

## Findings

| source | as written | input that shows it | evidently intended | confidence | as-written member | corrected member |
|---|---|---|---|---|---|---|
| audio_afade.cc:255-259 | `dst_pkt` is only passed to `av_init_packet`, which sets neither `size` nor `data`. If the decoder returns no frame, `Process` never clears the packet, and `dst_pkt.size <= 0` reads a stale value. | A one-byte packet that the decoder takes but buffers without returning a frame, with a stale size of 1: the call returns true with an 8-byte frame of bytes that were never produced. (The source's memcpy then reads through an indeterminate `data` pointer, so a crash is the other possible outcome.) | Report "no output yet": initialise `dst_pkt.size` to 0 (and `data` to null). | not executed; high — FFmpeg documents that `av_init_packet` leaves `data` and `size` untouched | Pipeline.ProcessRawAsWritten | Pipeline.ProcessRaw |
