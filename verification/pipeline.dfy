/**
 * The per-packet path of `AudioAfade`: `ReceiveFromFilter`, `Process`,
 * `ProcessRaw` and `FlushEncoder`.
 *
 * FFmpeg's decoder, filter graph and encoder are not modelled; what they answer
 * is given as data. For each decoded frame, a `FilterDrain` says which filtered
 * frames the sink hands out, whether the encoder takes each of them and which
 * packets it then returns, and how the sink's pull loop ends.
 */
module Pipeline {
  import opened Wrappers
  import opened Bits
  import Timeline
  import opened Session
  import Adts

  /** The bytes of one encoded packet. */
  type Payload = seq<uint8>

  /** One filtered frame sent to the encoder: refused, or taken and drained of these packets. */
  datatype EncodeStep = Rejected | Accepted(packets: seq<Payload>)

  /**
   * How `av_buffersink_get_frame` ends the pull loop: it needs more input, it
   * reached the end of the stream (and the encoder, flushed, returns these
   * packets), or it failed.
   */
  datatype SinkEnd = Again | EndOfStream(flushed: seq<Payload>) | Failed

  /** Everything one `ReceiveFromFilter` call sees. */
  datatype FilterDrain = FilterDrain(frames: seq<EncodeStep>, end: SinkEnd)

  /** The last element, if any. */
  function Last<T>(xs: seq<T>): (r: Option<T>)
    ensures r.Some? <==> |xs| > 0
    ensures r.Some? ==> r.value == xs[|xs| - 1]
  {
    if |xs| == 0 then None else Some(xs[|xs| - 1])
  }

  function StepPackets(step: EncodeStep): seq<Payload> {
    match step
    case Rejected => []
    case Accepted(packets) => packets
  }

  /** The packets the encoder returns for the filtered frames, in order. */
  function InBand(steps: seq<EncodeStep>): seq<Payload>
    decreases |steps|
  {
    if |steps| == 0 then [] else InBand(steps[..|steps| - 1]) + StepPackets(steps[|steps| - 1])
  }

  /** Every packet the encoder returns during one `ReceiveFromFilter` call, in order. */
  function Encoded(d: FilterDrain): seq<Payload> {
    InBand(d.frames) + (match d.end case EndOfStream(flushed) => flushed case _ => [])
  }

  /**
   * Whether a drain reaches the encoder: the sink hands out a frame, or it
   * reaches the end of the stream and the encoder is flushed.
   */
  predicate ReachesEncoder(d: FilterDrain) {
    |d.frames| > 0 || d.end.EndOfStream?
  }

  // ---------------------------------------------------------------------------
  // ReceiveFromFilter
  // ---------------------------------------------------------------------------

  /**
   * `ReceiveFromFilter`: every packet the encoder returns replaces the one in
   * `out_pkt`, so the caller gets only the last of them. The result is whether
   * any packet came out at all.
   *
   * The sink is pulled through `sink_ctx_` and the encoder driven through
   * `enc_ctx_`; both must be non-null when used.
   */
  method ReceiveFromFilter(s: State, d: FilterDrain) returns (out: Option<Payload>, ok: bool)
    requires s.sink
    requires ReachesEncoder(d) ==> s.encoder
    ensures ok <==> |Encoded(d)| > 0
    ensures out == Last(Encoded(d))
  {
    out := None;
    var total := 0;
    var i := 0;
    while i < |d.frames|
      invariant 0 <= i <= |d.frames|
      invariant total == |InBand(d.frames[..i])|
      invariant out == Last(InBand(d.frames[..i]))
    {
      match d.frames[i] {
        case Rejected =>
          // avcodec_send_frame failed: the frame is skipped
        case Accepted(packets) =>
          out, total := MovePackets(InBand(d.frames[..i]), packets, out, total);
      }
      assert d.frames[..i + 1][..i] == d.frames[..i];
      i := i + 1;
    }
    assert d.frames[..|d.frames|] == d.frames;
    if d.end.EndOfStream? {
      out, total := MovePackets(InBand(d.frames), d.end.flushed, out, total);
    }
    ok := total > 0;
  }

  /**
   * The inner receive loop: each packet the encoder returns is moved into
   * `out_pkt` and counted.
   */
  method MovePackets(seen: seq<Payload>, packets: seq<Payload>, out0: Option<Payload>, total0: int)
    returns (out: Option<Payload>, total: int)
    requires out0 == Last(seen) && total0 == |seen|
    ensures out == Last(seen + packets) && total == |seen + packets|
  {
    out, total := out0, total0;
    var j := 0;
    while j < |packets|
      invariant 0 <= j <= |packets|
      invariant total == |seen + packets[..j]|
      invariant out == Last(seen + packets[..j])
    {
      assert seen + packets[..j + 1] == (seen + packets[..j]) + [packets[j]];
      out := Some(packets[j]);
      total := total + 1;
      j := j + 1;
    }
    assert packets[..|packets|] == packets;
  }

  // ---------------------------------------------------------------------------
  // Process
  // ---------------------------------------------------------------------------

  /** A frame the decoder returns: its `nb_samples`, and what happens once it is pushed into the filter. */
  datatype Decoded = Decoded(samples: int, drain: FilterDrain)

  /** The sample counts of the decoded frames. */
  function SampleCounts(frames: seq<Decoded>): (r: seq<int>)
    ensures |r| == |frames|
    ensures forall i :: 0 <= i < |frames| ==> r[i] == frames[i].samples
  {
    seq(|frames|, i requires 0 <= i < |frames| => frames[i].samples)
  }

  /**
   * The decode loop of `Process` from counter value `counter` on: the counter
   * after it, the packet left in `dst_pkt`, and the stamps written into the
   * frames. Each round stamps the frame, clears `dst_pkt` and refills it from
   * `ReceiveFromFilter`.
   */
  function DecodeLoop(counter: int, frames: seq<Decoded>, dst: Option<Payload>): (r: (int, Option<Payload>, seq<int>))
    ensures r.0 == counter + Timeline.Sum(SampleCounts(frames))
    ensures r.1 == if |frames| == 0 then dst else Last(Encoded(frames[|frames| - 1].drain))
    ensures r.2 == Timeline.Stamps(counter, SampleCounts(frames))
    decreases |frames|
  {
    if |frames| == 0 then (counter, dst, [])
    else
      var (stamp, next) := Timeline.Next(counter, frames[0].samples);
      var rest := DecodeLoop(next, frames[1..], Last(Encoded(frames[0].drain)));
      assert SampleCounts(frames)[1..] == SampleCounts(frames[1..]);
      (rest.0, rest.1, [stamp] + rest.2)
  }

  /**
   * The pointers `Process` dereferences are non-null: `dec_ctx_` on every
   * call; `src_ctx_` and `sink_ctx_` for every decoded frame; `enc_ctx_` once a
   * drain reaches the encoder. The source does not check them, so a null one is
   * a crash, which `Construct` can leave behind.
   */
  predicate HandlesPresent(s: State, decoderAccepts: bool, frames: seq<Decoded>) {
    && s.decoder
    && (decoderAccepts && |frames| > 0 ==> s.source && s.sink)
    && (decoderAccepts ==> forall i :: 0 <= i < |frames| && ReachesEncoder(frames[i].drain) ==> s.encoder)
  }

  /**
   * An object fresh from the constructor can run `Process` exactly when the
   * decoder was found and, if a frame comes out, the codecs opened and the
   * filter graph got as far as creating its sink.
   */
  lemma ConstructedHandlesPresent(sampleRate: int, channels: int, format: SampleFormat, fadeType: FadeType,
                                  totalFrames: int, setup: Setup, decoderAccepts: bool, frames: seq<Decoded>)
    ensures HandlesPresent(Construct(sampleRate, channels, format, fadeType, totalFrames, setup), decoderAccepts, frames)
      <==> setup.decoderFound
           && (decoderAccepts && |frames| > 0 ==>
                 setup.decoderOpens && setup.encoderOpens && setup.graph in {ConfigFails, Configured})
  {
    ConstructEndpoints(sampleRate, channels, format, fadeType, totalFrames, setup);
  }

  /** What `Process` reports, the object it leaves, the packet in `dst_pkt`, and the frame stamps. */
  datatype ProcessResult = ProcessResult(ok: bool, state: State, dst: Option<Payload>, stamps: seq<int>)

  /**
   * `Process`: when the decoder refuses the packet, it returns false and
   * changes nothing. Otherwise it returns true and each decoded frame advances
   * the counter; `dst_pkt` ends up holding what the last frame produced.
   */
  function Process(s: State, decoderAccepts: bool, frames: seq<Decoded>, dst: Option<Payload>): (r: ProcessResult)
    requires HandlesPresent(s, decoderAccepts, frames)
    ensures !decoderAccepts ==> !r.ok && r.state == s && r.dst == dst && r.stamps == []
    ensures decoderAccepts ==> r.ok
    ensures decoderAccepts ==> r.state == s.(ptsCounter := s.ptsCounter + Timeline.Sum(SampleCounts(frames)))
    ensures decoderAccepts ==> r.stamps == Timeline.Stamps(s.ptsCounter, SampleCounts(frames))
    ensures decoderAccepts && |frames| > 0 ==> r.dst == Last(Encoded(frames[|frames| - 1].drain))
    ensures decoderAccepts && |frames| == 0 ==> r.dst == dst
  {
    if !decoderAccepts then ProcessResult(false, s, dst, [])
    else
      var (counter, out, stamps) := DecodeLoop(s.ptsCounter, frames, dst);
      ProcessResult(true, s.(ptsCounter := counter), out, stamps)
  }

  /**
   * Each decoded frame is stamped with the counter before it: the first with
   * the counter the call starts from, every later one with that plus the
   * samples of the frames before it; with non-empty frames the stamps increase.
   */
  lemma ProcessStamps(s: State, frames: seq<Decoded>, dst: Option<Payload>, i: nat)
    requires HandlesPresent(s, true, frames)
    requires i < |frames|
    ensures Process(s, true, frames, dst).stamps[i]
              == s.ptsCounter + Timeline.Sum(SampleCounts(frames)[..i])
    ensures (forall k :: 0 <= k < |frames| ==> frames[k].samples > 0) && i + 1 < |frames| ==>
              Process(s, true, frames, dst).stamps[i] < Process(s, true, frames, dst).stamps[i + 1]
  {
    Timeline.StampIsPrefixSum(s.ptsCounter, SampleCounts(frames), i);
    if (forall k :: 0 <= k < |frames| ==> frames[k].samples > 0) && i + 1 < |frames| {
      Timeline.StampsIncrease(s.ptsCounter, SampleCounts(frames), i, i + 1);
    }
  }

  /**
   * Two `Process` calls in a row stamp their frames as one run of the
   * allocator would: the counter carries over, with no gap and no overlap.
   */
  lemma ProcessCallsContinue(s: State, a: seq<Decoded>, b: seq<Decoded>, dst: Option<Payload>)
    requires HandlesPresent(s, true, a) && HandlesPresent(s, true, b)
    ensures var first := Process(s, true, a, dst);
      var second := Process(first.state, true, b, first.dst);
      && first.stamps + second.stamps == Timeline.Stamps(s.ptsCounter, SampleCounts(a + b))
      && second.state.ptsCounter == s.ptsCounter + Timeline.Sum(SampleCounts(a + b))
  {
    var first := Process(s, true, a, dst);
    var second := Process(first.state, true, b, first.dst);
    assert first.state.ptsCounter == Timeline.Advance(s.ptsCounter, SampleCounts(a));
    SampleCountsAppend(a, b);
    Timeline.StampsCompose(s.ptsCounter, SampleCounts(a), SampleCounts(b));
    Timeline.SumAppend(SampleCounts(a), SampleCounts(b));
  }

  lemma SampleCountsAppend(a: seq<Decoded>, b: seq<Decoded>)
    ensures SampleCounts(a + b) == SampleCounts(a) + SampleCounts(b)
  {
  }

  /**
   * Packets produced for earlier frames of the same packet do not reach the
   * caller: if the last frame's round produces nothing, `dst_pkt` is empty.
   */
  lemma ProcessKeepsLastRoundOnly(s: State, frames: seq<Decoded>, dst: Option<Payload>)
    requires HandlesPresent(s, true, frames)
    requires |frames| > 0 && Encoded(frames[|frames| - 1].drain) == []
    ensures Process(s, true, frames, dst).dst == None
  {
  }

  // ---------------------------------------------------------------------------
  // ProcessRaw
  // ---------------------------------------------------------------------------

  /** The profile `ProcessRaw` writes into the header: 2, AAC LC. */
  const RawProfile: int := 2

  /** What `ProcessRaw` returns, the object it leaves, and `out_buf`. */
  datatype RawResult = RawResult(ok: bool, state: State, out: seq<uint8>)

  /**
   * The packet a cleared `dst_pkt` holds after `Process`: the last packet the
   * encoder returned in the last frame's round, if the decoder took the input.
   */
  function RawPayload(decoderAccepts: bool, frames: seq<Decoded>): (r: Option<Payload>)
    ensures r.Some? <==> decoderAccepts && |frames| > 0 && |Encoded(frames[|frames| - 1].drain)| > 0
    ensures r.Some? ==> var last := Encoded(frames[|frames| - 1].drain); r.value == last[|last| - 1]
  {
    if decoderAccepts && |frames| > 0 then Last(Encoded(frames[|frames| - 1].drain)) else None
  }

  /** `RawPayload` is indeed what `Process` leaves in a cleared packet, whatever the object. */
  lemma RawPayloadIsProcessOutput(s: State, decoderAccepts: bool, frames: seq<Decoded>)
    requires HandlesPresent(s, decoderAccepts, frames)
    ensures Process(s, decoderAccepts, frames, None).dst == RawPayload(decoderAccepts, frames)
  {
  }

  /**
   * `ProcessRaw`: a null buffer or a non-positive length is refused; otherwise
   * the bytes go through `Process`, and a non-empty packet is returned behind
   * an ADTS header for its length, profile 2 and the object's sample rate and
   * channel count. `out_buf` is left alone whenever the result is false.
   *
   * `dst_pkt` starts out empty here; see `ProcessRawAsWritten` for the source,
   * which never sets its size.
   */
  function ProcessRaw(s: State, input: Option<seq<uint8>>, inLen: int, decoderAccepts: bool,
                      frames: seq<Decoded>, outBuf: seq<uint8>): (r: RawResult)
    requires input.Some? && inLen > 0 ==> HandlesPresent(s, decoderAccepts, frames)
    ensures input.None? || inLen <= 0 ==> r == RawResult(false, s, outBuf)
    ensures input.Some? && inLen > 0 ==> r.state == Process(s, decoderAccepts, frames, None).state
    ensures r.ok <==> input.Some? && inLen > 0
                      && RawPayload(decoderAccepts, frames).Some? && |RawPayload(decoderAccepts, frames).value| > 0
    ensures !r.ok ==> r.out == outBuf
    ensures r.ok ==> var payload := RawPayload(decoderAccepts, frames).value;
      && |r.out| == Adts.HeaderLength + |payload|
      && r.out[..Adts.HeaderLength] == Adts.WriteAdtsHeader(|payload|, RawProfile, s.sampleRate, s.channels)
      && r.out[Adts.HeaderLength..] == payload
  {
    if input.None? || inLen <= 0 then RawResult(false, s, outBuf)
    else
      var p := Process(s, decoderAccepts, frames, None);
      if !p.ok || p.dst.None? || |p.dst.value| <= 0 then RawResult(false, p.state, outBuf)
      else
        var payload := p.dst.value;
        var header := Adts.WriteAdtsHeader(|payload|, RawProfile, s.sampleRate, s.channels);
        assert (header + payload)[..Adts.HeaderLength] == header;
        RawResult(true, p.state, header + payload)
  }

  /**
   * The output of a successful `ProcessRaw` is one ADTS frame: an ADTS reader
   * gets the payload back whenever the frame fits the 13-bit length field, and
   * reads AAC LC (profile field 1) and the object's channel count when that is
   * 0..7.
   */
  lemma RawOutputDeframes(s: State, input: Option<seq<uint8>>, inLen: int, decoderAccepts: bool,
                          frames: seq<Decoded>, outBuf: seq<uint8>)
    requires input.Some? && inLen > 0 ==> HandlesPresent(s, decoderAccepts, frames)
    ensures var r := ProcessRaw(s, input, inLen, decoderAccepts, frames, outBuf);
      r.ok && |r.out| < Adts.FrameLengthModulus ==> Adts.Deframe(r.out) == RawPayload(decoderAccepts, frames)
    ensures var r := ProcessRaw(s, input, inLen, decoderAccepts, frames, outBuf);
      r.ok && 0 <= s.channels <= 7 ==>
        && Adts.ParseHeader(r.out).Some?
        && Adts.ParseHeader(r.out).value.profileObjectType == RawProfile - 1
        && Adts.ParseHeader(r.out).value.channelConfiguration == s.channels
  {
    var r := ProcessRaw(s, input, inLen, decoderAccepts, frames, outBuf);
    if r.ok {
      var payload := RawPayload(decoderAccepts, frames).value;
      var header := Adts.WriteAdtsHeader(|payload|, RawProfile, s.sampleRate, s.channels);
      assert r.out == header + payload;
      Adts.FramingRoundTrip(payload, RawProfile, s.sampleRate, s.channels);
      Adts.ParseIgnoresPayload(header, payload);
      Adts.FixedFields(|payload|, RawProfile, s.sampleRate, s.channels);
      if 0 <= s.channels <= 7 {
        Adts.FieldRoundTrip(|payload|, RawProfile, s.sampleRate, s.channels);
      }
    }
  }

  /**
   * `ProcessRaw` as the source writes it: `av_init_packet` does not set the
   * size or data of `dst_pkt`, so when the decoder returns no frame the check
   * `dst_pkt.size <= 0` reads whatever was there. `stale` stands for it.
   */
  function ProcessRawAsWritten(s: State, input: Option<seq<uint8>>, inLen: int, decoderAccepts: bool,
                               frames: seq<Decoded>, outBuf: seq<uint8>, stale: Payload): (r: RawResult)
    requires input.Some? && inLen > 0 ==> HandlesPresent(s, decoderAccepts, frames)
    ensures input.Some? && inLen > 0 && decoderAccepts && |frames| == 0 && |stale| > 0 ==>
              r.ok && r.out == Adts.WriteAdtsHeader(|stale|, RawProfile, s.sampleRate, s.channels) + stale
  {
    if input.None? || inLen <= 0 then RawResult(false, s, outBuf)
    else
      var p := Process(s, decoderAccepts, frames, Some(stale));
      if !p.ok || p.dst.None? || |p.dst.value| <= 0 then RawResult(false, p.state, outBuf)
      else
        var payload := p.dst.value;
        RawResult(true, p.state, Adts.WriteAdtsHeader(|payload|, RawProfile, s.sampleRate, s.channels) + payload)
  }

  /**
   * A packet that decodes to no frame yet makes the source report success and
   * frame bytes it never produced; the model with a cleared `dst_pkt` reports
   * "no output yet".
   */
  lemma StaleSizeReported(s: State)
    requires s.decoder
    ensures var asWritten := ProcessRawAsWritten(s, Some([0x21]), 1, true, [], [], [0x00]);
      asWritten.ok && |asWritten.out| == 8
    ensures !ProcessRaw(s, Some([0x21]), 1, true, [], []).ok
  {
  }

  // ---------------------------------------------------------------------------
  // FlushEncoder
  // ---------------------------------------------------------------------------

  /** The number of samples in one AAC frame, by which flushed timestamps advance. */
  const Quantum: int := 1024

  /** A packet handed to `av_interleaved_write_frame`. */
  datatype OutputPacket = OutputPacket(streamIndex: nat, pts: int, dts: int, data: Payload)

  /**
   * `FlushEncoder`: after the null frame is accepted, every packet the encoder
   * still returns is written on stream 0 with pts = dts = `next_pts`, which
   * then moves on by 1024. If the null frame is refused nothing is written and
   * `next_pts` stays. The null frame goes to `enc_ctx_`, which must be non-null.
   */
  method FlushEncoder(s: State, sendAccepted: bool, drained: seq<Payload>, nextPts: int)
    returns (written: seq<OutputPacket>, next: int)
    requires s.encoder
    ensures !sendAccepted ==> written == [] && next == nextPts
    ensures sendAccepted ==> |written| == |drained| && next == nextPts + Quantum * |drained|
    ensures sendAccepted ==> forall i :: 0 <= i < |written| ==>
              written[i] == OutputPacket(0, nextPts + Quantum * i, nextPts + Quantum * i, drained[i])
  {
    written := [];
    next := nextPts;
    if !sendAccepted {
      return;
    }
    var i := 0;
    while i < |drained|
      invariant 0 <= i <= |drained|
      invariant |written| == i
      invariant next == nextPts + Quantum * i
      invariant forall k :: 0 <= k < i ==>
                  written[k] == OutputPacket(0, nextPts + Quantum * k, nextPts + Quantum * k, drained[k])
    {
      written := written + [OutputPacket(0, next, next, drained[i])];
      next := next + Quantum;
      i := i + 1;
    }
  }

  /** `n` frames of one quantum each. */
  function Quanta(n: nat): (r: seq<int>)
    ensures |r| == n
    ensures forall i :: 0 <= i < n ==> r[i] == Quantum
  {
    seq(n, _ => Quantum)
  }

  /**
   * The flushed timestamps are what the timeline allocator would hand out to
   * frames of 1024 samples each, and `next_pts` ends where it would.
   */
  lemma {:induction false} FlushIsAllocator(nextPts: int, n: nat)
    ensures Timeline.Advance(nextPts, Quanta(n)) == nextPts + Quantum * n
    ensures forall i :: 0 <= i < n ==> Timeline.Stamps(nextPts, Quanta(n))[i] == nextPts + Quantum * i
    decreases n
  {
    if n > 0 {
      FlushIsAllocator(nextPts + Quantum, n - 1);
      assert Quanta(n)[1..] == Quanta(n - 1);
    }
  }
}
