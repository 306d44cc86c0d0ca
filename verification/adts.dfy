/**
 * The 7-byte ADTS header that `AudioAfade::WriteAdtsHeader` puts in front of
 * every re-encoded AAC payload: adts_fixed_header followed by
 * adts_variable_header of ISO/IEC 14496-3, subclause 1.A.2.2, without CRC.
 *
 * The writer follows the C++ expressions of the source, with the C operators
 * spelled as the Bits module describes. Every header bit depends only on
 * low-order bits of the intermediates, so the bytes agree with 32-bit two's
 * complement arithmetic for every `int` argument.
 *
 * The writer is read back by `ParseHeader`, which reads the same bit layout
 * the way the standard defines it, and by `Deframe`, which a demultiplexer uses
 * to cut one ADTS frame out of a byte stream.
 */
module Adts {
  import opened Wrappers
  import opened Bits

  /** Size of an ADTS header with protection_absent = 1 (no CRC). */
  const HeaderLength: nat := 7

  /** aac_frame_length is a 13-bit field, so frame lengths are kept modulo this. */
  const FrameLengthModulus: nat := 8192

  /** samplingFrequencyIndex table (Table 1.16 of ISO/IEC 14496-3): index i denotes FrequencyTable[i] Hz. */
  const FrequencyTable: seq<int> :=
    [96000, 88200, 64000, 48000, 44100, 32000, 24000, 22050, 16000, 12000, 11025, 8000, 7350]

  /** The index written when the sample rate is not in the table: 44100 Hz. */
  const DefaultFrequencyIndex: nat := 4

  /** The linear search of the source, from table position `i` on: first match, else the default. */
  function FindFrequency(sampleRate: int, i: nat): (r: nat)
    requires i <= |FrequencyTable|
    ensures r < |FrequencyTable|
    ensures (exists j :: i <= j < |FrequencyTable| && FrequencyTable[j] == sampleRate) ==>
              i <= r && FrequencyTable[r] == sampleRate
                && forall j :: i <= j < r ==> FrequencyTable[j] != sampleRate
    ensures (forall j :: i <= j < |FrequencyTable| ==> FrequencyTable[j] != sampleRate) ==>
              r == DefaultFrequencyIndex
    decreases |FrequencyTable| - i
  {
    if i == |FrequencyTable| then DefaultFrequencyIndex
    else if FrequencyTable[i] == sampleRate then i
    else FindFrequency(sampleRate, i + 1)
  }

  /** samplingFrequencyIndex for a sample rate: its table position, or 4 (44100 Hz) when absent. */
  function FrequencyIndex(sampleRate: int): (r: nat)
    ensures r < |FrequencyTable|
    ensures sampleRate in FrequencyTable ==> FrequencyTable[r] == sampleRate
    ensures sampleRate !in FrequencyTable ==> r == DefaultFrequencyIndex
  {
    FindFrequency(sampleRate, 0)
  }

  /** The table lists each rate once, so a rate's index is its unique position. */
  lemma FrequencyIndexIsPosition(i: nat)
    requires i < |FrequencyTable|
    ensures FrequencyIndex(FrequencyTable[i]) == i
  {
    var r := FrequencyIndex(FrequencyTable[i]);
    assert FrequencyTable[r] == FrequencyTable[i];
    assert forall a, b :: 0 <= a < b < |FrequencyTable| ==> FrequencyTable[a] != FrequencyTable[b];
  }

  /** The header bytes for a payload of `aacLength` bytes, as `WriteAdtsHeader` stores them. */
  function WriteAdtsHeader(aacLength: int, profile: int, sampleRate: int, channels: int): (h: seq<uint8>)
    ensures |h| == HeaderLength
  {
    var frameLength := aacLength + HeaderLength;
    [0xFF, 0xF1, Byte2(profile, FrequencyIndex(sampleRate), channels),
     Byte3(channels, frameLength), Byte4(frameLength), Byte5(frameLength), 0xFC]
  }

  /** Byte 2: `((profile - 1) << 6) | (freq_idx << 2) | (channels >> 2)`. */
  function Byte2(profile: int, freqIdx: int, channels: int): uint8 {
    Or8(Or8(Lo8((profile - 1) * 64), Lo8(freqIdx * 4)), Lo8(channels / 4))
  }

  /** Byte 3: `((channels & 3) << 6) | ((frame_length >> 11) & 0x03)`. */
  function Byte3(channels: int, frameLength: int): uint8 {
    Or8(Lo8(channels % 4 * 64), Lo8(frameLength / 2048 % 4))
  }

  /** Byte 4: `(frame_length >> 3) & 0xFF`. */
  function Byte4(frameLength: int): uint8 {
    Lo8(frameLength / 8)
  }

  /** Byte 5: `((frame_length & 7) << 5) | 0x1F`. */
  function Byte5(frameLength: int): uint8 {
    Or8(Lo8(frameLength % 8 * 32), 0x1F)
  }

  /** The fields of adts_fixed_header and adts_variable_header, in transmission order. */
  datatype AdtsHeader = AdtsHeader(
    syncword: nat,                 // 12 bits
    id: nat,                       // 1 bit, 0 = MPEG-4
    layer: nat,                    // 2 bits
    protectionAbsent: nat,         // 1 bit
    profileObjectType: nat,        // 2 bits, audio object type minus one
    samplingFrequencyIndex: nat,   // 4 bits
    privateBit: nat,               // 1 bit
    channelConfiguration: nat,     // 3 bits
    originalCopy: nat,             // 1 bit
    home: nat,                     // 1 bit
    copyrightIdBit: nat,           // 1 bit
    copyrightIdStart: nat,         // 1 bit
    frameLength: nat,              // 13 bits, header included
    bufferFullness: nat,           // 11 bits, 0x7FF = variable bit rate
    rawDataBlocks: nat)            // 2 bits, number_of_raw_data_blocks_in_frame minus one

  /** Reads the 56 header bits most-significant bit first, as a conforming ADTS reader does. */
  function ParseHeader(h: seq<uint8>): (r: Option<AdtsHeader>)
    ensures r.Some? <==> |h| >= HeaderLength
    ensures r.Some? ==>
      && r.value.syncword < 4096 && r.value.id < 2 && r.value.layer < 4
      && r.value.protectionAbsent < 2 && r.value.profileObjectType < 4
      && r.value.samplingFrequencyIndex < 16 && r.value.privateBit < 2
      && r.value.channelConfiguration < 8 && r.value.frameLength < FrameLengthModulus
      && r.value.bufferFullness < 2048 && r.value.rawDataBlocks < 4
  {
    if |h| < HeaderLength then None
    else
      var b0: int, b1: int, b2: int, b3: int := h[0], h[1], h[2], h[3];
      var b4: int, b5: int, b6: int := h[4], h[5], h[6];
      Some(AdtsHeader(
        syncword := b0 * 16 + b1 / 16,
        id := b1 / 8 % 2,
        layer := b1 / 2 % 4,
        protectionAbsent := b1 % 2,
        profileObjectType := b2 / 64,
        samplingFrequencyIndex := b2 / 4 % 16,
        privateBit := b2 / 2 % 2,
        channelConfiguration := b2 % 2 * 4 + b3 / 64,
        originalCopy := b3 / 32 % 2,
        home := b3 / 16 % 2,
        copyrightIdBit := b3 / 8 % 2,
        copyrightIdStart := b3 / 4 % 2,
        frameLength := b3 % 4 * 2048 + b4 * 8 + b5 / 32,
        bufferFullness := b5 % 32 * 64 + b6 / 4,
        rawDataBlocks := b6 % 4))
  }

  /**
   * Cuts one ADTS frame out of `frame`: the header must carry the syncword and
   * no CRC, and its aac_frame_length must cover exactly the bytes given.
   */
  function Deframe(frame: seq<uint8>): (r: Option<seq<uint8>>)
    ensures r.Some? ==> |frame| == HeaderLength + |r.value| && frame[HeaderLength..] == r.value
  {
    match ParseHeader(frame)
    case None => None
    case Some(hdr) =>
      if hdr.syncword == 0xFFF && hdr.protectionAbsent == 1 && hdr.frameLength == |frame|
      then Some(frame[HeaderLength..])
      else None
  }

  // ---------------------------------------------------------------------------
  // Byte values
  // ---------------------------------------------------------------------------

  /** Byte 2 as a sum of its three parts, while the shifted channel count stays below bit 2. */
  lemma Byte2Value(profile: int, freqIdx: int, channels: int)
    requires 0 <= freqIdx < 16
    requires 0 <= channels < 16
    ensures Byte2(profile, freqIdx, channels) == (profile - 1) % 4 * 64 + freqIdx * 4 + channels / 4
  {
    var a, b, c := Lo8((profile - 1) * 64), Lo8(freqIdx * 4), Lo8(channels / 4);
    ShiftedMod(profile - 1);
    assert a == (profile - 1) % 4 * 64;
    assert b == freqIdx * 4;
    assert c == channels / 4;
    assert Pow2(6) == 64 && Pow2(2) == 4;
    Or8Disjoint(a, b, 6);
    Or8Disjoint(a + b, c, 2);
  }

  lemma ShiftedMod(p: int)
    ensures p * 64 % 256 == p % 4 * 64
  {
  }

  /** Byte 3 as a sum: two channel bits above the top two frame-length bits. */
  lemma Byte3Value(channels: int, frameLength: int)
    ensures Byte3(channels, frameLength) == channels % 4 * 64 + frameLength / 2048 % 4
  {
    var a, b := Lo8(channels % 4 * 64), Lo8(frameLength / 2048 % 4);
    assert a == channels % 4 * 64;
    assert b == frameLength / 2048 % 4;
    assert Pow2(6) == 64;
    Or8Disjoint(a, b, 6);
  }

  /** Byte 5 as a sum: the low three frame-length bits above five set bits. */
  lemma Byte5Value(frameLength: int)
    ensures Byte5(frameLength) == frameLength % 8 * 32 + 31
  {
    var a := Lo8(frameLength % 8 * 32);
    assert a == frameLength % 8 * 32;
    assert Pow2(5) == 32;
    Or8Disjoint(a, 0x1F, 5);
  }

  /** Splitting a number into bits [11,13), [3,11) and [0,3) and joining them again yields it modulo 2^13. */
  lemma FrameLengthBits(n: int)
    ensures n / 2048 % 4 * 2048 + n / 8 % 256 * 8 + n % 8 == n % 8192
  {
    var m := n % 8192;
    var k := n / 8192;
    assert n == 8192 * k + m;
    assert n / 8 == 1024 * k + m / 8;
    assert n / 2048 == 4 * k + m / 2048;
    assert m / 8 == m / 2048 * 256 + m / 8 % 256;
  }

  /** Reduction modulo `m` leaves exactly the numbers below `m` alone. */
  lemma ModIdentity(x: int, m: int)
    requires 0 <= x && 0 < m
    ensures x % m == x <==> x < m
  {
  }

  /** profile - 1 for an AAC profile 1..4 fits the 2-bit field unchanged. */
  lemma ProfileBits(profile: int)
    requires 1 <= profile <= 4
    ensures (profile - 1) % 4 == profile - 1
  {
  }

  /** A channel count 0..7 split at bit 2 and rejoined from bits 2 and 0..1; bit 3 is clear. */
  lemma ChannelBits(channels: int)
    requires 0 <= channels <= 7
    ensures channels / 4 % 2 * 4 + channels % 4 == channels
    ensures channels / 4 / 2 == 0
  {
  }

  /** A channel count 8..15 rejoined from bits 0..2 loses bit 3, which sits above bit 2. */
  lemma WideChannelBits(channels: int)
    requires 8 <= channels <= 15
    ensures channels / 4 % 2 * 4 + channels % 4 == channels - 8
    ensures channels / 4 / 2 == 1
  {
  }

  // ---------------------------------------------------------------------------
  // Properties of the writer
  // ---------------------------------------------------------------------------

  /**
   * What a reader finds in a header whose byte 3 holds channel bits `q` above
   * frame-length bits `t`, byte 4 frame-length bits `m` and byte 5 frame-length
   * bits `u` above five set bits, between the constant bytes.
   */
  lemma ReadLengthParts(h: seq<uint8>, q: int, t: int, m: int, u: int)
    requires |h| == HeaderLength
    requires 0 <= q < 4 && 0 <= t < 4 && 0 <= m < 256 && 0 <= u < 8
    requires h[0] == 0xFF && h[1] == 0xF1 && h[6] == 0xFC
    requires h[3] == q * 64 + t && h[4] == m && h[5] == u * 32 + 31
    ensures ParseHeader(h).Some?
    ensures var p := ParseHeader(h).value;
      && p.syncword == 0xFFF && p.id == 0 && p.layer == 0 && p.protectionAbsent == 1
      && p.originalCopy == 0 && p.home == 0 && p.copyrightIdBit == 0 && p.copyrightIdStart == 0
      && p.frameLength == t * 2048 + m * 8 + u
      && p.bufferFullness == 0x7FF && p.rawDataBlocks == 0
      && p.channelConfiguration == h[2] % 2 * 4 + q
  {
    SplitLengthBytes(q, t, u);
  }

  /** The bit groups of bytes 3 and 5 as a reader extracts them. */
  lemma SplitLengthBytes(q: int, t: int, u: int)
    requires 0 <= q < 4 && 0 <= t < 4 && 0 <= u < 8
    ensures var b3 := q * 64 + t;
      && b3 / 64 == q && b3 / 32 % 2 == 0 && b3 / 16 % 2 == 0 && b3 / 8 % 2 == 0 && b3 / 4 % 2 == 0
      && b3 % 4 == t
    ensures var b5 := u * 32 + 31;
      b5 / 32 == u && b5 % 32 == 31
  {
  }

  /** What a reader finds in byte 2 when it holds profile bits `pr`, index `f` and channel bits `c`. */
  lemma ReadProfileParts(h: seq<uint8>, pr: int, f: int, c: int)
    requires |h| == HeaderLength
    requires 0 <= pr < 4 && 0 <= f < 16 && 0 <= c < 4
    requires h[2] == pr * 64 + f * 4 + c
    ensures ParseHeader(h).Some?
    ensures var p := ParseHeader(h).value;
      && p.profileObjectType == pr
      && p.samplingFrequencyIndex == f
      && p.privateBit == c / 2
      && h[2] % 2 == c % 2
  {
    SplitByte2(pr, f, c);
  }

  /** The bit groups of `pr * 64 + f * 4 + c` as a reader extracts them. */
  lemma SplitByte2(pr: int, f: int, c: int)
    requires 0 <= pr < 4 && 0 <= f < 16 && 0 <= c < 4
    ensures var b := pr * 64 + f * 4 + c;
      b / 64 == pr && b / 4 % 16 == f && b / 2 % 2 == c / 2 && b % 2 == c % 2
  {
    var b := pr * 64 + f * 4 + c;
    assert b / 4 == pr * 16 + f;
  }

  /** Bytes 3 to 5 of any header: channel bits and the 13 frame-length bits, around five set bits. */
  lemma LengthBytes(aacLength: int, profile: int, sampleRate: int, channels: int)
    ensures var h := WriteAdtsHeader(aacLength, profile, sampleRate, channels);
      var n := aacLength + HeaderLength;
      && h[3] == channels % 4 * 64 + n / 2048 % 4
      && h[4] == n / 8 % 256
      && h[5] == n % 8 * 32 + 31
  {
    Byte3Value(channels, aacLength + HeaderLength);
    Byte5Value(aacLength + HeaderLength);
  }

  /**
   * Whatever the arguments, the header announces MPEG-4 (ID 0), layer 0, no CRC,
   * a variable bit rate (buffer fullness 0x7FF) and one raw data block, and sets
   * none of the original/home/copyright bits.
   */
  lemma FixedFields(aacLength: int, profile: int, sampleRate: int, channels: int)
    ensures var h := WriteAdtsHeader(aacLength, profile, sampleRate, channels);
      && h[0] == 0xFF && h[1] == 0xF1 && h[6] == 0xFC && h[5] % 32 == 0x1F
      && ParseHeader(h).Some?
      && var p := ParseHeader(h).value;
      && p.syncword == 0xFFF && p.id == 0 && p.layer == 0 && p.protectionAbsent == 1
      && p.originalCopy == 0 && p.home == 0 && p.copyrightIdBit == 0 && p.copyrightIdStart == 0
      && p.bufferFullness == 0x7FF && p.rawDataBlocks == 0
  {
    var h := WriteAdtsHeader(aacLength, profile, sampleRate, channels);
    var n := aacLength + HeaderLength;
    LengthBytes(aacLength, profile, sampleRate, channels);
    ReadLengthParts(h, channels % 4, n / 2048 % 4, n / 8 % 256, n % 8);
  }

  /**
   * aac_frame_length always reads back as the payload length plus seven,
   * reduced to the 13 bits the field has; so it is exact below 8192.
   */
  lemma FrameLengthRoundTrip(aacLength: int, profile: int, sampleRate: int, channels: int)
    ensures ParseHeader(WriteAdtsHeader(aacLength, profile, sampleRate, channels)).value.frameLength
              == (aacLength + HeaderLength) % FrameLengthModulus
  {
    var h := WriteAdtsHeader(aacLength, profile, sampleRate, channels);
    var n := aacLength + HeaderLength;
    LengthBytes(aacLength, profile, sampleRate, channels);
    ReadLengthParts(h, channels % 4, n / 2048 % 4, n / 8 % 256, n % 8);
    FrameLengthBits(n);
  }

  /** A payload whose frame fits 13 bits has its length plus seven read back exactly. */
  lemma FrameLengthExact(aacLength: int, profile: int, sampleRate: int, channels: int)
    requires 0 <= aacLength + HeaderLength < FrameLengthModulus
    ensures ParseHeader(WriteAdtsHeader(aacLength, profile, sampleRate, channels)).value.frameLength
              == aacLength + HeaderLength
  {
    FrameLengthRoundTrip(aacLength, profile, sampleRate, channels);
    ModIdentity(aacLength + HeaderLength, FrameLengthModulus);
  }

  /**
   * For an AAC profile 1..4 and a channel count that fits the 3-bit
   * channel_configuration field, profile, sample-rate index and channel count
   * read back exactly and the private bit stays clear.
   */
  lemma FieldRoundTrip(aacLength: int, profile: int, sampleRate: int, channels: int)
    requires 1 <= profile <= 4
    requires 0 <= channels <= 7
    ensures var p := ParseHeader(WriteAdtsHeader(aacLength, profile, sampleRate, channels)).value;
      && p.profileObjectType + 1 == profile
      && p.samplingFrequencyIndex == FrequencyIndex(sampleRate)
      && p.channelConfiguration == channels
      && p.privateBit == 0
  {
    var h := WriteAdtsHeader(aacLength, profile, sampleRate, channels);
    var n := aacLength + HeaderLength;
    var f := FrequencyIndex(sampleRate);
    Byte2Value(profile, f, channels);
    LengthBytes(aacLength, profile, sampleRate, channels);
    ReadLengthParts(h, channels % 4, n / 2048 % 4, n / 8 % 256, n % 8);
    ReadProfileParts(h, (profile - 1) % 4, f, channels / 4);
    ProfileBits(profile);
    ChannelBits(channels);
  }

  /**
   * Channel counts 8..15 do not fit channel_configuration: the field holds the
   * count modulo 8 and bit 3 of the count lands in the private bit.
   */
  lemma ChannelOverflowLeaks(aacLength: int, profile: int, sampleRate: int, channels: int)
    requires 1 <= profile <= 4
    requires 8 <= channels <= 15
    ensures var p := ParseHeader(WriteAdtsHeader(aacLength, profile, sampleRate, channels)).value;
      && p.channelConfiguration == channels - 8
      && p.privateBit == 1
      && p.profileObjectType + 1 == profile
      && p.samplingFrequencyIndex == FrequencyIndex(sampleRate)
  {
    var h := WriteAdtsHeader(aacLength, profile, sampleRate, channels);
    var n := aacLength + HeaderLength;
    var f := FrequencyIndex(sampleRate);
    Byte2Value(profile, f, channels);
    LengthBytes(aacLength, profile, sampleRate, channels);
    ReadLengthParts(h, channels % 4, n / 2048 % 4, n / 8 % 256, n % 8);
    ReadProfileParts(h, (profile - 1) % 4, f, channels / 4);
    ProfileBits(profile);
    WideChannelBits(channels);
  }

  /**
   * A reader recovers the sample rate when it is one of the 13 listed rates;
   * any other rate reads back as 44100 Hz. This holds while `channels >> 2`
   * stays in the channel and private bits, that is for 0..15 channels.
   */
  lemma SampleRateRoundTrip(aacLength: int, profile: int, sampleRate: int, channels: int)
    requires 0 <= channels <= 15
    ensures var p := ParseHeader(WriteAdtsHeader(aacLength, profile, sampleRate, channels)).value;
      && p.samplingFrequencyIndex < |FrequencyTable|
      && (sampleRate in FrequencyTable ==> FrequencyTable[p.samplingFrequencyIndex] == sampleRate)
      && (sampleRate !in FrequencyTable ==> FrequencyTable[p.samplingFrequencyIndex] == 44100)
  {
    var h := WriteAdtsHeader(aacLength, profile, sampleRate, channels);
    var f := FrequencyIndex(sampleRate);
    Byte2Value(profile, f, channels);
    ReadProfileParts(h, (profile - 1) % 4, f, channels / 4);
  }

  /**
   * From 16 channels on, `channels >> 2` reaches into samplingFrequencyIndex.
   * For 16..31 channels it sets bit 0 of the index: an even index (96000,
   * 64000, 44100, 24000, 16000, 11025 or 7350 Hz) reads back as the next one,
   * which is another rate, or the reserved index 13 for 7350 Hz.
   */
  lemma WideChannelsOverwriteRate(aacLength: int, profile: int, sampleRate: int, channels: int)
    requires 16 <= channels <= 31
    requires FrequencyIndex(sampleRate) % 2 == 0
    ensures var p := ParseHeader(WriteAdtsHeader(aacLength, profile, sampleRate, channels)).value;
      && p.samplingFrequencyIndex == FrequencyIndex(sampleRate) + 1
      && (p.samplingFrequencyIndex >= |FrequencyTable| || FrequencyTable[p.samplingFrequencyIndex] != sampleRate)
  {
    var h := WriteAdtsHeader(aacLength, profile, sampleRate, channels);
    var f := FrequencyIndex(sampleRate);
    WideByte2Value(profile, f, channels);
    ReadProfileParts(h, (profile - 1) % 4, f + 1, channels / 4 % 4);
    if f + 1 < |FrequencyTable| && sampleRate in FrequencyTable {
      assert FrequencyTable[f] == sampleRate;
      assert FrequencyTable[f + 1] != FrequencyTable[f];
    }
  }

  /** Byte 2 when the shifted channel count carries bit 2 onto an even index. */
  lemma WideByte2Value(profile: int, freqIdx: int, channels: int)
    requires 0 <= freqIdx < 15 && freqIdx % 2 == 0
    requires 16 <= channels <= 31
    ensures Byte2(profile, freqIdx, channels) == (profile - 1) % 4 * 64 + (freqIdx + 1) * 4 + channels / 4 % 4
  {
    var a, b, c := Lo8((profile - 1) * 64), Lo8(freqIdx * 4), Lo8(channels / 4);
    ShiftedMod(profile - 1);
    assert a == (profile - 1) % 4 * 64;
    assert b == freqIdx * 4;
    assert c == channels / 4 && c == 4 + channels / 4 % 4;
    assert Pow2(6) == 64 && Pow2(3) == 8;
    Or8Disjoint(a, b, 6);
    Or8Disjoint(a + b, c, 3);
  }

  /**
   * A header followed by its payload is one well-formed ADTS frame exactly when
   * the frame fits the 13-bit length field; the demultiplexer then gets the
   * payload back unchanged.
   */
  lemma FramingRoundTrip(payload: seq<uint8>, profile: int, sampleRate: int, channels: int)
    ensures Deframe(WriteAdtsHeader(|payload|, profile, sampleRate, channels) + payload)
              == if |payload| + HeaderLength < FrameLengthModulus then Some(payload) else None
  {
    var h := WriteAdtsHeader(|payload|, profile, sampleRate, channels);
    FixedFields(|payload|, profile, sampleRate, channels);
    FrameLengthRoundTrip(|payload|, profile, sampleRate, channels);
    ParseIgnoresPayload(h, payload);
    ModIdentity(|h + payload|, FrameLengthModulus);
  }

  /** A reader looks at the first seven bytes only. */
  lemma ParseIgnoresPayload(h: seq<uint8>, payload: seq<uint8>)
    requires |h| == HeaderLength
    ensures ParseHeader(h + payload) == ParseHeader(h)
    ensures (h + payload)[HeaderLength..] == payload
    ensures |h + payload| == |payload| + HeaderLength
  {
    var frame := h + payload;
    assert forall i :: 0 <= i < HeaderLength ==> frame[i] == h[i];
  }
}
