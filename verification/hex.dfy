/**
 * `PrintHexPreview`: the first `max_bytes` bytes of a buffer as two lowercase,
 * zero-padded hex digits and a space each, followed by "..." when the buffer is
 * longer than that.
 *
 * The method builds the text the way the source streams it, byte by byte; the
 * function `Preview` says what the text is in one expression, and
 * `ParsePreview` reads such a text back, which is how the round trip states
 * that nothing is lost or garbled for the bytes shown.
 */
module Hex {
  import opened Wrappers
  import opened Bits

  /** The digits `std::hex` prints, lowercase. */
  const HexDigits: string := "0123456789abcdef"

  /** What the source appends when the buffer was cut short. */
  const Ellipsis: string := "..."

  /** One byte as `std::setw(2)` with fill '0' prints it under `std::hex`. */
  function HexByte(b: uint8): (s: string)
    ensures |s| == 2
  {
    [HexDigits[b / 16], HexDigits[b % 16]]
  }

  /** The text for one byte: its two digits and a separating space. */
  function Group(b: uint8): (s: string)
    ensures |s| == 3 && s[2] == ' '
  {
    HexByte(b) + " "
  }

  /** The groups of every byte of `bs`, in order. */
  function Groups(bs: seq<uint8>): (s: string)
    ensures |s| == 3 * |bs|
  {
    if |bs| == 0 then "" else Group(bs[0]) + Groups(bs[1..])
  }

  /** How many bytes the preview shows: `std::min(buf.size(), max_bytes)`. */
  function Shown(buf: seq<uint8>, maxBytes: nat): (n: nat)
    ensures n <= |buf| && n <= maxBytes
    ensures n == |buf| || n == maxBytes
  {
    if |buf| < maxBytes then |buf| else maxBytes
  }

  /** The whole preview as one expression. */
  function Preview(buf: seq<uint8>, maxBytes: nat): (s: string)
    ensures |s| == 3 * Shown(buf, maxBytes) + (if |buf| > maxBytes then 3 else 0)
  {
    Groups(buf[..Shown(buf, maxBytes)]) + (if |buf| > maxBytes then Ellipsis else "")
  }

  /** `PrintHexPreview`, appending to the stream one byte at a time. */
  method PrintHexPreview(buf: seq<uint8>, maxBytes: nat) returns (s: string)
    ensures s == Preview(buf, maxBytes)
    ensures |s| == 3 * Shown(buf, maxBytes) + (if |buf| > maxBytes then 3 else 0)
  {
    s := "";
    var printLen := Shown(buf, maxBytes);
    var i := 0;
    while i < printLen
      invariant 0 <= i <= printLen
      invariant s == Groups(buf[..i])
    {
      GroupsAppend(buf[..i], buf[i]);
      assert buf[..i + 1] == buf[..i] + [buf[i]];
      s := s + Group(buf[i]);
      i := i + 1;
    }
    if |buf| > maxBytes {
      s := s + Ellipsis;
    }
  }

  lemma {:induction false} GroupsAppend(bs: seq<uint8>, b: uint8)
    ensures Groups(bs + [b]) == Groups(bs) + Group(b)
    decreases |bs|
  {
    if |bs| > 0 {
      assert (bs + [b])[1..] == bs[1..] + [b];
      GroupsAppend(bs[1..], b);
    } else {
      assert bs + [b] == [b];
    }
  }

  /** Byte `i` of the shown bytes occupies characters 3i, 3i+1 and 3i+2 of the groups. */
  lemma {:induction false} GroupAt(bs: seq<uint8>, i: nat)
    requires i < |bs|
    ensures Groups(bs)[3 * i .. 3 * i + 3] == Group(bs[i])
    decreases i
  {
    if i > 0 {
      GroupAt(bs[1..], i - 1);
      assert Groups(bs) == Group(bs[0]) + Groups(bs[1..]);
    }
  }

  // ---------------------------------------------------------------------------
  // Reading a preview back
  // ---------------------------------------------------------------------------

  /** The value of a lowercase hex digit. */
  function DigitValue(c: char): (r: Option<nat>)
    ensures r.Some? ==> r.value < 16
  {
    if '0' <= c <= '9' then Some(c as int - '0' as int)
    else if 'a' <= c <= 'f' then Some(c as int - 'a' as int + 10)
    else None
  }

  /** Every digit the preview prints reads back as its own value. */
  lemma DigitValueInverts(d: nat)
    requires d < 16
    ensures DigitValue(HexDigits[d]) == Some(d)
  {
  }

  /** Reads a preview: groups of two hex digits and a space, then nothing or "...". */
  function ParsePreview(s: string): (r: Option<(seq<uint8>, bool)>)
    decreases |s|
  {
    if s == "" then Some(([], false))
    else if s == Ellipsis then Some(([], true))
    else if |s| < 3 || s[2] != ' ' then None
    else
      match (DigitValue(s[0]), DigitValue(s[1]), ParsePreview(s[3..]))
      case (Some(hi), Some(lo), Some((rest, cut))) => Some(([hi * 16 + lo] + rest, cut))
      case _ => None
  }

  /** The two digits of a byte read back as the byte. */
  lemma HexByteInverts(b: uint8)
    ensures DigitValue(HexByte(b)[0]).Some? && DigitValue(HexByte(b)[1]).Some?
    ensures DigitValue(HexByte(b)[0]).value * 16 + DigitValue(HexByte(b)[1]).value == b
  {
    DigitValueInverts(b / 16);
    DigitValueInverts(b % 16);
  }

  /** A reader takes one group off the front and reads the rest on its own. */
  lemma ParseGroup(b: uint8, rest: string)
    ensures ParsePreview(Group(b) + rest) ==
      match ParsePreview(rest)
      case Some((bs, cut)) => Some(([b] + bs, cut))
      case None => None
  {
    var s := Group(b) + rest;
    assert s[0] == HexByte(b)[0] && s[1] == HexByte(b)[1] && s[2] == ' ';
    assert s[0] != '.';
    assert s[3..] == rest;
    HexByteInverts(b);
  }

  lemma {:induction false} GroupsRoundTrip(bs: seq<uint8>, cut: bool)
    ensures ParsePreview(Groups(bs) + (if cut then Ellipsis else "")) == Some((bs, cut))
    decreases |bs|
  {
    var tail := if cut then Ellipsis else "";
    if |bs| > 0 {
      assert Groups(bs) + tail == Group(bs[0]) + (Groups(bs[1..]) + tail);
      ParseGroup(bs[0], Groups(bs[1..]) + tail);
      GroupsRoundTrip(bs[1..], cut);
      assert [bs[0]] + bs[1..] == bs;
    } else {
      assert Groups(bs) + tail == tail;
    }
  }

  /**
   * Reading the preview back yields exactly the bytes shown and whether the
   * buffer was cut short.
   */
  lemma PreviewRoundTrip(buf: seq<uint8>, maxBytes: nat)
    ensures ParsePreview(Preview(buf, maxBytes)) == Some((buf[..Shown(buf, maxBytes)], |buf| > maxBytes))
  {
    GroupsRoundTrip(buf[..Shown(buf, maxBytes)], |buf| > maxBytes);
  }
}
