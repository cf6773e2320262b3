/**
  The frame-size probe used when an uploaded JPEG becomes a PDF image
  (ITU-T T.81, Annex B, section B.2.2): after the SOI marker, walk the
  marker segments until the first baseline (SOF0) or progressive (SOF2)
  frame header and read its height and width. Anything unexpected yields
  the 500 by 500 fallback.
*/
module Jpeg {
  type Byte = b: int | 0 <= b < 256

  const FallbackSize: nat := 500

  /** The first index at or after i holding 0xFF, or |b| when there is none. */
  function NextFF(b: seq<Byte>, i: nat): (j: nat)
    requires i <= |b|
    ensures i <= j <= |b|
    ensures j < |b| ==> b[j] == 0xFF
    ensures forall k :: i <= k < j ==> b[k] != 0xFF
    decreases |b| - i
  {
    if i == |b| || b[i] == 0xFF then i else NextFF(b, i + 1)
  }

  /** A big-endian 16-bit field: `(b[k] << 8) | b[k + 1]`. */
  function Word(b: seq<Byte>, k: nat): (w: nat)
    requires k + 1 < |b|
    ensures w < 0x1_0000
  {
    b[k] as int * 256 + b[k + 1]
  }

  /** Byte stuffing (0x00), the restart markers RST0..RST7, SOI and EOI: markers with no length field. */
  predicate IsStandalone(marker: Byte)
  {
    marker == 0x00 || 0xD0 <= marker <= 0xD9
  }

  /** SOF0 (baseline) and SOF2 (progressive). */
  predicate IsFrameHeader(marker: Byte)
  {
    marker == 0xC0 || marker == 0xC2
  }

  /** How one pass of the outer loop ends: with an answer (the frame size, or the fallback on a `break`), or at the next index. */
  datatype Pass = Answer(width: nat, height: nat) | Next(index: nat)

  /**
    One pass of the outer loop from index i: find the next 0xFF, read the
    marker after it, then skip a standalone marker, answer at a frame
    header, or jump over the segment by its length. Running out of bytes
    anywhere gives the fallback.
  */
  function PassFrom(b: seq<Byte>, i: nat): (p: Pass)
    requires i + 1 < |b|
    ensures p.Next? ==> p.index >= i + 2
    ensures p.Answer? ==> p == Answer(FallbackSize, FallbackSize) || (p.width < 0x1_0000 && p.height < 0x1_0000)
  {
    var j := NextFF(b, i);
    if j + 1 >= |b| then Answer(FallbackSize, FallbackSize)
    else
      var marker := b[j + 1];
      var k := j + 2;
      if IsStandalone(marker) then Next(k)
      else if k + 2 > |b| then Answer(FallbackSize, FallbackSize)
      else if IsFrameHeader(marker) then
        if k + 7 > |b| then Answer(FallbackSize, FallbackSize) else Answer(Word(b, k + 5), Word(b, k + 3))
      else Next(k + Word(b, k))
  }

  /** The passes from index i on, while at least two bytes are left; the answer is (width, height). */
  function ScanFrom(b: seq<Byte>, i: nat): (r: (nat, nat))
    ensures r == (FallbackSize, FallbackSize) || (r.0 < 0x1_0000 && r.1 < 0x1_0000)
    decreases |b| - i
  {
    if i + 1 >= |b| then (FallbackSize, FallbackSize)
    else
      match PassFrom(b, i)
      case Answer(w, h) => (w, h)
      case Next(k) => ScanFrom(b, k)
  }

  /** GetJpegDimensions on the uploaded bytes: the fallback unless they start with SOI (FF D8). */
  function JpegDimensions(b: seq<Byte>): (r: (nat, nat))
    ensures !(|b| >= 2 && b[0] == 0xFF && b[1] == 0xD8) ==> r == (FallbackSize, FallbackSize)
    ensures r == (FallbackSize, FallbackSize) || (r.0 < 0x1_0000 && r.1 < 0x1_0000)
  {
    if |b| < 2 || b[0] != 0xFF || b[1] != 0xD8 then (FallbackSize, FallbackSize) else ScanFrom(b, 2)
  }

  /** The inner loop of GetJpegDimensions: advance to the next 0xFF byte, or to the end. */
  method SkipToMarker(bytes: array<Byte>, start: nat) returns (i: nat)
    requires start <= bytes.Length
    ensures i == NextFF(bytes[..], start)
  {
    i := start;
    while i < bytes.Length && bytes[i] != 0xFF
      invariant start <= i <= bytes.Length
      invariant NextFF(bytes[..], i) == NextFF(bytes[..], start)
      decreases bytes.Length - i
    {
      i := i + 1;
    }
  }

  /**
    GetJpegDimensions, proved to compute JpegDimensions. The outer loop's
    body is OnePass and its inner loop SkipToMarker. The index advances by
    at least two bytes per pass (past the 0xFF and the marker), so the loop
    ends, and every read is in bounds.
  */
  method GetJpegDimensions(bytes: array<Byte>) returns (width: nat, height: nat)
    ensures (width, height) == JpegDimensions(bytes[..])
  {
    ghost var b := bytes[..];
    if bytes.Length < 2 || bytes[0] != 0xFF || bytes[1] != 0xD8 {
      return FallbackSize, FallbackSize;
    }
    var i := 2;
    while i < bytes.Length - 1
      invariant ScanFrom(b, i) == JpegDimensions(b)
      decreases bytes.Length - i
    {
      var pass := OnePass(bytes, i);
      match pass
      case Answer(w, h) =>
        return w, h;
      case Next(k) =>
        i := k;
    }
    return FallbackSize, FallbackSize;
  }

  /** The body of the outer loop; a `break` of the source is the fallback answer. */
  method OnePass(bytes: array<Byte>, start: nat) returns (p: Pass)
    requires start + 1 < bytes.Length
    ensures p == PassFrom(bytes[..], start)
  {
    var i := SkipToMarker(bytes, start);
    if i >= bytes.Length - 1 {
      return Answer(FallbackSize, FallbackSize);
    }
    i := i + 1;
    var marker := bytes[i];
    i := i + 1;
    if IsStandalone(marker) {
      return Next(i);
    }
    if i + 2 > bytes.Length {
      return Answer(FallbackSize, FallbackSize);
    }
    var len := bytes[i] as int * 256 + bytes[i + 1];
    if IsFrameHeader(marker) {
      if i + 2 + 1 + 4 > bytes.Length {
        return Answer(FallbackSize, FallbackSize);
      }
      var h := bytes[i + 2 + 1] as int * 256 + bytes[i + 2 + 2];
      var w := bytes[i + 2 + 3] as int * 256 + bytes[i + 2 + 4];
      return Answer(w, h);
    }
    return Next(i + len);
  }

  /**
    A frame header that follows SOI directly is read as it stands: the
    height is the big-endian word three bytes after the length field and
    the width the word after that.
  */
  lemma FrameHeaderFirst(b: seq<Byte>)
    requires |b| >= 11 && b[0] == 0xFF && b[1] == 0xD8 && b[2] == 0xFF && IsFrameHeader(b[3])
    ensures JpegDimensions(b) == (Word(b, 9), Word(b, 7))
  {
    assert NextFF(b, 2) == 2;
  }

  /**
    Any other marker with a length field that follows SOI directly is
    skipped by that length: the scan goes on from the index the length
    gives, counted from the length field.
  */
  lemma LeadingSegmentSkipped(b: seq<Byte>)
    requires |b| >= 6 && b[0] == 0xFF && b[1] == 0xD8 && b[2] == 0xFF
    requires !IsStandalone(b[3]) && !IsFrameHeader(b[3])
    ensures JpegDimensions(b) == ScanFrom(b, 4 + Word(b, 4))
  {
    assert NextFF(b, 2) == 2;
  }

  /**
    A frame header right after SOI is read as it stands: for
    FF D8 FF C0 00 11 08 01 E0 02 80 the height is 0x01E0 = 480 and the
    width 0x0280 = 640.
  */
  lemma BaselineHeaderRead(b: seq<Byte>)
    requires b == [0xFF, 0xD8, 0xFF, 0xC0, 0x00, 0x11, 0x08, 0x01, 0xE0, 0x02, 0x80]
    ensures JpegDimensions(b) == (640, 480)
  {
    assert NextFF(b, 2) == 2;
  }

  /**
    Segments before the frame header are skipped by their length: an APP0
    segment of length 4 (FF E0 00 04 and two payload bytes) in front of the
    frame header does not change the answer.
  */
  lemma SegmentSkipped(b: seq<Byte>)
    requires b == [0xFF, 0xD8, 0xFF, 0xE0, 0x00, 0x04, 0x4A, 0x46,
                   0xFF, 0xC2, 0x00, 0x11, 0x08, 0x00, 0x10, 0x00, 0x20]
    ensures JpegDimensions(b) == (32, 16)
  {
    assert NextFF(b, 2) == 2;
    assert Word(b, 4) == 4;
    assert NextFF(b, 8) == 8;
    assert ScanFrom(b, 8) == (32, 16);
    assert ScanFrom(b, 2) == ScanFrom(b, 8);
  }
}
