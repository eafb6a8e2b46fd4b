/**
 Which bitmaps the decoder accepts, and which byte of one is which part of the image
 (clipboard/src/windows.rs `dib_to_rgba`), in plain arithmetic.
 */
module DibLayouts {
  import opened Wrappers
  import opened Bytes
  import opened Rows
  import opened DibCodec
  import opened DibRoundTrip

  // ----- What is accepted ------------------------------------------------------------------

  /** A header of one of the three sizes, whole, of a non-empty image in 24 or 32 bits. */
  predicate HeaderAccepted(dib: seq<byte>) {
    && |dib| >= 40
    && ReadU32(dib, 0) in {40, 108, 124} && ReadU32(dib, 0) <= |dib|
    && ReadI32(dib, 4) > 0 && ReadI32(dib, 8) != 0 && ReadU16(dib, 14) in {24, 32}
  }

  /** Plain pixels, or bit fields in the usual order of colours. */
  predicate ColoursAccepted(dib: seq<byte>)
    requires |dib| >= 40
  {
    || ReadU32(dib, 16) == 0
    || (ReadU32(dib, 16) == 3 && |dib| >= 52
        && ReadU32(dib, 40) == 0x00FF_0000 && ReadU32(dib, 44) == 0x0000_FF00 && ReadU32(dib, 48) == 0x0000_00FF)
  }

  /** The masks of a short header stand behind it; those of the longer ones are part of it. */
  function HeaderEnd(dib: seq<byte>): nat
    requires |dib| >= 40
  {
    ReadU32(dib, 0) + if ReadU32(dib, 0) == 40 && ReadU32(dib, 16) == 3 then 12 else 0
  }

  function Height(dib: seq<byte>): nat
    requires |dib| >= 40
  {
    if ReadI32(dib, 8) < 0 then -ReadI32(dib, 8) else ReadI32(dib, 8)
  }

  /** A row takes its pixels' bytes and up to three more, to a multiple of four. */
  predicate IsStride(stride: nat, w: nat, bpp: nat) {
    stride % 4 == 0 && Times(w, bpp) <= stride < Times(w, bpp) + 4
  }

  lemma StrideIs(w: nat, bpp: nat)
    requires bpp == 3 || bpp == 4
    ensures IsStride(Stride(w, bpp), w, bpp)
  {
    TimesIsProduct(w, bpp);
  }

  /** The pixels stand behind the header, or up to 12 bytes further if that puts them at the end of the blob. */
  function PixelsFrom(len: nat, size: nat, end: nat): nat {
    if len >= size && end <= len - size && len - size <= end + 12 then len - size else end
  }

  /** Dimensions are signed: 32 bits in two's complement. */
  lemma SignedIs(b: seq<byte>, off: nat)
    requires off + 4 <= |b|
    ensures -0x8000_0000 <= ReadI32(b, off) < 0x8000_0000
    ensures ReadI32(b, off) == ReadU32(b, off) || ReadI32(b, off) == ReadU32(b, off) - 0x1_0000_0000
  {
    FourBytes(b[off], b[off + 1], b[off + 2], b[off + 3]);
    assert b[off..off + 4] == [b[off], b[off + 1], b[off + 2], b[off + 3]];
  }

  lemma NotAccepted(dib: seq<byte>)
    requires |dib| >= 40 && HeaderAccepted(dib) ==> !ColoursAccepted(dib)
    ensures ParseHeader(dib) == None
  {
  }

  lemma ParsesAsPlaced(dib: seq<byte>, w: nat, bpp: nat)
    requires HeaderAccepted(dib) && ColoursAccepted(dib)
    requires w == ReadI32(dib, 4) && bpp == if ReadU16(dib, 14) == 32 then 4 else 3
    ensures ParseHeader(dib) == Place(|dib|, w, ReadI32(dib, 8), bpp, HeaderEnd(dib))
  {
  }

  /** Two strides of one row are one. */
  lemma OneStride(stride: nat, w: nat, bpp: nat)
    requires (bpp == 3 || bpp == 4) && IsStride(stride, w, bpp)
    ensures stride == Stride(w, bpp)
  {
    StrideIs(w, bpp);
  }

  /**
   A blob with an accepted header and colours is decoded if and only if its pixels lie in
   it, and then with the layout its header states. No other blob is.
   */
  lemma AcceptedIff(dib: seq<byte>, w: nat, bpp: nat, stride: nat, size: nat)
    requires HeaderAccepted(dib) && ColoursAccepted(dib) && |dib| < U64
    requires w == ReadI32(dib, 4) && bpp == if ReadU16(dib, 14) == 32 then 4 else 3
    requires IsStride(stride, w, bpp) && size == Times(Height(dib), stride)
    ensures var off := PixelsFrom(|dib|, size, HeaderEnd(dib));
      ParseHeader(dib) == if off + size <= |dib|
        then Some(Layout(w, Height(dib), ReadI32(dib, 8) < 0, bpp, stride, off)) else None
  {
    ParsesAsPlaced(dib, w, bpp);
    OneStride(stride, w, bpp);
  }

  // ----- Which byte is which ---------------------------------------------------------------

  /** Where the blob has the bytes of image pixel `(x, y)`. */
  function PixelAt(l: Layout, y: nat, x: nat): nat
    requires y < l.h
  {
    l.off + Times(if l.topDown then y else l.h - 1 - y, l.stride) + Times(x, l.bpp)
  }

  function AlphaByte(dib: seq<byte>, l: Layout, y: nat, x: nat): byte
    requires y < l.h
  {
    At(dib, PixelAt(l, y, x) + 3)
  }

  predicate NoAlphaInRow(dib: seq<byte>, l: Layout, y: nat, n: nat)
    requires y < l.h
  {
    forall x :: 0 <= x < n ==> AlphaByte(dib, l, y, x) == 0
  }

  /** No pixel of the image has any alpha in the blob. */
  predicate NoAlpha(dib: seq<byte>, l: Layout) {
    forall y :: 0 <= y < l.h ==> NoAlphaInRow(dib, l, y, l.w)
  }

  lemma {:induction false} RowAlphaIff(dib: seq<byte>, l: Layout, y: nat, n: nat)
    requires y < l.h && l.bpp == 4
    ensures AlphaZero(UnpackRow(dib, RowStart(l, y), 4, n)) <==> NoAlphaInRow(dib, l, y, n)
  {
    if n > 0 {
      RowAlphaIff(dib, l, y, n - 1);
      AlphaOneMore(dib, RowStart(l, y), 4, n - 1);
      assert UnpackPixel(dib, RowStart(l, y) + Times(n - 1, 4), 4)[3] == AlphaByte(dib, l, y, n - 1);
    }
  }

  lemma NoAlphaIff(dib: seq<byte>, l: Layout)
    requires l.bpp == 4
    ensures AlphaZero(Concat(UnpackedRows(dib, l))) <==> NoAlpha(dib, l)
  {
    var rows := UnpackedRows(dib, l);
    UnpackedUniform(dib, l);
    AlphaOfRows(rows);
    forall y | 0 <= y < l.h ensures AlphaZero(rows[y]) <==> NoAlphaInRow(dib, l, y, l.w) {
      assert rows[y] == UnpackRow(dib, RowStart(l, y), l.bpp, l.w);
      RowAlphaIff(dib, l, y, l.w);
    }
  }

  /** These four bytes are the pixel from index `at` on. */
  predicate PixelIs(rgba: seq<byte>, at: nat, r: byte, g: byte, b: byte, a: byte) {
    at + 4 <= |rgba| && rgba[at] == r && rgba[at + 1] == g && rgba[at + 2] == b && rgba[at + 3] == a
  }

  lemma AlphaIs(dib: seq<byte>, l: Layout, px: nat)
    requires (l.bpp == 3 || l.bpp == 4) && px + l.bpp <= |dib|
    ensures AlphaAt(dib, l, px) == if l.bpp == 4 && !NoAlpha(dib, l) then At(dib, px + 3) else 255
  {
    if l.bpp == 4 {
      NoAlphaIff(dib, l);
    }
  }

  lemma PixelOfColour(dib: seq<byte>, px: nat, alpha: byte, rgba: seq<byte>, at: nat)
    requires px + 3 <= |dib| && IsCut(rgba, at, Colour(dib, px, alpha))
    ensures PixelIs(rgba, at, At(dib, px + 2), At(dib, px + 1), At(dib, px), alpha)
  {
    ColourIsPixel(rgba, at, Colour(dib, px, alpha));
  }

  lemma ColourIsPixel(rgba: seq<byte>, at: nat, p: seq<byte>)
    requires IsCut(rgba, at, p) && |p| == 4
    ensures PixelIs(rgba, at, p[0], p[1], p[2], p[3])
  {
    CutIsPixel(rgba, at, p);
  }

  /**
   Every pixel of every accepted blob, whatever its header, depth and orientation: the
   colours come from the blob's B, G, R, and the alpha is the blob's exactly in 32 bits, if
   any pixel has one.
   */
  lemma DecodedImage(dib: seq<byte>, l: Layout, y: nat, x: nat, px: nat, at: nat)
    requires ParseHeader(dib) == Some(l) && y < l.h && x < l.w
    requires px == PixelAt(l, y, x) && at == 4 * (Times(y, l.w) + x)
    ensures Decoded(dib).Some? && Decoded(dib).value.w == l.w && Decoded(dib).value.h == l.h
    ensures px + l.bpp <= |dib| && (l.bpp == 3 || l.bpp == 4)
    ensures PixelIs(Decoded(dib).value.rgba, at, At(dib, px + 2), At(dib, px + 1), At(dib, px),
                    if l.bpp == 4 && !NoAlpha(dib, l) then At(dib, px + 3) else 255)
  {
    DecodedPixel(dib, l, y, x, px, at);
    AlphaIs(dib, l, px);
    PixelOfColour(dib, px, AlphaAt(dib, l, px), Pixels(dib, l), at);
  }

  // ----- The rest of a written header ---------------------------------------------------------

  lemma FieldPlanes(a: seq<byte>, b: seq<byte>, c: seq<byte>, d: seq<byte>, e: seq<byte>, f: seq<byte>, rest: seq<byte>)
    requires |a| == |b| == |c| == |f| == 4 && |d| == |e| == 2
    ensures (a + b + c + d + e + f + rest)[12..14] == d
  {
  }

  lemma RestSlices(fields: seq<byte>, size: seq<byte>, z: seq<byte>, masks: seq<byte>, space: seq<byte>, zeros: seq<byte>)
    requires |fields| == 20 && |size| == |space| == 4 && |z| == |masks| == 16 && |zeros| == 64
    ensures var header := fields + size + z + masks + space + zeros;
      && header[20..24] == size && header[52..56] == masks[12..16] && header[56..60] == space
      && header[24..40] == z && header[60..124] == zeros
  {
  }

  /** One plane, the size of the pixels as far as 32 bits hold it, the alpha mask, sRGB, and zeros. */
  lemma HeaderRest(w: nat, h: nat)
    ensures var header := Header(w, h);
      && ReadU16(header, 12) == 1 && header[20..24] == LittleEndian(4 * Times(h, w), 4)
      && ReadU32(header, 52) == 0xFF00_0000 && ReadU32(header, 56) == 0x7352_4742
      && header[24..40] == Zeros(16) && header[60..124] == Zeros(64)
  {
    var size, space := LittleEndian(4 * Times(h, w), 4), LittleEndian(LCS_SRGB, 4);
    RestSlices(Fields(w, h), size, Zeros(16), Masks(), space, Zeros(64));
    HeaderSplits(Fields(w, h), size, Zeros(16), Masks(), space, Zeros(64), []);
    FieldPlanes(LittleEndian(HEADER_SIZE, 4), LittleEndian(w, 4), LittleEndian(h, 4), LittleEndian(1, 2),
                LittleEndian(32, 2), LittleEndian(BI_BITFIELDS, 4), size + Zeros(16) + Masks() + (space + Zeros(64) + []));
    assert Header(w, h) + [] == Header(w, h);
    assert Masks()[12..16] == LittleEndian(MASK_A, 4);
    U16ReadsBack(1);
    U32ReadsBack(MASK_A);
    U32ReadsBack(LCS_SRGB);
  }
}
