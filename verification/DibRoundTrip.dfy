/**
 What encoding an image and decoding it again come to (clipboard/src/windows.rs).
 */
module DibRoundTrip {
  import opened Wrappers
  import opened Bytes
  import opened Rows
  import opened DibCodec

  // ----- The header --------------------------------------------------------------

  lemma U32ReadsBack(n: nat)
    requires n < U32
    ensures FromLittleEndian(LittleEndian(n, 4)) == n
  {
    U32Widths();
    LittleEndianReadsBack(n, 4);
  }

  lemma U16ReadsBack(n: nat)
    requires n < 0x1_0000
    ensures FromLittleEndian(LittleEndian(n, 2)) == n
  {
    assert Power256(1) == 256;
    LittleEndianReadsBack(n, 2);
  }

  lemma FieldSlices(a: seq<byte>, b: seq<byte>, c: seq<byte>, d: seq<byte>, e: seq<byte>, f: seq<byte>, rest: seq<byte>)
    requires |a| == |b| == |c| == |f| == 4 && |d| == |e| == 2
    ensures var dib := a + b + c + d + e + f + rest;
      dib[0..4] == a && dib[4..8] == b && dib[8..12] == c && dib[14..16] == e && dib[16..20] == f
  {
  }

  lemma FieldsReadBack(w: nat, h: nat, rest: seq<byte>)
    requires w < I32_LIMIT && h < I32_LIMIT
    ensures var dib := Fields(w, h) + rest;
      && ReadU32(dib, 0) == HEADER_SIZE && ReadI32(dib, 4) == w && ReadI32(dib, 8) == h
      && ReadU16(dib, 14) == 32 && ReadU32(dib, 16) == BI_BITFIELDS
  {
    FieldSlices(LittleEndian(HEADER_SIZE, 4), LittleEndian(w, 4), LittleEndian(h, 4),
                LittleEndian(1, 2), LittleEndian(32, 2), LittleEndian(BI_BITFIELDS, 4), rest);
    U32ReadsBack(HEADER_SIZE);
    U32ReadsBack(w);
    U32ReadsBack(h);
    U16ReadsBack(32);
    U32ReadsBack(BI_BITFIELDS);
  }

  lemma MasksReadBack(before: seq<byte>, rest: seq<byte>)
    requires |before| == 40
    ensures var dib := before + Masks() + rest;
      ReadU32(dib, 40) == MASK_R && ReadU32(dib, 44) == MASK_G && ReadU32(dib, 48) == MASK_B
  {
    var dib := before + Masks() + rest;
    assert dib[40..44] == LittleEndian(MASK_R, 4);
    assert dib[44..48] == LittleEndian(MASK_G, 4);
    assert dib[48..52] == LittleEndian(MASK_B, 4);
    U32ReadsBack(MASK_R);
    U32ReadsBack(MASK_G);
    U32ReadsBack(MASK_B);
  }

  lemma FieldsParse(dib: seq<byte>, w: nat, h: nat)
    requires 0 < w < I32_LIMIT && 0 < h < I32_LIMIT && |dib| >= HEADER_SIZE
    requires ReadU32(dib, 0) == HEADER_SIZE && ReadI32(dib, 4) == w && ReadI32(dib, 8) == h
    requires ReadU16(dib, 14) == 32 && ReadU32(dib, 16) == BI_BITFIELDS
    requires ReadU32(dib, 40) == MASK_R && ReadU32(dib, 44) == MASK_G && ReadU32(dib, 48) == MASK_B
    ensures ParseHeader(dib) == Place(|dib|, w, h, 4, HEADER_SIZE)
  {
  }

  lemma HeaderSplits(
      a: seq<byte>, b: seq<byte>, c: seq<byte>, d: seq<byte>, e: seq<byte>, f: seq<byte>, rest: seq<byte>)
    ensures a + b + c + d + e + f + rest == a + (b + c + d + (e + f + rest))
    ensures a + b + c + d + e + f + rest == a + b + c + d + (e + f + rest)
  {
  }

  lemma HeaderFields(w: nat, h: nat, rest: seq<byte>)
    requires w < I32_LIMIT && h < I32_LIMIT
    ensures var dib := Header(w, h) + rest;
      && ReadU32(dib, 0) == HEADER_SIZE && ReadI32(dib, 4) == w && ReadI32(dib, 8) == h
      && ReadU16(dib, 14) == 32 && ReadU32(dib, 16) == BI_BITFIELDS
      && ReadU32(dib, 40) == MASK_R && ReadU32(dib, 44) == MASK_G && ReadU32(dib, 48) == MASK_B
  {
    var size, space := LittleEndian(4 * Times(h, w), 4), LittleEndian(LCS_SRGB, 4) + Zeros(64) + rest;
    HeaderSplits(Fields(w, h), size, Zeros(16), Masks(), LittleEndian(LCS_SRGB, 4), Zeros(64), rest);
    FieldsReadBack(w, h, size + Zeros(16) + Masks() + space);
    MasksReadBack(Fields(w, h) + size + Zeros(16), space);
  }

  // ----- The pixels ----------------------------------------------------------------

  /** The four bytes from index `i` on. */
  function Quad(s: seq<byte>, i: nat): seq<byte> {
    [At(s, i), At(s, i + 1), At(s, i + 2), At(s, i + 3)]
  }

  lemma PixelBack(dib: seq<byte>, px: nat, rgba: seq<byte>, i: nat)
    requires IsCut(dib, px, PackPixel(rgba, i))
    ensures UnpackPixel(dib, px, 4) == Quad(rgba, i)
  {
    CutIsPixel(dib, px, PackPixel(rgba, i));
  }

  /** The pixels the encoder reads, in image order: `rgba` itself while the index does not wrap. */
  function SourceRow(rgba: seq<byte>, indices: seq<nat>): (row: seq<byte>)
    ensures |row| == 4 * |indices|
  {
    if indices == [] then []
    else
      var n := |indices| - 1;
      SourceRow(rgba, indices[..n]) + Quad(rgba, indices[n])
  }

  function SourceRows(rgba: seq<byte>, w: nat, h: nat): seq<seq<byte>> {
    seq(h, y requires 0 <= y < h => SourceRow(rgba, RowIndices(w, y)))
  }

  /** Packing swaps red and blue, unpacking swaps them back. */
  lemma {:induction false} UnpackPacked(dib: seq<byte>, at: nat, rgba: seq<byte>, indices: seq<nat>)
    requires IsCut(dib, at, PackRow(rgba, indices))
    ensures UnpackRow(dib, at, 4, |indices|) == SourceRow(rgba, indices)
    decreases indices
  {
    if indices != [] {
      var n := |indices| - 1;
      TimesIsProduct(n, 4);
      var px := at + Times(n, 4);
      CutOfConcat(dib, at, PackRow(rgba, indices), PackRow(rgba, indices[..n]), PackPixel(rgba, indices[n]), px);
      UnpackPacked(dib, at, rgba, indices[..n]);
      PixelBack(dib, px, rgba, indices[n]);
    }
  }

  lemma CutIsPixel(s: seq<byte>, at: nat, p: seq<byte>)
    requires IsCut(s, at, p) && |p| == 4
    ensures s[at] == p[0] && s[at + 1] == p[1] && s[at + 2] == p[2] && s[at + 3] == p[3]
  {
  }

  lemma PackedUniform(rgba: seq<byte>, w: nat, h: nat)
    ensures Uniform(PackedRows(rgba, w, h, h), 4 * w)
    ensures |Concat(PackedRows(rgba, w, h, h))| == 4 * Times(h, w)
  {
    var rows := PackedRows(rgba, w, h, h);
    forall i | 0 <= i < |rows| ensures |rows[i]| == 4 * w {
      assert rows[i] == PackRow(rgba, RowIndices(w, h - 1 - i));
    }
    ConcatLength(rows, 4 * w);
    TimesFour(h, w);
  }

  lemma PackedRowAt(rgba: seq<byte>, w: nat, h: nat, before: seq<byte>, trail: seq<byte>, r: nat, y: nat, d: nat)
    requires r < h && y == h - 1 - r && d == |before| + Times(r, 4 * w)
    ensures IsCut(before + Concat(PackedRows(rgba, w, h, h)) + trail, d, PackRow(rgba, RowIndices(w, y)))
  {
    var rows := PackedRows(rgba, w, h, h);
    PackedUniform(rgba, w, h);
    RowAt(rows, 4 * w, r);
    assert rows[r] == PackRow(rgba, RowIndices(w, h - 1 - r));
    CutInside(before, Concat(rows), trail, Times(r, 4 * w), rows[r], d);
  }

  lemma UnpackedAsPacked(w: nat, h: nat, rgba: seq<byte>, before: seq<byte>, trail: seq<byte>)
    ensures UnpackedRows(before + Concat(PackedRows(rgba, w, h, h)) + trail,
                         Layout(w, h, false, 4, 4 * w, |before|)) == SourceRows(rgba, w, h)
  {
    var dib := before + Concat(PackedRows(rgba, w, h, h)) + trail;
    var l := Layout(w, h, false, 4, 4 * w, |before|);
    forall y | 0 <= y < h ensures UnpackedRows(dib, l)[y] == SourceRows(rgba, w, h)[y] {
      PackedRowAt(rgba, w, h, before, trail, h - 1 - y, y, RowStart(l, y));
      UnpackPacked(dib, RowStart(l, y), rgba, RowIndices(w, y));
    }
  }

  // ----- Decoding what was encoded ---------------------------------------------------

  /** What may stand around the pixels without moving them. */
  predicate Harmless(junk: seq<byte>, trail: seq<byte>) {
    (trail == [] && |junk| <= 12) || (junk == [] && |trail| > 12)
  }

  lemma {:induction false} TimesAtMost(n: nat, len: nat, bound: nat)
    requires len <= bound
    ensures Times(n, len) <= Times(n, bound)
  {
    if n > 0 {
      TimesAtMost(n - 1, len, bound);
    }
  }

  lemma BytesFit(w: nat, h: nat)
    requires w < I32_LIMIT && h < I32_LIMIT
    ensures 4 * Times(h, w) + 136 < U64
  {
    TimesAtMost(h, w, I32_LIMIT);
    TimesIsProduct(h, I32_LIMIT);
  }

  lemma Places(len: nat, w: nat, h: nat, extra: nat)
    requires 0 < w < I32_LIMIT && 0 < h < I32_LIMIT && len == HEADER_SIZE + 4 * Times(h, w) + extra
    ensures Place(len, w, h, 4, HEADER_SIZE)
      == Some(Layout(w, h, false, 4, 4 * w, if extra <= 12 then HEADER_SIZE + extra else HEADER_SIZE))
  {
    BytesFit(w, h);
    TimesFour(h, w);
  }

  lemma HeaderOf(w: nat, h: nat, rest: seq<byte>)
    requires 0 < w < I32_LIMIT && 0 < h < I32_LIMIT
    ensures ParseHeader(Header(w, h) + rest) == Place(HEADER_SIZE + |rest|, w, h, 4, HEADER_SIZE)
  {
    HeaderFields(w, h, rest);
    FieldsParse(Header(w, h) + rest, w, h);
  }

  lemma EncodedParses(w: nat, h: nat, junk: seq<byte>, area: seq<byte>, trail: seq<byte>)
    requires 0 < w < I32_LIMIT && 0 < h < I32_LIMIT && Harmless(junk, trail) && |area| == 4 * Times(h, w)
    ensures ParseHeader(Header(w, h) + junk + area + trail)
      == Some(Layout(w, h, false, 4, 4 * w, HEADER_SIZE + |junk|))
  {
    Regroup(Header(w, h), junk, area);
    Regroup(Header(w, h), junk + area, trail);
    HeaderOf(w, h, junk + area + trail);
    Places(HEADER_SIZE + |junk + area + trail|, w, h, |junk| + |trail|);
  }

  function EncodedWith(w: nat, h: nat, rgba: seq<byte>, junk: seq<byte>, trail: seq<byte>): seq<byte> {
    Header(w, h) + junk + Concat(PackedRows(rgba, w, h, h)) + trail
  }

  /**
   Decoding an encoded image, with up to 12 bytes between header and pixels or more than 12
   behind them, for every size: it yields the pixels the encoder read.
   */
  lemma DecodesEncoded(w: nat, h: nat, rgba: seq<byte>, junk: seq<byte>, trail: seq<byte>)
    requires 0 < w < I32_LIMIT && 0 < h < I32_LIMIT && Harmless(junk, trail)
    ensures Decoded(EncodedWith(w, h, rgba, junk, trail))
      == Some(Image(w, h, Normal(Concat(SourceRows(rgba, w, h)))))
  {
    PackedUniform(rgba, w, h);
    EncodedParses(w, h, junk, Concat(PackedRows(rgba, w, h, h)), trail);
    UnpackedAsPacked(w, h, rgba, Header(w, h) + junk, trail);
  }

  lemma PlainEncoding(w: nat, h: nat, rgba: seq<byte>)
    ensures EncodedWith(w, h, rgba, [], []) == Encoded(w, h, rgba)
  {
  }

  // ----- While the index fits 32 bits ---------------------------------------------------

  lemma SmallIndex(row: nat, x: nat)
    requires 4 * (row + x) < U32
    ensures Wrap(Wrap(Wrap(row) + x) * 4) == 4 * row + 4 * x
  {
  }

  lemma QuadIsCut(s: seq<byte>, i: nat)
    requires i + 4 <= |s|
    ensures IsCut(s, i, Quad(s, i))
  {
  }

  predicate Consecutive(indices: seq<nat>, at: nat) {
    forall x :: 0 <= x < |indices| ==> indices[x] == at + 4 * x
  }

  lemma SourceNext(rgba: seq<byte>, at: nat, indices: seq<nat>, n: nat)
    requires n == |indices| - 1 && IsCut(rgba, at, SourceRow(rgba, indices[..n]))
    requires indices[n] == at + 4 * n && at + 4 * n + 4 <= |rgba|
    ensures IsCut(rgba, at, SourceRow(rgba, indices))
  {
    QuadIsCut(rgba, indices[n]);
    CutsJoin(rgba, at, SourceRow(rgba, indices[..n]), Quad(rgba, indices[n]), indices[n]);
  }

  lemma {:induction false} SourceRowWithoutWrap(rgba: seq<byte>, at: nat, indices: seq<nat>)
    requires at + 4 * |indices| <= |rgba| && Consecutive(indices, at)
    ensures IsCut(rgba, at, SourceRow(rgba, indices))
    decreases indices
  {
    if indices != [] {
      var n := |indices| - 1;
      SourceRowWithoutWrap(rgba, at, indices[..n]);
      SourceNext(rgba, at, indices, n);
    }
  }

  lemma IndicesWithoutWrap(w: nat, h: nat, y: nat, x: nat)
    requires y < h && x < w && 4 * Times(h, w) <= U32
    ensures RowIndices(w, y)[x] == 4 * Times(y, w) + 4 * x
  {
    TimesLess(y, h, w);
    SmallIndex(Times(y, w), x);
  }

  lemma SourceWithoutWrap(rgba: seq<byte>, w: nat, h: nat)
    requires |rgba| == 4 * Times(h, w) <= U32
    ensures Concat(SourceRows(rgba, w, h)) == rgba
  {
    var rows := SourceRows(rgba, w, h);
    TimesFour(h, w);
    forall y | 0 <= y < |rows| ensures |rows[y]| == 4 * w && IsCut(rgba, Times(y, 4 * w), rows[y]) {
      TimesFour(y, w);
      TimesLess(y, h, w);
      forall x | 0 <= x < w ensures RowIndices(w, y)[x] == 4 * Times(y, w) + 4 * x {
        IndicesWithoutWrap(w, h, y, x);
      }
      SourceRowWithoutWrap(rgba, 4 * Times(y, w), RowIndices(w, y));
    }
    CutAndConcat(rgba, rows, 4 * w);
  }

  /** The round trip, with or without bytes around the pixels that a decoder must step over. */
  lemma RoundTrip(w: nat, h: nat, rgba: seq<byte>, junk: seq<byte>, trail: seq<byte>)
    requires 0 < w < I32_LIMIT && 0 < h < I32_LIMIT && |rgba| == w * h * 4 <= U32
    requires Harmless(junk, trail)
    ensures Decoded(EncodedWith(w, h, rgba, junk, trail)) == Some(Image(w, h, Normal(rgba)))
    ensures Decoded(Encoded(w, h, rgba)) == Some(Image(w, h, Normal(rgba)))
  {
    TimesIsProduct(h, w);
    SourceWithoutWrap(rgba, w, h);
    DecodesEncoded(w, h, rgba, junk, trail);
    DecodesEncoded(w, h, rgba, [], []);
    PlainEncoding(w, h, rgba);
  }

  // ----- Beyond 32 bits --------------------------------------------------------------------

  predicate AllZero(s: seq<byte>) {
    forall k :: 0 <= k < |s| ==> s[k] == 0
  }

  lemma {:induction false} ZeroConcat(rows: seq<seq<byte>>)
    requires forall i :: 0 <= i < |rows| ==> AllZero(rows[i])
    ensures AllZero(Concat(rows))
    decreases rows
  {
    if rows != [] {
      ZeroConcat(rows[..|rows| - 1]);
    }
  }

  lemma IndexIsBelow(w: nat, y: nat, x: nat)
    requires x < w
    ensures RowIndices(w, y)[x] + 3 < U32
  {
  }

  lemma {:induction false} SourceRowBelow(rgba: seq<byte>, indices: seq<nat>)
    requires forall k :: 0 <= k < |rgba| && k < U32 ==> rgba[k] == 0
    requires forall x :: 0 <= x < |indices| ==> indices[x] + 3 < U32
    ensures AllZero(SourceRow(rgba, indices))
    decreases indices
  {
    if indices != [] {
      SourceRowBelow(rgba, indices[..|indices| - 1]);
    }
  }

  lemma ReadsOnlyBelow(rgba: seq<byte>, w: nat, h: nat)
    requires forall k :: 0 <= k < |rgba| && k < U32 ==> rgba[k] == 0
    ensures AllZero(Concat(SourceRows(rgba, w, h))) && |Concat(SourceRows(rgba, w, h))| == 4 * Times(h, w)
  {
    var rows := SourceRows(rgba, w, h);
    forall i | 0 <= i < |rows| ensures AllZero(rows[i]) && |rows[i]| == 4 * w {
      forall x | 0 <= x < w ensures RowIndices(w, i)[x] + 3 < U32 {
        IndexIsBelow(w, i, x);
      }
      SourceRowBelow(rgba, RowIndices(w, i));
    }
    ZeroConcat(rows);
    ConcatLength(rows, 4 * w);
    TimesFour(h, w);
  }

  lemma OneHighPixel(size: nat) returns (rgba: seq<byte>)
    requires size >= U32 + 4
    ensures |rgba| == size && rgba[U32] == 1 && Normal(rgba) == rgba
    ensures forall k :: 0 <= k < U32 ==> rgba[k] == 0
  {
    rgba := seq(size, k => if k == U32 || k == U32 + 3 then 1 else 0);
    assert rgba[U32 + 3] == 1;
  }

  lemma ZeroNormal(s: seq<byte>, k: nat)
    requires AllZero(s) && k < |s| && k % 4 == 0
    ensures |Normal(s)| == |s| && Normal(s)[k] == 0
  {
  }

  /** No pixel from the index 2^30 on is ever read. */
  lemma WrapLosesPixels(w: nat, h: nat) returns (rgba: seq<byte>)
    requires 0 < w < I32_LIMIT && 0 < h < I32_LIMIT && w * h * 4 > U32
    ensures |rgba| == w * h * 4 && Decoded(Encoded(w, h, rgba)) != Some(Image(w, h, Normal(rgba)))
  {
    TimesIsProduct(h, w);
    rgba := OneHighPixel(4 * Times(h, w));
    ReadsOnlyBelow(rgba, w, h);
    ZeroNormal(Concat(SourceRows(rgba, w, h)), U32);
    DecodesEncoded(w, h, rgba, [], []);
    PlainEncoding(w, h, rgba);
  }

  /** Every image of a size survives the round trip exactly when its byte count fits 32 bits. */
  lemma RoundTripsIffFits(w: nat, h: nat)
    requires 0 < w < I32_LIMIT && 0 < h < I32_LIMIT
    ensures
      (forall rgba: seq<byte> :: |rgba| == w * h * 4 ==>
        Decoded(Encoded(w, h, rgba)) == Some(Image(w, h, Normal(rgba))))
      <==> w * h * 4 <= U32
  {
    if w * h * 4 <= U32 {
      forall rgba: seq<byte> | |rgba| == w * h * 4
        ensures Decoded(Encoded(w, h, rgba)) == Some(Image(w, h, Normal(rgba)))
      {
        RoundTrip(w, h, rgba, [], []);
      }
    } else {
      var rgba := WrapLosesPixels(w, h);
    }
  }

  lemma ZeroSizeIsRefused(dib: seq<byte>)
    requires |dib| >= 40 && (ReadI32(dib, 4) == 0 || ReadI32(dib, 8) == 0)
    ensures Decoded(dib) == None
  {
  }

  lemma EmptyImageIsRefused(w: nat, h: nat)
    requires w < I32_LIMIT && h < I32_LIMIT && (w == 0 || h == 0)
    ensures Decoded(Encoded(w, h, [])) == None
  {
    HeaderFields(w, h, Concat(PackedRows([], w, h, h)));
    ZeroSizeIsRefused(Encoded(w, h, []));
  }

  // ----- One pixel of any accepted blob --------------------------------------------------

  lemma {:induction false} UnpackedPixel(dib: seq<byte>, row: nat, bpp: nat, n: nat, x: nat)
    requires x < n
    ensures IsCut(UnpackRow(dib, row, bpp, n), 4 * x, UnpackPixel(dib, row + Times(x, bpp), bpp))
    decreases n
  {
    if x < n - 1 {
      UnpackedPixel(dib, row, bpp, n - 1, x);
    }
  }

  lemma UnpackedUniform(dib: seq<byte>, l: Layout)
    ensures Uniform(UnpackedRows(dib, l), 4 * l.w)
  {
    var rows := UnpackedRows(dib, l);
    forall i | 0 <= i < |rows| ensures |rows[i]| == 4 * l.w {
      assert rows[i] == UnpackRow(dib, RowStart(l, i), l.bpp, l.w);
    }
  }

  lemma UnpackedRowAt(dib: seq<byte>, l: Layout, y: nat)
    requires y < l.h
    ensures IsCut(Concat(UnpackedRows(dib, l)), Times(y, 4 * l.w), UnpackRow(dib, RowStart(l, y), l.bpp, l.w))
  {
    UnpackedUniform(dib, l);
    RowAt(UnpackedRows(dib, l), 4 * l.w, y);
    assert UnpackedRows(dib, l)[y] == UnpackRow(dib, RowStart(l, y), l.bpp, l.w);
  }

  lemma RawPixel(dib: seq<byte>, l: Layout, y: nat, x: nat, px: nat, d: nat)
    requires y < l.h && x < l.w && px == RowStart(l, y) + Times(x, l.bpp) && d == 4 * (Times(y, l.w) + x)
    ensures IsCut(Concat(UnpackedRows(dib, l)), d, UnpackPixel(dib, px, l.bpp))
  {
    var at, row := Times(y, 4 * l.w), UnpackRow(dib, RowStart(l, y), l.bpp, l.w);
    TimesFour(y, l.w);
    UnpackedRowAt(dib, l, y);
    UnpackedPixel(dib, RowStart(l, y), l.bpp, l.w, x);
    CutOfCut(Concat(UnpackedRows(dib, l)), at, row, 4 * x, UnpackPixel(dib, RowStart(l, y) + Times(x, l.bpp), l.bpp), d);
  }

  lemma NormalPixel(rgba: seq<byte>, d: nat, p: seq<byte>)
    requires IsCut(rgba, d, p) && |p| == 4 && d % 4 == 0
    ensures IsCut(Normal(rgba), d, [p[0], p[1], p[2], if AlphaZero(rgba) then 255 else p[3]])
  {
    CutIsPixel(rgba, d, p);
  }

  function AlphaAt(dib: seq<byte>, l: Layout, px: nat): byte {
    if l.bpp == 3 || AlphaZero(Concat(UnpackedRows(dib, l))) then 255 else At(dib, px + 3)
  }

  lemma ImagePixel(dib: seq<byte>, l: Layout, d: nat, px: nat)
    requires (l.bpp == 3 || l.bpp == 4) && px + l.bpp <= |dib| && d % 4 == 0
    requires IsCut(Concat(UnpackedRows(dib, l)), d, UnpackPixel(dib, px, l.bpp))
    ensures IsCut(Pixels(dib, l), d, Colour(dib, px, AlphaAt(dib, l, px)))
  {
    if l.bpp == 4 {
      NormalPixel(Concat(UnpackedRows(dib, l)), d, UnpackPixel(dib, px, l.bpp));
    }
  }

  /** The pixel that the blob's bytes from `px` on and this alpha make. */
  function Colour(dib: seq<byte>, px: nat, alpha: byte): seq<byte>
    requires px + 2 < |dib|
  {
    [dib[px + 2], dib[px + 1], dib[px], alpha]
  }

  lemma PixelInBlob(dib: seq<byte>, l: Layout, y: nat, x: nat, px: nat)
    requires ParseHeader(dib) == Some(l) && y < l.h && x < l.w && px == RowStart(l, y) + Times(x, l.bpp)
    ensures (l.bpp == 3 || l.bpp == 4) && px + l.bpp <= |dib|
  {
    LayoutIsSafe(dib, y);
    TimesLess(x, l.w, l.bpp);
  }

  /**
   Image pixel `(x, y)` of an accepted blob: its colours lie in the blob in the order B, G, R,
   in row `y` from the top or from the bottom, and its alpha is real only in a 32-bit blob
   where some alpha is.
   */
  lemma DecodedPixel(dib: seq<byte>, l: Layout, y: nat, x: nat, px: nat, d: nat)
    requires ParseHeader(dib) == Some(l) && y < l.h && x < l.w
    requires px == RowStart(l, y) + Times(x, l.bpp) && d == 4 * (Times(y, l.w) + x)
    ensures (l.bpp == 3 || l.bpp == 4) && px + l.bpp <= |dib|
    ensures IsCut(Pixels(dib, l), d, Colour(dib, px, AlphaAt(dib, l, px)))
  {
    PixelInBlob(dib, l, y, x, px);
    RawPixel(dib, l, y, x, px, d);
    ImagePixel(dib, l, d, px);
  }
}
