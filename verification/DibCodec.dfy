/**
 The device-independent-bitmap codec (clipboard/src/windows.rs): RGBA8 pixels to a
 bottom-up 32-bit BITMAPV5HEADER blob, and 24/32-bit blobs back to RGBA8.

 `u32` arithmetic of the encoder wraps, as in a release build; `usize` has 64 bits.
 */
module DibCodec {
  import opened Wrappers
  import opened Bytes
  import opened Rows

  const HEADER_SIZE: nat := 124
  const BI_RGB: nat := 0
  const BI_BITFIELDS: nat := 3
  const LCS_SRGB: nat := 0x7352_4742
  const MASK_R: nat := 0x00FF_0000
  const MASK_G: nat := 0x0000_FF00
  const MASK_B: nat := 0x0000_00FF
  const MASK_A: nat := 0xFF00_0000
  const I32_LIMIT: nat := 0x8000_0000

  function At(b: seq<byte>, i: nat): byte {
    if i < |b| then b[i] else 0
  }

  // ----- Encoding ----------------------------------------------------------------

  /** The 124 header bytes; `fields` are the first 20, up to the compression. */
  function Fields(w: nat, h: nat): seq<byte> {
    LittleEndian(HEADER_SIZE, 4) + LittleEndian(w, 4) + LittleEndian(h, 4)
    + LittleEndian(1, 2) + LittleEndian(32, 2) + LittleEndian(BI_BITFIELDS, 4)
  }

  function Masks(): seq<byte> {
    LittleEndian(MASK_R, 4) + LittleEndian(MASK_G, 4) + LittleEndian(MASK_B, 4) + LittleEndian(MASK_A, 4)
  }

  function Zeros(n: nat): seq<byte> {
    seq(n, i => 0)
  }

  function Header(w: nat, h: nat): (header: seq<byte>)
    ensures |header| == HEADER_SIZE
  {
    Fields(w, h) + LittleEndian(4 * Times(h, w), 4) + Zeros(16) + Masks() + LittleEndian(LCS_SRGB, 4) + Zeros(64)
  }

  function Wrap(n: nat): nat {
    n % U32
  }

  /** `((src_y * width + x) * 4) as usize`, every operation on 32 bits. */
  function PixelIndex(w: nat, y: nat, x: nat): nat {
    Wrap(Wrap(Wrap(Times(y, w)) + x) * 4)
  }

  function PackPixel(rgba: seq<byte>, i: nat): seq<byte> {
    [At(rgba, i + 2), At(rgba, i + 1), At(rgba, i), At(rgba, i + 3)]
  }

  /** Where the pixels of image row `y` are read. */
  function RowIndices(w: nat, y: nat): seq<nat> {
    seq(w, x requires 0 <= x < w => PixelIndex(w, y, x))
  }

  function PackRow(rgba: seq<byte>, indices: seq<nat>): (row: seq<byte>)
    ensures |row| == 4 * |indices|
  {
    if indices == [] then []
    else
      var n := |indices| - 1;
      PackRow(rgba, indices[..n]) + PackPixel(rgba, indices[n])
  }

  /** The first `n` rows in memory order, bottom row first. */
  function PackedRows(rgba: seq<byte>, w: nat, h: nat, n: nat): seq<seq<byte>>
    requires n <= h
  {
    seq(n, r requires 0 <= r < n => PackRow(rgba, RowIndices(w, h - 1 - r)))
  }

  function Encoded(w: nat, h: nat, rgba: seq<byte>): seq<byte> {
    Header(w, h) + Concat(PackedRows(rgba, w, h, h))
  }

  lemma PixelInBounds(w: nat, h: nat, y: nat, x: nat)
    requires y < h && x < w
    ensures PixelIndex(w, y, x) + 4 <= 4 * Times(h, w) && PixelIndex(w, y, x) % 4 == 0
  {
    TimesLess(y, h, w);
    WrapShrinks(Times(y, w), x);
  }

  lemma WrapShrinks(row: nat, x: nat)
    ensures Wrap(Wrap(Wrap(row) + x) * 4) <= 4 * (row + x) && Wrap(Wrap(Wrap(row) + x) * 4) % 4 == 0
  {
  }

  method WriteHeader(width: nat, height: nat) returns (out: seq<byte>)
    ensures out == Header(width, height)
  {
    TimesIsProduct(height, width);
    var size := width * height * 4;
    out := LittleEndian(HEADER_SIZE, 4);
    out := out + LittleEndian(width, 4);
    out := out + LittleEndian(height, 4);
    out := out + LittleEndian(1, 2);
    out := out + LittleEndian(32, 2);
    out := out + LittleEndian(BI_BITFIELDS, 4);
    out := out + LittleEndian(size, 4);
    out := out + Zeros(16);
    out := out + Masks();
    out := out + LittleEndian(LCS_SRGB, 4);
    out := out + Zeros(64);
  }

  method AppendRow(before: seq<byte>, width: nat, height: nat, rgba: seq<byte>, srcY: nat) returns (out: seq<byte>)
    requires |rgba| == 4 * Times(height, width) && srcY < height
    ensures out == before + PackRow(rgba, RowIndices(width, srcY))
  {
    out := before;
    TimesIsProduct(srcY, width);
    var rowStart := Wrap(srcY * width);
    ghost var indices := RowIndices(width, srcY);
    var x := 0;
    while x < width
      invariant x <= width
      invariant out == before + PackRow(rgba, indices[..x])
    {
      var i := Wrap(Wrap(rowStart + x) * 4);
      assert i == indices[x];
      PixelInBounds(width, height, srcY, x);
      out := out + [rgba[i + 2], rgba[i + 1], rgba[i], rgba[i + 3]];
      PackNext(before, rgba, indices, x);
      x := x + 1;
    }
    assert indices[..width] == indices;
  }

  lemma PackNext(before: seq<byte>, rgba: seq<byte>, indices: seq<nat>, x: nat)
    requires x < |indices|
    ensures before + PackRow(rgba, indices[..x + 1]) == before + PackRow(rgba, indices[..x]) + PackPixel(rgba, indices[x])
  {
    assert indices[..x + 1][..x] == indices[..x];
  }

  lemma PackOneMore(header: seq<byte>, rgba: seq<byte>, w: nat, h: nat, n: nat)
    requires n < h
    ensures header + Concat(PackedRows(rgba, w, h, n + 1))
      == header + Concat(PackedRows(rgba, w, h, n)) + PackRow(rgba, RowIndices(w, h - 1 - n))
  {
    var rows := PackedRows(rgba, w, h, n + 1);
    assert rows[..n] == PackedRows(rgba, w, h, n);
    assert Concat(rows) == Concat(rows[..n]) + rows[n];
  }

  /** The pixel loop: rows from the bottom of the image up. */
  method AppendRows(header: seq<byte>, width: nat, height: nat, rgba: seq<byte>) returns (out: seq<byte>)
    requires |rgba| == 4 * Times(height, width)
    ensures out == header + Concat(PackedRows(rgba, width, height, height))
  {
    out := header;
    ghost var rows := [];
    var dibRow := 0;
    while dibRow < height
      invariant dibRow <= height
      invariant rows == PackedRows(rgba, width, height, dibRow) && out == header + Concat(rows)
    {
      PackOneMore(header, rgba, width, height, dibRow);
      out := AppendRow(out, width, height, rgba, height - 1 - dibRow);
      dibRow := dibRow + 1;
      rows := PackedRows(rgba, width, height, dibRow);
    }
  }

  method RgbaToDibV5(width: nat, height: nat, rgba: seq<byte>) returns (out: seq<byte>)
    requires width < U32 && height < U32 && |rgba| == width * height * 4
    ensures out == Encoded(width, height, rgba)
  {
    var header := WriteHeader(width, height);
    TimesIsProduct(height, width);
    out := AppendRows(header, width, height, rgba);
  }

  // ----- Decoding ----------------------------------------------------------------

  function ReadU32(b: seq<byte>, off: nat): nat
    requires off + 4 <= |b|
  {
    FromLittleEndian(b[off..off + 4])
  }

  function ReadI32(b: seq<byte>, off: nat): int
    requires off + 4 <= |b|
  {
    var n := ReadU32(b, off); if n < I32_LIMIT then n else n - U32
  }

  function ReadU16(b: seq<byte>, off: nat): nat
    requires off + 2 <= |b|
  {
    FromLittleEndian(b[off..off + 2])
  }

  datatype Layout = Layout(w: nat, h: nat, topDown: bool, bpp: nat, stride: nat, off: nat)

  /** Where the header says the pixels start, once its masks are checked. */
  function PixelStart(dib: seq<byte>, headerSize: nat, compression: nat): Option<nat>
    requires 40 <= headerSize <= |dib|
  {
    if compression == BI_RGB then Some(headerSize)
    else if compression != BI_BITFIELDS || |dib| < 52 then None
    else if ReadU32(dib, 40) != MASK_R || ReadU32(dib, 44) != MASK_G || ReadU32(dib, 48) != MASK_B then None
    else Some(if headerSize == 40 then 52 else headerSize)
  }

  /** The pixels end the blob when that puts them at most 12 bytes behind `start`. */
  function Anchor(len: nat, rowBytes: nat, start: nat): nat {
    if len >= rowBytes && start <= len - rowBytes <= start + 12 then len - rowBytes else start
  }

  function Stride(w: nat, bpp: nat): nat {
    if bpp == 4 then w * 4 else (w * 3 + 3) / 4 * 4
  }

  /** The layout of a blob of `len` bytes, from its checked header fields. */
  function Place(len: nat, w: nat, height: int, bpp: nat, start: nat): Option<Layout>
    requires height != 0
  {
    var h: nat := if height < 0 then -height else height;
    var stride := Stride(w, bpp);
    var rowBytes := Times(h, stride);
    var off := Anchor(len, rowBytes, start);
    if rowBytes >= U64 || off + rowBytes >= U64 || len < off + rowBytes then None
    else Some(Layout(w, h, height < 0, bpp, stride, off))
  }

  function ParseHeader(dib: seq<byte>): Option<Layout> {
    if |dib| < 40 then None
    else
      var headerSize := ReadU32(dib, 0);
      if (headerSize != 40 && headerSize != 108 && headerSize != 124) || |dib| < headerSize then None
      else
        var width, height := ReadI32(dib, 4), ReadI32(dib, 8);
        var bits := ReadU16(dib, 14);
        if width <= 0 || height == 0 then None
        else
          var start := PixelStart(dib, headerSize, ReadU32(dib, 16));
          if start.None? || (bits != 32 && bits != 24) then None
          else Place(|dib|, width, height, bits / 8, start.value)
  }

  function UnpackPixel(dib: seq<byte>, px: nat, bpp: nat): seq<byte> {
    [At(dib, px + 2), At(dib, px + 1), At(dib, px), if bpp == 4 then At(dib, px + 3) else 255]
  }

  function UnpackRow(dib: seq<byte>, row: nat, bpp: nat, n: nat): (pixels: seq<byte>)
    ensures |pixels| == 4 * n
    decreases n
  {
    if n == 0 then [] else UnpackRow(dib, row, bpp, n - 1) + UnpackPixel(dib, row + Times(n - 1, bpp), bpp)
  }

  /** Where image row `y` starts in the blob. */
  function RowStart(l: Layout, y: nat): nat
    requires y < l.h
  {
    l.off + Times(if l.topDown then y else l.h - 1 - y, l.stride)
  }

  function UnpackedRows(dib: seq<byte>, l: Layout): seq<seq<byte>> {
    seq(l.h, y requires 0 <= y < l.h => UnpackRow(dib, RowStart(l, y), l.bpp, l.w))
  }

  predicate AlphaZero(rgba: seq<byte>) {
    forall k :: 0 <= k < |rgba| && k % 4 == 3 ==> rgba[k] == 0
  }

  function Opaque(rgba: seq<byte>): seq<byte> {
    seq(|rgba|, k requires 0 <= k < |rgba| => if k % 4 == 3 then 255 else rgba[k])
  }

  /** What a decoder makes of 32-bit pixels: an alpha of zero everywhere means no alpha. */
  function Normal(rgba: seq<byte>): seq<byte> {
    if AlphaZero(rgba) then Opaque(rgba) else rgba
  }

  datatype Image = Image(w: nat, h: nat, rgba: seq<byte>)

  function Pixels(dib: seq<byte>, l: Layout): seq<byte> {
    var rgba := Concat(UnpackedRows(dib, l));
    if l.bpp == 4 then Normal(rgba) else rgba
  }

  function Decoded(dib: seq<byte>): Option<Image> {
    match ParseHeader(dib)
    case None => None
    case Some(l) => Some(Image(l.w, l.h, Pixels(dib, l)))
  }

  /** Nothing a layout implies leaves the blob. */
  lemma LayoutIsSafe(dib: seq<byte>, y: nat)
    requires ParseHeader(dib).Some? && y < ParseHeader(dib).value.h
    ensures var l := ParseHeader(dib).value;
      && l.w > 0 && l.h > 0 && (l.bpp == 3 || l.bpp == 4)
      && RowStart(l, y) + Times(l.w, l.bpp) <= |dib|
  {
    var l := ParseHeader(dib).value;
    TimesLess(if l.topDown then y else l.h - 1 - y, l.h, l.stride);
    TimesIsProduct(l.w, l.bpp);
  }

  /** The body of the pixel loop. */
  method CopyPixel(dib: seq<byte>, px: nat, bpp: nat, rgba: array<byte>, d: nat) returns (a: byte)
    requires (bpp == 3 || bpp == 4) && px + bpp <= |dib| && d + 4 <= rgba.Length
    modifies rgba
    ensures rgba[..] == Splice(old(rgba[..]), d, UnpackPixel(dib, px, bpp))
    ensures a == UnpackPixel(dib, px, bpp)[3]
  {
    var b, g, r := dib[px], dib[px + 1], dib[px + 2];
    a := if bpp == 4 then dib[px + 3] else 255;
    rgba[d] := r;
    rgba[d + 1] := g;
    rgba[d + 2] := b;
    rgba[d + 3] := a;
  }

  lemma AlphaOneMore(dib: seq<byte>, row: nat, bpp: nat, x: nat)
    ensures AlphaZero(UnpackRow(dib, row, bpp, x + 1))
      <==> (AlphaZero(UnpackRow(dib, row, bpp, x)) && UnpackPixel(dib, row + Times(x, bpp), bpp)[3] == 0)
  {
    AlphaOfConcat(UnpackRow(dib, row, bpp, x), UnpackPixel(dib, row + Times(x, bpp), bpp));
  }

  lemma SpliceOneMore(before: seq<byte>, now: seq<byte>, next: seq<byte>, d: nat, dib: seq<byte>, row: nat, bpp: nat, x: nat)
    requires d + 4 * x + 4 <= |before| && now == Splice(before, d, UnpackRow(dib, row, bpp, x))
    requires next == Splice(now, d + 4 * x, UnpackPixel(dib, row + Times(x, bpp), bpp))
    ensures next == Splice(before, d, UnpackRow(dib, row, bpp, x + 1))
  {
    var done, pixel := UnpackRow(dib, row, bpp, x), UnpackPixel(dib, row + Times(x, bpp), bpp);
    SpliceTwice(before, d, done, pixel, d + 4 * x);
    assert UnpackRow(dib, row, bpp, x + 1) == done + pixel;
  }

  /** The buffer `before`, with the first `x` pixels of a row written from index `d` on. */
  ghost predicate Written(now: seq<byte>, before: seq<byte>, d: nat, dib: seq<byte>, row: nat, bpp: nat, x: nat) {
    d + 4 * x <= |before| && now == Splice(before, d, UnpackRow(dib, row, bpp, x))
  }

  method NextPixel(
      dib: seq<byte>, row: nat, bpp: nat, x: nat, px: nat, rgba: array<byte>, d: nat, zero: bool, ghost before: seq<byte>)
    returns (allAlphaZero: bool)
    requires (bpp == 3 || bpp == 4) && px == row + Times(x, bpp) && px + bpp <= |dib|
    requires d + 4 * x + 4 <= rgba.Length && Written(rgba[..], before, d, dib, row, bpp, x)
    modifies rgba
    ensures Written(rgba[..], before, d, dib, row, bpp, x + 1)
    ensures allAlphaZero == (zero && UnpackPixel(dib, px, bpp)[3] == 0)
  {
    ghost var now := rgba[..];
    allAlphaZero := zero;
    var a := CopyPixel(dib, px, bpp, rgba, d + 4 * x);
    if a != 0 {
      allAlphaZero := false;
    }
    SpliceOneMore(before, now, rgba[..], d, dib, row, bpp, x);
  }

  /** The inner loop of `dib_to_rgba`. */
  method UnpackRowInto(dib: seq<byte>, row: nat, bpp: nat, w: nat, rgba: array<byte>, d: nat, zero: bool)
    returns (allAlphaZero: bool)
    requires (bpp == 3 || bpp == 4) && row + Times(w, bpp) <= |dib| && d + 4 * w <= rgba.Length
    modifies rgba
    ensures Written(rgba[..], old(rgba[..]), d, dib, row, bpp, w)
    ensures allAlphaZero == (zero && AlphaZero(UnpackRow(dib, row, bpp, w)))
  {
    allAlphaZero := zero;
    ghost var before := rgba[..];
    var x, px := 0, row;
    while x < w
      invariant x <= w && px == row + Times(x, bpp) && rgba.Length == |before|
      invariant Written(rgba[..], before, d, dib, row, bpp, x)
      invariant allAlphaZero == (zero && AlphaZero(UnpackRow(dib, row, bpp, x)))
    {
      TimesLess(x, w, bpp);
      AlphaOneMore(dib, row, bpp, x);
      allAlphaZero := NextPixel(dib, row, bpp, x, px, rgba, d, allAlphaZero, before);
      x, px := x + 1, px + bpp;
    }
  }

  lemma AlphaOfConcat(a: seq<byte>, b: seq<byte>)
    requires |a| % 4 == 0
    ensures AlphaZero(a + b) <==> AlphaZero(a) && AlphaZero(b)
  {
    if AlphaZero(a + b) {
      forall k | 0 <= k < |a| && k % 4 == 3 ensures a[k] == 0 {
        assert (a + b)[k] == 0;
      }
      forall k | 0 <= k < |b| && k % 4 == 3 ensures b[k] == 0 {
        assert (a + b)[|a| + k] == 0;
      }
    }
  }

  method MakeOpaque(rgba: array<byte>)
    requires rgba.Length % 4 == 0
    modifies rgba
    ensures rgba[..] == Opaque(old(rgba[..]))
  {
    var k := 0;
    while k < rgba.Length
      invariant k <= rgba.Length && k % 4 == 0
      invariant forall j :: 0 <= j < k ==> rgba[j] == if j % 4 == 3 then 255 else old(rgba[j])
      invariant forall j :: k <= j < rgba.Length ==> rgba[j] == old(rgba[j])
    {
      rgba[k + 3] := 255;
      k := k + 4;
    }
  }

  lemma {:induction false} AlphaOfRows(rows: seq<seq<byte>>)
    requires forall i :: 0 <= i < |rows| ==> |rows[i]| % 4 == 0
    ensures |Concat(rows)| % 4 == 0
    ensures AlphaZero(Concat(rows)) <==> forall i :: 0 <= i < |rows| ==> AlphaZero(rows[i])
    decreases rows
  {
    if rows != [] {
      var n := |rows| - 1;
      AlphaOfRows(rows[..n]);
      AlphaOfConcat(Concat(rows[..n]), rows[n]);
      assert forall i :: 0 <= i < n ==> rows[..n][i] == rows[i];
    }
  }

  lemma {:induction false} ZeroRows(n: nat, len: nat)
    ensures Concat(seq(n, i => Zeros(len))) == Zeros(Times(n, len))
  {
    if n > 0 {
      ZeroRows(n - 1, len);
      assert seq(n, i => Zeros(len))[..n - 1] == seq(n - 1, i => Zeros(len));
    }
  }

  /** The row of the blob that holds image row `y`. */
  function DibRow(l: Layout, y: nat): nat
    requires y < l.h
  {
    if l.topDown then y else l.h - 1 - y
  }

  /** The buffer is these rows; those read from the first `n` rows of the blob are final. */
  ghost predicate Filled(rows: seq<seq<byte>>, dib: seq<byte>, l: Layout, n: nat) {
    && |rows| == l.h && Uniform(rows, 4 * l.w)
    && forall y :: 0 <= y < l.h && DibRow(l, y) < n ==> rows[y] == UnpackRow(dib, RowStart(l, y), l.bpp, l.w)
  }

  ghost predicate AlphaZeroSoFar(rows: seq<seq<byte>>, l: Layout, n: nat) {
    |rows| == l.h && forall y :: 0 <= y < l.h && DibRow(l, y) < n ==> AlphaZero(rows[y])
  }

  lemma FillOneMore(rows: seq<seq<byte>>, dib: seq<byte>, l: Layout, y: nat, row: seq<byte>)
    requires y < l.h && Filled(rows, dib, l, DibRow(l, y)) && row == UnpackRow(dib, RowStart(l, y), l.bpp, l.w)
    ensures Filled(rows[y := row], dib, l, DibRow(l, y) + 1)
    ensures AlphaZeroSoFar(rows[y := row], l, DibRow(l, y) + 1)
      <==> (AlphaZeroSoFar(rows, l, DibRow(l, y)) && AlphaZero(row))
  {
    var n, now := DibRow(l, y), rows[y := row];
    forall z | 0 <= z < l.h && DibRow(l, z) < n + 1 ensures z == y || DibRow(l, z) < n {
    }
    if AlphaZeroSoFar(now, l, n + 1) {
      assert AlphaZero(now[y]);
      forall z | 0 <= z < l.h && DibRow(l, z) < n ensures AlphaZero(rows[z]) {
        assert now[z] == rows[z];
      }
    }
  }

  lemma FilledWhole(rows: seq<seq<byte>>, dib: seq<byte>, l: Layout)
    requires Filled(rows, dib, l, l.h)
    ensures rows == UnpackedRows(dib, l)
    ensures AlphaZeroSoFar(rows, l, l.h) <==> AlphaZero(Concat(rows))
  {
    forall y | 0 <= y < l.h ensures rows[y] == UnpackedRows(dib, l)[y] {
      assert DibRow(l, y) < l.h;
    }
    AlphaOfRows(rows);
  }

  /** The row loop of `dib_to_rgba`. */
  method UnpackAll(dib: seq<byte>, l: Layout, rgba: array<byte>) returns (allAlphaZero: bool)
    requires ParseHeader(dib) == Some(l) && rgba[..] == Zeros(Times(l.h, 4 * l.w))
    modifies rgba
    ensures rgba[..] == Concat(UnpackedRows(dib, l))
    ensures allAlphaZero <==> AlphaZero(Concat(UnpackedRows(dib, l)))
  {
    allAlphaZero := true;
    ghost var rows := seq(l.h, i => Zeros(4 * l.w));
    ZeroRows(l.h, 4 * l.w);
    var dibRow := 0;
    while dibRow < l.h
      invariant dibRow <= l.h
      invariant Filled(rows, dib, l, dibRow) && rgba[..] == Concat(rows)
      invariant allAlphaZero <==> AlphaZeroSoFar(rows, l, dibRow)
    {
      var srcY := if l.topDown then dibRow else l.h - 1 - dibRow;
      var row, d := RowIndex(l, dibRow, srcY);
      ghost var pixels := UnpackRow(dib, row, l.bpp, l.w);
      LayoutIsSafe(dib, srcY);
      SpliceRow(rows, 4 * l.w, srcY, pixels);
      FillOneMore(rows, dib, l, srcY, pixels);
      allAlphaZero := UnpackRowInto(dib, row, l.bpp, l.w, rgba, d, allAlphaZero);
      rows := rows[srcY := pixels];
      dibRow := dibRow + 1;
    }
    FilledWhole(rows, dib, l);
  }

  /** `pixel_off + dib_row * stride` and `(src_y * w + 0) * 4`. */
  method RowIndex(l: Layout, dibRow: nat, srcY: nat) returns (row: nat, d: nat)
    requires dibRow < l.h && srcY == if l.topDown then dibRow else l.h - 1 - dibRow
    ensures row == RowStart(l, srcY) && d == Times(srcY, 4 * l.w)
  {
    TimesIsProduct(dibRow, l.stride);
    TimesIsProduct(srcY, l.w);
    TimesFour(srcY, l.w);
    row := l.off + dibRow * l.stride;
    d := srcY * l.w * 4;
  }

  method NewBuffer(w: nat, h: nat) returns (rgba: array<byte>)
    ensures fresh(rgba) && rgba.Length % 4 == 0 && rgba[..] == Zeros(Times(h, 4 * w))
  {
    TimesIsProduct(h, w);
    TimesFour(h, w);
    rgba := new byte[w * h * 4](_ => 0);
  }

  /** Total: any byte string is decoded or refused, and no index leaves it. */
  method DibToRgba(dib: seq<byte>) returns (image: Option<Image>)
    ensures image == Decoded(dib)
  {
    var layout := ParseHeader(dib);
    if layout.None? {
      return None;
    }
    var l := layout.value;
    var rgba := NewBuffer(l.w, l.h);
    var allAlphaZero := UnpackAll(dib, l, rgba);
    if l.bpp == 4 && allAlphaZero {
      MakeOpaque(rgba);
    }
    image := Some(Image(l.w, l.h, rgba[..]));
  }
}
